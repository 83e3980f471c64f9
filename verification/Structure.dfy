/** Structure-aware chunking: the splitters and the packing put together. */
module Structure {
  import opened Tokens
  import opened Windows
  import opened Blocks
  import opened Packing

  // ----- trimmed lines -----------------------------------------------------------------------------

  lemma {:induction false} TrimEmpty(s: string, p: nat)
    requires Trim(s) == "" && p < |s|
    ensures IsSpace(s[p])
    decreases |s|
  {
    if IsSpace(s[0]) {
      if p > 0 {
        TrimEmpty(s[1..], p - 1);
      }
    } else if p < |s| - 1 {
      TrimEmpty(s[..|s| - 1], p);
    }
  }

  lemma {:induction false} TrimKeepsCount(s: string)
    ensures CountTokens(Trim(s)) == CountTokens(s)
    decreases |s|
  {
    hide IsSpace, Next;
    if s != [] && IsSpace(s[0]) {
      TrimKeepsCount(s[1..]);
      TokensOfSubstring(s, 1, |s|);
      assert Scan(s, 0) == [] && Scan(s, 1) == Next([], true, true, 1);
      SpaceKeeps(true, 1);
      assert s[1..|s|] == s[1..];
    } else if s != [] && IsSpace(s[|s| - 1]) {
      var n := |s| - 1;
      TrimKeepsCount(s[..n]);
      ScanOfPrefix(s, n, n);
      BlankAddsNothing(s, n, |s|);
    }
  }

  lemma SpaceKeeps(opens: bool, n: nat)
    requires n > 0
    ensures Next([], true, opens, n) == []
  {
  }

  lemma {:induction false} DashesAreOneToken(s: string, n: nat)
    requires 0 < n <= |s| && forall i :: 0 <= i < |s| ==> s[i] == '-'
    ensures Scan(s, n) == [Token(0, n)]
  {
    if n > 1 {
      DashesAreOneToken(s, n - 1);
    }
  }

  lemma SeparatorCount(s: string)
    requires IsSeparator(Trim(s))
    ensures CountTokens(s) == 1
  {
    TrimKeepsCount(s);
    DashesAreOneToken(Trim(s), |Trim(s)|);
  }

  // ----- where the tokens are ------------------------------------------------------------------------

  ghost predicate SeparatorLine(src: string, kind: Kind, ln: Span) {
    kind.Slides? && IsSeparator(Text(src, ln))
  }

  /** A line outside every block is blank, or a slide separator. */
  lemma OutsideLine(src: string, lines: seq<Span>, kind: Kind, x: nat, p: nat)
    requires AreLines(src, lines) && x < |lines| && !Member(Actions(src, lines, kind)[x])
    requires lines[x].start <= p < lines[x].end
    ensures SeparatorLine(src, kind, lines[x]) || IsSpace(src[p])
  {
    hide IsSpace, Trim, IsSeparator;
    assert IsLine(src, lines[x]);
    var text := src[lines[x].start..lines[x].end];
    if Text(src, lines[x]) == "" {
      TrimEmpty(text, p - lines[x].start);
      assert text[p - lines[x].start] == src[p];
    }
  }

  lemma LineFramed(src: string, ln: Span)
    requires IsLine(src, ln)
    ensures Framed(src, ln)
  {
  }

  lemma HullFramed(src: string, lines: seq<Span>, f: nat, l: nat)
    requires AreLines(src, lines) && f <= l < |lines|
    ensures Framed(src, Span(lines[f].start, lines[l].end))
  {
    hide IsSpace;
    assert IsLine(src, lines[f]) && IsLine(src, lines[l]);
    LineFramed(src, lines[f]);
    LineFramed(src, lines[l]);
    if f < l {
      LinesOrdered(src, lines, f, l);
    }
  }

  lemma LinesMonotone(src: string, lines: seq<Span>, j: nat, k: nat)
    requires AreLines(src, lines) && j <= k < |lines|
    ensures lines[j].start <= lines[k].start && lines[j].end <= lines[k].end && lines[k].start <= lines[k].end <= |src|
  {
    assert IsLine(src, lines[j]) && IsLine(src, lines[k]);
    if j < k {
      LinesOrdered(src, lines, j, k);
    }
  }

  lemma BlocksApart(src: string, lines: seq<Span>, actions: seq<Action>)
    requires AreLines(src, lines) && |actions| == |lines|
    ensures Apart(src, Grouped(lines, actions))
  {
    hide Holding, Grouped, AllRanges, AreLines, Framed;
    BlocksAreRanges(lines, actions);
    var rs, blocks := AllRanges(actions), Grouped(lines, actions);
    forall k | 0 <= k < |blocks| ensures Framed(src, blocks[k]) {
      HullFramed(src, lines, rs[k].first, rs[k].last);
    }
    forall j, k | 0 <= j < k < |blocks| ensures blocks[j].end < blocks[k].start {
      LinesOrdered(src, lines, rs[j].last, rs[k].first);
    }
  }

  lemma MemberInBlock(src: string, lines: seq<Span>, actions: seq<Action>, x: nat) returns (k: nat)
    requires AreLines(src, lines) && |actions| == |lines| && x < |lines| && Member(actions[x])
    ensures k < |Grouped(lines, actions)| && Within(lines[x], Grouped(lines, actions)[k])
  {
    hide Grouped, AllRanges, AreLines;
    BlocksAreRanges(lines, actions);
    var rs := AllRanges(actions);
    assert Somewhere(rs, x);
    k :| 0 <= k < |rs| && rs[k].first <= x <= rs[k].last;
    LinesMonotone(src, lines, rs[k].first, x);
    LinesMonotone(src, lines, x, rs[k].last);
  }

  /** The blocks of a source that hold tokens. */
  ghost function Atoms(src: string, lines: seq<Span>, kind: Kind): seq<Span> {
    Bearing(src, Grouped(lines, Actions(src, lines, kind)))
  }

  /** Every token lies in a block or on a slide separator. */
  lemma Accounted(src: string, lines: seq<Span>, kind: Kind, x: nat, p: nat)
    requires AreLines(src, lines) && x < |lines| && lines[x].start <= p < lines[x].end && !IsSpace(src[p])
    ensures SeparatorLine(src, kind, lines[x]) || CoveredAt(Atoms(src, lines, kind), p)
  {
    hide IsSpace, Size, Grouped, AreLines, SeparatorLine, Framed;
    var actions := Actions(src, lines, kind);
    if Member(actions[x]) {
      var k := MemberInBlock(src, lines, actions, x);
      var blocks := Grouped(lines, actions);
      BlocksApart(src, lines, actions);
      HasToken(src, blocks[k], p);
      BearingMembers(src, blocks, blocks[k]);
    } else {
      OutsideLine(src, lines, kind, x, p);
    }
  }

  /** The number of separator lines among lines a up to b. */
  ghost function Separators(src: string, lines: seq<Span>, kind: Kind, a: nat, b: nat): nat
    requires a <= b <= |lines|
  {
    if a == b then 0
    else Separators(src, lines, kind, a, b - 1) + (if SeparatorLine(src, kind, lines[b - 1]) then 1 else 0)
  }

  lemma {:induction false} SeparatorsSplit(src: string, lines: seq<Span>, kind: Kind, a: nat, b: nat, c: nat)
    requires a <= b <= c <= |lines|
    ensures Separators(src, lines, kind, a, c) == Separators(src, lines, kind, a, b) + Separators(src, lines, kind, b, c)
    decreases c
  {
    hide SeparatorLine;
    if b < c {
      SeparatorsSplit(src, lines, kind, a, b, c - 1);
    }
  }

  lemma {:induction false} NoSeparators(src: string, lines: seq<Span>, kind: Kind, a: nat, b: nat)
    requires a <= b <= |lines| && !kind.Slides?
    ensures Separators(src, lines, kind, a, b) == 0
    decreases b
  {
    if a < b {
      NoSeparators(src, lines, kind, a, b - 1);
    }
  }

  /** A line that meets no block holds one token if it is a separator and none otherwise. */
  lemma LineBetween(src: string, lines: seq<Span>, kind: Kind, x: nat)
    requires AreLines(src, lines) && x < |lines|
    requires forall p :: lines[x].start <= p < lines[x].end ==> !CoveredAt(Atoms(src, lines, kind), p)
    ensures Words(src, lines[x].end) - Words(src, lines[x].start) == if SeparatorLine(src, kind, lines[x]) then 1 else 0
  {
    hide IsSpace, Scan, Atoms, CoveredAt, Trim;
    var ln := lines[x];
    assert IsLine(src, ln);
    LineFramed(src, ln);
    if SeparatorLine(src, kind, ln) {
      SeparatorCount(src[ln.start..ln.end]);
      SizeIsWords(src, ln);
    } else {
      forall p | ln.start <= p < ln.end ensures IsSpace(src[p]) {
        if !IsSpace(src[p]) {
          Accounted(src, lines, kind, x, p);
        }
      }
      BlankAddsNothing(src, ln.start, ln.end);
    }
  }

  /** Between the last line of one block and the first of the next stand only separators and blanks. */
  lemma {:induction false} GapWords(src: string, lines: seq<Span>, kind: Kind, a: nat, b: nat)
    requires AreLines(src, lines) && a < b < |lines|
    requires forall p :: lines[a].end <= p < lines[b].start ==> !CoveredAt(Atoms(src, lines, kind), p)
    ensures lines[a].end <= lines[b].start <= |src|
    ensures Words(src, lines[b].start) - Words(src, lines[a].end) == Separators(src, lines, kind, a + 1, b)
    decreases b
  {
    hide IsSpace, Scan, Atoms, CoveredAt, SeparatorLine, IsLine;
    var x := b - 1;
    assert lines[x + 1].start == lines[x].end + 1;
    LinesMonotone(src, lines, x, x);
    LinesMonotone(src, lines, b, b);
    NewlineAddsNothing(src, lines, x);
    if a < x {
      LinesOrdered(src, lines, a, x);
      GapWords(src, lines, kind, a, x);
      LineBetween(src, lines, kind, x);
    }
  }

  lemma NewlineAddsNothing(src: string, lines: seq<Span>, x: nat)
    requires AreLines(src, lines) && x < |lines| && lines[x].end + 1 <= |src|
    ensures Words(src, lines[x].end + 1) == Words(src, lines[x].end)
  {
    assert IsLine(src, lines[x]);
    assert IsSpace(src[lines[x].end]);
    BlankAddsNothing(src, lines[x].end, lines[x].end + 1);
  }

  // ----- chunks ----------------------------------------------------------------------------------------

  ghost predicate OnLines(lines: seq<Span>, sp: Span, f: nat, l: nat) {
    f <= l < |lines| && sp == Span(lines[f].start, lines[l].end)
  }

  lemma AtomLines(src: string, lines: seq<Span>, kind: Kind, k: nat) returns (f: nat, l: nat)
    requires AreLines(src, lines) && k < |Atoms(src, lines, kind)|
    ensures OnLines(lines, Atoms(src, lines, kind)[k], f, l)
  {
    hide Holding, Grouped, AllRanges, Size, AreLines, Bearing;
    var actions := Actions(src, lines, kind);
    var blocks, rs := Grouped(lines, actions), AllRanges(actions);
    BlocksAreRanges(lines, actions);
    BearingMembers(src, blocks, Atoms(src, lines, kind)[k]);
    var i :| 0 <= i < |blocks| && blocks[i] == Atoms(src, lines, kind)[k];
    f, l := rs[i].first, rs[i].last;
  }

  /** The gap after an atom, in separators. */
  lemma GapAfter(src: string, lines: seq<Span>, kind: Kind, k: nat, l: nat, f: nat)
    requires AreLines(src, lines) && k + 1 < |Atoms(src, lines, kind)| && l < |lines| && f < |lines|
    requires Apart(src, Atoms(src, lines, kind))
    requires Atoms(src, lines, kind)[k].end == lines[l].end && Atoms(src, lines, kind)[k + 1].start == lines[f].start
    ensures l < f
    ensures Words(src, lines[f].start) - Words(src, lines[l].end) == Separators(src, lines, kind, l + 1, f)
  {
    hide Atoms, IsSpace, Words, SeparatorLine, AreLines, Separators, Framed;
    var atoms := Atoms(src, lines, kind);
    assert atoms[k].end < atoms[k + 1].start;
    if f <= l {
      LinesMonotone(src, lines, f, l);
    }
    forall p | lines[l].end <= p < lines[f].start ensures !CoveredAt(atoms, p) {
      forall i | 0 <= i < |atoms| ensures !(atoms[i].start <= p < atoms[i].end) {
        NotBetween(src, atoms, k, i, p);
      }
    }
    GapWords(src, lines, kind, l, f);
  }

  /** The tokens between the blocks of a run are at most the separator lines the run encloses. */
  lemma {:induction false} StrayBound(src: string, lines: seq<Span>, kind: Kind, i: nat, j: nat, f: nat, l: nat)
    requires AreLines(src, lines) && Apart(src, Atoms(src, lines, kind)) && i < j <= |Atoms(src, lines, kind)|
    requires f < |lines| && l < |lines|
    requires Atoms(src, lines, kind)[i].start == lines[f].start && Atoms(src, lines, kind)[j - 1].end == lines[l].end
    ensures f <= l && Stray(src, Atoms(src, lines, kind), i, j) <= Separators(src, lines, kind, f, l + 1)
    decreases j
  {
    hide Atoms, IsSpace, Words, SeparatorLine, AreLines, Separators;
    var atoms := Atoms(src, lines, kind);
    assert Framed(src, atoms[i]) && Framed(src, atoms[j - 1]);
    var f', l' := AtomLines(src, lines, kind, j - 1);
    SameEnd(src, lines, l, l');
    if j == i + 1 {
      SameStart(src, lines, f, f');
    } else {
      var g, m := AtomLines(src, lines, kind, j - 2);
      StrayBound(src, lines, kind, i, j - 1, f, m);
      GapAfter(src, lines, kind, j - 2, m, f');
      SeparatorsSplit(src, lines, kind, f, m + 1, f');
      SeparatorsSplit(src, lines, kind, f, f', l + 1);
    }
  }

  lemma SameStart(src: string, lines: seq<Span>, a: nat, b: nat)
    requires AreLines(src, lines) && a < |lines| && b < |lines| && lines[a].start == lines[b].start
    ensures a == b
  {
    LinesMonotone(src, lines, a, a);
    LinesMonotone(src, lines, b, b);
    if a < b {
      LinesOrdered(src, lines, a, b);
    } else if b < a {
      LinesOrdered(src, lines, b, a);
    }
  }

  lemma SameEnd(src: string, lines: seq<Span>, a: nat, b: nat)
    requires AreLines(src, lines) && a < |lines| && b < |lines| && lines[a].end == lines[b].end
    ensures a == b
  {
    LinesMonotone(src, lines, a, a);
    LinesMonotone(src, lines, b, b);
    if a < b {
      LinesOrdered(src, lines, a, b);
    } else if b < a {
      LinesOrdered(src, lines, b, a);
    }
  }

  /** The separator lines, among the first n, that a span encloses. */
  ghost function Enclosed(src: string, lines: seq<Span>, kind: Kind, sp: Span, n: nat): nat
    requires n <= |lines|
  {
    if n == 0 then 0
    else Enclosed(src, lines, kind, sp, n - 1)
         + (if SeparatorLine(src, kind, lines[n - 1]) && Within(lines[n - 1], sp) then 1 else 0)
  }

  lemma {:induction false} SeparatorsEnclosed(src: string, lines: seq<Span>, kind: Kind, sp: Span, a: nat, b: nat, n: nat)
    requires a <= b <= n <= |lines| && forall x :: a <= x < b ==> Within(lines[x], sp)
    ensures Separators(src, lines, kind, a, b) <= Enclosed(src, lines, kind, sp, n)
    decreases n
  {
    hide SeparatorLine;
    if b < n {
      SeparatorsEnclosed(src, lines, kind, sp, a, b, n - 1);
    } else if a < b {
      SeparatorsEnclosed(src, lines, kind, sp, a, b - 1, n - 1);
    }
  }

  lemma {:induction false} NothingEnclosed(src: string, lines: seq<Span>, kind: Kind, sp: Span, n: nat)
    requires n <= |lines| && !kind.Slides?
    ensures Enclosed(src, lines, kind, sp, n) == 0
  {
    if n > 0 {
      NothingEnclosed(src, lines, kind, sp, n - 1);
    }
  }

  lemma RunStray(src: string, lines: seq<Span>, kind: Kind, i: nat, j: nat)
    requires AreLines(src, lines) && Apart(src, Atoms(src, lines, kind)) && i < j <= |Atoms(src, lines, kind)|
    ensures var atoms := Atoms(src, lines, kind);
            Stray(src, atoms, i, j) <= Enclosed(src, lines, kind, Span(atoms[i].start, atoms[j - 1].end), |lines|)
  {
    hide Atoms, IsSpace, AreLines, SeparatorLine, Separators, Enclosed, Stray;
    var atoms := Atoms(src, lines, kind);
    var f, _ := AtomLines(src, lines, kind, i);
    var _, l := AtomLines(src, lines, kind, j - 1);
    StrayBound(src, lines, kind, i, j, f, l);
    var sp := Span(atoms[i].start, atoms[j - 1].end);
    forall x | f <= x < l + 1 ensures Within(lines[x], sp) {
      LinesMonotone(src, lines, f, x);
      LinesMonotone(src, lines, x, l);
    }
    SeparatorsEnclosed(src, lines, kind, sp, f, l + 1, |lines|);
  }

  /** A chunk is within the target, counting a slide separator it encloses on top. */
  ghost predicate Bounded(src: string, lines: seq<Span>, kind: Kind, target: int, sp: Span) {
    Framed(src, sp) && 0 < Size(src, sp) <= target + Enclosed(src, lines, kind, sp, |lines|)
  }

  lemma ChunkBounded(src: string, lines: seq<Span>, kind: Kind, w: seq<nat>, target: int, byRows: bool, sp: Span, o: Origin)
    requires AreLines(src, lines) && Apart(src, Atoms(src, lines, kind)) && Weighs(src, Atoms(src, lines, kind), w)
    requires Fits(src, Atoms(src, lines, kind), w, target, byRows, sp, o)
    ensures Bounded(src, lines, kind, target, sp)
  {
    hide Atoms, IsSpace, AreLines, Enclosed, Stray, Size, Framed, RowsWhole, Sum;
    ChunkSize(src, Atoms(src, lines, kind), w, target, byRows, sp, o);
    if o.Packed? {
      RunStray(src, lines, kind, o.first, o.next);
    }
  }

  /** Neighbouring chunks are apart, or share at most half the target (and the separators between the
      shared blocks), or are pieces of one block that exceeds the target: then they share the clamped overlap, or at
      most that or half the target when the block is a table. */
  ghost predicate SharesLittle(src: string, lines: seq<Span>, kind: Kind, target: int, overlap: int, s: Span, s': Span) {
    || s.end <= s'.start
    || (Bounded(src, lines, kind, target / 2, Span(s'.start, s.end)))
    || exists b ::
         && b in Atoms(src, lines, kind) && Size(src, b) > target && Within(s, b) && Within(s', b)
         && Laps(src, b, target, overlap, kind.Table?, s, s')
  }

  lemma NeighboursShare(src: string, lines: seq<Span>, kind: Kind, w: seq<nat>, target: int, overlap: int,
                        s: Span, o: Origin, s': Span, o': Origin)
    requires AreLines(src, lines) && Apart(src, Atoms(src, lines, kind)) && Weighs(src, Atoms(src, lines, kind), w)
    requires Fits(src, Atoms(src, lines, kind), w, target, kind.Table?, s, o)
    requires Fits(src, Atoms(src, lines, kind), w, target, kind.Table?, s', o')
    requires Follows(w, target, overlap, false, s, o, s', o')
    requires o.Piece? && o == o' && o.block < |Atoms(src, lines, kind)| ==>
               Laps(src, Atoms(src, lines, kind)[o.block], target, overlap, kind.Table?, s, s')
    ensures SharesLittle(src, lines, kind, target, overlap, s, s')
  {
    hide Atoms, IsSpace, AreLines, Enclosed, Stray, Size, Framed, RowsWhole, Sum, Bounded, Laps;
    var atoms := Atoms(src, lines, kind);
    if o.Packed? && o'.Packed? {
      if o'.first < o.next {
        SharedRun(src, lines, kind, w, target, o'.first, o.next);
      } else {
        AtomsAdvance(src, atoms, w, o.next - 1, o'.first);
      }
    } else if o.Packed? {
      AtomsAdvance(src, atoms, w, o.next - 1, o'.block);
    } else if o'.Packed? {
      AtomsAdvance(src, atoms, w, o.block, o'.first);
    } else if o.block != o'.block {
      AtomsAdvance(src, atoms, w, o.block, o'.block);
    } else {
      assert atoms[o.block] in atoms;
    }
  }

  lemma SharedRun(src: string, lines: seq<Span>, kind: Kind, w: seq<nat>, target: int, i: nat, j: nat)
    requires AreLines(src, lines) && Apart(src, Atoms(src, lines, kind)) && Weighs(src, Atoms(src, lines, kind), w)
    requires i < j <= |w| && Sum(w, i, j) <= target / 2
    ensures var atoms := Atoms(src, lines, kind);
            Bounded(src, lines, kind, target / 2, Span(atoms[i].start, atoms[j - 1].end))
  {
    hide Atoms, IsSpace, AreLines, Enclosed, Stray, Size, Framed;
    RunSize(src, Atoms(src, lines, kind), w, i, j);
    RunStray(src, lines, kind, i, j);
    SumHolds(w, i, i, j);
    StrayNonNegative(src, Atoms(src, lines, kind), i, j);
  }

  /** Neighbouring chunks that are runs of whole blocks share as many as the overlap asks for. */
  ghost predicate Overlapping(w: seq<nat>, target: int, overlap: int, from: seq<Origin>) {
    forall m :: 0 <= m < |from| - 1 && from[m].Packed? && from[m + 1].Packed? ==>
      SharesEnough(w, target, overlap, from[m].first, from[m].next, from[m + 1].first)
  }

  lemma ChainOverlaps(src: string, atoms: seq<Span>, w: seq<nat>, target: int, overlap: int, byRows: bool, out: seq<Span>,
                      from: seq<Origin>)
    requires |w| == |atoms| && Chained(src, atoms, w, target, overlap, byRows, false, out, from)
    ensures Overlapping(w, target, overlap, from)
  {
    hide Fits, SharesEnough, CarriesOver, Sum;
    forall m | 0 <= m < |from| - 1 && from[m].Packed? && from[m + 1].Packed?
      ensures SharesEnough(w, target, overlap, from[m].first, from[m].next, from[m + 1].first)
    {
      assert Follows(w, target, overlap, false, out[m], from[m], out[m + 1], from[m + 1]);
      OverlapIsHonoured(w, target, overlap, from[m].first, from[m].next, from[m + 1].first);
    }
  }

  /** Structure-aware chunking. Nothing is lost, chunks move strictly forward, sizes are bounded, neighbours share what
      the overlap asks for and no more, and no block within the target, nor any such row of a larger table, is torn.
      `from` says which blocks each chunk is made of, `w` how many tokens each block has. */
  method StructureSpans(src: string, kind: Kind, target: int, overlap: int)
    returns (out: seq<Span>, ghost lines: seq<Span>, ghost w: seq<nat>, ghost from: seq<Origin>)
    requires target >= 1
    ensures AreLines(src, lines)
    ensures Weighs(src, Atoms(src, lines, kind), w)
    ensures Chained(src, Atoms(src, lines, kind), w, target, overlap, kind.Table?, false, out, from)
    ensures Overlapping(w, target, overlap, from)
    ensures Advancing(out)
    ensures forall m :: 0 <= m < |out| ==> Bounded(src, lines, kind, target, out[m])
    ensures forall m :: 0 <= m < |out| - 1 ==> SharesLittle(src, lines, kind, target, overlap, out[m], out[m + 1])
    ensures forall x, p :: 0 <= x < |lines| && lines[x].start <= p < lines[x].end && !IsSpace(src[p]) ==>
              SeparatorLine(src, kind, lines[x]) || CoveredAt(out, p)
    ensures forall b, m :: b in Atoms(src, lines, kind) && Size(src, b) <= target && 0 <= m < |out| ==> Whole(b, out[m])
    ensures kind.Table? ==>
              forall b, m :: b in Atoms(src, lines, kind) && Size(src, b) > target && 0 <= m < |out| ==>
                RowsWhole(src, b, target, out[m])
  {
    hide Grouped, Bearing, AreLines, Size, Framed, Covers, CoveredAt, IsSpace, Bounded, SharesLittle, SeparatorLine, RowsWhole, Apart, Whole,
         Fits, Follows, Laps, Overlapping;
    var blocks;
    blocks, lines := SplitBlocks(src, kind);
    BlocksApart(src, lines, Actions(src, lines, kind));
    ghost var atoms;
    out, atoms, w, from := PackBlocks(src, blocks, target, overlap, kind.Table?);
    ChainOverlaps(src, atoms, w, target, overlap, kind.Table?, out, from);
    forall m | 0 <= m < |out| ensures Bounded(src, lines, kind, target, out[m]) {
      ChunkBounded(src, lines, kind, w, target, kind.Table?, out[m], from[m]);
    }
    forall m | 0 <= m < |out| - 1 ensures SharesLittle(src, lines, kind, target, overlap, out[m], out[m + 1]) {
      NeighboursShare(src, lines, kind, w, target, overlap, out[m], from[m], out[m + 1], from[m + 1]);
    }
    forall j, k | 0 <= j < k < |out| ensures out[j].start < out[k].start && out[j].end < out[k].end {
      ChunksAdvance(src, atoms, w, target, overlap, kind.Table?, out, from, j, k);
    }
    forall x | 0 <= x < |lines| ensures lines[x].end <= |src| {
      LinesMonotone(src, lines, x, x);
    }
    forall x, p | 0 <= x < |lines| && lines[x].start <= p < lines[x].end && !IsSpace(src[p])
      ensures SeparatorLine(src, kind, lines[x]) || CoveredAt(out, p)
    {
      Accounted(src, lines, kind, x, p);
      if CoveredAt(atoms, p) {
        CoverThrough(src, atoms, out, p);
      }
    }
    forall b, m | b in atoms && Size(src, b) <= target && 0 <= m < |out| ensures Whole(b, out[m]) {
      var k :| 0 <= k < |atoms| && atoms[k] == b;
      SmallBlocksWhole(src, atoms, w, target, kind.Table?, out[m], from[m], k);
    }
    if kind.Table? {
      forall b, m | b in atoms && Size(src, b) > target && 0 <= m < |out| ensures RowsWhole(src, b, target, out[m]) {
        var k :| 0 <= k < |atoms| && atoms[k] == b;
        RowsOfOthers(src, atoms, w, target, out[m], from[m], k);
      }
    }
  }

  lemma CoverThrough(src: string, atoms: seq<Span>, out: seq<Span>, p: nat)
    requires CoveredAt(atoms, p) && p < |src| && !IsSpace(src[p])
    requires forall k :: 0 <= k < |atoms| ==> Covers(src, out, atoms[k])
    ensures CoveredAt(out, p)
  {
    hide IsSpace;
    var k :| 0 <= k < |atoms| && atoms[k].start <= p < atoms[k].end;
    assert Covers(src, out, atoms[k]);
  }

  /** A chunk that is not a piece of the block meets none of its rows. */
  lemma RowsOfOthers(src: string, atoms: seq<Span>, w: seq<nat>, target: int, sp: Span, o: Origin, k: nat)
    requires Apart(src, atoms) && Weighs(src, atoms, w) && Fits(src, atoms, w, target, true, sp, o)
    requires k < |atoms| == |w| && w[k] > target
    ensures RowsWhole(src, atoms[k], target, sp)
  {
    hide Apart, Weighs, Size, Framed;
    if o.Packed? {
      if o.first <= k < o.next {
        SumHolds(w, o.first, k, o.next);
      }
      AtomsAdvance(src, atoms, w, k, o.first);
      AtomsAdvance(src, atoms, w, o.next - 1, k);
    } else {
      AtomsAdvance(src, atoms, w, k, o.block);
      AtomsAdvance(src, atoms, w, o.block, k);
    }
  }

  // ----- receipts --------------------------------------------------------------------------------------

  /** A receipt of a chunk: within it, from the start of a token to the end of one, cut out by its own offsets, and
      counting its tokens. */
  ghost predicate Receipted(src: string, sp: Span, r: Receipt) {
    && sp.start <= r.start < r.end <= sp.end <= |src| && r.text == src[r.start..r.end] && r.tokens == Size(src, sp)
    && !IsSpace(src[r.start]) && !IsSpace(src[r.end - 1])
  }

  lemma ReceiptIsExact(src: string, sp: Span, k: nat)
    requires InSource(src, sp) && Tokenized(src[sp.start..sp.end]) != []
    ensures Receipted(src, sp, ReceiptOf(src, sp, k))
  {
    hide Scan, IsSpace;
    var sub := src[sp.start..sp.end];
    TokensInRange(sub);
    ScanRuns(sub, |sub|);
    var toks := Tokenized(sub);
    var first, last := toks[0], toks[|toks| - 1];
    assert IsRunUpTo(sub, |sub|, first) && IsRunUpTo(sub, |sub|, last);
    assert sub[first.start] == src[sp.start + first.start] && sub[last.end - 1] == src[sp.start + last.end - 1];
  }

  /** Trimming to the first and last token drops no character but white space. */
  lemma ReceiptCovers(src: string, sp: Span, k: nat, p: nat)
    requires InSource(src, sp) && Tokenized(src[sp.start..sp.end]) != []
    requires sp.start <= p < sp.end && !IsSpace(src[p])
    ensures ReceiptOf(src, sp, k).start <= p < ReceiptOf(src, sp, k).end
  {
    hide IsSpace, Scan;
    var sub := src[sp.start..sp.end];
    assert sub[p - sp.start] == src[p];
    var i := ScanCovers(sub, |sub|, p - sp.start);
    ScanRuns(sub, |sub|);
    TokenizedAreTheRuns(sub, Tokenized(sub)[i]);
    var toks := Tokenized(sub);
    assert IsRunUpTo(sub, |sub|, toks[0]) && IsRunUpTo(sub, |sub|, toks[|toks| - 1]);
  }

  lemma HasTokens(src: string, lines: seq<Span>, kind: Kind, target: int, sp: Span)
    requires Bounded(src, lines, kind, target, sp)
    ensures InSource(src, sp) && Tokenized(src[sp.start..sp.end]) != []
  {
    hide Enclosed, Scan, IsSpace;
  }

  /** The receipts of structure-aware chunking: one per chunk, at most the target tokens each (and the enclosed
      separator lines, on slides only), and between them every character but white space and separator lines. */
  method StructureReceipts(src: string, kind: Kind, target: int, overlap: int)
    returns (out: seq<Receipt>, ghost spans: seq<Span>, ghost lines: seq<Span>)
    requires target >= 1
    ensures AreLines(src, lines) && Advancing(spans) && |out| == |spans|
    ensures forall m :: 0 <= m < |out| ==> out[m].sequence == m && Receipted(src, spans[m], out[m])
    ensures forall m :: 0 <= m < |out| ==> 0 < out[m].tokens <= target + Enclosed(src, lines, kind, spans[m], |lines|)
    ensures !kind.Slides? ==> forall m :: 0 <= m < |out| ==> out[m].tokens <= target
    ensures forall x, p :: 0 <= x < |lines| && lines[x].start <= p < lines[x].end && !IsSpace(src[p]) ==>
              SeparatorLine(src, kind, lines[x]) || exists m :: 0 <= m < |out| && out[m].start <= p < out[m].end
  {
    hide AreLines, Size, Framed, IsSpace, SharesLittle, SeparatorLine, RowsWhole, Whole, Enclosed, Tokenized, ReceiptOf, Receipted, Bounded, Receipts,
         Atoms, Advancing;
    spans, lines := [], [];
    var chunks;
    ghost var w, from;
    chunks, lines, w, from := StructureSpans(src, kind, target, overlap);
    spans := chunks;
    forall m | 0 <= m < |chunks| ensures InSource(src, chunks[m]) && Tokenized(src[chunks[m].start..chunks[m].end]) != [] {
      HasTokens(src, lines, kind, target, chunks[m]);
    }
    out := ReceiptsFor(src, chunks);
    if chunks != [] {
      OneReceiptEach(src, chunks, 0);
    } else {
      NoReceipts(src, chunks);
    }
    forall m | 0 <= m < |chunks|
      ensures out[m] == ReceiptOf(src, chunks[m], m) && out[m].sequence == m && Receipted(src, chunks[m], out[m])
      ensures 0 < out[m].tokens <= target + Enclosed(src, lines, kind, chunks[m], |lines|)
      ensures !kind.Slides? ==> out[m].tokens <= target
    {
      OneReceiptEach(src, chunks, m);
      Numbered(src, chunks[m], m);
      ReceiptIsExact(src, chunks[m], m);
      ReceiptTokens(src, lines, kind, target, chunks[m], out[m]);
    }
    forall x | 0 <= x < |lines| ensures lines[x].end <= |src| {
      LinesMonotone(src, lines, x, x);
    }
    forall x, p | 0 <= x < |lines| && lines[x].start <= p < lines[x].end && !IsSpace(src[p]) && !SeparatorLine(src, kind, lines[x])
      ensures exists m :: 0 <= m < |out| && out[m].start <= p < out[m].end
    {
      var m :| 0 <= m < |chunks| && chunks[m].start <= p < chunks[m].end;
      ReceiptCovers(src, chunks[m], m, p);
    }
  }

  lemma Numbered(src: string, sp: Span, k: nat)
    requires InSource(src, sp) && Tokenized(src[sp.start..sp.end]) != []
    ensures ReceiptOf(src, sp, k).sequence == k
  {
    hide Scan;
  }

  lemma ReceiptTokens(src: string, lines: seq<Span>, kind: Kind, target: int, sp: Span, r: Receipt)
    requires Bounded(src, lines, kind, target, sp) && Receipted(src, sp, r)
    ensures 0 < r.tokens <= target + Enclosed(src, lines, kind, sp, |lines|)
    ensures !kind.Slides? ==> r.tokens <= target
  {
    hide Size, Framed, Enclosed;
    if !kind.Slides? {
      NothingEnclosed(src, lines, kind, sp, |lines|);
    }
  }
}
