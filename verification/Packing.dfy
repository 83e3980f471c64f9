/** Packing blocks into chunks of bounded size, with bounded carry-over between neighbours. */
module Packing {
  import opened Arithmetic
  import opened Tokens
  import opened Windows
  import Blocks

  /** A stretch whose two ends cut no token. */
  ghost predicate Framed(src: string, b: Span) {
    b.start <= b.end <= |src| && Opens(src, b.start) && (b.end == |src| || IsSpace(src[b.end]))
  }

  /** Framed stretches in order, at least one character apart. */
  ghost predicate Apart(src: string, blocks: seq<Span>) {
    && (forall k :: 0 <= k < |blocks| ==> Framed(src, blocks[k]))
    && (forall j, k :: 0 <= j < k < |blocks| ==> blocks[j].end < blocks[k].start)
  }

  function Size(src: string, b: Span): nat {
    if b.start <= b.end <= |src| then CountTokens(src[b.start..b.end]) else 0
  }

  predicate Within(a: Span, b: Span) {
    b.start <= a.start && a.end <= b.end
  }

  ghost predicate Covers(src: string, spans: seq<Span>, b: Span) {
    forall p :: b.start <= p < b.end && p < |src| && !IsSpace(src[p]) ==> CoveredAt(spans, p)
  }

  ghost predicate CoveredAt(spans: seq<Span>, p: nat) {
    exists m :: 0 <= m < |spans| && spans[m].start <= p < spans[m].end
  }

  // ----- pieces of one oversized block -----------------------------------------------------------

  ghost predicate IsPiece(src: string, b: Span, target: int, sp: Span) {
    Framed(src, sp) && Within(sp, b) && 0 < Size(src, sp) <= target
  }

  /** What splitting one block yields: token-bounded pieces inside it, advancing at both ends, that
      together hold all of its tokens. */
  ghost predicate Pieces(src: string, b: Span, target: int, ps: seq<Span>) {
    && ps != []
    && (forall k :: 0 <= k < |ps| ==> IsPiece(src, b, target, ps[k]))
    && Advancing(ps)
    && Covers(src, ps, b)
  }

  ghost predicate Advancing(ps: seq<Span>) {
    forall j, k :: 0 <= j < k < |ps| ==> ps[j].start < ps[k].start && ps[j].end < ps[k].end
  }

  function ShiftSpans(spans: seq<Span>, d: nat): (r: seq<Span>)
    ensures |r| == |spans|
    ensures forall k :: 0 <= k < |spans| ==> r[k] == Span(spans[k].start + d, spans[k].end + d)
  {
    seq(|spans|, k requires 0 <= k < |spans| => Span(spans[k].start + d, spans[k].end + d))
  }

  lemma WindowIsPiece(src: string, b: Span, target: int, stride: int, k: nat, w: Span)
    requires Framed(src, b) && 1 <= stride <= target
    requires IsWindow(Tokenized(src[b.start..b.end]), target, stride, k, w)
    ensures IsPiece(src, b, target, Span(w.start + b.start, w.end + b.start))
  {
    hide Scan, IsSpace, WindowEnd;
    var sub := src[b.start..b.end];
    var n := |Tokenized(sub)|;
    var i, j := k * stride, WindowEnd(n, target, stride, k);
    RetokenizeWindow(sub, i, j);
    WindowLength(n, target, stride, k);
    EndOfToken(sub, j - 1);
    assert w.end < |sub| ==> sub[w.end] == src[w.end + b.start];
    assert w.start > 0 ==> sub[w.start - 1] == src[w.start + b.start - 1];
    SubOfSub(src, b, w);
    var inner := Tokenized(sub[w.start..w.end]);
    assert |Shift(inner, w.start)| == |inner| == j - i;
  }

  lemma SubOfSub(src: string, b: Span, w: Span)
    requires b.start <= b.end <= |src| && w.start <= w.end <= b.end - b.start
    ensures src[b.start..b.end][w.start..w.end] == src[w.start + b.start..w.end + b.start]
  {
    var l, r := src[b.start..b.end][w.start..w.end], src[w.start + b.start..w.end + b.start];
    forall x | 0 <= x < |l| ensures l[x] == r[x] {
    }
  }

  lemma WindowLength(n: nat, target: int, stride: int, k: nat)
    ensures WindowEnd(n, target, stride, k) - k * stride <= target
  {
  }

  lemma EndOfToken(s: string, i: nat)
    requires i < |Tokenized(s)|
    ensures var t := Tokenized(s)[i]; t.end == |s| || (t.end < |s| && IsSpace(s[t.end]))
  {
    hide IsSpace, Scan;
    ScanRuns(s, |s|);
    assert IsRunUpTo(s, |s|, Tokenized(s)[i]);
  }

  lemma TokensAdvance(s: string, i: nat, j: nat)
    requires i < j < |Tokenized(s)|
    ensures Tokenized(s)[i].start < Tokenized(s)[j].start && Tokenized(s)[i].end < Tokenized(s)[j].end
  {
    hide IsSpace, Scan;
    ScanRuns(s, |s|);
    assert IsRunUpTo(s, |s|, Tokenized(s)[i]) && IsRunUpTo(s, |s|, Tokenized(s)[j]);
  }

  lemma WindowsAdvance(s: string, target: int, stride: int, ws: seq<Span>, j: nat, k: nat)
    requires 1 <= stride <= target && AreWindows(Tokenized(s), target, stride, ws) && j < k < |ws|
    ensures ws[j].start < ws[k].start && ws[j].end < ws[k].end
  {
    hide Tokenized, WindowCount;
    var n := |Tokenized(s)|;
    assert IsWindow(Tokenized(s), target, stride, j, ws[j]) && IsWindow(Tokenized(s), target, stride, k, ws[k]);
    WindowExists(n, target, stride, j);
    WindowExists(n, target, stride, k);
    TimesMonotone(j + 1, k, stride);
    assert (j + 1) * stride == j * stride + stride;
    TokensAdvance(s, j * stride, k * stride);
    TokensAdvance(s, WindowEnd(n, target, stride, j) - 1, WindowEnd(n, target, stride, k) - 1);
  }

  lemma WindowsCoverAt(s: string, target: int, stride: int, ws: seq<Span>, p: nat) returns (k: nat)
    requires 1 <= stride <= target && AreWindows(Tokenized(s), target, stride, ws)
    requires p < |s| && !IsSpace(s[p])
    ensures k < |ws| && ws[k].start <= p < ws[k].end
  {
    hide IsSpace, Scan, WindowCount;
    var toks := Tokenized(s);
    var t := ScanCovers(s, |s|, p);
    k := WindowsCover(|toks|, target, stride, t);
    assert IsWindow(toks, target, stride, k, ws[k]);
    var last := WindowEnd(|toks|, target, stride, k) - 1;
    if k * stride < t {
      TokensAdvance(s, k * stride, t);
    }
    if t < last {
      TokensAdvance(s, t, last);
    }
  }

  /** What two neighbouring pieces of one block share: exactly the clamped overlap when it is cut into windows. When it
      is cut at its rows they are packed like blocks, and share at most the clamped overlap or half the target. */
  ghost predicate Laps(src: string, b: Span, target: int, overlap: int, byRows: bool, s: Span, s': Span) {
    var shared, lap := Size(src, Span(s'.start, s.end)), Clamp(target, overlap);
    if byRows then (shared <= lap || shared <= target / 2) && RowsCarry(src, b, target, overlap, s, s') else shared == lap
  }

  ghost predicate RowsCarry(src: string, b: Span, target: int, overlap: int, s: Span, s': Span) {
    exists rows, w, o, o' :: RowStep(src, b, target, overlap, rows, w, s, o, s', o')
  }

  /** Two pieces of a table follow each other as chunks of its rows do. */
  ghost predicate RowStep(src: string, b: Span, target: int, overlap: int, rows: seq<Span>, w: seq<nat>,
                          s: Span, o: Origin, s': Span, o': Origin)
  {
    && AreRows(src, b, rows) && Weighs(src, rows, w)
    && Fits(src, rows, w, target, false, s, o) && Fits(src, rows, w, target, false, s', o')
    && Follows(w, target, overlap, false, s, o, s', o')
    && (o.Piece? && o == o' ==> Size(src, Span(s'.start, s.end)) == Clamp(target, overlap))
  }

  /** The token-bearing lines of a block, in order. */
  ghost predicate AreRows(src: string, b: Span, rows: seq<Span>) {
    Apart(src, rows) && forall r :: r in rows <==> RowOf(src, b, r) && Size(src, r) > 0
  }

  ghost predicate Lapped(src: string, b: Span, target: int, overlap: int, byRows: bool, ps: seq<Span>) {
    forall k :: 0 <= k < |ps| - 1 ==> Laps(src, b, target, overlap, byRows, ps[k], ps[k + 1])
  }

  lemma WindowsLap(src: string, b: Span, target: int, overlap: int, k: nat, w: Span, w': Span)
    requires Framed(src, b) && target >= 1
    requires var toks, stride := Tokenized(src[b.start..b.end]), Stride(target, overlap);
             && k + 1 < WindowCount(|toks|, target, stride)
             && IsWindow(toks, target, stride, k, w) && IsWindow(toks, target, stride, k + 1, w')
    ensures Laps(src, b, target, overlap, false, Span(w.start + b.start, w.end + b.start), Span(w'.start + b.start, w'.end + b.start))
  {
    hide Scan, IsSpace, WindowCount;
    var sub, stride := src[b.start..b.end], Stride(target, overlap);
    var toks := Tokenized(sub);
    WindowsShare(|toks|, target, stride, k);
    var i, j := (k + 1) * stride, WindowEnd(|toks|, target, stride, k);
    if i < j {
      RetokenizeWindow(sub, i, j);
      SubOfSub(src, b, Span(w'.start, w.end));
      var inner := Tokenized(sub[w'.start..w.end]);
      assert |Shift(inner, w'.start)| == |inner| == j - i;
    } else {
      TokensApart(sub, j - 1, i);
    }
  }

  lemma TokensApart(s: string, i: nat, j: nat)
    requires i < j < |Tokenized(s)|
    ensures Tokenized(s)[i].end < Tokenized(s)[j].start
  {
    hide IsSpace, Scan;
    ScanRuns(s, |s|);
    assert IsRunUpTo(s, |s|, Tokenized(s)[i]) && IsRunUpTo(s, |s|, Tokenized(s)[j]);
  }

  /** The token-window splitter. */
  method WindowPieces(src: string, b: Span, target: int, overlap: int) returns (ps: seq<Span>)
    requires target >= 1 && Framed(src, b) && Size(src, b) > 0
    ensures Pieces(src, b, target, ps) && Lapped(src, b, target, overlap, false, ps)
  {
    hide Scan, IsSpace, WindowCount, WindowEnd, IsPiece, IsWindow, Laps;
    var sub := src[b.start..b.end];
    var stride := Stride(target, overlap);
    var ws := FixedSpans(sub, target, overlap);
    FirstWindow(|Tokenized(sub)|, target, stride);
    ps := ShiftSpans(ws, b.start);
    forall k | 0 <= k < |ps| ensures IsPiece(src, b, target, ps[k]) {
      WindowIsPiece(src, b, target, stride, k, ws[k]);
    }
    forall j, k | 0 <= j < k < |ps| ensures ps[j].start < ps[k].start && ps[j].end < ps[k].end {
      WindowsAdvance(sub, target, stride, ws, j, k);
    }
    forall k | 0 <= k < |ps| - 1 ensures Laps(src, b, target, overlap, false, ps[k], ps[k + 1]) {
      WindowsLap(src, b, target, overlap, k, ws[k], ws[k + 1]);
    }
    forall p | b.start <= p < b.end && !IsSpace(src[p]) ensures CoveredAt(ps, p) {
      assert sub[p - b.start] == src[p];
      var k := WindowsCoverAt(sub, target, stride, ws, p - b.start);
      assert ps[k].start <= p < ps[k].end;
    }
  }

  // ----- weights ---------------------------------------------------------------------------------

  function Sum(w: seq<nat>, i: nat, j: nat): nat
    requires i <= j <= |w|
  {
    if i == j then 0 else Sum(w, i, j - 1) + w[j - 1]
  }

  lemma {:induction false} SumSplits(w: seq<nat>, i: nat, j: nat, k: nat)
    requires i <= j <= k <= |w|
    ensures Sum(w, i, k) == Sum(w, i, j) + Sum(w, j, k)
    decreases k
  {
    if j < k {
      SumSplits(w, i, j, k - 1);
    }
  }

  lemma SumHolds(w: seq<nat>, i: nat, k: nat, j: nat)
    requires i <= k < j <= |w|
    ensures w[k] <= Sum(w, i, j)
  {
    SumSplits(w, i, k, j);
    SumSplits(w, k, k + 1, j);
    assert Sum(w, k, k) == 0;
  }

  /** The greedy run of blocks from i: as many as fit. */
  method Fill(w: seq<nat>, i: nat, target: int) returns (j: nat)
    requires i < |w| && w[i] <= target
    ensures i < j <= |w| && Sum(w, i, j) <= target
    ensures j < |w| ==> w[j] > target || Sum(w, i, j) + w[j] > target
  {
    j := i;
    var tok := 0;
    while j < |w| && w[j] <= target
      invariant i <= j <= |w| && tok == Sum(w, i, j) <= target
    {
      if tok + w[j] > target && j > i {
        break;
      }
      tok := tok + w[j];
      j := j + 1;
    }
  }

  /** The run from i to j is followed by one from k. It carries over the fewest trailing blocks worth the overlap, all
      but the first block if those are not worth it, and none if the blocks needed exceed half the target. */
  ghost predicate RestartsAt(w: seq<nat>, i: nat, j: nat, target: int, overlap: int, k: nat) {
    && i < k <= j <= |w| && Sum(w, k, j) <= target / 2
    && (k < j ==> Sum(w, k + 1, j) < overlap && (k == i + 1 || Sum(w, k, j) >= overlap))
    && (k == j ==> overlap <= 0 || j == i + 1 || exists m: nat :: TooMuch(w, i, j, target, overlap, m))
  }

  /** The overlap takes the blocks from m on, and they exceed half the target. */
  ghost predicate TooMuch(w: seq<nat>, i: nat, j: nat, target: int, overlap: int, m: nat) {
    i < m < j <= |w| && Sum(w, m + 1, j) < overlap && Sum(w, m, j) > target / 2
  }

  /** One block is where a run restarts. */
  lemma RestartIsUnique(w: seq<nat>, i: nat, j: nat, target: int, overlap: int, k: nat, l: nat)
    requires RestartsAt(w, i, j, target, overlap, k) && RestartsAt(w, i, j, target, overlap, l)
    ensures k == l
  {
    hide Sum;
    if k < l {
      RestartsFirst(w, i, j, target, overlap, k, l);
    } else if l < k {
      RestartsFirst(w, i, j, target, overlap, l, k);
    }
  }

  lemma RestartsFirst(w: seq<nat>, i: nat, j: nat, target: int, overlap: int, k: nat, l: nat)
    requires RestartsAt(w, i, j, target, overlap, k) && k < l <= j <= |w|
    ensures !RestartsAt(w, i, j, target, overlap, l)
  {
    hide Sum;
    SumSplits(w, k + 1, l, j);
    if l == j && RestartsAt(w, i, j, target, overlap, l) {
      SumNothing(w, j);
      var m: nat :| TooMuch(w, i, j, target, overlap, m);
      if m < k {
        SumSplits(w, m + 1, k, j);
      } else {
        SumSplits(w, k, m, j);
      }
    }
  }

  lemma SumNothing(w: seq<nat>, j: nat)
    requires j <= |w|
    ensures Sum(w, j, j) == 0
  {
  }

  /** Where the next chunk restarts: at trailing blocks worth the overlap, never more than half the target. */
  method Restart(w: seq<nat>, i: nat, j: nat, target: int, overlap: int) returns (k: nat)
    requires i < j <= |w| && target >= 0
    ensures RestartsAt(w, i, j, target, overlap, k)
  {
    k := j;
    var carry := 0;
    while k > i + 1 && carry < overlap
      invariant i < k <= j && carry == Sum(w, k, j) <= target / 2
      invariant k < j ==> Sum(w, k + 1, j) < overlap
      decreases k
    {
      SumSplits(w, k - 1, k, j);
      assert Sum(w, k - 1, k - 1) == 0;
      k := k - 1;
      carry := carry + w[k];
      if carry > target / 2 {
        assert TooMuch(w, i, j, target, overlap, k);
        k, carry := j, 0;
        break;
      }
    }
    if k <= i {
      k := j;
    }
  }

  // ----- chunks and where they come from -----------------------------------------------------------

  /** A chunk is a run of whole blocks, or a piece of one block larger than the target. */
  datatype Origin = Packed(first: nat, next: nat) | Piece(block: nat)

  ghost predicate Weighs(src: string, atoms: seq<Span>, w: seq<nat>) {
    |w| == |atoms| && forall k :: 0 <= k < |atoms| ==> w[k] == Size(src, atoms[k]) && w[k] > 0
  }

  /** A row of a block: one of its lines. */
  ghost predicate RowOf(src: string, b: Span, r: Span) {
    && Within(r, b) && r.start <= r.end && b.end <= |src|
    && (r.start == b.start || src[r.start - 1] == '\n')
    && (r.end == b.end || src[r.end] == '\n')
    && (forall p :: r.start <= p < r.end ==> src[p] != '\n')
  }

  /** Neither end of the span falls inside the stretch. */
  predicate Whole(r: Span, sp: Span) {
    Within(r, sp) || r.end <= sp.start || sp.end <= r.start
  }

  ghost predicate RowsWhole(src: string, b: Span, target: int, sp: Span) {
    forall r :: RowOf(src, b, r) && 0 < Size(src, r) <= target ==> Whole(r, sp)
  }

  ghost predicate Fits(src: string, atoms: seq<Span>, w: seq<nat>, target: int, byRows: bool, sp: Span, o: Origin)
    requires |w| == |atoms|
  {
    match o
    case Packed(i, j) =>
      && i < j <= |atoms| && sp == Span(atoms[i].start, atoms[j - 1].end) && Sum(w, i, j) <= target
      && (j < |atoms| ==> w[j] > target || Sum(w, i, j) + w[j] > target)
    case Piece(b) =>
      && b < |atoms| && w[b] > target && IsPiece(src, atoms[b], target, sp)
      && (byRows ==> RowsWhole(src, atoms[b], target, sp))
  }

  /** The blocks from k to j leave no room for the next one. */
  predicate NoRoom(w: seq<nat>, target: int, k: nat, j: nat) {
    k <= j < |w| && Sum(w, k, j) + w[j] > target
  }

  /** After the run from i to j, the next one starts where the overlap asks for, or later if what the overlap asks for
      leaves no room for the block after it. */
  ghost predicate CarriesOver(w: seq<nat>, target: int, overlap: int, i: nat, j: nat, i': nat) {
    exists k: nat :: RestartsAt(w, i, j, target, overlap, k) && (i' == k || (k < i' && NoRoom(w, target, k, j)))
  }

  /** The run from i' shares blocks worth the overlap with the run from i to j, or all of its blocks but the first, unless
      those blocks exceed half the target or leave no room for the block after them. */
  ghost predicate SharesEnough(w: seq<nat>, target: int, overlap: int, i: nat, j: nat, i': nat) {
    || (i' <= j <= |w| && Sum(w, i', j) >= overlap)
    || i' == i + 1
    || (exists m: nat :: TooMuch(w, i, j, target, overlap, m))
    || (exists k: nat :: NoRoom(w, target, k, j) && i < k < j && k < i' && Sum(w, k + 1, j) < overlap)
  }

  lemma OverlapIsHonoured(w: seq<nat>, target: int, overlap: int, i: nat, j: nat, i': nat)
    requires i < i' <= j < |w| && CarriesOver(w, target, overlap, i, j, i')
    ensures SharesEnough(w, target, overlap, i, j, i')
  {
    hide Sum;
    var k: nat :| RestartsAt(w, i, j, target, overlap, k) && (i' == k || (k < i' && NoRoom(w, target, k, j)));
    SumNothing(w, j);
  }

  /** How one chunk follows another. `slack` allows the second to end where the first does. */
  ghost predicate Follows(w: seq<nat>, target: int, overlap: int, slack: bool, s: Span, o: Origin, s': Span, o': Origin) {
    match o
    case Packed(i, j) =>
      (match o'
       case Packed(i', j') =>
         && i < i' <= j < |w| && Sum(w, i', j) <= target / 2 && (if slack then j <= j' else j < j')
         && CarriesOver(w, target, overlap, i, j, i')
       case Piece(b) => b == j)
    case Piece(b) =>
      (match o'
       case Packed(i', _) => i' == b + 1
       case Piece(b') => b' == b + 1 || (b' == b && s.start < s'.start && s.end < s'.end))
  }

  /** Every chunk has an origin that fits it and follows its predecessor. */
  ghost predicate Chained(src: string, atoms: seq<Span>, w: seq<nat>, target: int, overlap: int, byRows: bool, slack: bool,
                          out: seq<Span>, from: seq<Origin>)
    requires |w| == |atoms|
  {
    && |out| == |from|
    && (forall m :: 0 <= m < |out| ==> Fits(src, atoms, w, target, byRows, out[m], from[m]))
    && (forall m :: 0 <= m < |out| - 1 ==> Follows(w, target, overlap, slack, out[m], from[m], out[m + 1], from[m + 1]))
  }

  lemma ChainOne(src: string, atoms: seq<Span>, w: seq<nat>, target: int, overlap: int, byRows: bool, slack: bool,
                 out: seq<Span>, from: seq<Origin>, sp: Span, o: Origin)
    requires |w| == |atoms| && Chained(src, atoms, w, target, overlap, byRows, slack, out, from)
    requires Fits(src, atoms, w, target, byRows, sp, o)
    requires out != [] ==> Follows(w, target, overlap, slack, out[|out| - 1], from[|out| - 1], sp, o)
    ensures Chained(src, atoms, w, target, overlap, byRows, slack, out + [sp], from + [o])
  {
    hide Fits, Follows;
  }

  // ----- dropping contained chunks -----------------------------------------------------------------

  function Dedupe(spans: seq<Span>): seq<Span> {
    if spans == [] then []
    else
      var kept, sp := Dedupe(spans[..|spans| - 1]), spans[|spans| - 1];
      if sp.end <= sp.start || (kept != [] && Within(sp, kept[|kept| - 1])) then kept else kept + [sp]
  }

  method DedupeSpans(spans: seq<Span>) returns (out: seq<Span>)
    ensures out == Dedupe(spans)
  {
    out := [];
    for i := 0 to |spans|
      invariant out == Dedupe(spans[..i])
    {
      var sp := spans[i];
      assert spans[..i + 1][..i] == spans[..i];
      if sp.end <= sp.start {
        continue;
      }
      if |out| > 0 && sp.start >= out[|out| - 1].start && sp.end <= out[|out| - 1].end {
        continue;
      }
      out := out + [sp];
    }
    assert spans[..|spans|] == spans;
  }

  /** The origins of the chunks that stay. */
  ghost function DedupeOrigins(spans: seq<Span>, from: seq<Origin>): (r: seq<Origin>)
    requires |spans| == |from|
    ensures |r| == |Dedupe(spans)|
  {
    if spans == [] then []
    else
      var n := |spans| - 1;
      var kept, tags, sp := Dedupe(spans[..n]), DedupeOrigins(spans[..n], from[..n]), spans[n];
      if sp.end <= sp.start || (kept != [] && Within(sp, kept[|kept| - 1])) then tags else tags + [from[n]]
  }

  /** Dropping contained chunks loses nothing. */
  lemma {:induction false} DedupeCovers(spans: seq<Span>, p: nat)
    requires CoveredAt(spans, p)
    ensures CoveredAt(Dedupe(spans), p)
  {
    var n := |spans| - 1;
    var kept, sp := Dedupe(spans[..n]), spans[n];
    if sp.start <= p < sp.end {
      var last := Dedupe(spans)[|Dedupe(spans)| - 1];
      assert last.start <= p < last.end;
    } else {
      var m :| 0 <= m < |spans| && spans[m].start <= p < spans[m].end;
      assert spans[..n][m] == spans[m];
      DedupeCovers(spans[..n], p);
      var k :| 0 <= k < |kept| && kept[k].start <= p < kept[k].end;
      assert Dedupe(spans)[k] == kept[k];
    }
  }

  /** The last chunk kept, against the last one produced: the same, or a run of blocks that ends where
      the produced one does and starts no later, after which the overlap leaves no room. */
  ghost predicate Lags(w: seq<nat>, target: int, overlap: int, kept: Span, t: Origin, sp: Span, o: Origin) {
    || (kept == sp && t == o)
    || (t.Packed? && o.Packed? && t.next == o.next && t.first <= o.first
        && exists k: nat :: RestartsAt(w, t.first, t.next, target, overlap, k) && k <= o.first && NoRoom(w, target, k, t.next))
  }

  lemma AtomsAdvance(src: string, atoms: seq<Span>, w: seq<nat>, i: nat, j: nat)
    requires Apart(src, atoms) && Weighs(src, atoms, w) && i < |atoms| && j < |atoms|
    ensures atoms[i].start < atoms[i].end <= |src| && atoms[j].start < atoms[j].end
    ensures i <= j <==> atoms[i].start <= atoms[j].start
    ensures i <= j <==> atoms[i].end <= atoms[j].end
    ensures i < j ==> atoms[i].end < atoms[j].start
  {
    NonEmpty(src, atoms[i]);
    NonEmpty(src, atoms[j]);
  }

  lemma NonEmpty(src: string, b: Span)
    requires Framed(src, b) && Size(src, b) > 0
    ensures b.start < b.end <= |src|
  {
  }

  /** A run that follows the last one produced carries over from the last one kept, and leaves no room after it if it
      ends there too. */
  lemma LagCarries(w: seq<nat>, target: int, overlap: int, kept: Span, t: Origin, sp: Span, o: Origin, o': Origin)
    requires Lags(w, target, overlap, kept, t, sp, o) && t.Packed? && o.Packed? && o'.Packed?
    requires o.first < o'.first <= o.next < |w| && CarriesOver(w, target, overlap, o.first, o.next, o'.first)
    ensures CarriesOver(w, target, overlap, t.first, t.next, o'.first)
    ensures o'.next == o.next && NoRoom(w, target, o'.first, o.next) ==>
              exists k: nat :: RestartsAt(w, t.first, t.next, target, overlap, k) && k <= o'.first && NoRoom(w, target, k, t.next)
  {
    hide RestartsAt, NoRoom;
    if t == o {
      var k: nat :| RestartsAt(w, o.first, o.next, target, overlap, k)
                    && (o'.first == k || (k < o'.first && NoRoom(w, target, k, o.next)));
    } else {
      var k: nat :| RestartsAt(w, t.first, t.next, target, overlap, k) && k <= o.first && NoRoom(w, target, k, t.next);
    }
  }

  lemma FullRun(src: string, atoms: seq<Span>, w: seq<nat>, target: int, byRows: bool, sp: Span, o: Origin)
    requires Weighs(src, atoms, w) && Fits(src, atoms, w, target, byRows, sp, o) && o.Packed?
    ensures o.next < |w| ==> NoRoom(w, target, o.first, o.next)
  {
  }

  /** One step of the duplicate filter: a contained chunk only repeats the end of the run kept before
      it, and any other continues the chain strictly. */
  lemma FilterStep(src: string, atoms: seq<Span>, w: seq<nat>, target: int, overlap: int, byRows: bool,
                   kept: Span, t: Origin, sp: Span, o: Origin, sp': Span, o': Origin)
    requires Apart(src, atoms) && Weighs(src, atoms, w)
    requires Fits(src, atoms, w, target, byRows, kept, t) && Fits(src, atoms, w, target, byRows, sp, o)
    requires Fits(src, atoms, w, target, byRows, sp', o')
    requires Lags(w, target, overlap, kept, t, sp, o) && Follows(w, target, overlap, true, sp, o, sp', o')
    ensures sp'.start < sp'.end
    ensures if Within(sp', kept) then Lags(w, target, overlap, kept, t, sp', o') else Follows(w, target, overlap, false, kept, t, sp', o')
  {
    hide Apart, Weighs, RowsWhole, Framed, Sum;
    if o'.Packed? {
      AtomsAdvance(src, atoms, w, o'.first, o'.next - 1);
      if o.Packed? {
        LagCarries(w, target, overlap, kept, t, sp, o, o');
        FullRun(src, atoms, w, target, byRows, sp', o');
        AtomsAdvance(src, atoms, w, o'.next - 1, o.next - 1);
        AtomsAdvance(src, atoms, w, t.first, o'.first);
      } else {
        AtomsAdvance(src, atoms, w, o.block, o'.next - 1);
      }
    } else {
      NonEmpty(src, sp');
      if o.Packed? {
        AtomsAdvance(src, atoms, w, o.next - 1, o'.block);
      } else {
        AtomsAdvance(src, atoms, w, o.block, o'.block);
      }
    }
  }

  lemma FitsNonEmpty(src: string, atoms: seq<Span>, w: seq<nat>, target: int, byRows: bool, sp: Span, o: Origin)
    requires Apart(src, atoms) && Weighs(src, atoms, w) && Fits(src, atoms, w, target, byRows, sp, o)
    ensures sp.start < sp.end <= |src|
  {
    hide Apart, Weighs, RowsWhole, Framed, Sum;
    if o.Packed? {
      AtomsAdvance(src, atoms, w, o.next - 1, o.first);
    } else {
      NonEmpty(src, sp);
    }
  }

  lemma {:induction false} DedupeChained(src: string, atoms: seq<Span>, w: seq<nat>, target: int, overlap: int, byRows: bool,
                                         raw: seq<Span>, from: seq<Origin>)
    requires Apart(src, atoms) && Weighs(src, atoms, w) && Chained(src, atoms, w, target, overlap, byRows, true, raw, from)
    ensures Chained(src, atoms, w, target, overlap, byRows, false, Dedupe(raw), DedupeOrigins(raw, from))
    ensures raw != [] ==>
              var kept, tags := Dedupe(raw), DedupeOrigins(raw, from);
              kept != [] && Lags(w, target, overlap, kept[|kept| - 1], tags[|kept| - 1], raw[|raw| - 1], from[|raw| - 1])
    decreases |raw|
  {
    hide Apart, Fits, Follows, Lags;
    assert |w| == |atoms|;
    if raw != [] {
      var n := |raw| - 1;
      var before, origins := raw[..n], from[..n];
      ChainPrefix(src, atoms, w, target, overlap, byRows, raw, from);
      DedupeChained(src, atoms, w, target, overlap, byRows, before, origins);
      var kept, tags := Dedupe(before), DedupeOrigins(before, origins);
      FitsNonEmpty(src, atoms, w, target, byRows, raw[n], from[n]);
      if n == 0 {
        LagsSelf(w, target, overlap, raw[n], from[n]);
      } else {
        var x := |kept| - 1;
        assert Follows(w, target, overlap, true, raw[n - 1], from[n - 1], raw[n - 1 + 1], from[n - 1 + 1]);
        FilterStep(src, atoms, w, target, overlap, byRows, kept[x], tags[x], raw[n - 1], from[n - 1], raw[n], from[n]);
        LagsSelf(w, target, overlap, raw[n], from[n]);
        if !Within(raw[n], kept[x]) {
          ChainOne(src, atoms, w, target, overlap, byRows, false, kept, tags, raw[n], from[n]);
        }
      }
    }
  }

  lemma LagsSelf(w: seq<nat>, target: int, overlap: int, sp: Span, o: Origin)
    ensures Lags(w, target, overlap, sp, o, sp, o)
  {
  }

  lemma ChainPrefix(src: string, atoms: seq<Span>, w: seq<nat>, target: int, overlap: int, byRows: bool, raw: seq<Span>, from: seq<Origin>)
    requires |w| == |atoms| && raw != [] && Chained(src, atoms, w, target, overlap, byRows, true, raw, from)
    ensures Chained(src, atoms, w, target, overlap, byRows, true, raw[..|raw| - 1], from[..|raw| - 1])
  {
    hide Fits, Follows;
    var r, f := raw[..|raw| - 1], from[..|raw| - 1];
    forall m | 0 <= m < |r| - 1 ensures Follows(w, target, overlap, true, r[m], f[m], r[m + 1], f[m + 1]) {
      assert r[m + 1] == raw[m + 1] && f[m + 1] == from[m + 1];
    }
  }

  // ----- what pieces of one block share --------------------------------------------------------------

  ghost predicate Lapping(src: string, atoms: seq<Span>, target: int, overlap: int, byRows: bool, out: seq<Span>, from: seq<Origin>)
    requires |out| == |from|
  {
    forall m :: 0 <= m < |out| - 1 && from[m].Piece? && from[m] == from[m + 1] && from[m].block < |atoms| ==>
      Laps(src, atoms[from[m].block], target, overlap, byRows, out[m], out[m + 1])
  }

  lemma LappingRun(src: string, atoms: seq<Span>, target: int, overlap: int, byRows: bool, out: seq<Span>, from: seq<Origin>, sp: Span, o: Origin)
    requires |out| == |from| && Lapping(src, atoms, target, overlap, byRows, out, from)
    requires out != [] && o.Piece? && from[|out| - 1] == o && o.block < |atoms| ==>
               Laps(src, atoms[o.block], target, overlap, byRows, out[|out| - 1], sp)
    ensures Lapping(src, atoms, target, overlap, byRows, out + [sp], from + [o])
  {
    hide Laps;
  }

  lemma {:induction false} LappingPieces(src: string, atoms: seq<Span>, target: int, overlap: int, byRows: bool, raw: seq<Span>, from: seq<Origin>,
                                         i: nat, ps: seq<Span>, k: nat)
    requires |raw| == |from| && Lapping(src, atoms, target, overlap, byRows, raw, from)
    requires raw != [] ==> from[|raw| - 1] != Piece(i)
    requires i < |atoms| && Lapped(src, atoms[i], target, overlap, byRows, ps) && k <= |ps|
    ensures Lapping(src, atoms, target, overlap, byRows, raw + ps[..k], from + seq(k, _ => Piece(i)))
    decreases k
  {
    hide Laps, Lapping;
    if k == 0 {
      assert raw + ps[..0] == raw && from + seq(0, _ => Piece(i)) == from;
    } else {
      LappingPieces(src, atoms, target, overlap, byRows, raw, from, i, ps, k - 1);
      var r, f := raw + ps[..k - 1], from + seq(k - 1, _ => Piece(i));
      assert k > 1 ==> r[|r| - 1] == ps[k - 2] && f[|f| - 1] == Piece(i);
      assert k == 1 ==> r == raw && f == from;
      if k > 1 {
        assert Laps(src, atoms[i], target, overlap, byRows, ps[k - 2], ps[k - 2 + 1]);
      }
      LappingRun(src, atoms, target, overlap, byRows, r, f, ps[k - 1], Piece(i));
      assert r + [ps[k - 1]] == raw + ps[..k];
      assert f + [Piece(i)] == from + seq(k, _ => Piece(i));
    }
  }

  lemma {:induction false} DedupeLapping(src: string, atoms: seq<Span>, w: seq<nat>, target: int, overlap: int, byRows: bool,
                                         raw: seq<Span>, from: seq<Origin>)
    requires Apart(src, atoms) && Weighs(src, atoms, w) && Chained(src, atoms, w, target, overlap, byRows, true, raw, from)
    requires Lapping(src, atoms, target, overlap, byRows, raw, from)
    ensures Lapping(src, atoms, target, overlap, byRows, Dedupe(raw), DedupeOrigins(raw, from))
    decreases |raw|
  {
    hide Apart, Fits, Follows, Laps;
    if raw != [] {
      var n := |raw| - 1;
      var before, origins := raw[..n], from[..n];
      ChainPrefix(src, atoms, w, target, overlap, byRows, raw, from);
      LappingPrefix(src, atoms, target, overlap, byRows, raw, from);
      DedupeLapping(src, atoms, w, target, overlap, byRows, before, origins);
      DedupeChained(src, atoms, w, target, overlap, byRows, before, origins);
      var kept, tags := Dedupe(before), DedupeOrigins(before, origins);
      if n > 0 && from[n].Piece? && from[n - 1] == from[n] && from[n].block < |atoms| {
        assert Laps(src, atoms[from[n].block], target, overlap, byRows, raw[n - 1], raw[n - 1 + 1]);
      }
      if kept == [] || !Within(raw[n], kept[|kept| - 1]) {
        LappingRun(src, atoms, target, overlap, byRows, kept, tags, raw[n], from[n]);
      }
    }
  }

  lemma LappingPrefix(src: string, atoms: seq<Span>, target: int, overlap: int, byRows: bool, raw: seq<Span>, from: seq<Origin>)
    requires |raw| == |from| && raw != [] && Lapping(src, atoms, target, overlap, byRows, raw, from)
    ensures Lapping(src, atoms, target, overlap, byRows, raw[..|raw| - 1], from[..|raw| - 1])
  {
    hide Laps;
    var r, f := raw[..|raw| - 1], from[..|raw| - 1];
    forall m | 0 <= m < |r| - 1 && f[m].Piece? && f[m] == f[m + 1] && f[m].block < |atoms|
      ensures Laps(src, atoms[f[m].block], target, overlap, byRows, r[m], r[m + 1])
    {
      assert r[m + 1] == raw[m + 1] && f[m + 1] == from[m + 1];
    }
  }

  // ----- the blocks that count ---------------------------------------------------------------------

  /** The blocks that hold tokens. */
  function Bearing(src: string, blocks: seq<Span>): seq<Span> {
    if blocks == [] then []
    else
      var before, b := Bearing(src, blocks[..|blocks| - 1]), blocks[|blocks| - 1];
      if Size(src, b) > 0 then before + [b] else before
  }

  lemma {:induction false} BearingMembers(src: string, blocks: seq<Span>, b: Span)
    ensures b in Bearing(src, blocks) <==> b in blocks && Size(src, b) > 0
    decreases |blocks|
  {
    hide Size;
    if blocks != [] {
      var n := |blocks| - 1;
      BearingMembers(src, blocks[..n], b);
      assert blocks == blocks[..n] + [blocks[n]];
    }
  }

  lemma {:induction false} BearingApart(src: string, blocks: seq<Span>)
    requires Apart(src, blocks)
    ensures Apart(src, Bearing(src, blocks))
    decreases |blocks|
  {
    hide Size, Framed;
    if blocks != [] {
      var n := |blocks| - 1;
      var before := Bearing(src, blocks[..n]);
      BearingApart(src, blocks[..n]);
      forall k | 0 <= k < |before| ensures before[k].end < blocks[n].start {
        BearingMembers(src, blocks[..n], before[k]);
      }
    }
  }

  method BearingBlocks(src: string, blocks: seq<Span>) returns (refs: seq<Span>, toks: seq<nat>)
    requires Apart(src, blocks)
    ensures refs == Bearing(src, blocks) && Apart(src, refs) && Weighs(src, refs, toks)
  {
    hide Size, Framed;
    refs, toks := [], [];
    for i := 0 to |blocks|
      invariant refs == Bearing(src, blocks[..i]) && Weighs(src, refs, toks)
    {
      assert blocks[..i + 1][..i] == blocks[..i];
      var t := Size(src, blocks[i]);
      if t > 0 {
        refs, toks := refs + [blocks[i]], toks + [t];
      }
    }
    assert blocks[..|blocks|] == blocks;
    BearingApart(src, blocks);
  }

  // ----- the packing loop ----------------------------------------------------------------------------

  /** Where the loop may stand after its last chunk. */
  ghost predicate Resumes(w: seq<nat>, target: int, overlap: int, o: Origin, i: nat) {
    match o
    case Packed(a, b) => b < |w| && RestartsAt(w, a, b, target, overlap, i)
    case Piece(b) => i == b + 1
  }

  lemma MoreCovers(src: string, spans: seq<Span>, more: seq<Span>, b: Span)
    requires Covers(src, spans, b)
    ensures Covers(src, spans + more, b)
  {
    hide IsSpace;
    forall p | b.start <= p < b.end && p < |src| && !IsSpace(src[p]) ensures CoveredAt(spans + more, p) {
      var m :| 0 <= m < |spans| && spans[m].start <= p < spans[m].end;
      assert (spans + more)[m] == spans[m];
    }
  }

  lemma LastCovers(src: string, spans: seq<Span>, sp: Span, b: Span)
    requires Within(b, sp)
    ensures Covers(src, spans + [sp], b)
  {
    forall p | b.start <= p < b.end && p < |src| && !IsSpace(src[p]) ensures CoveredAt(spans + [sp], p) {
      assert (spans + [sp])[|spans|] == sp;
    }
  }

  lemma SuffixCovers(src: string, spans: seq<Span>, more: seq<Span>, b: Span)
    requires Covers(src, more, b)
    ensures Covers(src, spans + more, b)
  {
    hide IsSpace;
    forall p | b.start <= p < b.end && p < |src| && !IsSpace(src[p]) ensures CoveredAt(spans + more, p) {
      var m :| 0 <= m < |more| && more[m].start <= p < more[m].end;
      assert (spans + more)[|spans| + m] == more[m];
    }
  }

  /** The greedy run from a restart reaches at least as far as the run before it. */
  lemma RunFollows(w: seq<nat>, target: int, a: nat, b: nat, i: nat, j: nat)
    requires a < i <= b <= |w| && i < j <= |w| && Sum(w, i, b) <= target / 2 && target >= 0
    requires Sum(w, a, b) <= target
    requires j < |w| ==> w[j] > target || Sum(w, i, j) + w[j] > target
    ensures b <= j
  {
    if j < b {
      SumSplits(w, i, j + 1, b);
      SumHolds(w, a, j, b);
    }
  }

  /** A block that is too large is met only after the run before it has ended. */
  lemma OversizedFollows(w: seq<nat>, target: int, a: nat, b: nat, i: nat)
    requires a < i <= b <= |w| && i < |w| && Sum(w, a, b) <= target && w[i] > target
    ensures i == b
  {
    if i < b {
      SumHolds(w, a, i, b);
    }
  }

  lemma PieceFits(src: string, atoms: seq<Span>, w: seq<nat>, target: int, byRows: bool, i: nat, sp: Span)
    requires |w| == |atoms| && i < |atoms| && w[i] > target && IsPiece(src, atoms[i], target, sp)
    requires byRows ==> RowsWhole(src, atoms[i], target, sp)
    ensures Fits(src, atoms, w, target, byRows, sp, Piece(i))
  {
  }

  lemma PieceFollows(w: seq<nat>, target: int, overlap: int, i: nat, s: Span, s': Span)
    requires s.start < s'.start && s.end < s'.end
    ensures Follows(w, target, overlap, true, s, Piece(i), s', Piece(i))
  {
  }

  lemma {:induction false} ChainPieces(src: string, atoms: seq<Span>, w: seq<nat>, target: int, overlap: int, byRows: bool,
                                       raw: seq<Span>, from: seq<Origin>, i: nat, ps: seq<Span>, k: nat)
    requires |w| == |atoms| && Chained(src, atoms, w, target, overlap, byRows, true, raw, from)
    requires i < |atoms| && w[i] > target && Pieces(src, atoms[i], target, ps) && k <= |ps|
    requires byRows ==> forall m :: 0 <= m < |ps| ==> RowsWhole(src, atoms[i], target, ps[m])
    requires raw != [] ==> Follows(w, target, overlap, true, raw[|raw| - 1], from[|raw| - 1], ps[0], Piece(i))
    ensures Chained(src, atoms, w, target, overlap, byRows, true, raw + ps[..k], from + seq(k, _ => Piece(i)))
    decreases k
  {
    hide IsPiece, RowsWhole, Covers, Fits, Follows;
    if k == 0 {
      assert raw + ps[..0] == raw && from + seq(0, _ => Piece(i)) == from;
    } else {
      ChainPieces(src, atoms, w, target, overlap, byRows, raw, from, i, ps, k - 1);
      var r, f := raw + ps[..k - 1], from + seq(k - 1, _ => Piece(i));
      assert k > 1 ==> r[|r| - 1] == ps[k - 2] && f[|f| - 1] == Piece(i);
      assert k == 1 ==> r == raw && f == from;
      PieceFits(src, atoms, w, target, byRows, i, ps[k - 1]);
      if k > 1 {
        PieceFollows(w, target, overlap, i, ps[k - 2], ps[k - 1]);
      }
      ChainOne(src, atoms, w, target, overlap, byRows, true, r, f, ps[k - 1], Piece(i));
      assert r + [ps[k - 1]] == raw + ps[..k];
      assert f + [Piece(i)] == from + seq(k, _ => Piece(i));
    }
  }

  // ----- sizes ---------------------------------------------------------------------------------------

  /** Tokens between neighbouring blocks of the run from i to j. */
  function Stray(src: string, atoms: seq<Span>, i: nat, j: nat): int
    requires i < j <= |atoms| && forall k :: 0 <= k < |atoms| ==> atoms[k].start <= |src| && atoms[k].end <= |src|
  {
    if j == i + 1 then 0
    else Stray(src, atoms, i, j - 1) + Words(src, atoms[j - 1].start) - Words(src, atoms[j - 2].end)
  }

  lemma SizeIsWords(src: string, b: Span)
    requires Framed(src, b)
    ensures Size(src, b) == Words(src, b.end) - Words(src, b.start)
  {
    TokensOfSubstring(src, b.start, b.end);
  }

  /** A run of blocks holds its blocks' tokens and whatever stands between them. */
  lemma {:induction false} RunSize(src: string, atoms: seq<Span>, w: seq<nat>, i: nat, j: nat)
    requires Apart(src, atoms) && Weighs(src, atoms, w) && i < j <= |atoms|
    ensures Framed(src, Span(atoms[i].start, atoms[j - 1].end))
    ensures Size(src, Span(atoms[i].start, atoms[j - 1].end)) == Sum(w, i, j) + Stray(src, atoms, i, j)
    decreases j
  {
    hide Size, Words, IsSpace;
    assert Framed(src, atoms[i]) && Framed(src, atoms[j - 1]);
    assert i < j - 1 ==> atoms[i].end < atoms[j - 1].start;
    SizeIsWords(src, atoms[j - 1]);
    SizeIsWords(src, Span(atoms[i].start, atoms[j - 1].end));
    if i < j - 1 {
      RunSize(src, atoms, w, i, j - 1);
      SizeIsWords(src, Span(atoms[i].start, atoms[j - 2].end));
    } else {
      assert Sum(w, i, i) == 0;
    }
  }

  /** Only white space between neighbouring blocks. */
  ghost predicate Blank(src: string, atoms: seq<Span>) {
    forall k :: 0 <= k < |atoms| - 1 ==> BlankAfter(src, atoms, k)
  }

  ghost predicate BlankAfter(src: string, atoms: seq<Span>, k: nat)
    requires k < |atoms| - 1
  {
    atoms[k].end <= atoms[k + 1].start <= |src| && forall p :: atoms[k].end <= p < atoms[k + 1].start ==> IsSpace(src[p])
  }

  lemma {:induction false} BlankMeansNoStray(src: string, atoms: seq<Span>, i: nat, j: nat)
    requires Apart(src, atoms) && Blank(src, atoms) && i < j <= |atoms|
    ensures Stray(src, atoms, i, j) == 0
    decreases j
  {
    hide IsSpace;
    if j > i + 1 {
      BlankMeansNoStray(src, atoms, i, j - 1);
      assert BlankAfter(src, atoms, j - 2);
      BlankAddsNothing(src, atoms[j - 2].end, atoms[j - 1].start);
    }
  }

  lemma HasToken(src: string, b: Span, p: nat)
    requires Framed(src, b) && b.start <= p < b.end && !IsSpace(src[p])
    ensures Size(src, b) > 0
  {
    hide IsSpace, Scan;
    var sub := src[b.start..b.end];
    assert sub[p - b.start] == src[p];
    var i := ScanCovers(sub, |sub|, p - b.start);
  }

  // ----- rows ------------------------------------------------------------------------------------------

  function Shifted(ln: Span, d: nat): Span {
    Span(ln.start + d, ln.end + d)
  }

  lemma LineIsRow(src: string, b: Span, ln: Span)
    requires Framed(src, b) && Blocks.IsLine(src[b.start..b.end], ln)
    ensures RowOf(src, b, Shifted(ln, b.start)) && Framed(src, Shifted(ln, b.start))
  {
    var sub := src[b.start..b.end];
    assert ln.start > 0 ==> sub[ln.start - 1] == src[ln.start + b.start - 1];
    assert ln.end < |sub| ==> sub[ln.end] == src[ln.end + b.start];
    forall p | ln.start + b.start <= p < ln.end + b.start ensures src[p] != '\n' {
      assert sub[p - b.start] == src[p];
    }
  }

  lemma {:induction false} LinesOrdered(src: string, lines: seq<Span>, j: nat, k: nat)
    requires Blocks.AreLines(src, lines) && j < k < |lines|
    ensures lines[j].end < lines[k].start
    decreases k
  {
    assert lines[k - 1 + 1].start == lines[k - 1].end + 1;
    assert Blocks.IsLine(src, lines[k - 1]);
    if j < k - 1 {
      LinesOrdered(src, lines, j, k - 1);
    }
  }

  /** A row that holds a position is the line that holds it. */
  lemma SameRow(src: string, b: Span, r: Span, q: Span, p: nat)
    requires RowOf(src, b, r) && RowOf(src, b, q)
    requires r.start <= p < r.end && q.start <= p < q.end
    ensures r == q
  {
  }

  /** The line of a block at a position, found among its lines. */
  lemma RowAt(src: string, b: Span, lines: seq<Span>, p: nat) returns (k: nat)
    requires Framed(src, b) && Blocks.AreLines(src[b.start..b.end], lines)
    requires b.start <= p < b.end && src[p] != '\n'
    ensures k < |lines| && lines[k].start + b.start <= p < lines[k].end + b.start
  {
    var sub := src[b.start..b.end];
    assert sub[p - b.start] == src[p];
    assert lines != [];
    k := Blocks.LinesCover(sub, lines, |lines| - 1, p - b.start);
  }

  /** The token-bearing lines of a block. */
  method RowSpans(src: string, b: Span) returns (rows: seq<Span>, ghost lines: seq<Span>)
    requires Framed(src, b)
    ensures Apart(src, rows)
    ensures forall k :: 0 <= k < |rows| ==> RowOf(src, b, rows[k]) && Size(src, rows[k]) > 0
    ensures Blocks.AreLines(src[b.start..b.end], lines)
    ensures forall k :: 0 <= k < |lines| && Size(src, Shifted(lines[k], b.start)) > 0 ==> Shifted(lines[k], b.start) in rows
  {
    hide Size, IsSpace, RowOf, Blocks.IsLine, Opens;
    var lns := Blocks.LineSpans(src[b.start..b.end]);
    lines := lns;
    rows := [];
    for i := 0 to |lns|
      invariant Apart(src, rows)
      invariant forall k :: 0 <= k < |rows| ==> RowOf(src, b, rows[k]) && Size(src, rows[k]) > 0
      invariant forall k :: 0 <= k < i && Size(src, Shifted(lns[k], b.start)) > 0 ==> Shifted(lns[k], b.start) in rows
      invariant rows != [] ==> exists k :: 0 <= k < i && rows[|rows| - 1] == Shifted(lns[k], b.start)
    {
      var row := Shifted(lns[i], b.start);
      if Size(src, row) == 0 {
        continue;
      }
      LineIsRow(src, b, lns[i]);
      if rows != [] {
        var k :| 0 <= k < i && rows[|rows| - 1] == Shifted(lns[k], b.start);
        LinesOrdered(src[b.start..b.end], lns, k, i);
        ApartSnoc(src, rows, row);
      }
      rows := rows + [row];
    }
  }

  lemma ApartSnoc(src: string, rows: seq<Span>, row: Span)
    requires Apart(src, rows) && rows != [] && rows[|rows| - 1].end < row.start && Framed(src, row)
    ensures Apart(src, rows + [row])
  {
    hide IsSpace;
    forall k | 0 <= k < |rows| ensures rows[k].end < row.start {
      assert k < |rows| - 1 ==> rows[k].end < rows[|rows| - 1].start;
      assert Framed(src, rows[|rows| - 1]);
    }
  }

  // ----- what a chain of chunks guarantees -------------------------------------------------------------

  /** Starts and ends both move strictly forward. */
  lemma StepAdvances(src: string, atoms: seq<Span>, w: seq<nat>, target: int, overlap: int, byRows: bool, s: Span, o: Origin, s': Span, o': Origin)
    requires Apart(src, atoms) && Weighs(src, atoms, w)
    requires Fits(src, atoms, w, target, byRows, s, o) && Fits(src, atoms, w, target, byRows, s', o')
    requires Follows(w, target, overlap, false, s, o, s', o')
    ensures s.start < s'.start && s.end < s'.end
  {
    hide Apart, Weighs, RowsWhole, Framed, Sum;
    FitsNonEmpty(src, atoms, w, target, byRows, s, o);
    FitsNonEmpty(src, atoms, w, target, byRows, s', o');
    if o.Packed? && o'.Packed? {
      AtomsAdvance(src, atoms, w, o'.first, o.first);
      AtomsAdvance(src, atoms, w, o'.next - 1, o.next - 1);
    } else if o.Packed? {
      AtomsAdvance(src, atoms, w, o.next - 1, o'.block);
    } else if o'.Packed? {
      AtomsAdvance(src, atoms, w, o.block, o'.first);
    } else {
      AtomsAdvance(src, atoms, w, o.block, o'.block);
    }
  }

  lemma {:induction false} ChunksAdvance(src: string, atoms: seq<Span>, w: seq<nat>, target: int, overlap: int, byRows: bool,
                                         out: seq<Span>, from: seq<Origin>, j: nat, k: nat)
    requires Apart(src, atoms) && Weighs(src, atoms, w) && Chained(src, atoms, w, target, overlap, byRows, false, out, from)
    requires j < k < |out|
    ensures out[j].start < out[k].start && out[j].end < out[k].end
    decreases k
  {
    hide Apart, Fits, Follows;
    var i := k - 1;
    assert Follows(w, target, overlap, false, out[i], from[i], out[i + 1], from[i + 1]);
    StepAdvances(src, atoms, w, target, overlap, byRows, out[i], from[i], out[k], from[k]);
    if j < i {
      ChunksAdvance(src, atoms, w, target, overlap, byRows, out, from, j, i);
    }
  }

  /** A block within the target is never torn: each chunk holds all of it or none of it. */
  lemma SmallBlocksWhole(src: string, atoms: seq<Span>, w: seq<nat>, target: int, byRows: bool, sp: Span, o: Origin, k: nat)
    requires Apart(src, atoms) && Weighs(src, atoms, w) && Fits(src, atoms, w, target, byRows, sp, o)
    requires k < |atoms| && w[k] <= target
    ensures Whole(atoms[k], sp)
  {
    hide RowsWhole, Framed, Sum;
    if o.Packed? {
      AtomsAdvance(src, atoms, w, o.first, k);
      AtomsAdvance(src, atoms, w, k, o.next - 1);
    } else {
      AtomsAdvance(src, atoms, w, o.block, k);
      AtomsAdvance(src, atoms, w, k, o.block);
    }
  }

  /** A chunk's tokens are bounded by the target plus the tokens standing between its blocks. */
  lemma ChunkSize(src: string, atoms: seq<Span>, w: seq<nat>, target: int, byRows: bool, sp: Span, o: Origin)
    requires Apart(src, atoms) && Weighs(src, atoms, w) && Fits(src, atoms, w, target, byRows, sp, o)
    ensures Framed(src, sp)
    ensures 0 < Size(src, sp) <= target + (if o.Packed? then Stray(src, atoms, o.first, o.next) else 0)
  {
    hide RowsWhole, Sum, Size, IsSpace;
    if o.Packed? {
      RunSize(src, atoms, w, o.first, o.next);
      SumHolds(w, o.first, o.first, o.next);
      StrayNonNegative(src, atoms, o.first, o.next);
    }
  }

  lemma {:induction false} StrayNonNegative(src: string, atoms: seq<Span>, i: nat, j: nat)
    requires Apart(src, atoms) && i < j <= |atoms|
    ensures Stray(src, atoms, i, j) >= 0
    decreases j
  {
    hide Words, IsSpace;
    if j > i + 1 {
      StrayNonNegative(src, atoms, i, j - 1);
      assert atoms[j - 2].end < atoms[j - 1].start;
      WordsMonotone(src, atoms[j - 2].end, atoms[j - 1].start);
    }
  }

  lemma {:induction false} BearingAll(src: string, blocks: seq<Span>)
    requires forall k :: 0 <= k < |blocks| ==> Size(src, blocks[k]) > 0
    ensures Bearing(src, blocks) == blocks
    decreases |blocks|
  {
    hide Size;
    if blocks != [] {
      BearingAll(src, blocks[..|blocks| - 1]);
    }
  }

  // ----- packing -----------------------------------------------------------------------------------------

  /** Splits an oversized table block at its rows; small rows stay whole. */
  method RowPieces(src: string, b: Span, target: int, overlap: int) returns (ps: seq<Span>)
    requires target >= 1 && Framed(src, b) && Size(src, b) > 0
    ensures Pieces(src, b, target, ps) && Lapped(src, b, target, overlap, true, ps)
    ensures forall m :: 0 <= m < |ps| ==> RowsWhole(src, b, target, ps[m])
    decreases true, 0
  {
    hide Size, IsSpace, RowOf, Framed, Apart, Weighs, Chained, Covers, RowsWhole, Pieces, Lapping, Lapped;
    var rows, lines := RowSpans(src, b);
    BearingAll(src, rows);
    ghost var atoms, w, from;
    ps, atoms, w, from := PackBlocks(src, rows, target, overlap, false);
    RowsArePieces(src, b, lines, rows, w, target, overlap, ps, from);
    RowsBlank(src, b, lines, rows);
    RowsComplete(src, b, lines, rows);
    RowsLap(src, b, rows, w, target, overlap, ps, from);
  }

  lemma RowsComplete(src: string, b: Span, lines: seq<Span>, rows: seq<Span>)
    requires Framed(src, b) && Blocks.AreLines(src[b.start..b.end], lines) && Apart(src, rows)
    requires forall k :: 0 <= k < |rows| ==> RowOf(src, b, rows[k]) && Size(src, rows[k]) > 0
    requires forall k :: 0 <= k < |lines| && Size(src, Shifted(lines[k], b.start)) > 0 ==> Shifted(lines[k], b.start) in rows
    ensures AreRows(src, b, rows)
  {
    hide Size, IsSpace, Apart, Blocks.IsLine;
    forall r | RowOf(src, b, r) && Size(src, r) > 0 ensures r in rows {
      var p := TokenIn(src, r);
      var k := RowFound(src, b, lines, rows, p);
      SameRow(src, b, r, rows[k], p);
    }
  }

  lemma RowsLap(src: string, b: Span, rows: seq<Span>, w: seq<nat>, target: int, overlap: int, ps: seq<Span>, from: seq<Origin>)
    requires target >= 1 && AreRows(src, b, rows) && Weighs(src, rows, w) && Blank(src, rows)
    requires Chained(src, rows, w, target, overlap, false, false, ps, from) && Lapping(src, rows, target, overlap, false, ps, from)
    ensures Lapped(src, b, target, overlap, true, ps)
  {
    hide Apart, RowOf, Size, Blank, Fits, Follows, Laps;
    forall k | 0 <= k < |ps| - 1 ensures Laps(src, b, target, overlap, true, ps[k], ps[k + 1]) {
      assert Follows(w, target, overlap, false, ps[k], from[k], ps[k + 1], from[k + 1]);
      RowsShare(src, b, rows, w, target, overlap, ps[k], from[k], ps[k + 1], from[k + 1]);
    }
  }

  lemma RowsShare(src: string, b: Span, rows: seq<Span>, w: seq<nat>, target: int, overlap: int,
                  s: Span, o: Origin, s': Span, o': Origin)
    requires target >= 1 && AreRows(src, b, rows) && Weighs(src, rows, w) && Blank(src, rows)
    requires Fits(src, rows, w, target, false, s, o) && Fits(src, rows, w, target, false, s', o')
    requires Follows(w, target, overlap, false, s, o, s', o')
    requires o.Piece? && o == o' && o.block < |rows| ==> Laps(src, rows[o.block], target, overlap, false, s, s')
    ensures Laps(src, b, target, overlap, true, s, s')
  {
    hide Apart, RowOf, Weighs, Blank, Framed, Sum, Size, Stray, CarriesOver;
    assert RowStep(src, b, target, overlap, rows, w, s, o, s', o');
    NoTokensInside(src, Span(s'.start, s.end));
    if o.Packed? && o'.Packed? {
      if o'.first < o.next {
        RunSize(src, rows, w, o'.first, o.next);
        BlankMeansNoStray(src, rows, o'.first, o.next);
      } else {
        AtomsAdvance(src, rows, w, o.next - 1, o'.first);
      }
    } else if o.Packed? {
      AtomsAdvance(src, rows, w, o.next - 1, o'.block);
    } else if o'.Packed? {
      AtomsAdvance(src, rows, w, o.block, o'.first);
    } else if o.block != o'.block {
      AtomsAdvance(src, rows, w, o.block, o'.block);
    }
  }

  lemma NoTokensInside(src: string, b: Span)
    ensures b.end < b.start ==> Size(src, b) == 0
  {
  }

  method PackBlocks(src: string, blocks: seq<Span>, target: int, overlap: int, byRows: bool)
    returns (out: seq<Span>, ghost atoms: seq<Span>, ghost w: seq<nat>, ghost from: seq<Origin>)
    requires target >= 1 && Apart(src, blocks)
    ensures atoms == Bearing(src, blocks) && Apart(src, atoms) && Weighs(src, atoms, w)
    ensures Chained(src, atoms, w, target, overlap, byRows, false, out, from) && Lapping(src, atoms, target, overlap, byRows, out, from)
    ensures forall k :: 0 <= k < |atoms| ==> Covers(src, out, atoms[k])
    decreases byRows, 3
  {
    hide Size, IsSpace, Framed, Apart, Covers, Lapping;
    var refs, toks := BearingBlocks(src, blocks);
    atoms, w := refs, toks;
    var raw;
    ghost var origins;
    raw, origins := PackLoop(src, refs, toks, target, overlap, byRows);
    out := DedupeSpans(raw);
    from := DedupeOrigins(raw, origins);
    DedupeChained(src, atoms, w, target, overlap, byRows, raw, origins);
    DedupeLapping(src, atoms, w, target, overlap, byRows, raw, origins);
    forall k | 0 <= k < |atoms| ensures Covers(src, out, atoms[k]) {
      DedupeKeepsCover(src, raw, atoms[k]);
    }
  }

  lemma DedupeKeepsCover(src: string, raw: seq<Span>, b: Span)
    requires Covers(src, raw, b)
    ensures Covers(src, Dedupe(raw), b)
  {
    hide IsSpace, CoveredAt, Dedupe;
    forall p | b.start <= p < b.end && p < |src| && !IsSpace(src[p]) ensures CoveredAt(Dedupe(raw), p) {
      DedupeCovers(raw, p);
    }
  }

  /** How many blocks the chunks up to this origin account for. */
  function Reached(o: Origin): nat {
    match o
    case Packed(_, b) => b
    case Piece(b) => b + 1
  }

  lemma PiecesFollow(src: string, atoms: seq<Span>, w: seq<nat>, target: int, overlap: int, byRows: bool, s: Span, o: Origin, i: nat, sp: Span)
    requires |w| == |atoms| && Fits(src, atoms, w, target, byRows, s, o) && Resumes(w, target, overlap, o, i) && i < |w| && w[i] > target
    ensures Follows(w, target, overlap, true, s, o, sp, Piece(i)) && Reached(o) == i
  {
    if o.Packed? {
      OversizedFollows(w, target, o.first, o.next, i);
    }
  }

  lemma RunContinues(src: string, atoms: seq<Span>, w: seq<nat>, target: int, overlap: int, byRows: bool, s: Span, o: Origin,
                     i: nat, j: nat, sp: Span)
    requires |w| == |atoms| && Fits(src, atoms, w, target, byRows, s, o) && Resumes(w, target, overlap, o, i) && target >= 0
    requires i < j <= |w| && (j < |w| ==> w[j] > target || Sum(w, i, j) + w[j] > target)
    ensures Follows(w, target, overlap, true, s, o, sp, Packed(i, j)) && i <= Reached(o) <= j
  {
    if o.Packed? {
      RunFollows(w, target, o.first, o.next, i, j);
    }
  }

  lemma CoverPieces(src: string, refs: seq<Span>, raw: seq<Span>, ps: seq<Span>, i: nat)
    requires i < |refs| && (forall k :: 0 <= k < i ==> Covers(src, raw, refs[k])) && Covers(src, ps, refs[i])
    ensures forall k :: 0 <= k < i + 1 ==> Covers(src, raw + ps, refs[k])
  {
    hide Covers;
    forall k | 0 <= k < i + 1 ensures Covers(src, raw + ps, refs[k]) {
      if k < i {
        MoreCovers(src, raw, ps, refs[k]);
      } else {
        SuffixCovers(src, raw, ps, refs[k]);
      }
    }
  }

  lemma CoverRun(src: string, refs: seq<Span>, w: seq<nat>, raw: seq<Span>, i: nat, reach: nat, j: nat)
    requires Apart(src, refs) && Weighs(src, refs, w) && i <= reach <= j && i < j <= |refs|
    requires forall k :: 0 <= k < reach ==> Covers(src, raw, refs[k])
    ensures forall k :: 0 <= k < j ==> Covers(src, raw + [Span(refs[i].start, refs[j - 1].end)], refs[k])
  {
    hide Covers, Framed;
    var sp := Span(refs[i].start, refs[j - 1].end);
    forall k | 0 <= k < j ensures Covers(src, raw + [sp], refs[k]) {
      if k < reach {
        MoreCovers(src, raw, [sp], refs[k]);
      } else {
        AtomsAdvance(src, refs, w, i, k);
        AtomsAdvance(src, refs, w, k, j - 1);
        LastCovers(src, raw, sp, refs[k]);
      }
    }
  }

  lemma RunFits(src: string, atoms: seq<Span>, w: seq<nat>, target: int, byRows: bool, i: nat, j: nat)
    requires |w| == |atoms| && i < j <= |w| && Sum(w, i, j) <= target
    requires j < |w| ==> w[j] > target || Sum(w, i, j) + w[j] > target
    ensures Fits(src, atoms, w, target, byRows, Span(atoms[i].start, atoms[j - 1].end), Packed(i, j))
  {
  }

  lemma ResumeRun(w: seq<nat>, target: int, overlap: int, i: nat, j: nat, k: nat)
    requires j < |w| && RestartsAt(w, i, j, target, overlap, k)
    ensures Resumes(w, target, overlap, Packed(i, j), k)
  {
  }

  /** The splitter for a block that exceeds the target. */
  method Oversized(src: string, b: Span, target: int, overlap: int, byRows: bool) returns (ps: seq<Span>)
    requires target >= 1 && Framed(src, b) && Size(src, b) > 0
    ensures Pieces(src, b, target, ps) && Lapped(src, b, target, overlap, byRows, ps)
    ensures byRows ==> forall m :: 0 <= m < |ps| ==> RowsWhole(src, b, target, ps[m])
    decreases byRows, 1
  {
    hide Size, IsSpace, Framed, Covers, Pieces, RowsWhole, Lapped;
    if byRows {
      ps := RowPieces(src, b, target, overlap);
    } else {
      ps := WindowPieces(src, b, target, overlap);
    }
  }

  method PackLoop(src: string, refs: seq<Span>, w: seq<nat>, target: int, overlap: int, byRows: bool)
    returns (raw: seq<Span>, ghost from: seq<Origin>)
    requires target >= 1 && Apart(src, refs) && Weighs(src, refs, w)
    ensures |raw| == |from| && Chained(src, refs, w, target, overlap, byRows, true, raw, from)
    ensures Lapping(src, refs, target, overlap, byRows, raw, from)
    ensures forall k :: 0 <= k < |refs| ==> Covers(src, raw, refs[k])
    decreases byRows, 2
  {
    hide Size, IsSpace, Framed, Covers, Fits, Follows, Resumes, IsPiece, RowsWhole, Sum, Laps, Lapped;
    raw, from := [], [];
    var i, n := 0, |refs|;
    while i < n
      invariant 0 <= i <= n && Chained(src, refs, w, target, overlap, byRows, true, raw, from)
      invariant Lapping(src, refs, target, overlap, byRows, raw, from)
      invariant raw == [] ==> i == 0
      invariant raw != [] ==> Resumes(w, target, overlap, from[|raw| - 1], i)
      invariant raw != [] ==> Reached(from[|raw| - 1]) <= n
                              && forall k :: 0 <= k < Reached(from[|raw| - 1]) ==> Covers(src, raw, refs[k])
      decreases n - i
    {
      ghost var last := |raw| - 1;
      if w[i] > target {
        var ps := Oversized(src, refs[i], target, overlap, byRows);
        if raw != [] {
          PiecesFollow(src, refs, w, target, overlap, byRows, raw[last], from[last], i, ps[0]);
        }
        ChainPieces(src, refs, w, target, overlap, byRows, raw, from, i, ps, |ps|);
        LappingPieces(src, refs, target, overlap, byRows, raw, from, i, ps, |ps|);
        CoverPieces(src, refs, raw, ps, i);
        assert ps[..|ps|] == ps;
        raw, from := raw + ps, from + seq(|ps|, _ => Piece(i));
        ResumePiece(w, target, overlap, i);
        i := i + 1;
        continue;
      }
      var j := Fill(w, i, target);
      var sp := Span(refs[i].start, refs[j - 1].end);
      RunFits(src, refs, w, target, byRows, i, j);
      if raw != [] {
        RunContinues(src, refs, w, target, overlap, byRows, raw[last], from[last], i, j, sp);
      }
      ChainOne(src, refs, w, target, overlap, byRows, true, raw, from, sp, Packed(i, j));
      LappingRun(src, refs, target, overlap, byRows, raw, from, sp, Packed(i, j));
      CoverRun(src, refs, w, raw, i, if raw == [] then 0 else Reached(from[last]), j);
      raw, from := raw + [sp], from + [Packed(i, j)];
      if j == n {
        return;
      }
      var k := Restart(w, i, j, target, overlap);
      ResumeRun(w, target, overlap, i, j, k);
      i := k;
    }
    if raw != [] {
      ResumesAtEnd(w, target, overlap, from[|raw| - 1], n);
    }
  }

  lemma ResumePiece(w: seq<nat>, target: int, overlap: int, i: nat)
    ensures Resumes(w, target, overlap, Piece(i), i + 1)
  {
  }

  lemma ResumesAtEnd(w: seq<nat>, target: int, overlap: int, o: Origin, n: nat)
    requires Resumes(w, target, overlap, o, n) && n == |w|
    ensures Reached(o) == n
  {
  }

  /** Chunks made of a block's rows are pieces of the block, and no small row is torn. */
  lemma RowsArePieces(src: string, b: Span, lines: seq<Span>, rows: seq<Span>, w: seq<nat>, target: int, overlap: int,
                      ps: seq<Span>, from: seq<Origin>)
    requires Framed(src, b) && Size(src, b) > 0 && Blocks.AreLines(src[b.start..b.end], lines)
    requires Apart(src, rows) && Weighs(src, rows, w) && Chained(src, rows, w, target, overlap, false, false, ps, from)
    requires forall k :: 0 <= k < |rows| ==> RowOf(src, b, rows[k]) && Size(src, rows[k]) > 0
    requires forall k :: 0 <= k < |lines| && Size(src, Shifted(lines[k], b.start)) > 0 ==> Shifted(lines[k], b.start) in rows
    requires forall k :: 0 <= k < |rows| ==> Covers(src, ps, rows[k])
    ensures Pieces(src, b, target, ps)
    ensures forall m :: 0 <= m < |ps| ==> RowsWhole(src, b, target, ps[m])
  {
    hide Size, IsSpace, RowOf, Framed, Apart, Covers, Fits, Follows, Stray, IsPiece, RowsWhole;
    RowsBlank(src, b, lines, rows);
    RowsCover(src, b, lines, rows, ps);
    forall m | 0 <= m < |ps| ensures IsPiece(src, b, target, ps[m]) && RowsWhole(src, b, target, ps[m]) {
      RowChunk(src, b, rows, w, target, ps[m], from[m]);
      RowsStayWhole(src, b, lines, rows, w, target, ps[m], from[m]);
    }
    forall j, k | 0 <= j < k < |ps| ensures ps[j].start < ps[k].start && ps[j].end < ps[k].end {
      ChunksAdvance(src, rows, w, target, overlap, false, ps, from, j, k);
    }
    SomePiece(src, b, ps);
  }

  lemma SomePiece(src: string, b: Span, ps: seq<Span>)
    requires Framed(src, b) && Size(src, b) > 0 && Covers(src, ps, b)
    ensures ps != []
  {
    var sub := src[b.start..b.end];
    var t := Tokenized(sub)[0];
    ScanRuns(sub, |sub|);
    assert IsRunUpTo(sub, |sub|, t);
    assert src[t.start + b.start] == sub[t.start];
    assert CoveredAt(ps, t.start + b.start);
  }

  /** The row at a non-space position of the block is among the rows. */
  lemma RowFound(src: string, b: Span, lines: seq<Span>, rows: seq<Span>, p: nat) returns (k: nat)
    requires Framed(src, b) && Blocks.AreLines(src[b.start..b.end], lines)
    requires forall k :: 0 <= k < |lines| && Size(src, Shifted(lines[k], b.start)) > 0 ==> Shifted(lines[k], b.start) in rows
    requires b.start <= p < b.end && !IsSpace(src[p])
    ensures k < |rows| && rows[k].start <= p < rows[k].end && RowOf(src, b, rows[k])
  {
    hide Size, RowOf;
    assert src[p] != '\n';
    var i := RowAt(src, b, lines, p);
    LineIsRow(src, b, lines[i]);
    HasToken(src, Shifted(lines[i], b.start), p);
    k :| 0 <= k < |rows| && rows[k] == Shifted(lines[i], b.start);
  }

  lemma RowsBlank(src: string, b: Span, lines: seq<Span>, rows: seq<Span>)
    requires Framed(src, b) && Blocks.AreLines(src[b.start..b.end], lines) && Apart(src, rows)
    requires forall k :: 0 <= k < |rows| ==> RowOf(src, b, rows[k]) && Size(src, rows[k]) > 0
    requires forall k :: 0 <= k < |lines| && Size(src, Shifted(lines[k], b.start)) > 0 ==> Shifted(lines[k], b.start) in rows
    ensures Blank(src, rows)
  {
    hide Size, IsSpace;
    forall k | 0 <= k < |rows| - 1 ensures BlankAfter(src, rows, k) {
      assert RowOf(src, b, rows[k]) && RowOf(src, b, rows[k + 1]);
      forall p | rows[k].end <= p < rows[k + 1].start ensures IsSpace(src[p]) {
        if !IsSpace(src[p]) {
          var i := RowFound(src, b, lines, rows, p);
          NotBetween(src, rows, k, i, p);
        }
      }
    }
  }

  lemma NotBetween(src: string, rows: seq<Span>, k: nat, i: nat, p: nat)
    requires Apart(src, rows) && k < |rows| - 1 && i < |rows| && rows[k].end <= p < rows[k + 1].start
    ensures !(rows[i].start <= p < rows[i].end)
  {
    assert Framed(src, rows[i]) && Framed(src, rows[k]) && Framed(src, rows[k + 1]);
    if i < k {
      assert rows[i].end < rows[k].start;
    } else if i > k + 1 {
      assert rows[k + 1].end < rows[i].start;
    }
  }

  lemma RowsCover(src: string, b: Span, lines: seq<Span>, rows: seq<Span>, ps: seq<Span>)
    requires Framed(src, b) && Blocks.AreLines(src[b.start..b.end], lines)
    requires forall k :: 0 <= k < |lines| && Size(src, Shifted(lines[k], b.start)) > 0 ==> Shifted(lines[k], b.start) in rows
    requires forall k :: 0 <= k < |rows| ==> Covers(src, ps, rows[k])
    ensures Covers(src, ps, b)
  {
    hide Size, IsSpace, CoveredAt, RowOf;
    forall p | b.start <= p < b.end && p < |src| && !IsSpace(src[p]) ensures CoveredAt(ps, p) {
      var k := RowFound(src, b, lines, rows, p);
      assert Covers(src, ps, rows[k]);
    }
  }

  lemma RowChunk(src: string, b: Span, rows: seq<Span>, w: seq<nat>, target: int, sp: Span, o: Origin)
    requires Apart(src, rows) && Weighs(src, rows, w) && Fits(src, rows, w, target, false, sp, o) && Blank(src, rows)
    requires forall k :: 0 <= k < |rows| ==> RowOf(src, b, rows[k])
    ensures IsPiece(src, b, target, sp)
  {
    hide Size, IsSpace, Sum, Framed, Blank, Stray;
    ChunkSize(src, rows, w, target, false, sp, o);
    if o.Packed? {
      BlankMeansNoStray(src, rows, o.first, o.next);
      assert RowOf(src, b, rows[o.first]) && RowOf(src, b, rows[o.next - 1]);
    } else {
      assert RowOf(src, b, rows[o.block]);
    }
  }

  lemma RowsStayWhole(src: string, b: Span, lines: seq<Span>, rows: seq<Span>, w: seq<nat>, target: int, sp: Span, o: Origin)
    requires Framed(src, b) && Blocks.AreLines(src[b.start..b.end], lines)
    requires Apart(src, rows) && Weighs(src, rows, w) && Fits(src, rows, w, target, false, sp, o)
    requires forall k :: 0 <= k < |rows| ==> RowOf(src, b, rows[k]) && Size(src, rows[k]) > 0
    requires forall k :: 0 <= k < |lines| && Size(src, Shifted(lines[k], b.start)) > 0 ==> Shifted(lines[k], b.start) in rows
    ensures RowsWhole(src, b, target, sp)
  {
    hide Size, IsSpace, Fits, Apart, Blocks.IsLine;
    forall r | RowOf(src, b, r) && 0 < Size(src, r) <= target ensures Whole(r, sp) {
      var p := TokenIn(src, r);
      var k := RowFound(src, b, lines, rows, p);
      SameRow(src, b, r, rows[k], p);
      SmallBlocksWhole(src, rows, w, target, false, sp, o, k);
    }
  }

  lemma TokenIn(src: string, r: Span) returns (p: nat)
    requires r.start <= r.end <= |src| && Size(src, r) > 0
    ensures r.start <= p < r.end && !IsSpace(src[p])
  {
    hide IsSpace;
    var sub := src[r.start..r.end];
    var t := Tokenized(sub)[0];
    ScanRuns(sub, |sub|);
    assert IsRunUpTo(sub, |sub|, t);
    assert src[t.start + r.start] == sub[t.start];
    p := t.start + r.start;
  }
}
