/** Splitting a source into blocks: lines are classified one by one and grouped into spans. */
module Blocks {
  import opened Tokens
  import opened Windows

  /** A source kind; chat carries the test for a line that opens a speaker's turn. */
  datatype Kind = Prose | Code | Table | Slides | Chat(turn: string -> bool)

  // ----- lines -----------------------------------------------------------------------------------

  ghost predicate IsLine(src: string, ln: Span) {
    && ln.start <= ln.end <= |src|
    && (ln.start == 0 || src[ln.start - 1] == '\n')
    && (if ln.end == |src| then ln.start < ln.end else src[ln.end] == '\n')
    && (forall p :: ln.start <= p < ln.end ==> src[p] != '\n')
  }

  /** All the lines, in order, each right after the newline of the one before. */
  ghost predicate AreLines(src: string, lines: seq<Span>) {
    && (forall k :: 0 <= k < |lines| ==> IsLine(src, lines[k]))
    && (forall k :: 0 <= k < |lines| - 1 ==> lines[k + 1].start == lines[k].end + 1)
    && (if lines == [] then |src| == 0
        else lines[0].start == 0 && (lines[|lines| - 1].end == |src| || lines[|lines| - 1].end + 1 == |src|))
  }

  /** The lines that end before position start. */
  ghost predicate LinesBefore(src: string, lines: seq<Span>, start: nat) {
    && (forall k :: 0 <= k < |lines| ==> IsLine(src, lines[k]))
    && (forall k :: 0 <= k < |lines| - 1 ==> lines[k + 1].start == lines[k].end + 1)
    && (if lines == [] then start == 0 else lines[0].start == 0 && lines[|lines| - 1].end + 1 == start)
  }

  lemma NextLine(src: string, lines: seq<Span>, ln: Span)
    requires LinesBefore(src, lines, ln.start) && IsLine(src, ln)
    ensures LinesBefore(src, lines + [ln], ln.end + 1)
  {
    hide IsLine;
  }

  method LineSpans(src: string) returns (out: seq<Span>)
    ensures AreLines(src, out)
  {
    hide LinesBefore;
    out := [];
    var start := 0;
    NoLines(src);
    for i := 0 to |src|
      invariant 0 <= start <= i
      invariant forall p :: start <= p < i ==> src[p] != '\n'
      invariant start == 0 || src[start - 1] == '\n'
      invariant LinesBefore(src, out, start)
    {
      if src[i] == '\n' {
        NextLine(src, out, Span(start, i));
        out := out + [Span(start, i)];
        start := i + 1;
      }
    }
    if start < |src| {
      NextLine(src, out, Span(start, |src|));
      out := out + [Span(start, |src|)];
      LastLine(src, out, |src| + 1);
    } else {
      LastLine(src, out, start);
    }
  }

  lemma NoLines(src: string)
    ensures LinesBefore(src, [], 0)
  {
  }

  lemma LastLine(src: string, lines: seq<Span>, start: nat)
    requires LinesBefore(src, lines, start) && |src| <= start <= |src| + 1
    ensures AreLines(src, lines)
  {
    hide IsLine;
  }

  lemma {:induction false} SameLine(src: string, a: seq<Span>, b: seq<Span>, k: nat)
    requires AreLines(src, a) && AreLines(src, b) && k < |a| && k < |b|
    ensures a[k] == b[k]
  {
    assert IsLine(src, a[k]) && IsLine(src, b[k]);
    if k > 0 {
      SameLine(src, a, b, k - 1);
      assert a[k - 1 + 1].start == a[k - 1].end + 1 && b[k - 1 + 1].start == b[k - 1].end + 1;
    }
  }

  lemma NoFurtherLine(src: string, a: seq<Span>, b: seq<Span>)
    requires AreLines(src, a) && AreLines(src, b)
    ensures |b| <= |a|
  {
    if |b| > |a| {
      assert IsLine(src, b[|a|]);
      if |a| > 0 {
        SameLine(src, a, b, |a| - 1);
      }
    }
  }

  /** A source has one division into lines. */
  lemma LinesAreUnique(src: string, a: seq<Span>, b: seq<Span>)
    requires AreLines(src, a) && AreLines(src, b)
    ensures a == b
  {
    NoFurtherLine(src, a, b);
    NoFurtherLine(src, b, a);
    forall k | 0 <= k < |a| ensures a[k] == b[k] {
      SameLine(src, a, b, k);
    }
  }

  /** Every character other than a newline lies on some line. */
  lemma {:induction false} LinesCover(src: string, lines: seq<Span>, n: nat, p: nat) returns (k: nat)
    requires AreLines(src, lines) && n < |lines|
    requires p <= lines[n].end && p < |src| && src[p] != '\n'
    ensures k <= n && lines[k].start <= p < lines[k].end
  {
    if p >= lines[n].start {
      assert IsLine(src, lines[n]);
      k := n;
    } else {
      assert IsLine(src, lines[n]);
      assert lines[n - 1 + 1].start == lines[n - 1].end + 1;
      k := LinesCover(src, lines, n - 1, p);
    }
  }

  // ----- grouping --------------------------------------------------------------------------------

  /** What a line does: nothing; ends the current block; joins it; opens a new one; joins and then ends it. */
  datatype Action = Skip | Break | Join | Open | Close

  predicate Member(a: Action) {
    a.Join? || a.Open? || a.Close?
  }

  /** The blocks finished so far and the lines of the one being collected. */
  datatype Grouping = Grouping(blocks: seq<Span>, cur: seq<Span>)

  function Flush(g: Grouping): Grouping {
    if g.cur == [] then g else Grouping(g.blocks + [Span(g.cur[0].start, g.cur[|g.cur| - 1].end)], [])
  }

  function Add(g: Grouping, ln: Span): Grouping {
    g.(cur := g.cur + [ln])
  }

  function Take(g: Grouping, ln: Span, a: Action): Grouping {
    match a
    case Skip => g
    case Break => Flush(g)
    case Join => Add(g, ln)
    case Open => Add(Flush(g), ln)
    case Close => Flush(Add(g, ln))
  }

  function Group(lines: seq<Span>, actions: seq<Action>, n: nat): Grouping
    requires n <= |lines| == |actions|
  {
    if n == 0 then Grouping([], []) else Take(Group(lines, actions, n - 1), lines[n - 1], actions[n - 1])
  }

  function Grouped(lines: seq<Span>, actions: seq<Action>): seq<Span>
    requires |lines| == |actions|
  {
    Flush(Group(lines, actions, |lines|)).blocks
  }

  // ----- the rules, line by line -----------------------------------------------------------------

  function Trim(s: string): string
  {
    if s != [] && IsSpace(s[0]) then Trim(s[1..])
    else if s != [] && IsSpace(s[|s| - 1]) then Trim(s[..|s| - 1])
    else s
  }

  function Text(src: string, ln: Span): string {
    if ln.start <= ln.end <= |src| then Trim(src[ln.start..ln.end]) else ""
  }

  function ProseAction(text: string): Action {
    if text == "" then Break else if "#" <= text then Open else Join
  }

  function ChatAction(text: string, turn: string -> bool): Action {
    if text == "" then Break else if turn(text) then Open else Join
  }

  predicate IsSeparator(text: string) {
    |text| >= 3 && forall i :: 0 <= i < |text| ==> text[i] == '-'
  }

  function SlideAction(text: string): Action {
    if IsSeparator(text) then Break else if text == "" then Skip else Join
  }

  predicate IsFence(text: string) {
    "```" <= text
  }

  /** Whether line n lies inside a fence: an odd number of fence lines precede it. */
  function InFence(texts: seq<string>, n: nat): bool
    requires n <= |texts|
  {
    if n == 0 then false else InFence(texts, n - 1) != IsFence(texts[n - 1])
  }

  function CodeAction(text: string, inFence: bool): Action {
    if IsFence(text) then (if inFence then Close else Open)
    else if inFence then Join
    else if text == "" then Break
    else Join
  }

  predicate IsRow(text: string) {
    "|" <= text
  }

  /** Whether the line before line n is a table row. */
  function AfterRow(texts: seq<string>, n: nat): bool
    requires n <= |texts|
  {
    n > 0 && IsRow(texts[n - 1])
  }

  function TableAction(text: string, afterRow: bool): Action {
    if !IsRow(text) && text == "" then Break
    else if IsRow(text) != afterRow then Open
    else Join
  }

  function Texts(src: string, lines: seq<Span>): (t: seq<string>)
    ensures |t| == |lines| && forall k :: 0 <= k < |lines| ==> t[k] == Text(src, lines[k])
  {
    seq(|lines|, k requires 0 <= k < |lines| => Text(src, lines[k]))
  }

  function ActionAt(texts: seq<string>, kind: Kind, k: nat): Action
    requires k < |texts|
  {
    match kind
    case Prose => ProseAction(texts[k])
    case Code => CodeAction(texts[k], InFence(texts, k))
    case Table => TableAction(texts[k], AfterRow(texts, k))
    case Slides => SlideAction(texts[k])
    case Chat(turn) => ChatAction(texts[k], turn)
  }

  function Actions(src: string, lines: seq<Span>, kind: Kind): (a: seq<Action>)
    ensures |a| == |lines|
    ensures forall k :: 0 <= k < |lines| ==> a[k] == ActionAt(Texts(src, lines), kind, k)
  {
    var texts := Texts(src, lines);
    seq(|lines|, k requires 0 <= k < |lines| => ActionAt(texts, kind, k))
  }

  // ----- the five splitters ----------------------------------------------------------------------

  method ProseBlocks(src: string, lines: seq<Span>) returns (blocks: seq<Span>)
    ensures blocks == Grouped(lines, Actions(src, lines, Prose))
  {
    hide Text;
    ghost var actions := Actions(src, lines, Prose);
    var g := Grouping([], []);
    for i := 0 to |lines|
      invariant g == Group(lines, actions, i)
    {
      var trimmed := Text(src, lines[i]);
      if trimmed == "" {
        g := Flush(g);
        continue;
      }
      if "#" <= trimmed && |g.cur| > 0 {
        g := Flush(g);
      }
      g := Add(g, lines[i]);
    }
    blocks := Flush(g).blocks;
  }

  method CodeBlocks(src: string, lines: seq<Span>) returns (blocks: seq<Span>)
    ensures blocks == Grouped(lines, Actions(src, lines, Code))
  {
    hide Text;
    ghost var actions, texts := Actions(src, lines, Code), Texts(src, lines);
    var g := Grouping([], []);
    var inFence := false;
    for i := 0 to |lines|
      invariant g == Group(lines, actions, i) && inFence == InFence(texts, i)
    {
      var trimmed := Text(src, lines[i]);
      if IsFence(trimmed) {
        if inFence {
          g := Flush(Add(g, lines[i]));
          inFence := false;
          continue;
        }
        g := Flush(g);
        inFence := true;
        g := Add(g, lines[i]);
        continue;
      }
      if inFence {
        g := Add(g, lines[i]);
        continue;
      }
      if trimmed == "" {
        g := Flush(g);
        continue;
      }
      g := Add(g, lines[i]);
    }
    blocks := Flush(g).blocks;
  }

  method TableBlocks(src: string, lines: seq<Span>) returns (blocks: seq<Span>)
    ensures blocks == Grouped(lines, Actions(src, lines, Table))
  {
    hide Text;
    ghost var actions, texts := Actions(src, lines, Table), Texts(src, lines);
    var g := Grouping([], []);
    var inTable := false;
    for i := 0 to |lines|
      invariant g == Group(lines, actions, i) && inTable == AfterRow(texts, i)
    {
      var trimmed := Text(src, lines[i]);
      var row := IsRow(trimmed);
      if row != inTable {
        g := Flush(g);
        inTable := row;
      }
      if !inTable && trimmed == "" {
        g := Flush(g);
        continue;
      }
      g := Add(g, lines[i]);
    }
    blocks := Flush(g).blocks;
  }

  method SlideBlocks(src: string, lines: seq<Span>) returns (blocks: seq<Span>)
    ensures blocks == Grouped(lines, Actions(src, lines, Slides))
  {
    hide Text;
    ghost var actions := Actions(src, lines, Slides);
    var g := Grouping([], []);
    for i := 0 to |lines|
      invariant g == Group(lines, actions, i)
    {
      var trimmed := Text(src, lines[i]);
      if IsSeparator(trimmed) {
        g := Flush(g);
        continue;
      }
      if trimmed == "" {
        continue;
      }
      g := Add(g, lines[i]);
    }
    blocks := Flush(g).blocks;
  }

  method ChatBlocks(src: string, lines: seq<Span>, turn: string -> bool) returns (blocks: seq<Span>)
    ensures blocks == Grouped(lines, Actions(src, lines, Chat(turn)))
  {
    hide Text;
    ghost var actions := Actions(src, lines, Chat(turn));
    var g := Grouping([], []);
    for i := 0 to |lines|
      invariant g == Group(lines, actions, i)
    {
      var trimmed := Text(src, lines[i]);
      if trimmed == "" {
        g := Flush(g);
        continue;
      }
      if turn(trimmed) {
        g := Flush(g);
      }
      g := Add(g, lines[i]);
    }
    blocks := Flush(g).blocks;
  }

  method SplitBlocks(src: string, kind: Kind) returns (blocks: seq<Span>, ghost lines: seq<Span>)
    ensures AreLines(src, lines) && blocks == Grouped(lines, Actions(src, lines, kind))
  {
    var lns := LineSpans(src);
    lines := lns;
    match kind
    case Code => blocks := CodeBlocks(src, lns);
    case Table => blocks := TableBlocks(src, lns);
    case Slides => blocks := SlideBlocks(src, lns);
    case Chat(turn) => blocks := ChatBlocks(src, lns, turn);
    case Prose => blocks := ProseBlocks(src, lns);
  }

  // ----- where the blocks lie --------------------------------------------------------------------

  /** A block as the indices of its first and last line. */
  datatype Range = Range(first: nat, last: nat)

  /** The same grouping over line indices: every finished block, and the open one if any. */
  datatype Ranges = Ranges(done: seq<Range>, open: seq<Range>)

  function Finish(r: Ranges): Ranges {
    Ranges(r.done + r.open, [])
  }

  function Extend(r: Ranges, k: nat): Ranges {
    r.(open := [if r.open == [] then Range(k, k) else Range(r.open[0].first, k)])
  }

  function Move(r: Ranges, k: nat, a: Action): Ranges {
    match a
    case Skip => r
    case Break => Finish(r)
    case Join => Extend(r, k)
    case Open => Extend(Finish(r), k)
    case Close => Finish(Extend(r, k))
  }

  function RangesOf(actions: seq<Action>, n: nat): Ranges
    requires n <= |actions|
  {
    if n == 0 then Ranges([], []) else Move(RangesOf(actions, n - 1), n - 1, actions[n - 1])
  }

  function AllRanges(actions: seq<Action>): seq<Range> {
    Finish(RangesOf(actions, |actions|)).done
  }

  /** In order, apart, within the first n lines. */
  ghost predicate InOrder(actions: seq<Action>, n: nat, rs: seq<Range>)
    requires n <= |actions|
  {
    && (forall k :: 0 <= k < |rs| ==> rs[k].first <= rs[k].last < n)
    && (forall j, k :: 0 <= j < k < |rs| ==> rs[j].last < rs[k].first)
  }

  /** Every member line is in a range; inside a range only skipped lines are not members. */
  ghost predicate Holding(actions: seq<Action>, n: nat, rs: seq<Range>)
    requires n <= |actions|
  {
    && (forall k :: 0 <= k < n && Member(actions[k]) ==> Somewhere(rs, k))
    && (forall i, k :: 0 <= i < |rs| && rs[i].first <= k <= rs[i].last && k < n ==> !actions[k].Break?)
  }

  ghost predicate Somewhere(rs: seq<Range>, k: nat) {
    exists i :: 0 <= i < |rs| && rs[i].first <= k <= rs[i].last
  }

  ghost predicate Sane(actions: seq<Action>, n: nat, r: Ranges)
    requires n <= |actions|
  {
    |r.open| <= 1 && InOrder(actions, n, r.done + r.open) && Holding(actions, n, r.done + r.open)
  }

  lemma SomewhereStays(rs: seq<Range>, rs': seq<Range>, k: nat)
    requires Somewhere(rs, k) && |rs| <= |rs'|
    requires forall i :: 0 <= i < |rs| ==> rs'[i].first == rs[i].first && rs[i].last <= rs'[i].last
    ensures Somewhere(rs', k)
  {
    var i :| 0 <= i < |rs| && rs[i].first <= k <= rs[i].last;
    assert rs'[i].first <= k <= rs'[i].last;
  }

  /** A line that is not a member changes no range. */
  lemma NonMemberKeeps(actions: seq<Action>, n: nat, r: Ranges)
    requires 0 < n <= |actions| && Sane(actions, n - 1, r) && !Member(actions[n - 1])
    ensures Sane(actions, n, Move(r, n - 1, actions[n - 1]))
  {
    var r' := Move(r, n - 1, actions[n - 1]);
    assert r'.done + r'.open == r.done + r.open;
  }

  lemma ExtendKeeps(actions: seq<Action>, n: nat, r: Ranges)
    requires 0 < n <= |actions| && Sane(actions, n - 1, r) && Member(actions[n - 1])
    requires r.open != [] ==> forall k :: r.open[0].last < k < n ==> !actions[k].Break?
    ensures Sane(actions, n, Extend(r, n - 1))
  {
    var rs, r' := r.done + r.open, Extend(r, n - 1);
    var rs' := r'.done + r'.open;
    var x := |r.done|;
    assert rs'[x] == r'.open[0] && rs'[x].last == n - 1;
    forall i | 0 <= i < |rs| ensures rs'[i].first == rs[i].first && rs[i].last <= rs'[i].last {
      assert i < x ==> rs'[i] == rs[i];
    }
    forall k | 0 <= k < n && Member(actions[k]) ensures Somewhere(rs', k) {
      if k == n - 1 {
        assert rs'[x].first <= k <= rs'[x].last;
      } else {
        SomewhereStays(rs, rs', k);
      }
    }
    forall i, k | 0 <= i < |rs'| && rs'[i].first <= k <= rs'[i].last && k < n ensures !actions[k].Break? {
      if i < x {
        assert rs'[i] == rs[i];
      } else if r.open != [] {
        assert rs[x] == r.open[0];
      }
    }
  }

  /** No line since the open block's last one would have ended it. */
  ghost predicate Unbroken(actions: seq<Action>, n: nat, r: Ranges)
    requires n <= |actions|
  {
    r.open != [] ==> forall k :: r.open[0].last < k < n ==> !actions[k].Break?
  }

  lemma FinishKeeps(actions: seq<Action>, n: nat, r: Ranges)
    requires n <= |actions| && Sane(actions, n, r)
    ensures Sane(actions, n, Finish(r)) && Unbroken(actions, n, Finish(r))
  {
    assert Finish(r).done + Finish(r).open == r.done + r.open;
  }

  lemma {:induction false} RangesSane(actions: seq<Action>, n: nat)
    requires n <= |actions|
    ensures Sane(actions, n, RangesOf(actions, n)) && Unbroken(actions, n, RangesOf(actions, n))
  {
    hide InOrder, Holding;
    if n == 0 {
      NoRanges(actions);
    } else {
      var r := RangesOf(actions, n - 1);
      RangesSane(actions, n - 1);
      if !Member(actions[n - 1]) {
        NonMemberKeeps(actions, n, r);
      } else if actions[n - 1].Open? {
        FinishKeeps(actions, n - 1, r);
        ExtendKeeps(actions, n, Finish(r));
      } else {
        ExtendKeeps(actions, n, r);
        FinishKeeps(actions, n, Extend(r, n - 1));
      }
    }
  }

  lemma NoRanges(actions: seq<Action>)
    ensures Sane(actions, 0, Ranges([], []))
  {
  }

  function Hull(lines: seq<Span>, r: Range): Span
    requires r.first < |lines| && r.last < |lines|
  {
    Span(lines[r.first].start, lines[r.last].end)
  }

  /** The collected lines and blocks are what the ranges say. */
  ghost predicate Matches(lines: seq<Span>, g: Grouping, r: Ranges) {
    && |g.blocks| == |r.done| && |r.open| <= 1
    && (forall k :: 0 <= k < |r.done| ==>
          r.done[k].first < |lines| && r.done[k].last < |lines| && g.blocks[k] == Hull(lines, r.done[k]))
    && (g.cur == [] <==> r.open == [])
    && (r.open != [] ==>
          r.open[0].first < |lines| && r.open[0].last < |lines|
          && g.cur[0] == lines[r.open[0].first] && g.cur[|g.cur| - 1] == lines[r.open[0].last])
  }

  lemma FlushMatches(lines: seq<Span>, g: Grouping, r: Ranges)
    requires Matches(lines, g, r)
    ensures Matches(lines, Flush(g), Finish(r))
  {
  }

  lemma AddMatches(lines: seq<Span>, g: Grouping, r: Ranges, k: nat)
    requires Matches(lines, g, r) && k < |lines|
    ensures Matches(lines, Add(g, lines[k]), Extend(r, k))
  {
  }

  lemma {:induction false} GroupMatches(lines: seq<Span>, actions: seq<Action>, n: nat)
    requires n <= |lines| == |actions|
    ensures Matches(lines, Group(lines, actions, n), RangesOf(actions, n))
  {
    if n > 0 {
      GroupMatches(lines, actions, n - 1);
      MoveMatches(lines, Group(lines, actions, n - 1), RangesOf(actions, n - 1), n - 1, actions[n - 1]);
    }
  }

  lemma MoveMatches(lines: seq<Span>, g: Grouping, r: Ranges, k: nat, a: Action)
    requires Matches(lines, g, r) && k < |lines|
    ensures Matches(lines, Take(g, lines[k], a), Move(r, k, a))
  {
    hide Matches;
    match a
    case Skip =>
    case Break => FlushMatches(lines, g, r);
    case Join => AddMatches(lines, g, r, k);
    case Open => FlushMatches(lines, g, r); AddMatches(lines, Flush(g), Finish(r), k);
    case Close => AddMatches(lines, g, r, k); FlushMatches(lines, Add(g, lines[k]), Extend(r, k));
  }

  /** Each block spans from the start of its first line to the end of its last; the ranges are in order,
      hold every member line and enclose no line that ends a block. */
  lemma BlocksAreRanges(lines: seq<Span>, actions: seq<Action>)
    requires |lines| == |actions|
    ensures var rs, blocks := AllRanges(actions), Grouped(lines, actions);
            && |blocks| == |rs|
            && InOrder(actions, |actions|, rs) && Holding(actions, |actions|, rs)
            && forall k :: 0 <= k < |rs| ==> blocks[k] == Hull(lines, rs[k])
  {
    hide Holding;
    var n := |actions|;
    RangesSane(actions, n);
    FinishKeeps(actions, n, RangesOf(actions, n));
    GroupMatches(lines, actions, n);
    FlushMatches(lines, Group(lines, actions, n), RangesOf(actions, n));
    assert AllRanges(actions) + [] == AllRanges(actions);
  }

  /** Later lines leave finished ranges alone and can only lengthen the open one. */
  ghost predicate Grows(r: Ranges, r': Ranges) {
    var now, later := r.done + r.open, r'.done + r'.open;
    && |now| <= |later| && |r.done| <= |r'.done|
    && (forall i :: 0 <= i < |r.done| ==> later[i] == now[i])
    && (forall i :: 0 <= i < |now| ==> later[i].first == now[i].first && now[i].last <= later[i].last)
  }

  lemma MoveGrows(r: Ranges, k: nat, a: Action)
    requires |r.open| <= 1 && forall i :: 0 <= i < |r.open| ==> r.open[i].last <= k
    ensures Grows(r, Move(r, k, a))
  {
  }

  lemma GrowsTrans(a: Ranges, b: Ranges, c: Ranges)
    requires Grows(a, b) && Grows(b, c)
    ensures Grows(a, c)
  {
    var x, y, z := a.done + a.open, b.done + b.open, c.done + c.open;
    forall i | 0 <= i < |x| ensures z[i].first == x[i].first && x[i].last <= z[i].last {
      assert y[i].first == x[i].first;
    }
    forall i | 0 <= i < |a.done| ensures z[i] == x[i] {
      assert y[i] == x[i];
    }
  }

  lemma {:induction false} RangesGrow(actions: seq<Action>, n: nat, m: nat)
    requires n <= m <= |actions|
    ensures Grows(RangesOf(actions, n), RangesOf(actions, m))
    decreases m
  {
    hide Grows, Holding;
    if n == m {
      GrowsSelf(RangesOf(actions, n));
    } else {
      RangesGrow(actions, n, m - 1);
      RangesSane(actions, m - 1);
      var r := RangesOf(actions, m - 1);
      forall i | 0 <= i < |r.open| ensures r.open[i].last <= m - 1 {
        assert (r.done + r.open)[|r.done| + i] == r.open[i];
      }
      MoveGrows(r, m - 1, actions[m - 1]);
      GrowsTrans(RangesOf(actions, n), r, RangesOf(actions, m));
    }
  }

  lemma GrowsSelf(r: Ranges)
    ensures Grows(r, r)
  {
  }

  ghost predicate Together(rs: seq<Range>, j: nat, k: nat) {
    exists i :: 0 <= i < |rs| && rs[i].first <= j && k <= rs[i].last
  }

  /** A member line ends the open range, or the last finished one if it closed its block. */
  lemma EndsAt(actions: seq<Action>, k: nat)
    requires k < |actions| && Member(actions[k]) && |RangesOf(actions, k).open| <= 1
    ensures var r := RangesOf(actions, k + 1);
            if actions[k].Close? then r.open == [] && r.done != [] && r.done[|r.done| - 1].last == k
            else |r.open| == 1 && r.open[0].last == k
  {
  }

  lemma JoinedStay(r: Ranges, last: Ranges, x: nat, j: nat, k: nat)
    requires Grows(r, last) && x < |r.done + r.open|
    requires (r.done + r.open)[x].first <= j && k <= (r.done + r.open)[x].last
    ensures Together(last.done + last.open, j, k)
  {
    assert (last.done + last.open)[x].first <= j;
  }

  lemma CutStays(actions: seq<Action>, r: Ranges, last: Ranges, x: nat, j: nat, k: nat)
    requires Grows(r, last) && x < |r.done + r.open|
    requires j < (r.done + r.open)[x].first <= k == (r.done + r.open)[x].last
    requires InOrder(actions, |actions|, last.done + last.open)
    ensures !Together(last.done + last.open, j, k)
  {
    var rs := last.done + last.open;
    assert rs[x].first == (r.done + r.open)[x].first && k <= rs[x].last;
    forall i | 0 <= i < |rs| ensures !(rs[i].first <= j && k <= rs[i].last) {
      assert i < x ==> rs[i].last < rs[x].first;
      assert x < i ==> rs[x].last < rs[i].first;
    }
  }

  /** A cut falls before line x: it ends or opens a block, or the line before it closed one. */
  predicate CutBefore(actions: seq<Action>, x: nat)
    requires 0 < x < |actions|
  {
    actions[x].Break? || actions[x].Open? || actions[x - 1].Close?
  }

  /** The block of a member line j is the open one before line n exactly when nothing since j cut it off. */
  lemma {:induction false} StillOpen(actions: seq<Action>, j: nat, n: nat)
    requires j < n <= |actions| && Member(actions[j])
    ensures var r := RangesOf(actions, n);
            r.open != [] && r.open[0].first <= j <==>
            !actions[n - 1].Close? && forall x :: j < x < n ==> !CutBefore(actions, x)
    decreases n
  {
    hide Sane;
    RangesSane(actions, n - 1);
    AtMostOneOpen(actions, n - 1);
    if n == j + 1 {
      EndsAt(actions, j);
      AtMostOneOpen(actions, n);
    } else {
      StillOpen(actions, j, n - 1);
      assert CutBefore(actions, n - 1) <==> actions[n - 1].Break? || actions[n - 1].Open? || actions[n - 2].Close?;
    }
  }

  lemma AtMostOneOpen(actions: seq<Action>, n: nat)
    requires n <= |actions|
    ensures var r := RangesOf(actions, n);
            |r.open| <= 1 && (r.open != [] ==> r.open[0].first <= r.open[0].last < n)
  {
    RangesSane(actions, n);
    var r := RangesOf(actions, n);
    if r.open != [] {
      assert (r.done + r.open)[|r.done|] == r.open[0];
    }
  }

  /** Two member lines share a block exactly when no cut falls between them: the splitters cut there and nowhere else. */
  lemma TogetherExactly(actions: seq<Action>, j: nat, k: nat)
    requires j < k < |actions| && Member(actions[j]) && Member(actions[k])
    ensures Together(AllRanges(actions), j, k) <==> forall x :: j < x <= k ==> !CutBefore(actions, x)
  {
    hide Holding, Grows, Together, CutBefore, Sane;
    var before, after := RangesOf(actions, k), RangesOf(actions, k + 1);
    var last := RangesOf(actions, |actions|);
    RangesGrow(actions, k + 1, |actions|);
    LastInOrder(actions);
    StillOpen(actions, j, k);
    AtMostOneOpen(actions, k);
    CutAt(actions, k);
    var now := after.done + after.open;
    var x := |now| - 1;
    assert now[x].last == k;
    if forall x :: j < x <= k ==> !CutBefore(actions, x) {
      assert now[x] == Range(before.open[0].first, k);
      JoinedStay(after, last, x, j, k);
    } else {
      assert now[x].first > j;
      CutStays(actions, after, last, x, j, k);
    }
  }

  lemma CutAt(actions: seq<Action>, k: nat)
    requires 0 < k < |actions|
    ensures CutBefore(actions, k) <==> actions[k].Break? || actions[k].Open? || actions[k - 1].Close?
  {
  }

  lemma LastInOrder(actions: seq<Action>)
    ensures InOrder(actions, |actions|, RangesOf(actions, |actions|).done + RangesOf(actions, |actions|).open)
    ensures AllRanges(actions) == RangesOf(actions, |actions|).done + RangesOf(actions, |actions|).open
  {
    RangesSane(actions, |actions|);
  }

  /** Two neighbouring member lines share a block exactly when the first does not close its block and
      the second does not open one. */
  lemma NeighboursTogether(actions: seq<Action>, k: nat)
    requires k + 1 < |actions| && Member(actions[k]) && Member(actions[k + 1])
    ensures Together(AllRanges(actions), k, k + 1) <==> !actions[k].Close? && !actions[k + 1].Open?
  {
    hide AllRanges, Together;
    TogetherExactly(actions, k, k + 1);
    CutAt(actions, k + 1);
  }

  // ----- what each splitter keeps together -------------------------------------------------------

  ghost predicate LinesTogether(src: string, lines: seq<Span>, kind: Kind, k: nat) {
    Together(AllRanges(Actions(src, lines, kind)), k, k + 1)
  }

  /** A fenced region stays whole: no cut follows a line after which the fence is still open. */
  lemma FencesStayWhole(src: string, lines: seq<Span>, k: nat)
    requires k + 1 < |lines| && InFence(Texts(src, lines), k + 1)
    ensures LinesTogether(src, lines, Code, k)
  {
    hide Text, Together, AllRanges;
    var actions := Actions(src, lines, Code);
    assert actions[k] == ActionAt(Texts(src, lines), Code, k) && actions[k + 1] == ActionAt(Texts(src, lines), Code, k + 1);
    NeighboursTogether(actions, k);
  }

  /** Neighbouring non-blank lines of a table source share a block exactly when both are rows or neither is. */
  lemma RowsStayTogether(src: string, lines: seq<Span>, k: nat)
    requires k + 1 < |lines| && Text(src, lines[k]) != "" && Text(src, lines[k + 1]) != ""
    ensures LinesTogether(src, lines, Table, k) <==> (IsRow(Text(src, lines[k])) == IsRow(Text(src, lines[k + 1])))
  {
    hide Text, Together, AllRanges;
    var actions := Actions(src, lines, Table);
    assert actions[k] == ActionAt(Texts(src, lines), Table, k) && actions[k + 1] == ActionAt(Texts(src, lines), Table, k + 1);
    NeighboursTogether(actions, k);
  }

  /** Neighbouring non-blank lines of prose part only at a heading, which travels with the text after it. */
  lemma HeadingsTravelOn(src: string, lines: seq<Span>, k: nat)
    requires k + 1 < |lines| && Text(src, lines[k]) != "" && Text(src, lines[k + 1]) != ""
    ensures LinesTogether(src, lines, Prose, k) <==> !("#" <= Text(src, lines[k + 1]))
  {
    hide Text, Together, AllRanges;
    var actions := Actions(src, lines, Prose);
    assert actions[k] == ActionAt(Texts(src, lines), Prose, k) && actions[k + 1] == ActionAt(Texts(src, lines), Prose, k + 1);
    NeighboursTogether(actions, k);
  }

  /** Neighbouring non-blank lines of a chat part only where a speaker turn begins. */
  lemma TurnsStayWhole(src: string, lines: seq<Span>, turn: string -> bool, k: nat)
    requires k + 1 < |lines| && Text(src, lines[k]) != "" && Text(src, lines[k + 1]) != ""
    ensures LinesTogether(src, lines, Chat(turn), k) <==> !turn(Text(src, lines[k + 1]))
  {
    hide Text, Together, AllRanges;
    var actions := Actions(src, lines, Chat(turn));
    assert actions[k] == ActionAt(Texts(src, lines), Chat(turn), k) && actions[k + 1] == ActionAt(Texts(src, lines), Chat(turn), k + 1);
    NeighboursTogether(actions, k);
  }

  // ----- the splitters over the texts of the lines -----------------------------------------------

  /** What trimming leaves is the text without the white space at its ends. */
  lemma {:induction false} TrimExact(s: string) returns (a: nat, b: nat)
    ensures a <= b <= |s| && Trim(s) == s[a..b]
    ensures forall p :: 0 <= p < |s| && !(a <= p < b) ==> IsSpace(s[p])
    ensures a < b ==> !IsSpace(s[a]) && !IsSpace(s[b - 1])
    decreases |s|
  {
    hide IsSpace;
    if s != [] && IsSpace(s[0]) {
      a, b := TrimExact(s[1..]);
      assert s[1..][a..b] == s[a + 1..b + 1];
      a, b := a + 1, b + 1;
      forall p | 0 <= p < |s| && !(a <= p < b) ensures IsSpace(s[p]) {
        assert p > 0 ==> s[p] == s[1..][p - 1];
      }
    } else if s != [] && IsSpace(s[|s| - 1]) {
      a, b := TrimExact(s[..|s| - 1]);
      assert s[..|s| - 1][a..b] == s[a..b];
    } else {
      a, b := 0, |s|;
      assert s[a..b] == s;
    }
  }

  /** The lines of a source share a block. */
  ghost predicate InOneBlock(src: string, lines: seq<Span>, kind: Kind, j: nat, k: nat) {
    Together(AllRanges(Actions(src, lines, kind)), j, k)
  }

  lemma ActionOf(src: string, lines: seq<Span>, kind: Kind, x: nat)
    requires x < |lines|
    ensures Actions(src, lines, kind)[x] == ActionAt(Texts(src, lines), kind, x)
  {
  }

  /** How many of the first n lines are fences. */
  function FenceLines(texts: seq<string>, n: nat): nat
    requires n <= |texts|
  {
    if n == 0 then 0 else FenceLines(texts, n - 1) + (if "```" <= texts[n - 1] then 1 else 0)
  }

  lemma {:induction false} FenceParity(texts: seq<string>, n: nat)
    requires n <= |texts|
    ensures InFence(texts, n) <==> FenceLines(texts, n) % 2 == 1
  {
    if n > 0 {
      FenceParity(texts, n - 1);
    }
  }

  lemma TextsOf(src: string, lines: seq<Span>)
    ensures |Texts(src, lines)| == |lines| && forall k :: 0 <= k < |lines| ==> Texts(src, lines)[k] == Text(src, lines[k])
  {
  }

  /** Two lines of prose share a block exactly when no blank line and no heading stands between them and the second is no
      heading. */
  lemma ProseTogether(src: string, lines: seq<Span>, j: nat, k: nat)
    requires j < k < |lines| && Text(src, lines[j]) != "" && Text(src, lines[k]) != ""
    ensures var t := Texts(src, lines);
            InOneBlock(src, lines, Prose, j, k) <==> forall x :: j < x <= k ==> t[x] != "" && !("#" <= t[x])
  {
    hide Together, AllRanges, CutBefore, Texts;
    var t, actions := Texts(src, lines), Actions(src, lines, Prose);
    TextsOf(src, lines);
    ActionOf(src, lines, Prose, j);
    ActionOf(src, lines, Prose, k);
    TogetherExactly(actions, j, k);
    forall x | j < x <= k ensures CutBefore(actions, x) <==> !(t[x] != "" && !("#" <= t[x])) {
      ActionOf(src, lines, Prose, x - 1);
      ActionOf(src, lines, Prose, x);
      CutAt(actions, x);
    }
  }

  /** Two lines of a chat share a block exactly when no blank line and no speaker turn comes after the first. */
  lemma ChatTogether(src: string, lines: seq<Span>, turn: string -> bool, j: nat, k: nat)
    requires j < k < |lines| && Text(src, lines[j]) != "" && Text(src, lines[k]) != ""
    ensures var t := Texts(src, lines);
            InOneBlock(src, lines, Chat(turn), j, k) <==> forall x :: j < x <= k ==> t[x] != "" && !turn(t[x])
  {
    hide Together, AllRanges, CutBefore, Texts;
    var t, actions := Texts(src, lines), Actions(src, lines, Chat(turn));
    TextsOf(src, lines);
    ActionOf(src, lines, Chat(turn), j);
    ActionOf(src, lines, Chat(turn), k);
    TogetherExactly(actions, j, k);
    forall x | j < x <= k ensures CutBefore(actions, x) <==> !(t[x] != "" && !turn(t[x])) {
      ActionOf(src, lines, Chat(turn), x - 1);
      ActionOf(src, lines, Chat(turn), x);
      CutAt(actions, x);
    }
  }

  /** The line is not blank, and is a row if and only if the line before it is. */
  predicate RowsRunOn(t: seq<string>, x: nat)
    requires 0 < x < |t|
  {
    t[x] != "" && ("|" <= t[x] <==> "|" <= t[x - 1])
  }

  lemma TableCut(src: string, lines: seq<Span>, x: nat)
    requires 0 < x < |lines|
    ensures CutBefore(Actions(src, lines, Table), x) <==> !RowsRunOn(Texts(src, lines), x)
  {
    hide Texts;
    ActionOf(src, lines, Table, x - 1);
    ActionOf(src, lines, Table, x);
  }

  /** Two lines of a table source share a block exactly when no line after the first is blank and all are rows or none is. */
  lemma TableTogether(src: string, lines: seq<Span>, j: nat, k: nat)
    requires j < k < |lines| && Text(src, lines[j]) != "" && Text(src, lines[k]) != ""
    ensures InOneBlock(src, lines, Table, j, k) <==> forall x :: j < x <= k ==> RowsRunOn(Texts(src, lines), x)
  {
    hide Together, AllRanges, CutBefore, Texts, RowsRunOn;
    var t, actions := Texts(src, lines), Actions(src, lines, Table);
    TextsOf(src, lines);
    ActionOf(src, lines, Table, j);
    ActionOf(src, lines, Table, k);
    TogetherExactly(actions, j, k);
    forall x | j < x <= k ensures CutBefore(actions, x) <==> !RowsRunOn(t, x) {
      TableCut(src, lines, x);
    }
  }

  /** Two lines of slides share a block exactly when no rule of three or more dashes stands between: blank lines do not
      split a slide. */
  lemma SlidesTogether(src: string, lines: seq<Span>, j: nat, k: nat)
    requires j < k < |lines| && Text(src, lines[j]) != "" && Text(src, lines[k]) != ""
             && !IsSeparator(Text(src, lines[j])) && !IsSeparator(Text(src, lines[k]))
    ensures var t := Texts(src, lines);
            InOneBlock(src, lines, Slides, j, k) <==> forall x :: j < x <= k ==>
              !(|t[x]| >= 3 && forall i :: 0 <= i < |t[x]| ==> t[x][i] == '-')
  {
    hide Together, AllRanges, CutBefore, Texts;
    var t, actions := Texts(src, lines), Actions(src, lines, Slides);
    TextsOf(src, lines);
    ActionOf(src, lines, Slides, j);
    ActionOf(src, lines, Slides, k);
    TogetherExactly(actions, j, k);
    forall x | j < x <= k ensures CutBefore(actions, x) <==> (|t[x]| >= 3 && forall i :: 0 <= i < |t[x]| ==> t[x][i] == '-') {
      ActionOf(src, lines, Slides, x - 1);
      ActionOf(src, lines, Slides, x);
      CutAt(actions, x);
    }
  }

  /** The line is inside a fence, or it is neither blank nor a fence nor right after one. */
  predicate CodeRunsOn(t: seq<string>, x: nat)
    requires 0 < x < |t|
  {
    FenceLines(t, x) % 2 == 1 || (t[x] != "" && !("```" <= t[x]) && !("```" <= t[x - 1]))
  }

  lemma CodeCut(src: string, lines: seq<Span>, x: nat)
    requires 0 < x < |lines|
    ensures CutBefore(Actions(src, lines, Code), x) <==> !CodeRunsOn(Texts(src, lines), x)
  {
    hide Texts, FenceLines;
    var t := Texts(src, lines);
    ActionOf(src, lines, Code, x - 1);
    ActionOf(src, lines, Code, x);
    FenceParity(t, x - 1);
    FenceParity(t, x);
    assert InFence(t, x) == (InFence(t, x - 1) != IsFence(t[x - 1]));
  }

  /** Two lines of code share a block exactly when the block runs on at every line after the first: no cut falls inside a
      fence, and outside there is one at every blank line and before and after every fence. */
  lemma CodeTogether(src: string, lines: seq<Span>, j: nat, k: nat)
    requires j < k < |lines|
    requires Text(src, lines[j]) != "" || FenceLines(Texts(src, lines), j) % 2 == 1
    requires Text(src, lines[k]) != "" || FenceLines(Texts(src, lines), k) % 2 == 1
    ensures InOneBlock(src, lines, Code, j, k) <==> forall x :: j < x <= k ==> CodeRunsOn(Texts(src, lines), x)
  {
    hide Together, AllRanges, CutBefore, Texts, FenceLines, CodeRunsOn;
    var t, actions := Texts(src, lines), Actions(src, lines, Code);
    TextsOf(src, lines);
    ActionOf(src, lines, Code, j);
    ActionOf(src, lines, Code, k);
    FenceParity(t, j);
    FenceParity(t, k);
    TogetherExactly(actions, j, k);
    forall x | j < x <= k ensures CutBefore(actions, x) <==> !CodeRunsOn(t, x) {
      CodeCut(src, lines, x);
    }
  }

  /** Which lines lie in blocks: all but the blank ones outside fences and the rules between slides. A blank line of a
      slide lies in its block when it stands between two others, as blocks end with lines that do belong. */
  lemma LinesInBlocks(src: string, lines: seq<Span>, kind: Kind, k: nat)
    requires k < |lines|
    ensures var t, rs := Texts(src, lines), AllRanges(Actions(src, lines, kind));
            match kind
            case Slides => t[k] != "" ==> (Somewhere(rs, k) <==> !(|t[k]| >= 3 && forall i :: 0 <= i < |t[k]| ==> t[k][i] == '-'))
            case Code => Somewhere(rs, k) <==> t[k] != "" || FenceLines(t, k) % 2 == 1
            case _ => Somewhere(rs, k) <==> t[k] != ""
  {
    hide AllRanges, Somewhere, Text;
    var actions := Actions(src, lines, kind);
    BlocksAreRanges(lines, actions);
    ActionOf(src, lines, kind, k);
    FenceParity(Texts(src, lines), k);
    Housed(actions, AllRanges(actions), k);
  }

  lemma Housed(actions: seq<Action>, rs: seq<Range>, k: nat)
    requires Holding(actions, |actions|, rs) && k < |actions|
    ensures Member(actions[k]) ==> Somewhere(rs, k)
    ensures actions[k].Break? ==> !Somewhere(rs, k)
  {
  }

  ghost predicate MemberEnds(actions: seq<Action>, rs: seq<Range>) {
    forall i :: 0 <= i < |rs| ==>
      && rs[i].first < |actions| && rs[i].last < |actions|
      && Member(actions[rs[i].first]) && Member(actions[rs[i].last])
  }

  lemma {:induction false} RangesEndInMembers(actions: seq<Action>, n: nat)
    requires n <= |actions|
    ensures MemberEnds(actions, RangesOf(actions, n).done) && MemberEnds(actions, RangesOf(actions, n).open)
  {
    if n > 0 {
      RangesEndInMembers(actions, n - 1);
    }
  }

  /** The first and the last line of every block belong to it: none is blank, but for blank lines inside a fence. */
  lemma BlocksEndInText(src: string, lines: seq<Span>, kind: Kind, i: nat)
    requires i < |AllRanges(Actions(src, lines, kind))|
    ensures var t, r := Texts(src, lines), AllRanges(Actions(src, lines, kind))[i];
            && r.first < |lines| && r.last < |lines|
            && (t[r.first] != "" || (kind.Code? && FenceLines(t, r.first) % 2 == 1))
            && (t[r.last] != "" || (kind.Code? && FenceLines(t, r.last) % 2 == 1))
  {
    hide Text, FenceLines;
    var actions := Actions(src, lines, kind);
    RangesEndInMembers(actions, |actions|);
    var r := AllRanges(actions)[i];
    ActionOf(src, lines, kind, r.first);
    ActionOf(src, lines, kind, r.last);
    FenceParity(Texts(src, lines), r.first);
    FenceParity(Texts(src, lines), r.last);
  }
}
