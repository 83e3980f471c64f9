/** Children under parents: which parent a child is given, and when it lies inside that parent. */
module ParentChild {
  import opened Wrappers
  import opened Arithmetic
  import opened Tokens
  import opened Windows

  datatype Child = Child(span: Span, parent: Option<nat>)

  /** The length of the common stretch; zero or negative when there is none. */
  function Overlap(p: Span, c: Span): int {
    (if p.end < c.end then p.end else c.end) - (if p.start > c.start then p.start else c.start)
  }

  predicate Inside(c: Span, p: Span) {
    p.start <= c.start && c.end <= p.end
  }

  /** The parent with the largest positive overlap among the first n, the earliest on ties. */
  ghost predicate IsBest(parents: seq<Span>, n: nat, c: Span, best: Option<nat>)
    requires n <= |parents|
  {
    match best
    case None => forall j :: 0 <= j < n ==> Overlap(parents[j], c) <= 0
    case Some(b) =>
      && b < n && Overlap(parents[b], c) > 0
      && (forall j :: 0 <= j < n ==> Overlap(parents[j], c) <= Overlap(parents[b], c))
      && (forall j :: 0 <= j < b ==> Overlap(parents[j], c) < Overlap(parents[b], c))
  }

  method AssignParents(parents: seq<Span>, children: array<Child>)
    modifies children
    ensures forall i :: 0 <= i < children.Length ==>
              children[i].span == old(children[i]).span
              && (IsBest(parents, |parents|, children[i].span, children[i].parent)
                  || (IsBest(parents, |parents|, children[i].span, None) && children[i].parent == old(children[i]).parent))
  {
    for i := 0 to children.Length
      invariant forall k :: i <= k < children.Length ==> children[k] == old(children[k])
      invariant forall k :: 0 <= k < i ==>
                  children[k].span == old(children[k]).span
                  && (IsBest(parents, |parents|, children[k].span, children[k].parent)
                      || (IsBest(parents, |parents|, children[k].span, None) && children[k].parent == old(children[k]).parent))
    {
      var best := BestParent(parents, children[i].span);
      if best.Some? {
        children[i] := children[i].(parent := best);
      }
    }
  }

  /** The inner loop of the assignment. */
  method BestParent(parents: seq<Span>, c: Span) returns (best: Option<nat>)
    ensures IsBest(parents, |parents|, c, best)
  {
    best := None;
    var bestOverlap := 0;
    for j := 0 to |parents|
      invariant IsBest(parents, j, c, best)
      invariant bestOverlap == if best.Some? then Overlap(parents[best.value], c) else 0
    {
      var lo: int := c.start;
      if parents[j].start > lo {
        lo := parents[j].start;
      }
      var hi: int := c.end;
      if parents[j].end < hi {
        hi := parents[j].end;
      }
      if hi - lo > bestOverlap {
        bestOverlap := hi - lo;
        best := Some(j);
      }
    }
  }

  /** The chosen parent contains the child exactly when some parent does. */
  lemma BestContainsIffAnyDoes(parents: seq<Span>, c: Span, best: Option<nat>)
    requires c.start < c.end && IsBest(parents, |parents|, c, best)
    ensures best.Some? && Inside(c, parents[best.value]) <==> exists k :: 0 <= k < |parents| && Inside(c, parents[k])
  {
    if k :| 0 <= k < |parents| && Inside(c, parents[k]) {
      assert Overlap(parents[k], c) == c.end - c.start;
      assert best.Some?;
      assert Overlap(parents[best.value], c) >= c.end - c.start;
    }
  }

  // ----- window arithmetic -----------------------------------------------------------------------

  /** Over n tokens, child window m lies inside parent window k. */
  ghost predicate Holds(n: nat, parentTarget: int, parentStride: int, k: nat, childTarget: int, childStride: int, m: nat) {
    && k * parentStride <= m * childStride
    && WindowEnd(n, childTarget, childStride, m) <= WindowEnd(n, parentTarget, parentStride, k)
  }

  ghost predicate HasParent(n: nat, parentTarget: int, parentStride: int, childTarget: int, childStride: int, m: nat)
    requires parentTarget >= 1 && parentStride >= 1
  {
    exists k :: 0 <= k < WindowCount(n, parentTarget, parentStride)
                && Holds(n, parentTarget, parentStride, k, childTarget, childStride, m)
  }

  /** Every child window of every document length lies inside some parent window. */
  ghost predicate AlwaysContained(parentTarget: int, parentStride: int, childTarget: int, childStride: int)
    requires parentTarget >= 1 && parentStride >= 1 && childTarget >= 1 && childStride >= 1
  {
    forall n: nat, m: nat :: m < WindowCount(n, childTarget, childStride) ==>
      HasParent(n, parentTarget, parentStride, childTarget, childStride, m)
  }

  function Gcd(a: nat, b: nat): (g: nat)
    requires a > 0 || b > 0
    ensures g > 0
    decreases b
  {
    if b == 0 then a else Gcd(b, a % b)
  }

  lemma {:induction false} GcdDivides(a: nat, b: nat) returns (x: nat, y: nat)
    requires a > 0 || b > 0
    ensures a == Gcd(a, b) * x && b == Gcd(a, b) * y
    decreases b
  {
    if b == 0 {
      x, y := 1, 0;
    } else {
      var g := Gcd(a, b);
      var u, v := GcdDivides(b, a % b);
      assert a == a / b * b + a % b;
      assert a == a / b * (g * u) + g * v;
      x, y := a / b * u + v, u;
      Factor(g, a / b, u, v);
    }
  }

  lemma Factor(g: int, q: int, u: int, v: int)
    ensures q * (g * u) + g * v == g * (q * u + v)
  {
  }

  lemma {:induction false} Bezout(a: nat, b: nat) returns (x: int, y: int)
    requires a > 0 || b > 0
    ensures x * a + y * b == Gcd(a, b)
    decreases b
  {
    if b == 0 {
      x, y := 1, 0;
    } else {
      var u, v := Bezout(b, a % b);
      x, y := v, u - a / b * v;
      BezoutStep(a, b, a / b, a % b, u, v);
    }
  }

  lemma BezoutStep(a: int, b: int, q: int, r: int, u: int, v: int)
    requires a == q * b + r
    ensures v * a + (u - q * v) * b == u * b + v * r
  {
    assert v * a == v * (q * b) + v * r;
    assert (u - q * v) * b == u * b - q * v * b;
    assert v * (q * b) == q * v * b;
  }

  /** Some multiple of the child stride falls one common divisor short of a parent boundary. */
  lemma WorstPhase(childStride: nat, parentStride: nat) returns (m: nat, k: nat)
    requires childStride > 0 && parentStride > 0
    ensures m * childStride == k * parentStride + parentStride - Gcd(childStride, parentStride)
  {
    var x, y := Bezout(childStride, parentStride);
    var t := (if x < 0 then -x else x) + (if y < 0 then -y else y) + 1;
    var s := t * parentStride - x;
    var j := y + t * childStride;
    assert t * parentStride >= t && t * childStride >= t by {
      TimesMonotone(1, parentStride, t);
      TimesMonotone(1, childStride, t);
    }
    m, k := s, j - 1;
    PhaseIdentity(childStride, parentStride, x, y, t);
  }

  lemma PhaseIdentity(c: int, p: int, x: int, y: int, t: int)
    ensures (t * p - x) * c == (y + t * c) * p - (x * c + y * p)
    ensures (y + t * c - 1) * p + p == (y + t * c) * p
  {
    assert (t * p - x) * c == t * p * c - x * c;
    assert (y + t * c) * p == y * p + t * c * p;
    assert t * p * c == t * c * p;
  }

  lemma DivisionBounds(a: nat, p: nat)
    requires p > 0
    ensures 0 <= a / p && a / p * p <= a < a / p * p + p
  {
  }

  lemma CancelLess(a: int, b: int, k: int)
    requires k > 0 && a * k < b * k
    ensures a < b && a * k <= b * k - k
  {
    if a >= b {
      TimesMonotone(b, a, k);
    }
    TimesMonotone(a, b - 1, k);
    assert (b - 1) * k == b * k - k;
  }

  lemma CommonFactor(g: int, m: int, x: int, k: int, y: int)
    ensures m * (g * x) - k * (g * y) == (m * x - k * y) * g
  {
    assert m * (g * x) == m * x * g;
    assert k * (g * y) == k * y * g;
  }

  /** A child starts a multiple of the common divisor after its parent, so at least one divisor before
      the next parent. */
  lemma PhaseBound(m: nat, k: nat, cs: nat, ps: nat)
    requires cs > 0 && ps > 0 && k * ps <= m * cs < k * ps + ps
    ensures m * cs - k * ps <= ps - Gcd(cs, ps)
  {
    hide Gcd;
    var g := Gcd(cs, ps);
    var x, y := GcdDivides(cs, ps);
    CommonFactor(g, m, x, k, y);
    CancelLess(m * x - k * y, y, g);
  }

  /** At or below the bound, every child has a containing parent. */
  lemma ContainedBelowBound(n: nat, pt: int, ps: int, ct: int, cs: int, m: nat)
    requires 1 <= ps <= pt && 1 <= cs <= ct && ct <= pt - ps + Gcd(cs, ps)
    requires m < WindowCount(n, ct, cs)
    ensures HasParent(n, pt, ps, ct, cs, m)
  {
    hide Gcd, WindowCount;
    WindowExists(n, ct, cs, m);
    LastWindowEnds(n, pt, ps);
    var start, last := m * cs, WindowCount(n, pt, ps) - 1;
    var k := start / ps;
    DivisionBounds(start, ps);
    if k <= last {
      PhaseBound(m, k, cs, ps);
      assert Holds(n, pt, ps, k, ct, cs, m);
    } else {
      TimesMonotone(last, k, ps);
      assert Holds(n, pt, ps, last, ct, cs, m);
    }
  }

  /** Above the bound, some document length leaves a child inside no parent. */
  lemma EscapesAboveBound(pt: int, ps: int, ct: int, cs: int) returns (n: nat, m: nat)
    requires 1 <= ps <= pt && 1 <= cs <= ct && ct > pt - ps + Gcd(cs, ps)
    ensures m < WindowCount(n, ct, cs) && !HasParent(n, pt, ps, ct, cs, m)
  {
    hide Gcd, WindowCount;
    var k;
    m, k := WorstPhase(cs, ps);
    n := m * cs + ct + pt;
    ChildExists(n, ct, cs, m);
    assert (k + 1) * ps == k * ps + ps;
    forall j | 0 <= j < WindowCount(n, pt, ps) ensures !Holds(n, pt, ps, j, ct, cs, m) {
      if j * ps <= m * cs {
        CancelLess(j, k + 1, ps);
      }
    }
  }

  lemma ChildExists(n: nat, ct: int, cs: int, m: nat)
    requires 1 <= cs <= ct && m * cs + ct <= n
    ensures m < WindowCount(n, ct, cs) && WindowEnd(n, ct, cs, m) == m * cs + ct
  {
    hide WindowCount;
    var count := WindowCount(n, ct, cs);
    LastWindowEnds(n, ct, cs);
    WindowExists(n, ct, cs, count - 1);
    assert count * cs == (count - 1) * cs + cs;
    if m > count - 1 {
      TimesMonotone(count, m, cs);
    }
  }

  /** Children are contained for every document length if and only if the child target exceeds the
      parent overlap by at most the greatest common divisor of the two strides. */
  lemma ContainmentExact(pt: int, ps: int, ct: int, cs: int)
    requires 1 <= ps <= pt && 1 <= cs <= ct
    ensures AlwaysContained(pt, ps, ct, cs) <==> ct <= pt - ps + Gcd(cs, ps)
  {
    if ct <= pt - ps + Gcd(cs, ps) {
      forall n: nat, m: nat | m < WindowCount(n, ct, cs) ensures HasParent(n, pt, ps, ct, cs, m) {
        ContainedBelowBound(n, pt, ps, ct, cs, m);
      }
    } else {
      var n, m := EscapesAboveBound(pt, ps, ct, cs);
    }
  }

  /** In particular when the child step divides the parent step and the child overlap is no more than the
      parent's. */
  lemma DividingStepsContain(pt: int, po: int, ct: int, co: int)
    requires 0 <= po < pt && 0 <= co < ct && (pt - po) % (ct - co) == 0 && co <= po
    ensures AlwaysContained(pt, pt - po, ct, ct - co)
  {
    hide AlwaysContained, Gcd;
    GcdOfDivisor(ct - co, pt - po);
    ContainmentExact(pt, pt - po, ct, ct - co);
  }

  lemma GcdOfDivisor(c: nat, p: nat)
    requires c >= 1 && p >= 1 && p % c == 0
    ensures Gcd(c, p) == c
  {
    AtLeastDivisor(c, p);
    if c == p {
      assert Gcd(c, p) == Gcd(p, 0);
    } else {
      Remainder(c, p);
      assert Gcd(p, c) == Gcd(c, 0);
    }
  }

  lemma AtLeastDivisor(c: nat, p: nat)
    requires c >= 1 && p >= 1 && p % c == 0
    ensures c <= p
  {
  }

  lemma Remainder(c: nat, p: nat)
    requires c < p
    ensures c % p == c
  {
  }

  // ----- sources ---------------------------------------------------------------------------------

  lemma TokenOrder(src: string, i: nat, j: nat)
    requires i < |Tokenized(src)| && j < |Tokenized(src)|
    ensures Tokenized(src)[i].start <= Tokenized(src)[j].start <==> i <= j
    ensures Tokenized(src)[i].end <= Tokenized(src)[j].end <==> i <= j
    ensures Tokenized(src)[i].start < Tokenized(src)[i].end
  {
    hide IsSpace, Scan;
    ScanRuns(src, |src|);
    assert IsRunUpTo(src, |src|, Tokenized(src)[i]) && IsRunUpTo(src, |src|, Tokenized(src)[j]);
  }

  /** Containment of windows in the text is containment of their token ranges. */
  lemma InsideIffHolds(src: string, pt: int, ps: int, k: nat, parent: Span, ct: int, cs: int, m: nat, child: Span)
    requires 1 <= ps <= pt && 1 <= cs <= ct
    requires IsWindow(Tokenized(src), pt, ps, k, parent) && IsWindow(Tokenized(src), ct, cs, m, child)
    ensures Inside(child, parent) <==> Holds(|Tokenized(src)|, pt, ps, k, ct, cs, m)
    ensures child.start < child.end
  {
    hide Tokenized;
    var n := |Tokenized(src)|;
    TokenOrder(src, k * ps, m * cs);
    TokenOrder(src, WindowEnd(n, ct, cs, m) - 1, WindowEnd(n, pt, ps, k) - 1);
    TokenOrder(src, m * cs, WindowEnd(n, ct, cs, m) - 1);
  }

  /** A child lies inside the parent it is assigned exactly when some parent window holds it. */
  lemma AssignedParentContains(src: string, pt: int, ps: int, parents: seq<Span>, ct: int, cs: int, children: seq<Span>,
                               m: nat, best: Option<nat>)
    requires 1 <= ps <= pt && 1 <= cs <= ct
    requires AreWindows(Tokenized(src), pt, ps, parents) && AreWindows(Tokenized(src), ct, cs, children)
    requires m < |children| && IsBest(parents, |parents|, children[m], best)
    ensures best.Some? && Inside(children[m], parents[best.value])
            <==> HasParent(|Tokenized(src)|, pt, ps, ct, cs, m)
  {
    hide Tokenized, WindowCount, IsBest;
    var n := |Tokenized(src)|;
    assert IsWindow(Tokenized(src), ct, cs, m, children[m]);
    forall k | 0 <= k < |parents|
      ensures Inside(children[m], parents[k]) <==> Holds(n, pt, ps, k, ct, cs, m)
    {
      InsideIffHolds(src, pt, ps, k, parents[k], ct, cs, m, children[m]);
    }
    InsideIffHolds(src, ct, cs, m, children[m], ct, cs, m, children[m]);
    BestContainsIffAnyDoes(parents, children[m], best);
    assert HasParent(n, pt, ps, ct, cs, m) <==> exists k :: 0 <= k < |parents| && Holds(n, pt, ps, k, ct, cs, m);
  }

  /** The shipped parent-child policy: 1000/100 parents over 125/25 children contain every child of
      every source. */
  lemma ShippedPolicyContains(src: string, parents: seq<Span>, children: seq<Span>, m: nat, best: Option<nat>)
    requires AreWindows(Tokenized(src), 1000, Stride(1000, 100), parents)
    requires AreWindows(Tokenized(src), 125, Stride(125, 25), children)
    requires m < |children| && IsBest(parents, |parents|, children[m], best)
    ensures best.Some? && Inside(children[m], parents[best.value])
  {
    hide Tokenized, WindowCount, IsBest, HasParent;
    assert Gcd(100, 900) == 100;
    ContainedBelowBound(|Tokenized(src)|, 1000, 900, 125, 100, m);
    AssignedParentContains(src, 1000, 900, parents, 125, 100, children, m, best);
  }

  // ----- receipts --------------------------------------------------------------------------------

  ghost predicate Matching(spans: seq<Span>, receipts: seq<Receipt>) {
    |receipts| == |spans| && forall k :: 0 <= k < |spans| ==> spans[k] == Span(receipts[k].start, receipts[k].end)
  }

  /** Windows turn into receipts with the same offsets. */
  lemma WindowReceipts(src: string, target: int, stride: int, spans: seq<Span>)
    requires 1 <= stride <= target && AreWindows(Tokenized(src), target, stride, spans)
    ensures forall i :: 0 <= i < |spans| ==> InSource(src, spans[i])
    ensures Matching(spans, Receipts(src, spans))
  {
    hide Tokenized, WindowCount, Receipts, ReceiptOf, WindowEnd;
    forall k | 0 <= k < |spans|
      ensures InSource(src, spans[k]) && Tokenized(src[spans[k].start..spans[k].end]) != []
    {
      assert IsWindow(Tokenized(src), target, stride, k, spans[k]);
      WindowReceipt(src, target, stride, k, spans[k]);
    }
    if spans == [] {
      assert |Receipts(src, spans)| == 0 by { NoReceipts(src, spans); }
    } else {
      OneReceiptEach(src, spans, 0);
    }
    forall k | 0 <= k < |spans| ensures spans[k] == Span(Receipts(src, spans)[k].start, Receipts(src, spans)[k].end) {
      OneReceiptEach(src, spans, k);
      assert IsWindow(Tokenized(src), target, stride, k, spans[k]);
      WindowReceipt(src, target, stride, k, spans[k]);
    }
  }

  /** The receipt's range lies inside that of the parent it was given. */
  ghost predicate InsideParent(parents: seq<Receipt>, child: Receipt, parent: Option<nat>) {
    parent.Some? && parent.value < |parents| && parents[parent.value].start <= child.start && child.end <= parents[parent.value].end
  }

  /** Chunking with parents and children: a child receipt lies inside the parent receipt it is assigned exactly when
      some parent window holds its tokens, and all of them do, for every source, within the exact bound. */
  method ParentChildReceipts(src: string, parentTarget: int, parentOverlap: int, childTarget: int, childOverlap: int)
    returns (parents: seq<Receipt>, children: seq<Receipt>, placed: array<Child>)
    requires parentTarget >= 1 && childTarget >= 1
    ensures fresh(placed) && placed.Length == |children| == WindowCount(|Tokenized(src)|, childTarget, Stride(childTarget, childOverlap))
    ensures |parents| == WindowCount(|Tokenized(src)|, parentTarget, Stride(parentTarget, parentOverlap))
    ensures forall m :: 0 <= m < |children| ==>
              (InsideParent(parents, children[m], placed[m].parent) <==>
               HasParent(|Tokenized(src)|, parentTarget, Stride(parentTarget, parentOverlap), childTarget,
                         Stride(childTarget, childOverlap), m))
    ensures childTarget <= parentTarget - Stride(parentTarget, parentOverlap)
                           + Gcd(Stride(childTarget, childOverlap), Stride(parentTarget, parentOverlap)) ==>
              forall m :: 0 <= m < |children| ==> InsideParent(parents, children[m], placed[m].parent)
  {
    hide Tokenized, WindowCount, Receipts, IsBest, HasParent, Gcd, AreWindows;
    var ps, cs := Stride(parentTarget, parentOverlap), Stride(childTarget, childOverlap);
    var parentSpans := FixedSpans(src, parentTarget, parentOverlap);
    WindowReceipts(src, parentTarget, ps, parentSpans);
    parents := ReceiptsFor(src, parentSpans);
    var childSpans := FixedSpans(src, childTarget, childOverlap);
    WindowReceipts(src, childTarget, cs, childSpans);
    children := ReceiptsFor(src, childSpans);
    Counted(src, parentTarget, ps, parentSpans);
    Counted(src, childTarget, cs, childSpans);
    placed := new Child[|children|](i requires 0 <= i < |children| => Child(Span(children[i].start, children[i].end), None));
    AssignParents(parentSpans, placed);
    forall m | 0 <= m < |children|
      ensures InsideParent(parents, children[m], placed[m].parent) <==>
              HasParent(|Tokenized(src)|, parentTarget, ps, childTarget, cs, m)
    {
      assert placed[m].span == childSpans[m];
      assert IsBest(parentSpans, |parentSpans|, childSpans[m], placed[m].parent);
      BestInRange(parentSpans, childSpans[m], placed[m].parent);
      AssignedParentContains(src, parentTarget, ps, parentSpans, childTarget, cs, childSpans, m, placed[m].parent);
    }
    if childTarget <= parentTarget - ps + Gcd(cs, ps) {
      forall m | 0 <= m < |children| ensures HasParent(|Tokenized(src)|, parentTarget, ps, childTarget, cs, m) {
        ContainedBelowBound(|Tokenized(src)|, parentTarget, ps, childTarget, cs, m);
      }
    }
  }

  lemma Counted(src: string, target: int, stride: int, spans: seq<Span>)
    requires 1 <= stride <= target && AreWindows(Tokenized(src), target, stride, spans)
    ensures |spans| == WindowCount(|Tokenized(src)|, target, stride)
  {
    hide Tokenized, WindowCount;
  }

  lemma BestInRange(parents: seq<Span>, c: Span, best: Option<nat>)
    requires IsBest(parents, |parents|, c, best)
    ensures best.Some? ==> best.value < |parents|
  {
  }
}
