/** Personalised PageRank over the file graph of a repository map, over the reals. */
module PageRank {
  import opened RealSums

  /** Files in order, links between them, and the personalisation weights. */
  datatype Graph = Graph(files: seq<string>, links: map<string, set<string>>, personal: map<string, real>)

  type Vector = string -> real

  function Out(g: Graph, f: string): set<string> {
    if f in g.links then g.links[f] else {}
  }

  function Personal(g: Graph, f: string): real {
    if f in g.personal then g.personal[f] else 0.0
  }

  ghost predicate Valid(g: Graph) {
    && Distinct(g.files)
    && (forall a, b :: a in g.files && b in Out(g, a) ==> b in g.files)
    && (forall f :: f in g.files ==> Personal(g, f) >= 0.0)
  }

  // ----- one iteration -------------------------------------------------------------------------------

  /** What a file passes to one of its links. */
  ghost function Share(g: Graph, v: Vector, from: string, to: string): real {
    if to in Out(g, from) then v(from) / |Out(g, from)| as real else 0.0
  }

  ghost function SharesTo(g: Graph, v: Vector, to: string): Vector {
    from => Share(g, v, from, to)
  }

  ghost function Inflow(g: Graph, v: Vector, to: string): real {
    Sum(g.files, SharesTo(g, v, to))
  }

  /** The rank of files without links. */
  ghost function Leaking(g: Graph, v: Vector, f: string): real {
    if Out(g, f) == {} then v(f) else 0.0
  }

  ghost function Leaks(g: Graph, v: Vector): Vector {
    f => Leaking(g, v, f)
  }

  ghost function Leak(g: Graph, v: Vector): real {
    Sum(g.files, Leaks(g, v))
  }

  /** Where the rank goes before damping: along links, and from linkless files to the personalisation. */
  ghost function Spread(g: Graph, v: Vector, to: string): real {
    Inflow(g, v, to) + Leak(g, v) * Personal(g, to)
  }

  ghost function NextAt(g: Graph, v: Vector, to: string): real {
    0.15 * Personal(g, to) + 0.85 * Spread(g, v, to)
  }

  ghost function Next(g: Graph, v: Vector): Vector {
    to => NextAt(g, v, to)
  }

  ghost function Mass(g: Graph, v: Vector): real {
    Sum(g.files, v)
  }

  ghost function PersonalMass(g: Graph): real {
    Sum(g.files, f => Personal(g, f))
  }

  // ----- conservation --------------------------------------------------------------------------------

  ghost function Kept(g: Graph, v: Vector, f: string): real {
    if Out(g, f) == {} then 0.0 else v(f)
  }

  /** A file with links hands out all its rank. */
  lemma Outflow(g: Graph, v: Vector, from: string)
    requires Valid(g) && from in g.files
    ensures Sum(g.files, to => Share(g, v, from, to)) == Kept(g, v, from)
  {
    hide Sum;
    var out := Out(g, from);
    if out == {} {
      SumZero(g.files, to => Share(g, v, from, to));
    } else {
      var c := v(from) / |out| as real;
      SumOfSubset(g.files, out, c);
      SumCongruent(g.files, to => Share(g, v, from, to), Indicator(out, c));
      Whole(v(from), |out|);
    }
  }

  lemma Whole(x: real, n: nat)
    requires n > 0
    ensures Scaled(x / n as real, n) == x
  {
  }

  lemma TotalInflow(g: Graph, v: Vector)
    requires Valid(g)
    ensures Sum(g.files, to => Inflow(g, v, to)) == Sum(g.files, f => Kept(g, v, f))
  {
    hide Sum, Valid, Share, Kept;
    var m := (from, to) => Share(g, v, from, to);
    forall from | from in g.files ensures Kept(g, v, from) == Sum(g.files, Across(m, from)) {
      Outflow(g, v, from);
      SumCongruent(g.files, to => Share(g, v, from, to), Across(m, from));
    }
    forall to | to in g.files ensures Inflow(g, v, to) == Sum(g.files, Down(m, to)) {
      SumCongruent(g.files, SharesTo(g, v, to), Down(m, to));
    }
    SumSwap(g.files, g.files, m, f => Kept(g, v, f), to => Inflow(g, v, to));
  }

  lemma KeptAndLeaked(g: Graph, v: Vector)
    ensures Sum(g.files, f => Kept(g, v, f)) + Leak(g, v) == Mass(g, v)
  {
    hide Sum;
    SumPlus(g.files, f => Kept(g, v, f), Leaks(g, v), v);
  }

  lemma SpreadMass(g: Graph, v: Vector)
    requires Valid(g)
    ensures Sum(g.files, t => Spread(g, v, t)) == Mass(g, v) - Leak(g, v) + Leak(g, v) * PersonalMass(g)
  {
    hide Sum, Valid, Inflow, Leak, Mass;
    var leak := Leak(g, v);
    TotalInflow(g, v);
    KeptAndLeaked(g, v);
    SumTimes(g.files, leak, f => Personal(g, f), f => leak * Personal(g, f));
    SumPlus(g.files, t => Inflow(g, v, t), f => leak * Personal(g, f), t => Spread(g, v, t));
  }

  /** The rank after one iteration, in full. */
  lemma MassOfNext(g: Graph, v: Vector)
    requires Valid(g)
    ensures Mass(g, Next(g, v)) == 0.15 * PersonalMass(g) + 0.85 * (Mass(g, v) - Leak(g, v) + Leak(g, v) * PersonalMass(g))
  {
    hide Sum, Valid, Spread, Leak;
    SpreadMass(g, v);
    SumTimes(g.files, 0.15, f => Personal(g, f), f => 0.15 * Personal(g, f));
    SumTimes(g.files, 0.85, t => Spread(g, v, t), t => 0.85 * Spread(g, v, t));
    SumPlus(g.files, f => 0.15 * Personal(g, f), t => 0.85 * Spread(g, v, t), Next(g, v));
  }

  ghost predicate NonNegative(g: Graph, v: Vector) {
    forall f :: f in g.files ==> v(f) >= 0.0
  }

  lemma LeakNonNegative(g: Graph, v: Vector)
    requires NonNegative(g, v)
    ensures Leak(g, v) >= 0.0
  {
    SumNonNegative(g.files, Leaks(g, v));
  }

  lemma NextNonNegative(g: Graph, v: Vector)
    requires Valid(g) && NonNegative(g, v)
    ensures NonNegative(g, Next(g, v))
  {
    hide Sum;
    LeakNonNegative(g, v);
    forall t | t in g.files ensures NextAt(g, v, t) >= 0.0 {
      SharesNonNegative(g, v, t);
      Product(Leak(g, v), Personal(g, t));
    }
  }

  lemma SharesNonNegative(g: Graph, v: Vector, t: string)
    requires NonNegative(g, v)
    ensures Inflow(g, v, t) >= 0.0
  {
    hide Sum;
    forall f | f in g.files ensures Share(g, v, f, t) >= 0.0 {
    }
    SumNonNegative(g.files, SharesTo(g, v, t));
  }

  lemma Product(x: real, y: real)
    requires x >= 0.0 && y >= 0.0
    ensures x * y >= 0.0
  {
  }

  /** One iteration keeps the total rank at one exactly when the personalisation weights of the files sum to one. */
  lemma RankIsConserved(g: Graph, v: Vector)
    requires Valid(g) && NonNegative(g, v) && Mass(g, v) == 1.0
    ensures NonNegative(g, Next(g, v))
    ensures Mass(g, Next(g, v)) == 1.0 <==> PersonalMass(g) == 1.0
  {
    hide Mass, PersonalMass, Leak, NonNegative, Valid;
    NextNonNegative(g, v);
    LeakNonNegative(g, v);
    MassOfNext(g, v);
    OneOnly(Leak(g, v), PersonalMass(g));
  }

  lemma OneOnly(leak: real, p: real)
    requires leak >= 0.0
    ensures 0.15 * p + 0.85 * (1.0 - leak + leak * p) == 1.0 <==> p == 1.0
  {
    var d := p - 1.0;
    assert leak * p == leak + leak * d;
    if d > 0.0 {
      Product(leak, d);
    } else if d < 0.0 {
      Product(leak, -d);
      assert leak * (-d) == -(leak * d);
    }
  }

  // ----- contraction ---------------------------------------------------------------------------------

  ghost function Gap(v: Vector, w: Vector): Vector {
    f => Abs(v(f) - w(f))
  }

  /** The L1 distance of two rank vectors. */
  ghost function Distance(g: Graph, v: Vector, w: Vector): real {
    Sum(g.files, Gap(v, w))
  }

  /** The distance of two sums is at most the sum of the distances. */
  lemma SumGap(xs: seq<string>, v: Vector, w: Vector, e: Vector)
    requires forall x :: x in xs ==> e(x) == Abs(v(x) - w(x))
    ensures Abs(Sum(xs, v) - Sum(xs, w)) <= Sum(xs, e)
  {
    hide Sum;
    var d := (x: string) => v(x) - w(x);
    SumPlus(xs, d, w, v);
    SumAbs(xs, d, e);
  }

  lemma ShareGap(g: Graph, v: Vector, w: Vector, from: string, to: string)
    ensures Share(g, Gap(v, w), from, to) == Abs(Share(g, v, from, to) - Share(g, w, from, to))
  {
    if to in Out(g, from) {
      QuotientGap(v(from), w(from), |Out(g, from)| as real);
    }
  }

  lemma QuotientGap(a: real, b: real, n: real)
    requires n > 0.0
    ensures Abs(a - b) / n == Abs(a / n - b / n)
  {
    assert a / n - b / n == (a - b) / n;
    if a < b {
      assert (a - b) / n == -((b - a) / n);
    }
  }

  lemma SpreadGap(g: Graph, v: Vector, w: Vector, t: string)
    requires Personal(g, t) >= 0.0
    ensures Abs(Spread(g, v, t) - Spread(g, w, t)) <= Spread(g, Gap(v, w), t)
  {
    hide Sum, Share;
    forall f | f in g.files ensures Share(g, Gap(v, w), f, t) == Abs(Share(g, v, f, t) - Share(g, w, f, t)) {
      ShareGap(g, v, w, f, t);
    }
    SumGap(g.files, SharesTo(g, v, t), SharesTo(g, w, t), SharesTo(g, Gap(v, w), t));
    SumGap(g.files, Leaks(g, v), Leaks(g, w), Leaks(g, Gap(v, w)));
    LinearGap(Inflow(g, v, t), Inflow(g, w, t), Leak(g, v), Leak(g, w), Inflow(g, Gap(v, w), t), Leak(g, Gap(v, w)), Personal(g, t));
  }

  lemma LinearGap(a: real, b: real, l: real, m: real, i: real, k: real, p: real)
    requires Abs(a - b) <= i && Abs(l - m) <= k && p >= 0.0
    ensures Abs((a + l * p) - (b + m * p)) <= i + k * p
  {
    var x := l - m;
    Product(k - x, p);
    Product(k + x, p);
    assert l * p == m * p + x * p;
    assert (k - x) * p == k * p - x * p;
    assert (k + x) * p == k * p + x * p;
  }

  /** One iteration brings any two rank vectors closer by the damping factor. */
  lemma Contracts(g: Graph, v: Vector, w: Vector)
    requires Valid(g) && PersonalMass(g) <= 1.0
    ensures Distance(g, Next(g, v), Next(g, w)) <= 0.85 * Distance(g, v, w)
  {
    hide Sum, Spread, Leak, PersonalMass;
    var e := Gap(v, w);
    forall t | t in g.files ensures Gap(Next(g, v), Next(g, w))(t) <= 0.85 * Spread(g, e, t) {
      SpreadGap(g, v, w, t);
    }
    SumAtMost(g.files, Gap(Next(g, v), Next(g, w)), t => 0.85 * Spread(g, e, t));
    SumTimes(g.files, 0.85, t => Spread(g, e, t), t => 0.85 * Spread(g, e, t));
    SpreadMass(g, e);
    LeakNonNegative(g, e);
    NoGain(Leak(g, e), PersonalMass(g));
  }

  lemma NoGain(leak: real, p: real)
    requires leak >= 0.0 && p <= 1.0
    ensures leak * p <= leak
  {
    Product(leak, 1.0 - p);
    assert leak * (1.0 - p) == leak - leak * p;
  }

  // ----- many iterations -----------------------------------------------------------------------------

  ghost function Iterate(g: Graph, v: Vector, n: nat): Vector {
    if n == 0 then v else Next(g, Iterate(g, v, n - 1))
  }

  ghost function Damping(n: nat): real {
    if n == 0 then 1.0 else 0.85 * Damping(n - 1)
  }

  /** However many iterations: rank stays non-negative and sums to one. */
  lemma {:induction false} IterationsConserve(g: Graph, v: Vector, n: nat)
    requires Valid(g) && NonNegative(g, v) && Mass(g, v) == 1.0 && PersonalMass(g) == 1.0
    ensures NonNegative(g, Iterate(g, v, n)) && Mass(g, Iterate(g, v, n)) == 1.0
  {
    hide Mass, PersonalMass, NonNegative, Valid, Next;
    if n > 0 {
      IterationsConserve(g, v, n - 1);
      RankIsConserved(g, Iterate(g, v, n - 1));
    }
  }

  /** However far apart two starts are, n iterations bring them within 0.85 to the n of that distance. */
  lemma {:induction false} IterationsConverge(g: Graph, v: Vector, w: Vector, n: nat)
    requires Valid(g) && PersonalMass(g) <= 1.0
    ensures Distance(g, Iterate(g, v, n), Iterate(g, w, n)) <= Damping(n) * Distance(g, v, w)
  {
    hide Distance, PersonalMass, Valid, Next;
    if n > 0 {
      IterationsConverge(g, v, w, n - 1);
      Contracts(g, Iterate(g, v, n - 1), Iterate(g, w, n - 1));
      Damped(Damping(n - 1), Distance(g, v, w));
    }
  }

  lemma Damped(d: real, x: real)
    ensures 0.85 * (d * x) == (0.85 * d) * x
  {
  }

  /** Two vectors that an iteration leaves as they are agree on every file. */
  lemma FixedPointIsUnique(g: Graph, v: Vector, w: Vector, f: string)
    requires Valid(g) && PersonalMass(g) <= 1.0 && f in g.files
    requires forall t :: t in g.files ==> NextAt(g, v, t) == v(t) && NextAt(g, w, t) == w(t)
    ensures v(f) == w(f)
  {
    hide Sum, NextAt, PersonalMass, Valid;
    Contracts(g, v, w);
    SumCongruent(g.files, Gap(Next(g, v), Next(g, w)), Gap(v, w));
    SumVanishes(g.files, Gap(v, w), f);
  }
}
