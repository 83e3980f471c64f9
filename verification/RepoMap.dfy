/** The repository map: links between files, personalisation by search hits, and the rank iteration. */
module RepoMap {
  import opened CodeFacts
  import opened RealSums
  import opened PageRank

  // ----- links ---------------------------------------------------------------------------------------

  type Links = map<string, set<string>>

  ghost predicate Linked(links: Links, a: string, b: string) {
    a in links && b in links[a]
  }

  predicate Admissible(files: set<string>, a: string, b: string) {
    a != b && a in files && b in files
  }

  /** Links a to b, unless they are the same file or one is not in the index. */
  function AddLink(files: set<string>, links: Links, a: string, b: string): (r: Links)
    ensures forall x, y :: Linked(r, x, y) <==> Linked(links, x, y) || (x == a && y == b && Admissible(files, a, b))
  {
    if !Admissible(files, a, b) then links else links[a := (if a in links then links[a] else {}) + {b}]
  }

  /** Some name is defined in one of the files and referenced in the other. */
  ghost predicate ShareName(defs: Names, refs: Names, a: string, b: string) {
    exists name :: name in defs && name in refs && Meet(defs[name], refs[name], a, b)
  }

  ghost predicate Meet(ds: set<string>, rs: set<string>, a: string, b: string) {
    (a in ds && b in rs) || (b in ds && a in rs)
  }

  ghost predicate HasEdge(edges: Lists, a: string, b: string) {
    a in edges && b != "" && b in edges[a]
  }

  /** Builds the link graph. Two different indexed files are linked exactly when they share a name across a
      definition and a reference, and one is linked to another also when it has a typed edge to it. */
  method BuildLinks(files: set<string>, defs: Names, refs: Names, edges: Lists) returns (links: Links)
    ensures forall a, b ::
              Linked(links, a, b) <==> Admissible(files, a, b) && (ShareName(defs, refs, a, b) || HasEdge(edges, a, b))
  {
    hide Linked, Meet, Admissible;
    links := LinkNames(files, defs, refs);
    links := LinkEdges(files, links, edges);
  }

  method LinkNames(files: set<string>, defs: Names, refs: Names) returns (links: Links)
    ensures forall a, b :: Linked(links, a, b) <==> Admissible(files, a, b) && ShareName(defs, refs, a, b)
  {
    hide Meet, Admissible;
    links := map[];
    var todo := defs.Keys;
    while todo != {}
      invariant todo <= defs.Keys
      invariant forall a, b ::
                  Linked(links, a, b) <==>
                  Admissible(files, a, b) &&
                  exists name :: name in defs && name !in todo && name in refs && Meet(defs[name], refs[name], a, b)
      decreases todo
    {
      var name :| name in todo;
      todo := todo - {name};
      if name in refs {
        links := LinkOne(files, links, defs[name], refs[name]);
      }
    }
  }

  /** Links every definer of a name with every referrer, both ways. */
  method LinkOne(files: set<string>, before: Links, ds: set<string>, rs: set<string>) returns (links: Links)
    ensures forall a, b :: Linked(links, a, b) <==> Linked(before, a, b) || (Admissible(files, a, b) && Meet(ds, rs, a, b))
  {
    hide Linked, Admissible;
    links := before;
    var todo := ds;
    while todo != {}
      invariant todo <= ds
      invariant forall a, b ::
                  Linked(links, a, b) <==> Linked(before, a, b) || (Admissible(files, a, b) && Meet(ds - todo, rs, a, b))
      decreases todo
    {
      var d :| d in todo;
      links := LinkDefiner(files, links, d, rs);
      todo := todo - {d};
    }
  }

  method LinkDefiner(files: set<string>, before: Links, d: string, rs: set<string>) returns (links: Links)
    ensures forall a, b :: Linked(links, a, b) <==> Linked(before, a, b) || (Admissible(files, a, b) && Meet({d}, rs, a, b))
  {
    hide Linked;
    links := before;
    var todo := rs;
    while todo != {}
      invariant todo <= rs
      invariant forall a, b ::
                  Linked(links, a, b) <==> Linked(before, a, b) || (Admissible(files, a, b) && Meet({d}, rs - todo, a, b))
      decreases todo
    {
      var r :| r in todo;
      links := AddLink(files, links, d, r);
      links := AddLink(files, links, r, d);
      todo := todo - {r};
    }
  }

  method LinkEdges(files: set<string>, before: Links, edges: Lists) returns (links: Links)
    ensures forall a, b :: Linked(links, a, b) <==> Linked(before, a, b) || (Admissible(files, a, b) && HasEdge(edges, a, b))
  {
    hide Linked, Admissible;
    links := before;
    var todo := edges.Keys;
    while todo != {}
      invariant todo <= edges.Keys
      invariant forall a, b ::
                  Linked(links, a, b) <==> Linked(before, a, b) || (Admissible(files, a, b) && a !in todo && HasEdge(edges, a, b))
      decreases todo
    {
      var from :| from in todo;
      links := LinkTargets(files, links, from, edges[from]);
      todo := todo - {from};
    }
  }

  method LinkTargets(files: set<string>, before: Links, from: string, targets: seq<string>) returns (links: Links)
    ensures forall a, b :: Linked(links, a, b) <==>
                           Linked(before, a, b) || (Admissible(files, a, b) && a == from && b != "" && b in targets)
  {
    hide Linked;
    links := before;
    for i := 0 to |targets|
      invariant forall a, b :: Linked(links, a, b) <==>
                               Linked(before, a, b) || (Admissible(files, a, b) && a == from && b != "" && b in targets[..i])
    {
      assert targets[..i + 1] == targets[..i] + [targets[i]];
      if targets[i] != "" {
        links := AddLink(files, links, from, targets[i]);
      }
    }
    assert targets[..|targets|] == targets;
  }

  /** Links built from names alone go both ways; a typed edge may go one way only. */
  lemma NameLinksAreSymmetric(defs: Names, refs: Names, a: string, b: string)
    ensures ShareName(defs, refs, a, b) <==> ShareName(defs, refs, b, a)
  {
    if name :| name in defs && name in refs && Meet(defs[name], refs[name], a, b) {
      assert Meet(defs[name], refs[name], b, a);
    }
    if name :| name in defs && name in refs && Meet(defs[name], refs[name], b, a) {
      assert Meet(defs[name], refs[name], a, b);
    }
  }

  // ----- one iteration -------------------------------------------------------------------------------

  ghost function At(m: map<string, real>): Vector {
    f => if f in m then m[f] else 0.0
  }

  ghost function Uniform(g: Graph): Vector {
    f => if |g.files| > 0 then 1.0 / |g.files| as real else 0.0
  }

  lemma NextDependsOnFiles(g: Graph, v: Vector, w: Vector, t: string)
    requires forall f :: f in g.files ==> v(f) == w(f)
    ensures NextAt(g, v, t) == NextAt(g, w, t)
  {
    hide Sum;
    SumCongruent(g.files, SharesTo(g, v, t), SharesTo(g, w, t));
    SumCongruent(g.files, Leaks(g, v), Leaks(g, w));
  }

  /** Adds a file's share to each of its links. */
  method Distribute(before: map<string, real>, out: set<string>, share: real) returns (next: map<string, real>)
    requires out <= before.Keys
    ensures next.Keys == before.Keys
    ensures forall t :: t in before ==> next[t] == before[t] + if t in out then share else 0.0
  {
    next := before;
    var todo := out;
    while todo != {}
      invariant todo <= out && next.Keys == before.Keys
      invariant forall t :: t in before ==> next[t] == before[t] + if t in out && t !in todo then share else 0.0
      decreases todo
    {
      var to :| to in todo;
      next := next[to := next[to] + share];
      todo := todo - {to};
    }
  }

  method Restart(g: Graph) returns (next: map<string, real>)
    ensures next.Keys == (set f | f in g.files)
    ensures forall f :: f in next ==> next[f] == 0.15 * Personal(g, f)
  {
    next := map[];
    for k := 0 to |g.files|
      invariant forall f :: f in next <==> f in g.files[..k]
      invariant forall f :: f in next ==> next[f] == 0.15 * Personal(g, f)
    {
      next := next[g.files[k] := 0.15 * Personal(g, g.files[k])];
      assert g.files[..k + 1] == g.files[..k] + [g.files[k]];
    }
    assert g.files[..|g.files|] == g.files;
  }

  /** The rank in t after the first k files have passed on theirs. */
  ghost function Partial(g: Graph, v: Vector, k: nat, t: string): real
    requires k <= |g.files|
  {
    0.15 * Personal(g, t) + 0.85 * Sum(g.files[..k], SharesTo(g, v, t))
  }

  lemma PartialNext(g: Graph, v: Vector, k: nat, t: string)
    requires k < |g.files|
    ensures Partial(g, v, k + 1, t) == Partial(g, v, k, t) + 0.85 * Share(g, v, g.files[k], t)
  {
    hide Share, Sum;
    SumNext(g.files, SharesTo(g, v, t), k);
  }

  lemma ScaledShare(g: Graph, rank: map<string, real>, f: string, t: string)
    requires f in rank && Out(g, f) != {}
    ensures 0.85 * Share(g, At(rank), f, t) == if t in Out(g, f) then 0.85 * rank[f] / |Out(g, f)| as real else 0.0
  {
  }

  lemma NoShare(g: Graph, v: Vector, f: string, t: string)
    requires Out(g, f) == {}
    ensures Share(g, v, f, t) == 0.0
  {
  }

  /** One pass over the files: rank along links, and the rank of linkless files. */
  method PassOn(g: Graph, rank: map<string, real>) returns (next: map<string, real>, dangling: real)
    requires Valid(g) && forall f :: f in g.files ==> f in rank
    ensures next.Keys == (set f | f in g.files)
    ensures forall t :: t in g.files ==> next[t] == Partial(g, At(rank), |g.files|, t)
    ensures dangling == Leak(g, At(rank))
  {
    hide Sum, Partial, Share, Distinct, At;
    next := Restart(g);
    dangling := 0.0;
    ghost var v := At(rank);
    assert Sum(g.files[..0], Leaks(g, v)) == 0.0 by { Nothing(g, v, ""); }
    forall t ensures Partial(g, v, 0, t) == 0.15 * Personal(g, t) {
      Nothing(g, v, t);
    }
    for k := 0 to |g.files|
      invariant next.Keys == (set f | f in g.files)
      invariant forall t :: t in next ==> next[t] == Partial(g, v, k, t)
      invariant dangling == Sum(g.files[..k], Leaks(g, v))
    {
      var f := g.files[k];
      SumNext(g.files, Leaks(g, v), k);
      AtMap(rank, f);
      forall t ensures Partial(g, v, k + 1, t) == Partial(g, v, k, t) + 0.85 * Share(g, v, f, t) {
        PartialNext(g, v, k, t);
      }
      if Out(g, f) == {} {
        dangling := dangling + rank[f];
        forall t ensures Share(g, v, f, t) == 0.0 {
          NoShare(g, v, f, t);
        }
      } else {
        forall t ensures 0.85 * Share(g, v, f, t) == if t in Out(g, f) then 0.85 * rank[f] / |Out(g, f)| as real else 0.0 {
          ScaledShare(g, rank, f, t);
        }
        next := Distribute(next, Out(g, f), 0.85 * rank[f] / |Out(g, f)| as real);
      }
    }
    assert g.files[..|g.files|] == g.files;
  }

  lemma Nothing(g: Graph, v: Vector, t: string)
    ensures Partial(g, v, 0, t) == 0.15 * Personal(g, t) && Sum(g.files[..0], Leaks(g, v)) == 0.0
  {
  }

  lemma AtMap(m: map<string, real>, f: string)
    requires f in m
    ensures At(m)(f) == m[f]
  {
  }

  function Refund(g: Graph, dangling: real, f: string): real {
    0.85 * dangling * Personal(g, f)
  }

  /** Gives the rank of linkless files back along the personalisation. */
  method AddDangling(g: Graph, passed: map<string, real>, dangling: real) returns (next: map<string, real>)
    requires Distinct(g.files) && passed.Keys == (set f | f in g.files)
    ensures next.Keys == passed.Keys && forall t :: t in passed ==> next[t] == passed[t] + Refund(g, dangling, t)
  {
    hide Refund, Distinct;
    next := passed;
    for k := 0 to |g.files|
      invariant next.Keys == passed.Keys
      invariant forall t :: t in passed ==> next[t] == passed[t] + if t in g.files[..k] then Refund(g, dangling, t) else 0.0
    {
      NotBefore(g.files, k);
      next := next[g.files[k] := next[g.files[k]] + Refund(g, dangling, g.files[k])];
      assert g.files[..k + 1] == g.files[..k] + [g.files[k]];
    }
    assert g.files[..|g.files|] == g.files;
  }

  /** One whole iteration. */
  method Step(g: Graph, rank: map<string, real>) returns (next: map<string, real>)
    requires Valid(g) && forall f :: f in g.files ==> f in rank
    ensures next.Keys == (set f | f in g.files)
    ensures forall t :: t in g.files ==> next[t] == NextAt(g, At(rank), t)
  {
    hide Sum, Share, Distinct, Leak, At, NextAt, Partial, Refund;
    var passed, dangling := PassOn(g, rank);
    next := AddDangling(g, passed, dangling);
    forall t | t in g.files ensures next[t] == NextAt(g, At(rank), t) {
      Arrange(g, At(rank), t);
    }
  }

  lemma Arrange(g: Graph, v: Vector, t: string)
    ensures Partial(g, v, |g.files|, t) + Refund(g, Leak(g, v), t) == NextAt(g, v, t)
  {
    hide Sum, SharesTo, Leak;
    assert g.files[..|g.files|] == g.files;
    Distribution(Inflow(g, v, t), Leak(g, v), Personal(g, t));
  }

  lemma NotBefore(xs: seq<string>, k: nat)
    requires Distinct(xs) && k < |xs|
    ensures xs[k] !in xs[..k]
  {
  }

  lemma Distribution(i: real, d: real, p: real)
    ensures (0.15 * p + 0.85 * i) + 0.85 * d * p == 0.15 * p + 0.85 * (i + d * p)
  {
  }

  /** The rank iteration computes the iterates of one well-defined map from the uniform start. */
  method RankFiles(g: Graph, iterations: nat) returns (rank: map<string, real>)
    requires Valid(g) && g.files != []
    ensures rank.Keys == (set f | f in g.files)
    ensures forall f :: f in g.files ==> rank[f] == Iterate(g, Uniform(g), iterations)(f)
  {
    hide Sum, Share, Leak, NextAt, Distinct;
    rank := map f | f in g.files :: 1.0 / |g.files| as real;
    for n := 0 to iterations
      invariant rank.Keys == (set f | f in g.files)
      invariant forall f :: f in g.files ==> rank[f] == Iterate(g, Uniform(g), n)(f)
    {
      ghost var was := At(rank);
      rank := Step(g, rank);
      forall t | t in g.files ensures rank[t] == Iterate(g, Uniform(g), n + 1)(t) {
        NextDependsOnFiles(g, was, Iterate(g, Uniform(g), n), t);
      }
    }
  }

  /** The uniform start sums to one, so whenever the personalisation does, so does every computed rank. */
  lemma RanksSumToOne(g: Graph, iterations: nat)
    requires Valid(g) && g.files != [] && PersonalMass(g) == 1.0
    ensures NonNegative(g, Iterate(g, Uniform(g), iterations)) && Mass(g, Iterate(g, Uniform(g), iterations)) == 1.0
  {
    hide Sum, Iterate, PersonalMass, Valid;
    UniformMass(g);
    IterationsConserve(g, Uniform(g), iterations);
  }

  lemma UniformMass(g: Graph)
    requires Valid(g) && g.files != []
    ensures NonNegative(g, Uniform(g)) && Mass(g, Uniform(g)) == 1.0
  {
    hide Sum, Valid;
    var all := set f | f in g.files;
    var c := 1.0 / |g.files| as real;
    assert Distinct(g.files) by { ValidFiles(g); }
    SumOfSubset(g.files, all, c);
    SumCongruent(g.files, Uniform(g), Indicator(all, c));
    CountFiles(g.files);
    Whole(1.0, |g.files|);
  }

  /** With less than the whole personalisation, mass is lost in the first iteration and never regained. */
  lemma {:induction false} MassIsLost(g: Graph, v: Vector, n: nat)
    requires Valid(g) && NonNegative(g, v) && Mass(g, v) <= 1.0 && PersonalMass(g) < 1.0
    ensures NonNegative(g, Iterate(g, v, n)) && Mass(g, Iterate(g, v, n)) <= 1.0
    ensures n > 0 ==> Mass(g, Iterate(g, v, n)) < 1.0
  {
    hide Mass, PersonalMass, NonNegative, Valid, Next, Leak;
    if n > 0 {
      var w := Iterate(g, v, n - 1);
      MassIsLost(g, v, n - 1);
      NextNonNegative(g, w);
      LeakNonNegative(g, w);
      MassOfNext(g, w);
      Shortfall(Mass(g, w), Leak(g, w), PersonalMass(g));
    }
  }

  lemma Shortfall(mass: real, leak: real, p: real)
    requires mass <= 1.0 && leak >= 0.0 && p < 1.0
    ensures 0.15 * p + 0.85 * (mass - leak + leak * p) < 1.0
  {
    NoGain(leak, p);
  }

  lemma ValidFiles(g: Graph)
    requires Valid(g)
    ensures Distinct(g.files)
  {
  }

  lemma {:induction false} CountFiles(xs: seq<string>)
    requires Distinct(xs)
    ensures |set f | f in xs| == |xs|
  {
    if xs != [] {
      var init, last := xs[..|xs| - 1], xs[|xs| - 1];
      assert xs == init + [last];
      DistinctInit(init, last);
      CountFiles(init);
      assert (set f | f in xs) == (set f | f in init) + {last};
    }
  }

  // ----- personalisation -----------------------------------------------------------------------------

  datatype Hit = Hit(path: string, score: real)

  /** The score of a hit, or one where it has none. */
  function Weight(h: Hit): (w: real)
    ensures w > 0.0 && (h.score > 0.0 ==> w == h.score) && (h.score <= 0.0 ==> w == 1.0)
  {
    if h.score <= 0.0 then 1.0 else h.score
  }

  ghost function Weights(): Hit -> real {
    (h: Hit) => Weight(h)
  }

  ghost function WeightsOn(p: string): Hit -> real {
    (h: Hit) => if h.path == p then Weight(h) else 0.0
  }

  /** Weighs files by their search hits, or all alike when nothing was hit. */
  method Personalise(files: seq<string>, hits: seq<Hit>) returns (personal: map<string, real>)
    requires files != []
    ensures hits == [] ==> personal == map f | f in files :: 1.0 / |files| as real
    ensures hits != [] ==> Sum(hits, Weights()) > 0.0
    ensures hits != [] ==> forall p :: At(personal)(p) == Sum(hits, WeightsOn(p)) / Sum(hits, Weights())
  {
    if hits == [] {
      return map f | f in files :: 1.0 / |files| as real;
    }
    hide Sum;
    var total;
    personal, total := Accumulate(hits);
    SomeWeight(hits);
    personal := map p | p in personal :: personal[p] / total;
  }

  method Accumulate(hits: seq<Hit>) returns (sums: map<string, real>, total: real)
    ensures total == Sum(hits, Weights())
    ensures forall p :: At(sums)(p) == Sum(hits, WeightsOn(p))
  {
    hide Sum;
    sums, total := map[], 0.0;
    forall p ensures Sum(hits[..0], WeightsOn(p)) == 0.0 && Sum(hits[..0], Weights()) == 0.0 {
      NoHits(hits[..0], p);
    }
    NoHits(hits[..0], "");
    for i := 0 to |hits|
      invariant total == Sum(hits[..i], Weights())
      invariant forall p :: At(sums)(p) == Sum(hits[..i], WeightsOn(p))
    {
      var h := hits[i];
      SumNext(hits, Weights(), i);
      forall p ensures Sum(hits[..i + 1], WeightsOn(p)) == Sum(hits[..i], WeightsOn(p)) + WeightsOn(p)(h) {
        SumNext(hits, WeightsOn(p), i);
      }
      assert At(sums)(h.path) == Sum(hits[..i], WeightsOn(h.path));
      ghost var was := sums;
      sums := sums[h.path := (if h.path in sums then sums[h.path] else 0.0) + Weight(h)];
      assert forall p :: p != h.path ==> At(sums)(p) == At(was)(p);
      total := total + Weight(h);
    }
    assert hits[..|hits|] == hits;
  }

  lemma NoHits(hits: seq<Hit>, p: string)
    requires hits == []
    ensures Sum(hits, WeightsOn(p)) == 0.0 && Sum(hits, Weights()) == 0.0
  {
  }

  lemma SomeWeight(hits: seq<Hit>)
    requires hits != []
    ensures Sum(hits, Weights()) > 0.0
  {
    SumNonNegative(hits[..|hits| - 1], Weights());
  }

  ghost function Covered(files: seq<string>): Hit -> real {
    (h: Hit) => if h.path in files then Weight(h) else 0.0
  }

  ghost function Uncovered(files: seq<string>): Hit -> real {
    (h: Hit) => if h.path in files then 0.0 else Weight(h)
  }

  /** The weight that falls on the files is the weight of the hits that are files. */
  lemma CoveredWeight(files: seq<string>, hits: seq<Hit>, on: string -> real)
    requires Distinct(files) && forall f :: f in files ==> on(f) == Sum(hits, WeightsOn(f))
    ensures Sum(files, on) == Sum(hits, Covered(files))
  {
    hide Sum;
    var m := (h: Hit, f: string) => WeightsOn(f)(h);
    forall f | f in files ensures on(f) == Sum(hits, Down(m, f)) {
      SumCongruent(hits, WeightsOn(f), Down(m, f));
    }
    forall h | h in hits ensures Covered(files)(h) == Sum(files, Across(m, h)) {
      var s := if h.path in files then {h.path} else {};
      SumOfSubset(files, s, Weight(h));
      SumCongruent(files, Across(m, h), Indicator(s, Weight(h)));
    }
    SumSwap(hits, files, m, Covered(files), on);
  }

  /** The personalisation weights of the files are at most one in all, and sum to one exactly when every search
      hit is an indexed file. */
  lemma PersonalSumsToOne(g: Graph, hits: seq<Hit>)
    requires Distinct(g.files) && hits != [] && Sum(hits, Weights()) > 0.0
    requires forall p :: At(g.personal)(p) == Sum(hits, WeightsOn(p)) / Sum(hits, Weights())
    ensures PersonalMass(g) <= 1.0
    ensures PersonalMass(g) == 1.0 <==> forall h :: h in hits ==> h.path in g.files
  {
    hide Sum;
    var total := Sum(hits, Weights());
    var on := (f: string) => Sum(hits, WeightsOn(f));
    CoveredWeight(g.files, hits, on);
    forall f | f in g.files ensures Personal(g, f) == (1.0 / total) * on(f) {
      assert At(g.personal)(f) == Sum(hits, WeightsOn(f)) / total;
    }
    SumTimes(g.files, 1.0 / total, on, f => Personal(g, f));
    var covered, rest := Sum(hits, Covered(g.files)), Sum(hits, Uncovered(g.files));
    SumPlus(hits, Covered(g.files), Uncovered(g.files), Weights());
    SumNonNegative(hits, Uncovered(g.files));
    Fraction(covered, rest, total);
    UncoveredVanishes(g.files, hits);
  }

  lemma Fraction(covered: real, rest: real, total: real)
    requires total > 0.0 && total == covered + rest && rest >= 0.0
    ensures (1.0 / total) * covered <= 1.0
    ensures (1.0 / total) * covered == 1.0 <==> rest == 0.0
  {
    var q := 1.0 / total;
    assert q * total == 1.0;
    assert q * covered == q * total - q * rest;
    assert q > 0.0;
    Product(q, rest);
    if q * rest == 0.0 {
      assert rest == total * (q * rest);
    }
  }

  lemma UncoveredVanishes(files: seq<string>, hits: seq<Hit>)
    ensures Sum(hits, Uncovered(files)) == 0.0 <==> forall h :: h in hits ==> h.path in files
  {
    hide Sum;
    if Sum(hits, Uncovered(files)) == 0.0 {
      forall h | h in hits ensures h.path in files {
        SumVanishes(hits, Uncovered(files), h);
      }
    }
    if forall h :: h in hits ==> h.path in files {
      SumZero(hits, Uncovered(files));
    }
  }

  // ----- the whole ranking ---------------------------------------------------------------------------

  function Clip(iterations: int): nat {
    if iterations <= 0 then 8 else if iterations > 32 then 32 else iterations
  }

  /** The graph that is ranked: links by shared names and typed edges, and personalisation by the hits. */
  ghost predicate GraphFor(g: Graph, files: seq<string>, defs: Names, refs: Names, edges: Lists, hits: seq<Hit>) {
    && g.files == files
    && (forall a, b ::
          Linked(g.links, a, b) <==>
          a != b && a in files && b in files && (ShareName(defs, refs, a, b) || HasEdge(edges, a, b)))
    && (if hits == [] then g.personal == map f | f in files :: 1.0 / |files| as real
        else Sum(hits, Weights()) > 0.0 && forall p :: At(g.personal)(p) == Sum(hits, WeightsOn(p)) / Sum(hits, Weights()))
  }

  /** Ranks the indexed files: the iterates, from equal ranks, of the damped flow along the links. No rank is negative,
      the ranks sum to at most one, and to one exactly when every hit is an indexed file. A file that shares a name with
      another outranks its personalisation, and one that nothing links to and no hit names has no rank. */
  method RepoRank(files: seq<string>, defs: Names, refs: Names, edges: Lists, hits: seq<Hit>, iterations: int)
    returns (rank: map<string, real>, ghost g: Graph)
    requires Distinct(files)
    ensures rank.Keys == (set f | f in files)
    ensures forall f :: f in rank ==> rank[f] >= 0.0
    ensures Sum(files, At(rank)) <= 1.0
    ensures files != [] ==> (Sum(files, At(rank)) == 1.0 <==> forall h :: h in hits ==> h.path in files)
    ensures files != [] ==> GraphFor(g, files, defs, refs, edges, hits)
    ensures var n := if iterations < 1 then 8 else if iterations > 32 then 32 else iterations;
            forall f :: f in rank ==> rank[f] == Iterate(g, Uniform(g), n)(f)
    ensures forall a, b :: a in files && b in files && a != b && ShareName(defs, refs, a, b) ==> rank[b] > 0.15 * Personal(g, b)
    ensures forall f :: f in files && (forall a :: !Linked(g.links, a, f)) && Personal(g, f) == 0.0 ==> rank[f] == 0.0
  {
    hide Sum, ShareName, GraphFor, Iterate, Uniform, Linked;
    g := Graph(files, map[], map[]);
    if files == [] {
      SumZero(files, At(map[]));
      return map[], g;
    }
    var links := BuildLinks((set f | f in files), defs, refs, edges);
    var personal := Personalise(files, hits);
    var ranked := Graph(files, links, personal);
    g := ranked;
    ItsGraph(g, files, defs, refs, edges, hits);
    GraphIsValid(g, files, defs, refs, edges, hits);
    var n := Clip(iterations);
    rank := RankFiles(ranked, n);
    RanksSum(g, files, defs, refs, edges, hits, n);
    SumCongruent(files, At(rank), Iterate(g, Uniform(g), n));
    LinksTell(g, files, defs, refs, edges, hits, n);
  }

  lemma GraphIsValid(g: Graph, files: seq<string>, defs: Names, refs: Names, edges: Lists, hits: seq<Hit>)
    requires Distinct(files) && files != [] && GraphFor(g, files, defs, refs, edges, hits)
    ensures Valid(g) && PersonalMass(g) <= 1.0
    ensures PersonalMass(g) == 1.0 <==> forall h :: h in hits ==> h.path in g.files
  {
    hide Sum, ShareName, HasEdge, PersonalMass;
    PersonalFits(g, hits);
    forall a, b | a in g.files && b in Out(g, a) ensures b in g.files {
      assert Linked(g.links, a, b);
    }
  }

  /** No rank is negative, the ranks sum to at most one, and to one exactly when every hit is a file. */
  lemma RanksSum(g: Graph, files: seq<string>, defs: Names, refs: Names, edges: Lists, hits: seq<Hit>, n: nat)
    requires Distinct(files) && files != [] && GraphFor(g, files, defs, refs, edges, hits) && n > 0
    ensures NonNegative(g, Iterate(g, Uniform(g), n)) && g.files == files
    ensures Sum(files, Iterate(g, Uniform(g), n)) <= 1.0
    ensures Sum(files, Iterate(g, Uniform(g), n)) == 1.0 <==> forall h :: h in hits ==> h.path in files
  {
    hide Sum, Iterate, Uniform, Valid, PersonalMass;
    GraphIsValid(g, files, defs, refs, edges, hits);
    UniformNonNegative(g, n);
    if PersonalMass(g) == 1.0 {
      RanksSumToOne(g, n);
    } else {
      UniformMass(g);
      MassIsLost(g, Uniform(g), n);
    }
  }

  /** Files that share a name outrank their personalisation; a file without links and hits has no rank. */
  lemma LinksTell(g: Graph, files: seq<string>, defs: Names, refs: Names, edges: Lists, hits: seq<Hit>, n: nat)
    requires Distinct(files) && files != [] && GraphFor(g, files, defs, refs, edges, hits) && n > 0
    ensures forall a, b :: a in files && b in files && a != b && ShareName(defs, refs, a, b) ==>
                             Iterate(g, Uniform(g), n)(b) > 0.15 * Personal(g, b)
    ensures forall f :: f in files && (forall a :: !Linked(g.links, a, f)) && Personal(g, f) == 0.0 ==>
                          Iterate(g, Uniform(g), n)(f) == 0.0
  {
    hide Sum, Iterate, Uniform, Valid, ShareName, Personal, NextAt;
    GraphIsValid(g, files, defs, refs, edges, hits);
    forall a, b | a in files && b in files && a != b && ShareName(defs, refs, a, b)
      ensures Iterate(g, Uniform(g), n)(b) > 0.15 * Personal(g, b)
    {
      NameLinksAreSymmetric(defs, refs, a, b);
      assert Linked(g.links, a, b) && Linked(g.links, b, a);
      SharersOutrank(g, n - 1, a, b);
    }
    forall f | f in files && (forall a :: !Linked(g.links, a, f)) && Personal(g, f) == 0.0
      ensures Iterate(g, Uniform(g), n)(f) == 0.0
    {
      UnlinkedFollowsPersonal(g, Iterate(g, Uniform(g), n - 1), f);
      IterateNext(g, n - 1, f);
    }
  }

  lemma ItsGraph(g: Graph, files: seq<string>, defs: Names, refs: Names, edges: Lists, hits: seq<Hit>)
    requires g.files == files
    requires forall a, b ::
               Linked(g.links, a, b) <==>
               Admissible((set f | f in files), a, b) && (ShareName(defs, refs, a, b) || HasEdge(edges, a, b))
    requires hits == [] ==> g.personal == map f | f in files :: 1.0 / |files| as real
    requires hits != [] ==> Sum(hits, Weights()) > 0.0
    requires hits != [] ==> forall p :: At(g.personal)(p) == Sum(hits, WeightsOn(p)) / Sum(hits, Weights())
    ensures GraphFor(g, files, defs, refs, edges, hits)
  {
    hide Sum, ShareName, HasEdge, Linked;
  }

  lemma IterateNext(g: Graph, n: nat, f: string)
    ensures Iterate(g, Uniform(g), n + 1)(f) == NextAt(g, Iterate(g, Uniform(g), n), f)
  {
    hide Sum;
  }

  // ----- what links do for a file --------------------------------------------------------------------

  /** Every file that links to a file passes on its part of the damped rank, on top of the personalisation. */
  lemma LinkedFilesGain(g: Graph, v: Vector, a: string, f: string)
    requires Valid(g) && NonNegative(g, v) && a in g.files && f in g.files && f in Out(g, a)
    ensures NextAt(g, v, f) >= 0.15 * Personal(g, f) + 0.85 * (v(a) / |Out(g, a)| as real)
  {
    hide Sum, Valid;
    LeakNonNegative(g, v);
    assert Personal(g, f) >= 0.0 by { PersonalNonNegative(g, f); }
    Product(Leak(g, v), Personal(g, f));
    forall x | x in g.files ensures Share(g, v, x, f) >= 0.0 {
      ShareNonNegative(g, v, x, f);
    }
    SumAtLeast(g.files, SharesTo(g, v, f), a);
  }

  lemma PersonalNonNegative(g: Graph, f: string)
    requires Valid(g) && f in g.files
    ensures Personal(g, f) >= 0.0
  {
  }

  lemma ShareNonNegative(g: Graph, v: Vector, x: string, f: string)
    requires v(x) >= 0.0
    ensures Share(g, v, x, f) >= 0.0
  {
  }

  lemma {:induction false} SumAtLeast(xs: seq<string>, v: Vector, a: string)
    requires a in xs && forall x :: x in xs ==> v(x) >= 0.0
    ensures Sum(xs, v) >= v(a)
  {
    var init, last := xs[..|xs| - 1], xs[|xs| - 1];
    assert xs == init + [last];
    if a in init {
      SumAtLeast(init, v, a);
    } else {
      SumNonNegative(init, v);
    }
  }

  /** Two files that link to each other both keep a positive rank, above their personalisation, in every iteration. */
  lemma {:induction false} SharersOutrank(g: Graph, n: nat, a: string, b: string)
    requires Valid(g) && a in g.files && b in g.files && b in Out(g, a) && a in Out(g, b)
    ensures Iterate(g, Uniform(g), n)(a) > 0.0 && Iterate(g, Uniform(g), n)(b) > 0.0
    ensures Iterate(g, Uniform(g), n + 1)(b) > 0.15 * Personal(g, b)
  {
    hide Sum, Valid, NextAt;
    if n > 0 {
      SharersOutrank(g, n - 1, b, a);
      SharersOutrank(g, n - 1, a, b);
      PersonalNonNegative(g, a);
      PersonalNonNegative(g, b);
    }
    UniformNonNegative(g, n);
    LinkedFilesGain(g, Iterate(g, Uniform(g), n), a, b);
    Positive(Iterate(g, Uniform(g), n)(a), |Out(g, a)|);
    IterateNext(g, n, b);
  }

  lemma Positive(x: real, n: nat)
    requires x > 0.0 && n > 0
    ensures 0.85 * (x / n as real) > 0.0
  {
  }

  /** A file that nothing links to gets the restart and the rank of linkless files in proportion to its personalisation,
      and nothing else. */
  lemma UnlinkedFollowsPersonal(g: Graph, v: Vector, f: string)
    requires forall a :: !Linked(g.links, a, f)
    ensures NextAt(g, v, f) == (0.15 + 0.85 * Leak(g, v)) * Personal(g, f)
  {
    hide Sum, Leak;
    forall x ensures Share(g, v, x, f) == 0.0 {
      assert !Linked(g.links, x, f);
    }
    SumZero(g.files, SharesTo(g, v, f));
  }

  lemma {:induction false} UniformNonNegative(g: Graph, n: nat)
    requires Valid(g)
    ensures NonNegative(g, Iterate(g, Uniform(g), n))
  {
    hide Valid, Next;
    if n > 0 {
      UniformNonNegative(g, n - 1);
      NextNonNegative(g, Iterate(g, Uniform(g), n - 1));
    }
  }

  lemma PersonalFits(g: Graph, hits: seq<Hit>)
    requires Distinct(g.files) && g.files != []
    requires hits == [] ==> g.personal == map f | f in g.files :: 1.0 / |g.files| as real
    requires hits != [] ==> Sum(hits, Weights()) > 0.0
    requires hits != [] ==> forall p :: At(g.personal)(p) == Sum(hits, WeightsOn(p)) / Sum(hits, Weights())
    ensures forall f :: f in g.files ==> Personal(g, f) >= 0.0
    ensures PersonalMass(g) <= 1.0
    ensures PersonalMass(g) == 1.0 <==> forall h :: h in hits ==> h.path in g.files
  {
    hide Sum;
    if hits == [] {
      var all, c := (set f | f in g.files), 1.0 / |g.files| as real;
      SumOfSubset(g.files, all, c);
      SumCongruent(g.files, f => Personal(g, f), Indicator(all, c));
      CountFiles(g.files);
      Whole(1.0, |g.files|);
    } else {
      PersonalSumsToOne(g, hits);
      forall f | f in g.files ensures Personal(g, f) >= 0.0 {
        SumNonNegative(hits, WeightsOn(f));
        assert Personal(g, f) == At(g.personal)(f);
      }
    }
  }

  /** Two files joined by one name, with a hit on the first: after one iteration 0.575 and 0.425. */
  lemma TwoFiles(g: Graph, a: string, b: string)
    requires a != b
    requires GraphFor(g, [a, b], map["f" := {a}], map["f" := {b}], map[], [Hit(a, 1.0)])
    ensures Iterate(g, Uniform(g), 1)(a) == 0.575 && Iterate(g, Uniform(g), 1)(b) == 0.425
  {
    hide Sum;
    var defs, refs := map["f" := {a}], map["f" := {b}];
    TwoLinks(g, a, b);
    TwoWeights(a, b);
    assert At(g.personal)(a) == 1.0 && At(g.personal)(b) == 0.0;
    IterateNext(g, 0, a);
    IterateNext(g, 0, b);
    SumOfTwo(a, b, SharesTo(g, Uniform(g), a));
    SumOfTwo(a, b, SharesTo(g, Uniform(g), b));
    SumOfTwo(a, b, Leaks(g, Uniform(g)));
  }

  lemma TwoLinks(g: Graph, a: string, b: string)
    requires a != b && g.files == [a, b]
    requires forall x, y ::
               Linked(g.links, x, y) <==>
               x != y && x in [a, b] && y in [a, b] && (ShareName(map["f" := {a}], map["f" := {b}], x, y) || HasEdge(map[], x, y))
    ensures Out(g, a) == {b} && Out(g, b) == {a}
  {
    var defs, refs := map["f" := {a}], map["f" := {b}];
    assert Meet(defs["f"], refs["f"], a, b) && Meet(defs["f"], refs["f"], b, a);
    assert ShareName(defs, refs, a, b) && ShareName(defs, refs, b, a);
    forall y ensures (y in Out(g, a) <==> y == b) && (y in Out(g, b) <==> y == a) {
      assert Linked(g.links, a, y) <==> y in Out(g, a);
      assert Linked(g.links, b, y) <==> y in Out(g, b);
    }
  }

  lemma TwoWeights(a: string, b: string)
    requires a != b
    ensures Sum([Hit(a, 1.0)], Weights()) == 1.0
    ensures Sum([Hit(a, 1.0)], WeightsOn(a)) == 1.0 && Sum([Hit(a, 1.0)], WeightsOn(b)) == 0.0
  {
  }

  lemma SumOfTwo(a: string, b: string, v: Vector)
    ensures Sum([a, b], v) == v(a) + v(b)
  {
    assert [a, b][..1] == [a];
    assert Sum([a], v) == v(a);
  }
}
