/** What the crawler records about one file, and what an index over a set of files has to hold. */
module CodeFacts {
  import opened Wrappers

  datatype Stamp = Stamp(size: int, mtime: int)

  datatype Edge = Edge(source: string, target: string, kind: string)

  datatype Facts = Facts(postings: map<string, nat>, defs: seq<string>, refs: seq<string>, imps: seq<string>,
                         edges: seq<Edge>)

  /** Tokenising, symbol and edge extraction, the content hash and lower-casing: functions of path and body. */
  datatype Extractor = Extractor(facts: (string, string) -> Facts, hash: string -> string, lower: string -> string)

  datatype File = File(body: string, stamp: Stamp)

  /** The files an index is about. */
  type Content = map<string, File>

  type Lists = map<string, seq<string>>

  type Postings = map<string, map<string, nat>>

  type Names = map<string, set<string>>

  datatype SymbolGraph = SymbolGraph(defs: Names, refs: Names, imports: Names)

  /** The per-file maps. */
  datatype Store = Store(files: set<string>, postings: Postings, defs: Lists, refs: Lists, imps: Lists,
                         edges: map<string, seq<Edge>>, hashes: map<string, string>, stamps: map<string, Stamp>)

  /** Everything an index holds. */
  datatype Snapshot = Snapshot(store: Store, inverted: Postings, symbols: SymbolGraph)

  const EMPTY_STORE := Store({}, map[], map[], map[], map[], map[], map[], map[])

  const EMPTY_GRAPH := SymbolGraph(map[], map[], map[])

  // ----- one file's row ------------------------------------------------------------------------------

  /** What the per-file maps say about one path. */
  datatype Row = Row(listed: bool, postings: Option<map<string, nat>>, defs: Option<seq<string>>,
                     refs: Option<seq<string>>, imps: Option<seq<string>>, edges: Option<seq<Edge>>,
                     hash: Option<string>, stamp: Option<Stamp>)

  const EMPTY_ROW := Row(false, None, None, None, None, None, None, None)

  function Get<K, V>(m: map<K, V>, k: K): Option<V> {
    if k in m then Some(m[k]) else None
  }

  ghost function RowOf(s: Store, p: string): Row {
    Row(p in s.files, Get(s.postings, p), Get(s.defs, p), Get(s.refs, p), Get(s.imps, p), Get(s.edges, p),
        Get(s.hashes, p), Get(s.stamps, p))
  }

  /** Empty lists are not stored. */
  function Stored<T>(xs: seq<T>): Option<seq<T>> {
    if |xs| > 0 then Some(xs) else None
  }

  ghost function FactsRow(f: Facts): Row {
    Row(true, Some(f.postings), Stored(f.defs), Stored(f.refs), Stored(f.imps), Stored(f.edges), None, None)
  }

  ghost function FileRow(x: Extractor, p: string, file: File): Row {
    FactsRow(x.facts(p, file.body)).(hash := Some(x.hash(file.body)), stamp := Some(file.stamp))
  }

  ghost function Expected(x: Extractor, c: Content, p: string): Row {
    if p in c then FileRow(x, p, c[p]) else EMPTY_ROW
  }

  /** The per-file maps hold exactly the files of c. */
  ghost predicate Rows(x: Extractor, s: Store, c: Content) {
    forall p :: RowOf(s, p) == Expected(x, c, p)
  }

  lemma SameRows(s: Store, t: Store)
    requires forall p :: RowOf(s, p) == RowOf(t, p)
    ensures s == t
  {
    SameFiles(s, t);
    SameMap(s.postings, t.postings, (r: Row) => r.postings, s, t);
    SameMap(s.defs, t.defs, (r: Row) => r.defs, s, t);
    SameMap(s.refs, t.refs, (r: Row) => r.refs, s, t);
    SameMap(s.imps, t.imps, (r: Row) => r.imps, s, t);
    SameMap(s.edges, t.edges, (r: Row) => r.edges, s, t);
    SameMap(s.hashes, t.hashes, (r: Row) => r.hash, s, t);
    SameMap(s.stamps, t.stamps, (r: Row) => r.stamp, s, t);
  }

  lemma SameFiles(s: Store, t: Store)
    requires forall p :: RowOf(s, p) == RowOf(t, p)
    ensures s.files == t.files
  {
    forall p ensures p in s.files <==> p in t.files {
      assert RowOf(s, p).listed == RowOf(t, p).listed;
    }
  }

  lemma SameMap<V>(a: map<string, V>, b: map<string, V>, field: Row -> Option<V>, s: Store, t: Store)
    requires forall p :: field(RowOf(s, p)) == Get(a, p)
    requires forall p :: field(RowOf(t, p)) == Get(b, p)
    requires forall p :: RowOf(s, p) == RowOf(t, p)
    ensures a == b
  {
    hide RowOf;
    forall p ensures Get(a, p) == Get(b, p) {
      assert field(RowOf(s, p)) == Get(a, p);
    }
    SameGets(a, b);
  }

  lemma SameGets<K(!new), V>(a: map<K, V>, b: map<K, V>)
    requires forall k :: Get(a, k) == Get(b, k)
    ensures a == b
  {
    forall k ensures (k in a <==> k in b) && (k in a ==> a[k] == b[k]) {
      assert Get(a, k) == Get(b, k);
    }
  }

  /** Empty lists are not stored. */
  function Keep<T>(m: map<string, seq<T>>, p: string, xs: seq<T>): map<string, seq<T>> {
    if |xs| > 0 then m[p := xs] else m
  }

  lemma RecordedRow(s: Store, t: Store, rel: string, f: Facts, p: string)
    requires t == Store(s.files + {rel}, s.postings[rel := f.postings], Keep(s.defs, rel, f.defs), Keep(s.refs, rel, f.refs),
                        Keep(s.imps, rel, f.imps), Keep(s.edges, rel, f.edges), s.hashes, s.stamps)
    ensures p != rel ==> RowOf(t, p) == RowOf(s, p)
    ensures RowOf(s, rel) == EMPTY_ROW ==> RowOf(t, rel) == FactsRow(f)
  {
  }

  lemma StampedRow(s: Store, t: Store, rel: string, hash: string, stamp: Stamp, p: string)
    requires t == s.(hashes := s.hashes[rel := hash], stamps := s.stamps[rel := stamp])
    ensures RowOf(t, p) == if p == rel then RowOf(s, p).(hash := Some(hash), stamp := Some(stamp)) else RowOf(s, p)
  {
  }

  ghost function Join(s: Store, t: Store): Store {
    Store(s.files + t.files, s.postings + t.postings, s.defs + t.defs, s.refs + t.refs, s.imps + t.imps,
          s.edges + t.edges, s.hashes + t.hashes, s.stamps + t.stamps)
  }

  lemma JoinedRow(s: Store, t: Store, p: string)
    ensures RowOf(t, p) == EMPTY_ROW ==> RowOf(Join(s, t), p) == RowOf(s, p)
    ensures RowOf(s, p) == EMPTY_ROW ==> RowOf(Join(s, t), p) == RowOf(t, p)
  {
  }

  /** Files indexed apart are indexed together. */
  lemma RowsTogether(x: Extractor, s: Store, c: Content, t: Store, d: Content)
    requires Rows(x, s, c) && Rows(x, t, d) && c.Keys !! d.Keys
    ensures Rows(x, Join(s, t), c + d)
  {
    hide FileRow, RowOf, Join;
    forall p ensures RowOf(Join(s, t), p) == Expected(x, c + d, p) {
      JoinedRow(s, t, p);
      assert RowOf(s, p) == Expected(x, c, p) && RowOf(t, p) == Expected(x, d, p);
    }
  }

  lemma KeysOf(x: Extractor, s: Store, c: Content)
    requires Rows(x, s, c)
    ensures s.files == s.postings.Keys == s.hashes.Keys == s.stamps.Keys == c.Keys
    ensures s.defs.Keys <= c.Keys && s.refs.Keys <= c.Keys && s.imps.Keys <= c.Keys && s.edges.Keys <= c.Keys
  {
    forall p
      ensures p in s.files <==> p in c
      ensures p in s.postings <==> p in c
      ensures p in s.hashes <==> p in c
      ensures p in s.stamps <==> p in c
      ensures p in s.defs || p in s.refs || p in s.imps || p in s.edges ==> p in c
    {
      assert RowOf(s, p) == Expected(x, c, p);
    }
  }

  /** A file without definitions, references, imports or edges has no list of them, rather than an empty one. */
  lemma NoEmptyLists(x: Extractor, s: Store, c: Content, p: string)
    requires Rows(x, s, c)
    ensures (p in s.defs <==> p in c && x.facts(p, c[p].body).defs != []) && (p in s.defs ==> s.defs[p] != [])
    ensures (p in s.refs <==> p in c && x.facts(p, c[p].body).refs != []) && (p in s.refs ==> s.refs[p] != [])
    ensures (p in s.imps <==> p in c && x.facts(p, c[p].body).imps != []) && (p in s.imps ==> s.imps[p] != [])
    ensures (p in s.edges <==> p in c && x.facts(p, c[p].body).edges != []) && (p in s.edges ==> s.edges[p] != [])
  {
    assert RowOf(s, p) == Expected(x, c, p);
  }

  // ----- the inverted index --------------------------------------------------------------------------

  function Cell(m: Postings, a: string, b: string): Option<nat> {
    if a in m && b in m[a] then Some(m[a][b]) else None
  }

  ghost predicate NoEmptyRow(m: Postings) {
    forall a :: a in m ==> m[a] != map[]
  }

  /** inv[token][path] is postings[path][token], and nothing else is in inv. */
  ghost predicate Transposed(inv: Postings, postings: Postings) {
    NoEmptyRow(inv) && forall tok, p :: Cell(inv, tok, p) == Cell(postings, p, tok)
  }

  lemma CellsDetermine(a: Postings, b: Postings)
    requires NoEmptyRow(a) && NoEmptyRow(b) && forall tok, p :: Cell(a, tok, p) == Cell(b, tok, p)
    ensures a == b
  {
    forall tok ensures Get(a, tok) == Get(b, tok) {
      RowDetermined(a, b, tok);
      RowDetermined(b, a, tok);
    }
    SameGets(a, b);
  }

  lemma RowDetermined(a: Postings, b: Postings, tok: string)
    requires NoEmptyRow(a) && forall t, p :: Cell(a, t, p) == Cell(b, t, p)
    ensures tok in a ==> tok in b && a[tok] == b[tok]
  {
    if tok in a {
      assert a[tok] != map[];
      var p :| p in a[tok];
      assert Cell(a, tok, p) == Cell(b, tok, p);
      forall q ensures Get(a[tok], q) == Get(b[tok], q) {
        assert Cell(a, tok, q) == Cell(b, tok, q);
      }
      SameGets(a[tok], b[tok]);
    }
  }

  lemma TransposeIsUnique(a: Postings, b: Postings, postings: Postings)
    requires Transposed(a, postings) && Transposed(b, postings)
    ensures a == b
  {
    forall tok, p ensures Cell(a, tok, p) == Cell(b, tok, p) {
      assert Cell(a, tok, p) == Cell(postings, p, tok);
    }
    CellsDetermine(a, b);
  }

  // ----- names ---------------------------------------------------------------------------------------

  ghost predicate Has(m: Names, a: string, b: string) {
    a in m && b in m[a]
  }

  ghost predicate NoEmptyName(m: Names) {
    forall a :: a in m ==> m[a] != {}
  }

  /** A list mentions a name if it holds it, or holds a name that folds to it. */
  ghost predicate Mentions(xs: seq<string>, fold: string -> string, name: string) {
    name != "" && exists i :: 0 <= i < |xs| && (name == xs[i] || name == fold(xs[i]))
  }

  /** m sends a name to the files whose lists mention it. */
  ghost predicate Named(m: Names, lists: Lists, fold: string -> string) {
    && NoEmptyName(m)
    && forall name, file :: Has(m, name, file) <==> file != "" && file in lists && Mentions(lists[file], fold, name)
  }

  /** m sends a file to the paths it imports. */
  ghost predicate Imported(m: Names, lists: Lists) {
    && NoEmptyName(m)
    && forall file, path :: Has(m, file, path) <==> file != "" && file in lists && path != "" && path in lists[file]
  }

  lemma NamesDetermine(a: Names, b: Names)
    requires NoEmptyName(a) && NoEmptyName(b) && forall k, v :: Has(a, k, v) <==> Has(b, k, v)
    ensures a == b
  {
    forall k ensures Get(a, k) == Get(b, k) {
      NameDetermined(a, b, k);
      NameDetermined(b, a, k);
    }
    SameGets(a, b);
  }

  lemma NameDetermined(a: Names, b: Names, k: string)
    requires NoEmptyName(a) && forall k, v :: Has(a, k, v) <==> Has(b, k, v)
    ensures k in a ==> k in b && a[k] == b[k]
  {
    if k in a {
      var v :| v in a[k];
      assert Has(a, k, v);
      forall v ensures v in a[k] <==> v in b[k] {
        assert Has(a, k, v) <==> Has(b, k, v);
      }
    }
  }

  ghost predicate GraphOf(g: SymbolGraph, s: Store, fold: string -> string) {
    Named(g.defs, s.defs, fold) && Named(g.refs, s.refs, fold) && Imported(g.imports, s.imps)
  }

  lemma GraphIsUnique(g: SymbolGraph, h: SymbolGraph, s: Store, fold: string -> string)
    requires GraphOf(g, s, fold) && GraphOf(h, s, fold)
    ensures g == h
  {
    NamedIsUnique(g.defs, h.defs, s.defs, fold);
    NamedIsUnique(g.refs, h.refs, s.refs, fold);
    forall k, v ensures Has(g.imports, k, v) <==> Has(h.imports, k, v) {
      assert Has(g.imports, k, v) <==> k != "" && k in s.imps && v != "" && v in s.imps[k];
    }
    NamesDetermine(g.imports, h.imports);
  }

  lemma NamedIsUnique(a: Names, b: Names, lists: Lists, fold: string -> string)
    requires Named(a, lists, fold) && Named(b, lists, fold)
    ensures a == b
  {
    forall k, v ensures Has(a, k, v) <==> Has(b, k, v) {
      assert Has(a, k, v) <==> v != "" && v in lists && Mentions(lists[v], fold, k);
    }
    NamesDetermine(a, b);
  }

  // ----- the whole index -----------------------------------------------------------------------------

  /** The index of content c: per-file maps, inverted index and symbol graph. */
  ghost predicate IndexOf(x: Extractor, fold: string -> string, c: Content, v: Snapshot) {
    && Rows(x, v.store, c)
    && Transposed(v.inverted, v.store.postings)
    && GraphOf(v.symbols, v.store, fold)
  }

  /** There is one index of a content: however it was built, it is the same value. */
  lemma IndexIsUnique(x: Extractor, fold: string -> string, c: Content, v: Snapshot, w: Snapshot)
    requires IndexOf(x, fold, c, v) && IndexOf(x, fold, c, w)
    ensures v == w
  {
    hide RowOf, Expected, Transposed, GraphOf;
    forall p ensures RowOf(v.store, p) == RowOf(w.store, p) {
      assert RowOf(v.store, p) == Expected(x, c, p);
    }
    SameRows(v.store, w.store);
    TransposeIsUnique(v.inverted, w.inverted, v.store.postings);
    GraphIsUnique(v.symbols, w.symbols, v.store, fold);
  }
}
