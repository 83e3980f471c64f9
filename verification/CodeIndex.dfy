/** The index and the per-worker index it is merged from, updated in place. */
module CodeIndex {
  import opened Wrappers
  import opened CodeFacts

  // ----- loops over maps, in whatever order the map yields its keys -----------------------------------

  /** Copies every entry of one map into another. */
  method CopyInto<V>(from: map<string, V>, into: map<string, V>) returns (out: map<string, V>)
    ensures out == into + from
  {
    out := into;
    var todo := from.Keys;
    while todo != {}
      invariant todo <= from.Keys
      invariant out.Keys == into.Keys + (from.Keys - todo)
      invariant forall k :: k in out ==> out[k] == (if k in from && k !in todo then from[k] else into[k])
      decreases todo
    {
      var k :| k in todo;
      out := out[k := from[k]];
      todo := todo - {k};
    }
  }

  /** Adds n to a cell that may be missing. */
  function Bump(m: Postings, a: string, b: string, n: nat): Postings {
    var row := if a in m then m[a] else map[];
    m[a := row[b := (if b in row then row[b] else 0) + n]]
  }

  /** Sets a cell. */
  function Put(m: Postings, a: string, b: string, n: nat): Postings {
    m[a := (if a in m then m[a] else map[])[b := n]]
  }

  lemma BumpCell(m: Postings, a: string, b: string, n: nat)
    requires Cell(m, a, b) == None
    ensures Bump(m, a, b, n) == Put(m, a, b, n)
  {
  }

  lemma PutCell(m: Postings, a: string, b: string, n: nat, c: string, d: string)
    ensures Cell(Put(m, a, b, n), c, d) == if a == c && b == d then Some(n) else Cell(m, c, d)
  {
  }

  lemma PutRows(m: Postings, a: string, b: string, n: nat)
    requires NoEmptyRow(m)
    ensures NoEmptyRow(Put(m, a, b, n))
  {
    var row := Put(m, a, b, n)[a];
    assert b in row;
  }

  /** The column of one file: the cells of inv0, with freq in column rel. */
  ghost predicate WithColumn(inv0: Postings, rel: string, freq: map<string, nat>, inv: Postings) {
    NoEmptyRow(inv) && forall tok, p :: Cell(inv, tok, p) == if p == rel then Get(freq, tok) else Cell(inv0, tok, p)
  }

  lemma ColumnGrows(inv0: Postings, rel: string, part: map<string, nat>, inv: Postings, tok: string, n: nat)
    requires WithColumn(inv0, rel, part, inv) && tok !in part
    ensures Bump(inv, tok, rel, n) == Put(inv, tok, rel, n)
    ensures WithColumn(inv0, rel, part[tok := n], Put(inv, tok, rel, n))
  {
    hide Bump, Put;
    assert Cell(inv, tok, rel) == Get(part, tok);
    BumpCell(inv, tok, rel, n);
    PutRows(inv, tok, rel, n);
    forall t, p
      ensures Cell(Put(inv, tok, rel, n), t, p) == if p == rel then Get(part[tok := n], t) else Cell(inv0, t, p)
    {
      PutCell(inv, tok, rel, n, t, p);
    }
  }

  lemma ColumnTransposes(inv0: Postings, postings: Postings, rel: string, freq: map<string, nat>, inv: Postings)
    requires Transposed(inv0, postings) && WithColumn(inv0, rel, freq, inv)
    ensures Transposed(inv, postings[rel := freq])
  {
    forall tok, p ensures Cell(inv, tok, p) == Cell(postings[rel := freq], p, tok) {
      assert Cell(inv0, tok, p) == Cell(postings, p, tok);
    }
  }

  /** Merges one worker's inverted index into another, adding term frequencies. */
  method MergePostings(from: Postings, into: Postings) returns (out: Postings)
    requires NoEmptyRow(into) && NoEmptyRow(from)
    requires forall tok, p :: Cell(from, tok, p) == None || Cell(into, tok, p) == None
    ensures NoEmptyRow(out)
    ensures forall tok, p :: Cell(out, tok, p) == if Cell(from, tok, p).Some? then Cell(from, tok, p) else Cell(into, tok, p)
  {
    hide Bump, NoEmptyRow;
    out := into;
    var todo := from.Keys;
    while todo != {}
      invariant todo <= from.Keys && NoEmptyRow(out)
      invariant forall tok, p :: Cell(out, tok, p) ==
                                 if tok !in todo && Cell(from, tok, p).Some? then Cell(from, tok, p) else Cell(into, tok, p)
      decreases todo
    {
      var tok :| tok in todo;
      out := MergeRow(from, into, todo, out, tok);
      todo := todo - {tok};
    }
  }

  /** One token's postings. */
  method MergeRow(from: Postings, ghost into: Postings, ghost todo: set<string>, was: Postings, tok: string)
    returns (out: Postings)
    requires NoEmptyRow(was) && NoEmptyRow(from) && tok in from && tok in todo
    requires forall t, p :: Cell(from, t, p) == None || Cell(into, t, p) == None
    requires forall t, p :: Cell(was, t, p) ==
                            if t !in todo && Cell(from, t, p).Some? then Cell(from, t, p) else Cell(into, t, p)
    ensures NoEmptyRow(out)
    ensures forall t, p :: Cell(out, t, p) ==
                           if t !in todo - {tok} && Cell(from, t, p).Some? then Cell(from, t, p) else Cell(into, t, p)
  {
    hide Bump, Put, NoEmptyRow;
    out := was;
    var left := from[tok].Keys;
    while left != {}
      invariant left <= from[tok].Keys && NoEmptyRow(out)
      invariant forall t, p :: Cell(out, t, p) ==
                               if t == tok && p in from[tok] && p !in left then Cell(from, t, p) else Cell(was, t, p)
      decreases left
    {
      var p :| p in left;
      assert Cell(from, tok, p).Some? && Cell(into, tok, p) == None && Cell(out, tok, p) == Cell(was, tok, p);
      BumpCell(out, tok, p, from[tok][p]);
      PutRows(out, tok, p, from[tok][p]);
      forall t, q ensures Cell(Put(out, tok, p, from[tok][p]), t, q) ==
                          if t == tok && p == q then Some(from[tok][p]) else Cell(out, t, q)
      {
        PutCell(out, tok, p, from[tok][p], t, q);
      }
      out := Bump(out, tok, p, from[tok][p]);
      left := left - {p};
    }
  }

  lemma MergedTransposes(a: Postings, pa: Postings, b: Postings, pb: Postings, out: Postings)
    requires Transposed(a, pa) && Transposed(b, pb) && pa.Keys !! pb.Keys && NoEmptyRow(out)
    requires forall tok, p :: Cell(out, tok, p) == if Cell(b, tok, p).Some? then Cell(b, tok, p) else Cell(a, tok, p)
    ensures Transposed(out, pa + pb)
  {
    hide NoEmptyRow;
    forall tok, p ensures Cell(out, tok, p) == Cell(pa + pb, p, tok) {
      assert Cell(a, tok, p) == Cell(pa, p, tok) && Cell(b, tok, p) == Cell(pb, p, tok);
    }
  }

  lemma DisjointCells(a: Postings, pa: Postings, b: Postings, pb: Postings)
    requires Transposed(a, pa) && Transposed(b, pb) && pa.Keys !! pb.Keys
    ensures forall tok, p :: Cell(b, tok, p) == None || Cell(a, tok, p) == None
  {
    forall tok, p ensures Cell(b, tok, p) == None || Cell(a, tok, p) == None {
      assert Cell(a, tok, p) == Cell(pa, p, tok) && Cell(b, tok, p) == Cell(pb, p, tok);
    }
  }

  /** Rebuilds the inverted index from the per-file postings. */
  method Transpose(postings: Postings) returns (inv: Postings)
    ensures Transposed(inv, postings)
  {
    hide Transposed, WithColumn;
    inv := map[];
    var todo := postings.Keys;
    ghost var done: Postings := map[];
    assert Transposed(inv, done) by { NothingTransposed(); }
    while todo != {}
      invariant todo <= postings.Keys && done.Keys == postings.Keys - todo
      invariant forall p :: p in done ==> done[p] == postings[p]
      invariant Transposed(inv, done)
      decreases todo
    {
      var p :| p in todo;
      ghost var before := inv;
      inv := PutColumn(inv, done, p, postings[p]);
      ColumnTransposes(before, done, p, postings[p], inv);
      done := done[p := postings[p]];
      todo := todo - {p};
    }
    assert done == postings;
  }

  lemma NothingTransposed()
    ensures Transposed(map[], map[])
  {
  }

  method PutColumn(inv0: Postings, ghost done: Postings, p: string, freq: map<string, nat>) returns (inv: Postings)
    requires Transposed(inv0, done) && p !in done
    ensures WithColumn(inv0, p, freq, inv)
  {
    hide Bump, Put, WithColumn;
    inv := inv0;
    var left := freq.Keys;
    ghost var part: map<string, nat> := map[];
    assert WithColumn(inv0, p, part, inv) by { EmptyColumn(inv0, done, p); }
    while left != {}
      invariant left <= freq.Keys && part.Keys == freq.Keys - left
      invariant forall t :: t in part ==> part[t] == freq[t]
      invariant WithColumn(inv0, p, part, inv)
      decreases left
    {
      var tok :| tok in left;
      ColumnGrows(inv0, p, part, inv, tok, freq[tok]);
      inv := Put(inv, tok, p, freq[tok]);
      part := part[tok := freq[tok]];
      left := left - {tok};
    }
    assert part == freq;
  }

  lemma EmptyColumn(inv: Postings, postings: Postings, p: string)
    requires Transposed(inv, postings) && p !in postings
    ensures WithColumn(inv, p, map[], inv)
  {
    forall tok, q ensures Cell(inv, tok, q) == if q == p then None else Cell(inv, tok, q) {
      assert Cell(inv, tok, q) == Cell(postings, q, tok);
    }
  }

  // ----- the symbol graph ----------------------------------------------------------------------------

  /** Adds a value to a name's set, ignoring empty names and values. */
  function AddName(m: Names, a: string, b: string): (r: Names)
    ensures NoEmptyName(m) ==> NoEmptyName(r)
    ensures forall k, v :: Has(r, k, v) <==> Has(m, k, v) || (k == a && v == b && a != "" && b != "")
  {
    if a == "" || b == "" then m else m[a := (if a in m then m[a] else {}) + {b}]
  }

  /** Files a file under the names of its list and under their folded forms. */
  method FileNames(m0: Names, file: string, names: seq<string>, fold: string -> string) returns (m: Names)
    requires NoEmptyName(m0)
    ensures NoEmptyName(m)
    ensures forall k, v :: Has(m, k, v) <==> Has(m0, k, v) || (v == file && file != "" && Mentions(names, fold, k))
  {
    hide NoEmptyName, Has;
    m := m0;
    for i := 0 to |names|
      invariant NoEmptyName(m)
      invariant forall k, v :: Has(m, k, v) <==> Has(m0, k, v) || (v == file && file != "" && Mentions(names[..i], fold, k))
    {
      forall k ensures Mentions(names[..i + 1], fold, k) <==>
                       Mentions(names[..i], fold, k) || (k != "" && (k == names[i] || k == fold(names[i])))
      {
        MentionsOneMore(names, fold, i, k);
      }
      m := AddName(m, names[i], file);
      if fold(names[i]) != names[i] {
        m := AddName(m, fold(names[i]), file);
      }
    }
    assert names[..|names|] == names;
  }

  lemma MentionsOneMore(names: seq<string>, fold: string -> string, i: nat, k: string)
    requires i < |names|
    ensures Mentions(names[..i + 1], fold, k) <==>
            Mentions(names[..i], fold, k) || (k != "" && (k == names[i] || k == fold(names[i])))
  {
    var xs, ys := names[..i], names[..i + 1];
    assert ys[i] == names[i];
    if Mentions(xs, fold, k) {
      var j :| 0 <= j < |xs| && (k == xs[j] || k == fold(xs[j]));
      assert ys[j] == xs[j];
    }
    if Mentions(ys, fold, k) {
      var j :| 0 <= j < |ys| && (k == ys[j] || k == fold(ys[j]));
      assert j < i ==> xs[j] == ys[j];
    }
  }

  /** Files every file under its names. */
  method IndexNames(lists: Lists, fold: string -> string, m0: Names, ghost before: Lists) returns (m: Names)
    requires Named(m0, before, fold) && before.Keys !! lists.Keys
    ensures Named(m, before + lists, fold)
  {
    hide Named, Mentions, Has;
    m := m0;
    var todo := lists.Keys;
    ghost var done := before;
    while todo != {}
      invariant todo <= lists.Keys && done.Keys == before.Keys + (lists.Keys - todo)
      invariant forall f :: f in done ==> done[f] == (if f in lists then lists[f] else before[f])
      invariant Named(m, done, fold)
      decreases todo
    {
      var file :| file in todo;
      ghost var was := m;
      NamedHasNoEmpty(m, done, fold);
      m := FileNames(m, file, lists[file], fold);
      NamedGrows(was, done, fold, file, lists[file], m);
      done := done[file := lists[file]];
      todo := todo - {file};
    }
    assert done == before + lists;
  }

  lemma NamedHasNoEmpty(m: Names, lists: Lists, fold: string -> string)
    requires Named(m, lists, fold)
    ensures NoEmptyName(m)
  {
  }

  lemma NamedGrows(m0: Names, lists: Lists, fold: string -> string, file: string, names: seq<string>, m: Names)
    requires Named(m0, lists, fold) && file !in lists && NoEmptyName(m)
    requires forall k, v :: Has(m, k, v) <==> Has(m0, k, v) || (v == file && file != "" && Mentions(names, fold, k))
    ensures Named(m, lists[file := names], fold)
  {
    hide Mentions, Has, NoEmptyName;
    var more := lists[file := names];
    forall k, v ensures Has(m, k, v) <==> v != "" && v in more && Mentions(more[v], fold, k) {
      assert Has(m0, k, v) <==> v != "" && v in lists && Mentions(lists[v], fold, k);
    }
  }

  /** Records the imports of every file. */
  method IndexImports(lists: Lists, m0: Names, ghost before: Lists) returns (m: Names)
    requires Imported(m0, before) && before.Keys !! lists.Keys
    ensures Imported(m, before + lists)
  {
    hide Imported, Has;
    m := m0;
    var todo := lists.Keys;
    ghost var done := before;
    while todo != {}
      invariant todo <= lists.Keys && done.Keys == before.Keys + (lists.Keys - todo)
      invariant forall f :: f in done ==> done[f] == (if f in lists then lists[f] else before[f])
      invariant Imported(m, done)
      decreases todo
    {
      var file :| file in todo;
      ghost var was := m;
      ImportedHasNoEmpty(m, done);
      m := FileImports(m, file, lists[file]);
      ImportedGrows(was, done, file, lists[file], m);
      done := done[file := lists[file]];
      todo := todo - {file};
    }
    assert done == before + lists;
  }

  method FileImports(m0: Names, file: string, paths: seq<string>) returns (m: Names)
    requires NoEmptyName(m0)
    ensures NoEmptyName(m)
    ensures forall k, v :: Has(m, k, v) <==> Has(m0, k, v) || (k == file && file != "" && v != "" && v in paths)
  {
    hide NoEmptyName, Has;
    m := m0;
    for i := 0 to |paths|
      invariant NoEmptyName(m)
      invariant forall k, v :: Has(m, k, v) <==> Has(m0, k, v) || (k == file && file != "" && v != "" && v in paths[..i])
    {
      m := AddName(m, file, paths[i]);
      assert paths[..i + 1] == paths[..i] + [paths[i]];
    }
    assert paths[..|paths|] == paths;
  }

  lemma ImportedHasNoEmpty(m: Names, lists: Lists)
    requires Imported(m, lists)
    ensures NoEmptyName(m)
  {
  }

  lemma ImportedGrows(m0: Names, lists: Lists, file: string, paths: seq<string>, m: Names)
    requires Imported(m0, lists) && file !in lists && NoEmptyName(m)
    requires forall k, v :: Has(m, k, v) <==> Has(m0, k, v) || (k == file && file != "" && v != "" && v in paths)
    ensures Imported(m, lists[file := paths])
  {
    hide Has, NoEmptyName;
    var more := lists[file := paths];
    forall k, v ensures Has(m, k, v) <==> k != "" && k in more && v != "" && v in more[k] {
      assert Has(m0, k, v) <==> k != "" && k in lists && v != "" && v in lists[k];
    }
  }

  // ----- the objects ---------------------------------------------------------------------------------

  /** Leaves names as they are. */
  function Same(s: string): string {
    s
  }

  class Index {
    var inverted: Postings
    var files: set<string>
    var symbols: SymbolGraph
    var filePostings: Postings
    var fileDefs: Lists
    var fileRefs: Lists
    var fileImps: Lists
    var fileEdges: map<string, seq<Edge>>
    var fileHashes: map<string, string>
    var fileStamps: map<string, Stamp>

    ghost function PerFile(): Store
      reads this
    {
      Store(files, filePostings, fileDefs, fileRefs, fileImps, fileEdges, fileHashes, fileStamps)
    }

    ghost function Value(): Snapshot
      reads this
    {
      Snapshot(PerFile(), inverted, symbols)
    }

    constructor ()
      ensures PerFile() == EMPTY_STORE && inverted == map[] && symbols == EMPTY_GRAPH
    {
      inverted, files, symbols := map[], {}, EMPTY_GRAPH;
      filePostings, fileDefs, fileRefs, fileImps, fileEdges := map[], map[], map[], map[], map[];
      fileHashes, fileStamps := map[], map[];
    }

    /** Rebuilds the inverted index and the symbol graph from the per-file maps. */
    method RebuildGlobal(x: Extractor, ghost c: Content)
      requires Rows(x, PerFile(), c)
      modifies this
      ensures PerFile() == old(PerFile())
      ensures IndexOf(x, x.lower, c, Value())
    {
      hide Rows, Transposed, Named, Imported;
      KeysOf(x, PerFile(), c);
      files := files + filePostings.Keys;
      inverted := Transpose(filePostings);
      symbols := BuildGraph(fileDefs, fileRefs, fileImps, x.lower);
    }
  }

  method BuildGraph(fileDefs: Lists, fileRefs: Lists, fileImps: Lists, fold: string -> string) returns (g: SymbolGraph)
    ensures Named(g.defs, fileDefs, fold) && Named(g.refs, fileRefs, fold) && Imported(g.imports, fileImps)
  {
    hide Named, Imported;
    NothingNamed(fold);
    var defs := IndexNames(fileDefs, fold, map[], map[]);
    var refs := IndexNames(fileRefs, fold, map[], map[]);
    var imports := IndexImports(fileImps, map[], map[]);
    NothingBefore(fileDefs);
    NothingBefore(fileRefs);
    NothingBefore(fileImps);
    g := SymbolGraph(defs, refs, imports);
  }

  lemma NothingBefore(lists: Lists)
    ensures map[] + lists == lists
  {
  }

  lemma NothingNamed(fold: string -> string)
    ensures Named(map[], map[], fold) && Imported(map[], map[])
  {
  }

  lemma NothingIndexed(x: Extractor, fold: string -> string)
    ensures IndexOf(x, fold, map[], Snapshot(EMPTY_STORE, map[], EMPTY_GRAPH))
  {
    NothingNamed(fold);
    NothingTransposed();
  }

  /** One worker's share of the files. */
  class LocalIndex {
    var inverted: Postings
    var files: set<string>
    var filePost: Postings
    var fileDefs: Lists
    var fileRefs: Lists
    var fileImps: Lists
    var fileEdges: map<string, seq<Edge>>
    var hashes: map<string, string>
    var stamps: map<string, Stamp>
    var bytesRead: nat

    ghost function PerFile(): Store
      reads this
    {
      Store(files, filePost, fileDefs, fileRefs, fileImps, fileEdges, hashes, stamps)
    }

    /** The worker holds exactly the files of c. */
    ghost predicate Holds(x: Extractor, c: Content)
      reads this
    {
      Rows(x, PerFile(), c) && Transposed(inverted, filePost)
    }

    constructor ()
      ensures PerFile() == EMPTY_STORE && inverted == map[] && bytesRead == 0
      ensures forall x: Extractor :: Holds(x, map[])
    {
      inverted, files, filePost := map[], {}, map[];
      fileDefs, fileRefs, fileImps, fileEdges := map[], map[], map[], map[];
      hashes, stamps, bytesRead := map[], map[], 0;
      new;
      NothingTransposed();
      forall x: Extractor ensures Holds(x, map[]) {
      }
    }

    /** Records the facts of a file that is not yet in the worker's share. */
    method Add(x: Extractor, rel: string, body: string)
      requires RowOf(PerFile(), rel) == EMPTY_ROW && Transposed(inverted, filePost)
      modifies this
      ensures RowOf(PerFile(), rel) == FactsRow(x.facts(rel, body))
      ensures forall p :: p != rel ==> RowOf(PerFile(), p) == RowOf(old(PerFile()), p)
      ensures Transposed(inverted, filePost)
      ensures bytesRead == old(bytesRead) + |body|
    {
      hide Transposed, WithColumn, FactsRow, RowOf, Keep;
      var facts := x.facts(rel, body);
      ghost var before := PerFile();
      Unlisted(before, rel);
      bytesRead := bytesRead + |body|;
      files := files + {rel};
      ghost var was := inverted;
      inverted := AddColumn(inverted, filePost, rel, facts.postings);
      ColumnTransposes(was, filePost, rel, facts.postings, inverted);
      filePost := filePost[rel := facts.postings];
      fileDefs := Keep(fileDefs, rel, facts.defs);
      fileRefs := Keep(fileRefs, rel, facts.refs);
      fileImps := Keep(fileImps, rel, facts.imps);
      fileEdges := Keep(fileEdges, rel, facts.edges);
      forall p
        ensures p != rel ==> RowOf(PerFile(), p) == RowOf(before, p)
        ensures RowOf(PerFile(), rel) == FactsRow(facts)
      {
        RecordedRow(before, PerFile(), rel, facts, p);
      }
    }

    /** A worker takes one file. */
    method Take(x: Extractor, rel: string, file: File, ghost c: Content)
      requires Holds(x, c) && rel !in c
      modifies this
      ensures Holds(x, c[rel := file])
      ensures bytesRead == old(bytesRead) + |file.body|
    {
      hide Transposed, FactsRow;
      assert RowOf(PerFile(), rel) == Expected(x, c, rel);
      ghost var was := PerFile();
      Add(x, rel, file.body);
      ghost var added := PerFile();
      hashes := hashes[rel := x.hash(file.body)];
      stamps := stamps[rel := file.stamp];
      TakenRows(x, was, added, PerFile(), c, rel, file);
    }

    /** Folds the worker's share into the index. */
    method MergeInto(idx: Index, ghost x: Extractor, ghost c: Content, ghost d: Content)
      requires Holds(x, d) && IndexOf(x, Same, c, idx.Value()) && c.Keys !! d.Keys
      modifies idx
      ensures IndexOf(x, Same, c + d, idx.Value())
    {
      hide Rows, Transposed, Named, Imported, NoEmptyRow, Cell;
      MergeReady(x, idx.Value(), PerFile(), inverted, c, d);
      idx.files := idx.files + files;
      var inv := MergePostings(inverted, idx.inverted);
      MergedTransposes(idx.inverted, idx.filePostings, inverted, filePost, inv);
      var defs := IndexNames(fileDefs, Same, idx.symbols.defs, idx.fileDefs);
      var refs := IndexNames(fileRefs, Same, idx.symbols.refs, idx.fileRefs);
      var imports := IndexImports(fileImps, idx.symbols.imports, idx.fileImps);
      idx.inverted := inv;
      idx.symbols := SymbolGraph(defs, refs, imports);
      MergeFiles(idx);
    }

    method MergeFiles(idx: Index)
      modifies idx
      ensures idx.files == old(idx.files) && idx.inverted == old(idx.inverted) && idx.symbols == old(idx.symbols)
      ensures idx.filePostings == old(idx.filePostings) + filePost && idx.fileDefs == old(idx.fileDefs) + fileDefs
      ensures idx.fileRefs == old(idx.fileRefs) + fileRefs && idx.fileImps == old(idx.fileImps) + fileImps
      ensures idx.fileEdges == old(idx.fileEdges) + fileEdges
      ensures idx.fileHashes == old(idx.fileHashes) + hashes && idx.fileStamps == old(idx.fileStamps) + stamps
    {
      idx.filePostings := CopyInto(filePost, idx.filePostings);
      idx.fileEdges := CopyInto(fileEdges, idx.fileEdges);
      idx.fileHashes := CopyInto(hashes, idx.fileHashes);
      idx.fileStamps := CopyInto(stamps, idx.fileStamps);
      MergeLists(idx);
    }

    method MergeLists(idx: Index)
      modifies idx`fileDefs, idx`fileRefs, idx`fileImps
      ensures idx.fileDefs == old(idx.fileDefs) + fileDefs && idx.fileRefs == old(idx.fileRefs) + fileRefs
      ensures idx.fileImps == old(idx.fileImps) + fileImps
    {
      idx.fileDefs := CopyInto(fileDefs, idx.fileDefs);
      idx.fileRefs := CopyInto(fileRefs, idx.fileRefs);
      idx.fileImps := CopyInto(fileImps, idx.fileImps);
    }
  }

  lemma Unlisted(s: Store, rel: string)
    requires RowOf(s, rel) == EMPTY_ROW
    ensures rel !in s.postings
  {
  }

  lemma MergeReady(x: Extractor, v: Snapshot, t: Store, inv: Postings, c: Content, d: Content)
    requires IndexOf(x, Same, c, v) && Rows(x, t, d) && Transposed(inv, t.postings) && c.Keys !! d.Keys
    ensures Rows(x, Join(v.store, t), c + d)
    ensures v.store.postings.Keys !! t.postings.Keys && v.store.defs.Keys !! t.defs.Keys
    ensures v.store.refs.Keys !! t.refs.Keys && v.store.imps.Keys !! t.imps.Keys
    ensures NoEmptyRow(v.inverted) && NoEmptyRow(inv)
    ensures forall tok, p :: Cell(inv, tok, p) == None || Cell(v.inverted, tok, p) == None
  {
    hide Rows, Transposed, Named, Imported, NoEmptyRow, Cell, Join;
    KeysOf(x, t, d);
    KeysOf(x, v.store, c);
    RowsTogether(x, v.store, c, t, d);
    TransposedHasNoEmpty(inv, t.postings);
    TransposedHasNoEmpty(v.inverted, v.store.postings);
    DisjointCells(v.inverted, v.store.postings, inv, t.postings);
  }

  lemma TransposedHasNoEmpty(inv: Postings, postings: Postings)
    requires Transposed(inv, postings)
    ensures NoEmptyRow(inv)
  {
  }

  lemma TakenRows(x: Extractor, was: Store, added: Store, now: Store, c: Content, rel: string, file: File)
    requires Rows(x, was, c)
    requires RowOf(added, rel) == FactsRow(x.facts(rel, file.body))
    requires forall p :: p != rel ==> RowOf(added, p) == RowOf(was, p)
    requires now == added.(hashes := added.hashes[rel := x.hash(file.body)], stamps := added.stamps[rel := file.stamp])
    ensures Rows(x, now, c[rel := file])
  {
    hide FactsRow, RowOf;
    forall p ensures RowOf(now, p) == Expected(x, c[rel := file], p) {
      StampedRow(added, now, rel, x.hash(file.body), file.stamp, p);
      assert RowOf(was, p) == Expected(x, c, p);
      assert p != rel ==> RowOf(added, p) == RowOf(was, p);
    }
  }

  method AddColumn(inv0: Postings, ghost done: Postings, rel: string, freq: map<string, nat>) returns (inv: Postings)
    requires Transposed(inv0, done) && rel !in done
    ensures WithColumn(inv0, rel, freq, inv)
  {
    hide Bump, Put, WithColumn;
    inv := inv0;
    var left := freq.Keys;
    ghost var part: map<string, nat> := map[];
    assert WithColumn(inv0, rel, part, inv) by { EmptyColumn(inv0, done, rel); }
    while left != {}
      invariant left <= freq.Keys && part.Keys == freq.Keys - left
      invariant forall t :: t in part ==> part[t] == freq[t]
      invariant WithColumn(inv0, rel, part, inv)
      decreases left
    {
      var tok :| tok in left;
      ColumnGrows(inv0, rel, part, inv, tok, freq[tok]);
      inv := Bump(inv, tok, rel, freq[tok]);
      part := part[tok := freq[tok]];
      left := left - {tok};
    }
    assert part == freq;
  }
}
