/** Crawling a tree: files shared out to workers, merged into one index. */
module Crawl {
  import opened Wrappers
  import opened CodeFacts
  import opened CodeIndex

  /** What the file system answers for a path: its stamp unless stat fails, its body unless reading fails. */
  datatype Entry = Entry(stamp: Option<Stamp>, body: Option<string>, indexable: bool)

  type Disk = map<string, Entry>

  datatype Work = Work(rel: string, file: File)

  const MAX_INDEXABLE_FILES := 200000

  const MAX_WORKERS := 256

  ghost function ContentOf(work: seq<Work>): (c: Content)
    ensures forall p :: p in c ==> exists i :: 0 <= i < |work| && work[i].rel == p
    ensures forall i :: 0 <= i < |work| ==> work[i].rel in c
  {
    if work == [] then map[]
    else
      var last := work[|work| - 1];
      var c := ContentOf(work[..|work| - 1]);
      assert forall i :: 0 <= i < |work| - 1 ==> work[..|work| - 1][i] == work[i];
      c[last.rel := last.file]
  }

  ghost predicate Distinct(work: seq<Work>) {
    forall i, j :: 0 <= i < j < |work| ==> work[i].rel != work[j].rel
  }

  lemma ContentGrows(work: seq<Work>, k: nat)
    requires Distinct(work) && k < |work|
    ensures work[k].rel !in ContentOf(work[..k])
    ensures ContentOf(work[..k + 1]) == ContentOf(work[..k])[work[k].rel := work[k].file]
  {
    assert work[..k + 1][..k] == work[..k];
  }

  // ----- shares --------------------------------------------------------------------------------------

  ghost predicate Apart(shares: seq<Content>) {
    forall i, j :: 0 <= i < j < |shares| ==> shares[i].Keys !! shares[j].Keys
  }

  ghost function Union(shares: seq<Content>): Content {
    if shares == [] then map[] else Union(shares[..|shares| - 1]) + shares[|shares| - 1]
  }

  lemma {:induction false} InUnion(shares: seq<Content>, p: string)
    ensures p in Union(shares) <==> exists i :: 0 <= i < |shares| && p in shares[i]
  {
    if shares != [] {
      var n := |shares| - 1;
      InUnion(shares[..n], p);
      assert forall i :: 0 <= i < n ==> shares[..n][i] == shares[i];
    }
  }

  lemma UnionLast(init: seq<Content>, last: Content)
    ensures Union(init + [last]) == Union(init) + last
  {
    assert (init + [last])[..|init|] == init;
  }

  lemma InsertBelow(c: Content, d: Content, rel: string, file: File)
    requires rel !in d
    ensures c[rel := file] + d == (c + d)[rel := file]
  {
  }

  /** A file taken by any worker is in the union. */
  lemma {:induction false} UnionGrows(shares: seq<Content>, w: nat, rel: string, file: File)
    requires w < |shares| && rel !in Union(shares)
    ensures Union(shares[w := shares[w][rel := file]]) == Union(shares)[rel := file]
  {
    hide Union;
    var init, last := shares[..|shares| - 1], shares[|shares| - 1];
    assert shares == init + [last];
    UnionLast(init, last);
    if w == |init| {
      UnionLast(init, last[rel := file]);
      assert shares[w := shares[w][rel := file]] == init + [last[rel := file]];
    } else {
      UnionGrows(init, w, rel, file);
      UnionLast(init[w := init[w][rel := file]], last);
      InsertBelow(Union(init), last, rel, file);
      assert shares[w := shares[w][rel := file]] == init[w := init[w][rel := file]] + [last];
    }
  }

  lemma {:induction false} NoShares(shares: seq<Content>)
    requires forall i :: 0 <= i < |shares| ==> shares[i] == map[]
    ensures Union(shares) == map[]
  {
    if shares != [] {
      NoShares(shares[..|shares| - 1]);
    }
  }

  ghost predicate Owned(locals: seq<LocalIndex>) {
    forall i, j :: 0 <= i < j < |locals| ==> locals[i] != locals[j]
  }

  ghost predicate Holding(x: Extractor, locals: seq<LocalIndex>, shares: seq<Content>)
    reads locals
  {
    |locals| == |shares| && forall i :: 0 <= i < |locals| ==> locals[i].Holds(x, shares[i])
  }

  method NewLocals(ghost x: Extractor, workers: nat) returns (locals: seq<LocalIndex>, ghost shares: seq<Content>)
    ensures |locals| == workers && fresh(locals) && Owned(locals)
    ensures Holding(x, locals, shares) && Apart(shares) && Union(shares) == map[]
  {
    locals, shares := [], [];
    while |locals| < workers
      invariant |locals| <= workers && fresh(locals) && Owned(locals) && Holding(x, locals, shares)
      invariant forall i :: 0 <= i < |shares| ==> shares[i] == map[]
    {
      var loc := new LocalIndex();
      locals := locals + [loc];
      shares := shares + [map[]];
    }
    NoShares(shares);
  }

  /** Indexes distinct files: each is received by some worker, and the workers are merged one after another.
      Whoever received what, the result is the index of all the files. */
  method IndexInParallel(x: Extractor, work: seq<Work>, workers: nat) returns (idx: Index)
    requires workers >= 1 && Distinct(work)
    ensures fresh(idx) && IndexOf(x, Same, ContentOf(work), idx.Value())
  {
    hide IndexOf, Union, ContentOf, LocalIndex.Holds, Distinct;
    var locals, shares := NewLocals(x, workers);
    assert ContentOf(work[..0]) == map[] by { NothingYet(work[..0]); }
    for k := 0 to |work|
      invariant fresh(locals) && Owned(locals) && Holding(x, locals, shares) && Apart(shares)
      invariant Union(shares) == ContentOf(work[..k])
    {
      var w: nat :| w < |locals|;
      ContentGrows(work, k);
      shares := Receive(x, locals, shares, w, work[k]);
    }
    assert work[..|work|] == work;
    idx := MergeAll(x, locals, shares);
  }

  lemma NothingYet(work: seq<Work>)
    requires work == []
    ensures ContentOf(work) == map[]
  {
  }

  /** One worker receives one file from the channel. */
  method Receive(x: Extractor, locals: seq<LocalIndex>, ghost shares: seq<Content>, w: nat, item: Work)
    returns (ghost shares': seq<Content>)
    requires Owned(locals) && Holding(x, locals, shares) && Apart(shares) && w < |locals|
    requires item.rel !in Union(shares)
    modifies locals
    ensures Holding(x, locals, shares') && Apart(shares') && Union(shares') == Union(shares)[item.rel := item.file]
  {
    hide Union, LocalIndex.Holds;
    InNoShare(shares, item.rel);
    locals[w].Take(x, item.rel, item.file, shares[w]);
    shares' := shares[w := shares[w][item.rel := item.file]];
    UnionGrows(shares, w, item.rel, item.file);
  }

  lemma InNoShare(shares: seq<Content>, rel: string)
    requires rel !in Union(shares)
    ensures forall i :: 0 <= i < |shares| ==> rel !in shares[i]
  {
    InUnion(shares, rel);
  }

  method MergeAll(ghost x: Extractor, locals: seq<LocalIndex>, ghost shares: seq<Content>) returns (idx: Index)
    requires Holding(x, locals, shares) && Apart(shares)
    ensures fresh(idx) && IndexOf(x, Same, Union(shares), idx.Value())
  {
    hide IndexOf, Union, LocalIndex.Holds;
    idx := new Index();
    NothingIndexed(x, Same);
    NoShares(shares[..0]);
    for w := 0 to |locals|
      invariant fresh(idx) && IndexOf(x, Same, Union(shares[..w]), idx.Value())
    {
      NextShare(shares, w);
      locals[w].MergeInto(idx, x, Union(shares[..w]), shares[w]);
    }
    assert shares[..|locals|] == shares;
  }

  lemma NextShare(shares: seq<Content>, w: nat)
    requires Apart(shares) && w < |shares|
    ensures Union(shares[..w]).Keys !! shares[w].Keys
    ensures Union(shares[..w + 1]) == Union(shares[..w]) + shares[w]
  {
    hide Union;
    assert shares[..w + 1] == shares[..w] + [shares[w]];
    UnionLast(shares[..w], shares[w]);
    forall p | p in Union(shares[..w]) ensures p !in shares[w] {
      InUnion(shares[..w], p);
    }
  }

  // ----- a full crawl --------------------------------------------------------------------------------

  ghost predicate Unrepeated(paths: seq<string>) {
    forall i, j :: 0 <= i < j < |paths| ==> paths[i] != paths[j]
  }

  predicate Indexable(e: Entry) {
    e.stamp.Some? && e.body.Some? && e.indexable
  }

  /** The files a full crawl of the given paths indexes. */
  ghost function Crawled(paths: seq<string>, disk: Disk): Content {
    map p | p in paths && p in disk && disk[p].stamp.Some? && disk[p].body.Some? && disk[p].indexable ::
      File(disk[p].body.value, disk[p].stamp.value)
  }

  function NormalizeWorkers(workers: int): nat {
    if workers < 1 then 1 else if workers > MAX_WORKERS then MAX_WORKERS else workers
  }

  /** The first paths, up to the bound. */
  function Bounded(paths: seq<string>): (r: seq<string>)
    ensures r <= paths && |r| == (if |paths| < MAX_INDEXABLE_FILES then |paths| else MAX_INDEXABLE_FILES)
  {
    if |paths| > MAX_INDEXABLE_FILES then paths[..MAX_INDEXABLE_FILES] else paths
  }

  /** A full crawl: the index of every readable file among the first MAX_INDEXABLE_FILES paths, whatever the
      number of workers, with each path counted as indexed or as an error. */
  method CrawlDir(x: Extractor, paths: seq<string>, disk: Disk, workers: int)
    returns (idx: Index, filesIndexed: nat, errors: nat)
    requires Unrepeated(paths) && forall p :: p in paths ==> p in disk
    ensures fresh(idx) && IndexOf(x, Same, Crawled(Bounded(paths), disk), idx.Value())
    ensures filesIndexed == |Bounded(paths)| == |idx.files| + errors
  {
    hide IndexOf, Crawled, ContentOf, Distinct;
    var bounded := Bounded(paths);
    var work;
    work, errors := ReadAll(bounded, disk);
    filesIndexed := |bounded|;
    idx := IndexInParallel(x, work, NormalizeWorkers(workers));
    IndexedFiles(x, Same, ContentOf(work), idx.Value());
    OneEach(work);
  }

  lemma IndexedFiles(x: Extractor, fold: string -> string, c: Content, v: Snapshot)
    requires IndexOf(x, fold, c, v)
    ensures v.store.files == c.Keys
  {
    hide Transposed, GraphOf, Rows;
    KeysOf(x, v.store, c);
  }

  lemma {:induction false} OneEach(work: seq<Work>)
    requires Distinct(work)
    ensures |ContentOf(work).Keys| == |work|
  {
    if work != [] {
      var n := |work| - 1;
      OneEach(work[..n]);
      ContentGrows(work, n);
      assert work[..n + 1] == work;
      assert ContentOf(work).Keys == ContentOf(work[..n]).Keys + {work[n].rel};
    }
  }

  method ReadAll(paths: seq<string>, disk: Disk) returns (work: seq<Work>, errors: nat)
    requires Unrepeated(paths) && forall p :: p in paths ==> p in disk
    ensures Distinct(work) && ContentOf(work) == Crawled(paths, disk)
    ensures |work| + errors == |paths|
  {
    hide ContentOf, Crawled;
    work, errors := [], 0;
    assert ContentOf(work) == Crawled(paths[..0], disk) by { NothingRead(disk); }
    for i := 0 to |paths|
      invariant |work| + errors == i
      invariant forall j :: 0 <= j < |work| ==> work[j].rel in paths[..i]
      invariant Distinct(work) && ContentOf(work) == Crawled(paths[..i], disk)
    {
      var e := disk[paths[i]];
      assert paths[..i + 1] == paths[..i] + [paths[i]];
      OneMoreRead(paths, disk, i);
      if Indexable(e) {
        OneMoreWork(work, Work(paths[i], File(e.body.value, e.stamp.value)));
        work := work + [Work(paths[i], File(e.body.value, e.stamp.value))];
      } else {
        errors := errors + 1;
      }
    }
    assert paths[..|paths|] == paths;
  }

  lemma NothingRead(disk: Disk)
    ensures ContentOf([]) == Crawled([], disk)
  {
  }

  lemma OneMoreRead(paths: seq<string>, disk: Disk, i: nat)
    requires i < |paths| && paths[i] in disk
    ensures var c, e := Crawled(paths[..i], disk), disk[paths[i]];
            Crawled(paths[..i + 1], disk) == if Indexable(e) then c[paths[i] := File(e.body.value, e.stamp.value)] else c
  {
    assert paths[..i + 1] == paths[..i] + [paths[i]];
  }

  lemma OneMoreWork(work: seq<Work>, item: Work)
    ensures ContentOf(work + [item]) == ContentOf(work)[item.rel := item.file]
  {
    assert (work + [item])[..|work|] == work;
  }

  /** Any two full crawls of the same tree agree, whatever their workers did. */
  lemma CrawlsAgree(x: Extractor, paths: seq<string>, disk: Disk, v: Snapshot, w: Snapshot)
    requires IndexOf(x, Same, Crawled(Bounded(paths), disk), v) && IndexOf(x, Same, Crawled(Bounded(paths), disk), w)
    ensures v == w
    ensures forall tok, p :: Cell(v.inverted, tok, p) == Cell(v.store.postings, p, tok)
  {
    hide Crawled, GraphOf, Rows;
    IndexIsUnique(x, Same, Crawled(Bounded(paths), disk), v, w);
  }

  // ----- folded names --------------------------------------------------------------------------------

  /** Every list that names something also names its folded form. */
  ghost predicate FoldClosed(lists: Lists, fold: string -> string) {
    forall file, i :: file in lists && file != "" && 0 <= i < |lists[file]| ==>
      fold(lists[file][i]) == "" || fold(lists[file][i]) in lists[file]
  }

  /** The graph without folded names is part of the one with them, and equal to it exactly when every file
      already lists the folded forms. */
  lemma FoldedNames(m: Names, folded: Names, lists: Lists, fold: string -> string)
    requires Named(m, lists, Same) && Named(folded, lists, fold)
    ensures forall name, file :: Has(m, name, file) ==> Has(folded, name, file)
    ensures m == folded <==> FoldClosed(lists, fold)
  {
    hide NoEmptyName;
    forall name, file | Has(m, name, file) ensures Has(folded, name, file) {
      PlainMention(lists[file], fold, name);
    }
    if m == folded {
      forall file, i | file in lists && file != "" && 0 <= i < |lists[file]| && fold(lists[file][i]) != ""
        ensures fold(lists[file][i]) in lists[file]
      {
        assert Mentions(lists[file], fold, fold(lists[file][i]));
        assert Has(folded, fold(lists[file][i]), file);
        PlainMention(lists[file], fold, fold(lists[file][i]));
      }
    }
    if FoldClosed(lists, fold) {
      forall name, file ensures Has(m, name, file) <==> Has(folded, name, file) {
        if file != "" && file in lists {
          ClosedMention(lists, fold, file, name);
        }
      }
      NamedHasNoEmpty(m, lists, Same);
      NamedHasNoEmpty(folded, lists, fold);
      NamesDetermine(m, folded);
    }
  }

  lemma PlainMention(xs: seq<string>, fold: string -> string, name: string)
    ensures Mentions(xs, Same, name) <==> name != "" && name in xs
    ensures Mentions(xs, Same, name) ==> Mentions(xs, fold, name)
  {
  }

  lemma ClosedMention(lists: Lists, fold: string -> string, file: string, name: string)
    requires FoldClosed(lists, fold) && file != "" && file in lists
    ensures Mentions(lists[file], fold, name) <==> Mentions(lists[file], Same, name)
  {
    PlainMention(lists[file], fold, name);
  }
}
