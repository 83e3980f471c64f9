/** The incremental crawl: files whose stamp or content hash is unchanged are copied from the previous index. */
module Delta {
  import opened Wrappers
  import opened CodeFacts
  import opened CodeIndex
  import opened Crawl

  predicate StampEqual(a: Stamp, b: Stamp) {
    a.size == b.size && a.mtime == b.mtime && a.size > 0
  }

  /** The previous index was built when the path had this very stamp, so its body is not read again. */
  ghost predicate Hit(past: Content, p: string, e: Entry) {
    p in past && e.stamp == Some(past[p].stamp) && past[p].stamp.size > 0
  }

  ghost predicate Seen(past: Content, p: string, e: Entry) {
    e.stamp.Some? && (Hit(past, p, e) || e.body.Some?)
  }

  ghost function SeenFile(past: Content, p: string, e: Entry): File
    requires Seen(past, p, e)
  {
    File(if Hit(past, p, e) then past[p].body else e.body.value, e.stamp.value)
  }

  /** The files a crawl after `past` indexes. */
  ghost function Live(past: Content, paths: seq<string>, disk: Disk): Content {
    map p | p in paths && p in disk && Seen(past, p, disk[p]) :: SeenFile(past, p, disk[p])
  }

  /** The file need not be read into the index again: its stamp is unchanged, or its body has the hash on record. */
  ghost predicate Unchanged(x: Extractor, past: Content, hashes: map<string, string>, p: string, e: Entry) {
    && p in past && e.stamp.Some?
    && (Hit(past, p, e) || (e.body.Some? && p in hashes && hashes[p] == x.hash(e.body.value)))
  }

  /** An unchanged stamp or an unchanged hash means an unchanged body. */
  ghost predicate Faithful(x: Extractor, past: Content, p: string, e: Entry) {
    p in past && e.body.Some? && (Hit(past, p, e) || x.hash(past[p].body) == x.hash(e.body.value)) ==>
      e.body.value == past[p].body
  }

  /** The hashes handed to the crawl are those of the previous contents. */
  ghost predicate Matches(x: Extractor, hashes: map<string, string>, past: Content) {
    forall p :: p in hashes && p in past ==> hashes[p] == x.hash(past[p].body)
  }

  /** prev is null and nothing is known, or the per-file maps of prev hold the files of past, whoever built it. */
  ghost predicate Previous(x: Extractor, prev: Index?, past: Content)
    reads prev
  {
    if prev == null then past == map[] else Rows(x, prev.PerFile(), past)
  }

  // ----- agreement with a clean crawl ----------------------------------------------------------------

  /** After any earlier crawl the files indexed are those of a clean crawl exactly when no file has become
      unreadable while keeping its stamp. */
  lemma LiveIsClean(x: Extractor, past: Content, paths: seq<string>, disk: Disk)
    requires forall p :: p in paths ==> p in disk && Faithful(x, past, p, disk[p])
    ensures Live(past, paths, disk) == Live(map[], paths, disk) <==>
            forall p :: p in paths && Hit(past, p, disk[p]) ==> disk[p].body.Some?
  {
    var live, clean := Live(past, paths, disk), Live(map[], paths, disk);
    if live == clean {
      forall p | p in paths && Hit(past, p, disk[p]) ensures disk[p].body.Some? {
        assert p in live;
        assert p in clean;
      }
    }
    if forall p :: p in paths && Hit(past, p, disk[p]) ==> disk[p].body.Some? {
      forall p | p in paths ensures (p in live <==> p in clean) && (p in live ==> live[p] == clean[p]) {
        assert Faithful(x, past, p, disk[p]);
      }
    }
  }

  /** A file made unreadable without touching its stamp stays in the index, with its old body. */
  lemma UnreadableStays()
    ensures var past := map["a.go" := File("x", Stamp(1, 7))];
            var disk := map["a.go" := Entry(Some(Stamp(1, 7)), None, true)];
            Live(past, ["a.go"], disk) == past && Live(map[], ["a.go"], disk) == map[]
  {
    var past := map["a.go" := File("x", Stamp(1, 7))];
    var disk := map["a.go" := Entry(Some(Stamp(1, 7)), None, true)];
    assert Hit(past, "a.go", disk["a.go"]);
  }

  // ----- rows of an index changed in place -----------------------------------------------------------

  /** Writing a file's hash and a new stamp. */
  lemma RestampedRows(x: Extractor, s: Store, t: Store, c: Content, rel: string, hash: string, stamp: Stamp)
    requires Rows(x, s, c) && rel in c && hash == x.hash(c[rel].body)
    requires t == s.(hashes := s.hashes[rel := hash], stamps := s.stamps[rel := stamp])
    ensures Rows(x, t, c[rel := File(c[rel].body, stamp)])
  {
    hide RowOf, FactsRow;
    forall p ensures RowOf(t, p) == Expected(x, c[rel := File(c[rel].body, stamp)], p) {
      StampedRow(s, t, rel, hash, stamp, p);
      assert RowOf(s, p) == Expected(x, c, p);
    }
  }

  ghost function Without(s: Store, p: string): Store {
    Store(s.files - {p}, s.postings - {p}, s.defs - {p}, s.refs - {p}, s.imps - {p}, s.edges - {p}, s.hashes - {p},
          s.stamps - {p})
  }

  lemma WithoutRow(s: Store, rel: string, p: string)
    ensures RowOf(Without(s, rel), p) == if p == rel then EMPTY_ROW else RowOf(s, p)
  {
  }

  lemma PrunedRows(x: Extractor, s: Store, c: Content, rel: string)
    requires Rows(x, s, c)
    ensures Rows(x, Without(s, rel), c - {rel})
  {
    hide RowOf, FileRow, Without;
    forall p ensures RowOf(Without(s, rel), p) == Expected(x, c - {rel}, p) {
      WithoutRow(s, rel, p);
      assert RowOf(s, p) == Expected(x, c, p);
    }
  }

  function CopyEntry<V>(from: map<string, V>, into: map<string, V>, p: string): map<string, V> {
    if p in from then into[p := from[p]] else into
  }

  ghost function WithFile(s: Store, from: Store, p: string, hash: string, stamp: Stamp): Store {
    Store(s.files + {p}, CopyEntry(from.postings, s.postings, p), CopyEntry(from.defs, s.defs, p),
          CopyEntry(from.refs, s.refs, p), CopyEntry(from.imps, s.imps, p), CopyEntry(from.edges, s.edges, p),
          s.hashes[p := hash], s.stamps[p := stamp])
  }

  lemma WithFileRow(s: Store, from: Store, rel: string, hash: string, stamp: Stamp, p: string)
    requires RowOf(s, rel) == EMPTY_ROW
    ensures p != rel ==> RowOf(WithFile(s, from, rel, hash, stamp), p) == RowOf(s, p)
    ensures RowOf(WithFile(s, from, rel, hash, stamp), rel) ==
            RowOf(from, rel).(listed := true, hash := Some(hash), stamp := Some(stamp))
  {
  }

  lemma CopiedRows(x: Extractor, s: Store, from: Store, c: Content, past: Content, rel: string, hash: string, stamp: Stamp)
    requires Rows(x, s, c) && Rows(x, from, past) && rel in past && rel !in c && hash == x.hash(past[rel].body)
    ensures Rows(x, WithFile(s, from, rel, hash, stamp), c[rel := File(past[rel].body, stamp)])
  {
    hide RowOf, WithFile;
    assert RowOf(s, rel) == Expected(x, c, rel);
    assert RowOf(from, rel) == Expected(x, past, rel);
    forall p ensures RowOf(WithFile(s, from, rel, hash, stamp), p) == Expected(x, c[rel := File(past[rel].body, stamp)], p) {
      WithFileRow(s, from, rel, hash, stamp, p);
      assert RowOf(s, p) == Expected(x, c, p);
    }
  }

  // ----- the steps of the crawl ----------------------------------------------------------------------

  datatype Item = Item(rel: string, raw: string, hash: string, stamp: Stamp, reuse: bool)

  /** An item describes a file; a reused one has the body it had in the previous index. */
  ghost predicate Good(x: Extractor, past: Content, it: Item, file: File) {
    && it.stamp == file.stamp && it.hash == x.hash(file.body)
    && (if it.reuse then it.rel in past && past[it.rel].body == file.body else it.raw == file.body)
  }

  /** Looks at one path: reuse by stamp, reuse by hash, or read. */
  method Inspect(x: Extractor, rel: string, e: Entry, prev: Index?, hashes: map<string, string>, ghost past: Content)
    returns (item: Option<Item>, byStamp: bool)
    requires Previous(x, prev, past) && Matches(x, hashes, past) && Faithful(x, past, rel, e)
    ensures item.Some? <==> Seen(past, rel, e)
    ensures item.Some? ==> item.value.rel == rel && Good(x, past, item.value, SeenFile(past, rel, e))
    ensures byStamp <==> Hit(past, rel, e)
    ensures item.Some? ==> (item.value.reuse <==> Unchanged(x, past, hashes, rel, e))
    ensures prev == null && item.Some? ==> !item.value.reuse
  {
    hide Rows;
    if prev != null {
      PastRow(x, prev.PerFile(), past, rel);
    }
    byStamp := false;
    if e.stamp.None? {
      return None, false;
    }
    var stamp := e.stamp.value;
    if prev != null && rel in prev.fileStamps && StampEqual(prev.fileStamps[rel], stamp) && rel in prev.filePostings {
      var h := if rel in prev.fileHashes then prev.fileHashes[rel] else "";
      return Some(Item(rel, "", h, stamp, true)), true;
    }
    if e.body.None? {
      return None, false;
    }
    var h := x.hash(e.body.value);
    var reuse := prev != null && rel in hashes && hashes[rel] == h && rel in prev.filePostings;
    item := Some(Item(rel, e.body.value, h, stamp, reuse));
  }

  lemma PastRow(x: Extractor, s: Store, past: Content, rel: string)
    requires Rows(x, s, past)
    ensures rel in s.postings <==> rel in past
    ensures rel in s.stamps <==> rel in past
    ensures rel in s.hashes <==> rel in past
    ensures rel in past ==> s.hashes[rel] == x.hash(past[rel].body) && s.stamps[rel] == past[rel].stamp
  {
    assert RowOf(s, rel) == Expected(x, past, rel);
  }

  datatype Counts = Counts(changed: nat, skipped: nat, skippedStamp: nat, hashed: nat, errors: nat)

  /** The items are the live files, one each. */
  ghost predicate Surveyed(x: Extractor, past: Content, items: seq<Item>, live: Content) {
    && (forall i :: 0 <= i < |items| ==> items[i].rel in live && Good(x, past, items[i], live[items[i].rel]))
    && (forall i, j :: 0 <= i < j < |items| ==> items[i].rel != items[j].rel)
    && (forall p :: p in live ==> exists i :: 0 <= i < |items| && items[i].rel == p)
  }

  ghost predicate Counted(n: Counts, items: seq<Item>, paths: nat) {
    && n.changed + n.skipped == |items|
    && (n.changed == 0 <==> forall i :: 0 <= i < |items| ==> items[i].reuse)
    && n.skippedStamp + n.hashed == |items|
    && n.skippedStamp <= n.skipped
    && |items| + n.errors == paths
  }

  method Survey(x: Extractor, paths: seq<string>, disk: Disk, prev: Index?, hashes: map<string, string>, ghost past: Content)
    returns (items: seq<Item>, n: Counts)
    requires Unrepeated(paths) && forall p :: p in paths ==> p in disk && Faithful(x, past, p, disk[p])
    requires Previous(x, prev, past) && Matches(x, hashes, past)
    ensures Surveyed(x, past, items, Live(past, paths, disk)) && Counted(n, items, |paths|)
    ensures n.skipped == |UnchangedIn(x, past, hashes, paths, disk)| && n.skippedStamp == |HitsIn(past, paths, disk)|
    ensures prev == null ==> forall i :: 0 <= i < |items| ==> !items[i].reuse
  {
    hide Live, Previous, Matches, Faithful, Good, Seen, SeenFile, Surveyed, Counted, Count, Unchanged, Hit, UnchangedIn, HitsIn;
    items, n := [], Counts(0, 0, 0, 0, 0);
    NothingLive(x, past, disk);
    NothingUnchanged(x, past, hashes, disk);
    for k := 0 to |paths|
      invariant Surveyed(x, past, items, Live(past, paths[..k], disk)) && Counted(n, items, k)
      invariant n.skipped == |UnchangedIn(x, past, hashes, paths[..k], disk)| && n.skippedStamp == |HitsIn(past, paths[..k], disk)|
      invariant prev == null ==> forall i :: 0 <= i < |items| ==> !items[i].reuse
    {
      var item, byStamp := Inspect(x, paths[k], disk[paths[k]], prev, hashes, past);
      OneMoreLive(past, paths, disk, k);
      OneMoreUnchanged(x, past, hashes, paths, disk, k);
      OneMoreHit(past, paths, disk, k);
      UnchangedIsSeen(x, past, hashes, paths[k], disk[paths[k]]);
      if item.None? {
        CountedError(n, items, k);
        n := n.(errors := n.errors + 1);
      } else {
        SurveyedGrows(x, past, items, Live(past, paths[..k], disk), item.value, SeenFile(past, paths[k], disk[paths[k]]));
        CountedGrows(n, items, k, item.value, byStamp);
        CountedOne(n, item.value, byStamp);
        n := Count(n, item.value, byStamp);
        items := items + [item.value];
      }
    }
    assert paths[..|paths|] == paths;
  }

  function Count(n: Counts, item: Item, byStamp: bool): Counts {
    var m := if item.reuse then n.(skipped := n.skipped + 1) else n.(changed := n.changed + 1);
    if byStamp then m.(skippedStamp := m.skippedStamp + 1) else m.(hashed := m.hashed + 1)
  }

  /** The paths that need not be indexed again, and those of them whose stamp already says so. */
  ghost function UnchangedIn(x: Extractor, past: Content, hashes: map<string, string>, paths: seq<string>, disk: Disk): set<string> {
    set p | p in paths && p in disk && Unchanged(x, past, hashes, p, disk[p])
  }

  ghost function HitsIn(past: Content, paths: seq<string>, disk: Disk): set<string> {
    set p | p in paths && p in disk && Hit(past, p, disk[p])
  }

  lemma NothingUnchanged(x: Extractor, past: Content, hashes: map<string, string>, disk: Disk)
    ensures UnchangedIn(x, past, hashes, [], disk) == {} && HitsIn(past, [], disk) == {}
  {
  }

  lemma OneMorePath(paths: seq<string>, k: nat)
    requires Unrepeated(paths) && k < |paths|
    ensures paths[k] !in paths[..k] && forall q :: q in paths[..k + 1] <==> q in paths[..k] || q == paths[k]
  {
    assert paths[..k + 1] == paths[..k] + [paths[k]];
  }

  lemma OneMoreMember(before: set<string>, now: set<string>, p: string, added: bool)
    requires p !in before && forall q :: q in now <==> q in before || (added && q == p)
    ensures |now| == |before| + if added then 1 else 0
  {
    assert now == if added then before + {p} else before;
  }

  lemma OneMoreUnchanged(x: Extractor, past: Content, hashes: map<string, string>, paths: seq<string>, disk: Disk, k: nat)
    requires Unrepeated(paths) && k < |paths| && paths[k] in disk
    ensures |UnchangedIn(x, past, hashes, paths[..k + 1], disk)| ==
            |UnchangedIn(x, past, hashes, paths[..k], disk)| + if Unchanged(x, past, hashes, paths[k], disk[paths[k]]) then 1 else 0
  {
    hide Unchanged, Unrepeated;
    OneMorePath(paths, k);
    OneMoreMember(UnchangedIn(x, past, hashes, paths[..k], disk), UnchangedIn(x, past, hashes, paths[..k + 1], disk), paths[k],
                  Unchanged(x, past, hashes, paths[k], disk[paths[k]]));
  }

  lemma OneMoreHit(past: Content, paths: seq<string>, disk: Disk, k: nat)
    requires Unrepeated(paths) && k < |paths| && paths[k] in disk
    ensures |HitsIn(past, paths[..k + 1], disk)| ==
            |HitsIn(past, paths[..k], disk)| + if Hit(past, paths[k], disk[paths[k]]) then 1 else 0
  {
    hide Hit, Unrepeated;
    OneMorePath(paths, k);
    OneMoreMember(HitsIn(past, paths[..k], disk), HitsIn(past, paths[..k + 1], disk), paths[k], Hit(past, paths[k], disk[paths[k]]));
  }

  lemma UnchangedIsSeen(x: Extractor, past: Content, hashes: map<string, string>, p: string, e: Entry)
    ensures Hit(past, p, e) ==> Unchanged(x, past, hashes, p, e)
    ensures Unchanged(x, past, hashes, p, e) ==> Seen(past, p, e)
  {
  }

  lemma CountedOne(n: Counts, item: Item, byStamp: bool)
    ensures Count(n, item, byStamp).skipped == n.skipped + if item.reuse then 1 else 0
    ensures Count(n, item, byStamp).skippedStamp == n.skippedStamp + if byStamp then 1 else 0
  {
  }

  lemma NothingLive(x: Extractor, past: Content, disk: Disk)
    ensures Surveyed(x, past, [], Live(past, [], disk)) && Counted(Counts(0, 0, 0, 0, 0), [], 0)
  {
  }

  lemma SurveyedGrows(x: Extractor, past: Content, items: seq<Item>, live: Content, it: Item, file: File)
    requires Surveyed(x, past, items, live) && it.rel !in live && Good(x, past, it, file)
    ensures Surveyed(x, past, items + [it], live[it.rel := file])
  {
    hide Good;
    var more := items + [it];
    assert forall i :: 0 <= i < |items| ==> more[i] == items[i];
    var grown := live[it.rel := file];
    forall p | p in grown ensures exists i :: 0 <= i < |more| && more[i].rel == p {
      if p == it.rel {
        assert more[|items|].rel == p;
      } else {
        var i :| 0 <= i < |items| && items[i].rel == p;
        assert more[i].rel == p;
      }
    }
  }

  lemma CountedGrows(n: Counts, items: seq<Item>, k: nat, it: Item, byStamp: bool)
    requires Counted(n, items, k) && (byStamp ==> it.reuse)
    ensures Counted(Count(n, it, byStamp), items + [it], k + 1)
  {
    var more := items + [it];
    assert more[|items|] == it && forall i :: 0 <= i < |items| ==> more[i] == items[i];
  }

  lemma CountedError(n: Counts, items: seq<Item>, k: nat)
    requires Counted(n, items, k)
    ensures Counted(n.(errors := n.errors + 1), items, k + 1)
  {
  }

  lemma OneMoreLive(past: Content, paths: seq<string>, disk: Disk, k: nat)
    requires Unrepeated(paths) && k < |paths| && paths[k] in disk
    ensures var c, e := Live(past, paths[..k], disk), disk[paths[k]];
            && paths[k] !in c
            && Live(past, paths[..k + 1], disk) == if Seen(past, paths[k], e) then c[paths[k] := SeenFile(past, paths[k], e)] else c
  {
    assert paths[..k + 1] == paths[..k] + [paths[k]];
  }

  // ----- nothing changed: clone, restamp, prune ------------------------------------------------------

  method Clone(prev: Index) returns (idx: Index)
    requires prev.files == prev.filePostings.Keys
    ensures fresh(idx) && idx.PerFile() == prev.PerFile()
  {
    idx := new Index();
    idx.filePostings, idx.files := prev.filePostings, prev.filePostings.Keys;
    idx.fileDefs, idx.fileRefs, idx.fileImps := prev.fileDefs, prev.fileRefs, prev.fileImps;
    idx.fileHashes, idx.fileStamps, idx.fileEdges := prev.fileHashes, prev.fileStamps, prev.fileEdges;
  }

  /** c and live agree on the items before i, and on every body. */
  ghost predicate Restamped(items: seq<Item>, i: nat, live: Content, c: Content) {
    && (forall p :: p in live ==> p in c && c[p].body == live[p].body)
    && (forall j :: 0 <= j < i <= |items| && items[j].rel in live ==> items[j].rel in c && c[items[j].rel] == live[items[j].rel])
  }

  lemma RestampedNext(x: Extractor, past: Content, items: seq<Item>, i: nat, live: Content, c: Content)
    requires Surveyed(x, past, items, live) && Restamped(items, i, live, c) && i < |items|
    ensures var it := items[i];
            it.rel in c && it.hash == x.hash(c[it.rel].body) && Restamped(items, i + 1, live, c[it.rel := File(c[it.rel].body, it.stamp)])
  {
    assert Good(x, past, items[i], live[items[i].rel]);
  }

  lemma RestampedAll(x: Extractor, past: Content, items: seq<Item>, live: Content, c: Content)
    requires Surveyed(x, past, items, live) && Restamped(items, |items|, live, c)
    ensures forall p :: p in live ==> p in c && c[p] == live[p]
  {
    hide Good;
    forall p | p in live ensures c[p] == live[p] {
      var i :| 0 <= i < |items| && items[i].rel == p;
    }
  }

  lemma NotYetRestamped(x: Extractor, past: Content, items: seq<Item>, live: Content)
    requires Surveyed(x, past, items, live) && forall i :: 0 <= i < |items| ==> items[i].reuse
    ensures Restamped(items, 0, live, past)
  {
    forall p | p in live ensures p in past && past[p].body == live[p].body {
      var i :| 0 <= i < |items| && items[i].rel == p;
      assert Good(x, past, items[i], live[items[i].rel]);
    }
  }

  /** Writes the surveyed stamps, and the hashes that are known or, when filling, only those that are missing. */
  method Restamp(x: Extractor, idx: Index, items: seq<Item>, fill: bool, ghost past: Content, ghost live: Content, ghost c: Content)
    returns (ghost c': Content)
    requires Rows(x, idx.PerFile(), c) && Surveyed(x, past, items, live) && Restamped(items, 0, live, c)
    modifies idx`fileHashes, idx`fileStamps
    ensures Rows(x, idx.PerFile(), c') && forall p :: p in live ==> p in c' && c'[p] == live[p]
    ensures c'.Keys == c.Keys
  {
    hide Rows, Surveyed, Restamped;
    c' := c;
    for i := 0 to |items|
      invariant Rows(x, idx.PerFile(), c') && Restamped(items, i, live, c') && c'.Keys == c.Keys
    {
      var it := items[i];
      RestampedNext(x, past, items, i, live, c');
      ghost var s := idx.PerFile();
      HashOf(x, s, c', it.rel);
      idx.fileStamps := idx.fileStamps[it.rel := it.stamp];
      if if fill then it.rel !in idx.fileHashes else it.hash != "" {
        idx.fileHashes := idx.fileHashes[it.rel := it.hash];
      }
      assert idx.PerFile().hashes == s.hashes[it.rel := it.hash];
      RestampedRows(x, s, idx.PerFile(), c', it.rel, it.hash, it.stamp);
      c' := c'[it.rel := File(c'[it.rel].body, it.stamp)];
    }
    RestampedAll(x, past, items, live, c');
  }

  lemma HashOf(x: Extractor, s: Store, c: Content, rel: string)
    requires Rows(x, s, c) && rel in c
    ensures rel in s.hashes && s.hashes[rel] == x.hash(c[rel].body)
  {
    assert RowOf(s, rel) == Expected(x, c, rel);
  }

  /** Drops every file that is no longer live. */
  method Prune(ghost x: Extractor, idx: Index, live: set<string>, ghost c: Content)
    requires Rows(x, idx.PerFile(), c)
    modifies idx
    ensures Rows(x, idx.PerFile(), map p | p in c && p in live :: c[p])
  {
    hide Rows, Without;
    KeysOf(x, idx.PerFile(), c);
    var todo := idx.files;
    ghost var cur := c;
    while todo != {}
      invariant Rows(x, idx.PerFile(), cur) && todo <= c.Keys
      invariant forall p :: p in cur <==> p in c && (p in live || p in todo)
      invariant forall p :: p in cur ==> cur[p] == c[p]
      decreases todo
    {
      var path :| path in todo;
      todo := todo - {path};
      if path !in live {
        PrunedRows(x, idx.PerFile(), cur, path);
        Delete(idx, path);
        cur := cur - {path};
      }
    }
    assert cur == map p | p in c && p in live :: c[p];
  }

  method Delete(idx: Index, path: string)
    modifies idx
    ensures idx.PerFile() == Without(old(idx.PerFile()), path)
  {
    idx.files, idx.filePostings := idx.files - {path}, idx.filePostings - {path};
    idx.fileDefs, idx.fileRefs, idx.fileImps := idx.fileDefs - {path}, idx.fileRefs - {path}, idx.fileImps - {path};
    idx.fileHashes, idx.fileStamps := idx.fileHashes - {path}, idx.fileStamps - {path};
    idx.fileEdges := idx.fileEdges - {path};
  }

  /** The fast path: every file was reused. */
  method ReuseAll(x: Extractor, prev: Index, items: seq<Item>, ghost past: Content, ghost live: Content) returns (idx: Index)
    requires Rows(x, prev.PerFile(), past) && Surveyed(x, past, items, live)
    requires forall i :: 0 <= i < |items| ==> items[i].reuse
    ensures fresh(idx) && IndexOf(x, x.lower, live, idx.Value())
  {
    hide Rows, Surveyed, Restamped, Transposed, GraphOf;
    KeysOf(x, prev.PerFile(), past);
    idx := Clone(prev);
    NotYetRestamped(x, past, items, live);
    ghost var c := Restamp(x, idx, items, false, past, live, past);
    var rels := Rels(x, items, past, live);
    Prune(x, idx, rels, c);
    assert (map p | p in c && p in rels :: c[p]) == live;
    idx.RebuildGlobal(x, live);
  }

  method Rels(ghost x: Extractor, items: seq<Item>, ghost past: Content, ghost live: Content) returns (rels: set<string>)
    requires Surveyed(x, past, items, live)
    ensures rels == live.Keys
  {
    hide Good;
    rels := {};
    for i := 0 to |items|
      invariant forall p :: p in rels <==> exists j :: 0 <= j < i && items[j].rel == p
    {
      rels := rels + {items[i].rel};
    }
  }

  // ----- something changed: index the changed files, copy the others ---------------------------------

  /** The live files among the first n items that were, or were not, reused. */
  ghost predicate Part(items: seq<Item>, n: nat, reused: bool, live: Content, c: Content) {
    forall p :: p in c <==> p in live && exists i :: 0 <= i < n <= |items| && items[i].rel == p && items[i].reuse == reused
  }

  method Changed(ghost x: Extractor, items: seq<Item>, ghost past: Content, ghost live: Content) returns (work: seq<Work>)
    requires Surveyed(x, past, items, live)
    ensures Distinct(work) && Part(items, |items|, false, live, ContentOf(work))
    ensures forall p :: p in ContentOf(work) ==> p in live && ContentOf(work)[p] == live[p]
  {
    hide ContentOf, Part, Surveyed;
    work := [];
    NoPart(items, live);
    for i := 0 to |items|
      invariant forall j :: 0 <= j < |work| ==> exists k :: 0 <= k < i && items[k].rel == work[j].rel
      invariant Distinct(work) && Part(items, i, false, live, ContentOf(work))
      invariant forall p :: p in ContentOf(work) ==> p in live && ContentOf(work)[p] == live[p]
    {
      SurveyedAt(x, past, items, live, i);
      PartGrows(items, i, false, live, ContentOf(work), if items[i].reuse then live[items[i].rel] else File(items[i].raw, items[i].stamp));
      if !items[i].reuse {
        OneMoreWork(work, Work(items[i].rel, File(items[i].raw, items[i].stamp)));
        work := work + [Work(items[i].rel, File(items[i].raw, items[i].stamp))];
      }
    }
  }

  lemma NoPart(items: seq<Item>, live: Content)
    ensures ContentOf([]) == map[] && Part(items, 0, false, live, map[])
  {
  }

  lemma SurveyedAt(x: Extractor, past: Content, items: seq<Item>, live: Content, i: nat)
    requires Surveyed(x, past, items, live) && i < |items|
    ensures items[i].rel in live && Good(x, past, items[i], live[items[i].rel])
    ensures forall j :: 0 <= j < i ==> items[j].rel != items[i].rel
  {
  }

  lemma PartGrows(items: seq<Item>, i: nat, reused: bool, live: Content, c: Content, file: File)
    requires i < |items| && items[i].rel in live && Part(items, i, reused, live, c)
    ensures Part(items, i + 1, reused, live, if items[i].reuse == reused then c[items[i].rel := file] else c)
  {
    var it := items[i];
    var d := if it.reuse == reused then c[it.rel := file] else c;
    forall p ensures p in d <==> p in live && exists j :: 0 <= j < i + 1 && items[j].rel == p && items[j].reuse == reused {
      if p in d && !(it.reuse == reused && p == it.rel) {
        var j :| 0 <= j < i && items[j].rel == p && items[j].reuse == reused;
      }
    }
  }

  /** Copies one file's subgraph from the previous index. */
  method CopyFileFrom(prev: Index, dst: Index, rel: string, hash: string, stamp: Stamp)
    requires prev != dst && rel in prev.fileHashes && rel in prev.fileStamps
    modifies dst
    ensures rel == "" ==> dst.PerFile() == old(dst.PerFile())
    ensures rel != "" ==>
              dst.PerFile() == WithFile(old(dst.PerFile()), prev.PerFile(), rel,
                                        if hash != "" then hash else prev.fileHashes[rel],
                                        if stamp.size > 0 then stamp else prev.fileStamps[rel])
  {
    hide CopyEntry;
    if rel == "" {
      return;
    }
    dst.files := dst.files + {rel};
    dst.fileHashes := dst.fileHashes[rel := if hash != "" then hash else prev.fileHashes[rel]];
    dst.fileStamps := dst.fileStamps[rel := if stamp.size > 0 then stamp else prev.fileStamps[rel]];
    dst.filePostings := CopyEntry(prev.filePostings, dst.filePostings, rel);
    dst.fileDefs := CopyEntry(prev.fileDefs, dst.fileDefs, rel);
    dst.fileRefs := CopyEntry(prev.fileRefs, dst.fileRefs, rel);
    dst.fileImps := CopyEntry(prev.fileImps, dst.fileImps, rel);
    dst.fileEdges := CopyEntry(prev.fileEdges, dst.fileEdges, rel);
  }

  /** c holds the changed files and the first i items, with their live bodies. */
  ghost predicate Copied(items: seq<Item>, i: nat, live: Content, c: Content) {
    && (forall p :: p in c ==> p in live && c[p].body == live[p].body)
    && (forall j :: 0 <= j < |items| && items[j].rel in live ==> (items[j].rel in c <==> j < i || !items[j].reuse))
  }

  lemma CopiedNext(x: Extractor, past: Content, items: seq<Item>, i: nat, live: Content, c: Content, stamp: Stamp)
    requires Surveyed(x, past, items, live) && Copied(items, i, live, c) && i < |items|
    ensures !items[i].reuse ==> Copied(items, i + 1, live, c)
    ensures items[i].reuse ==> items[i].rel in past && items[i].hash == x.hash(past[items[i].rel].body)
    ensures items[i].reuse ==> items[i].rel !in c && Copied(items, i + 1, live, c[items[i].rel := File(past[items[i].rel].body, stamp)])
  {
    SurveyedAt(x, past, items, live, i);
  }

  lemma ChangedCopied(x: Extractor, past: Content, items: seq<Item>, live: Content, c: Content)
    requires Surveyed(x, past, items, live) && Part(items, |items|, false, live, c)
    requires forall p :: p in c ==> p in live && c[p] == live[p]
    ensures Copied(items, 0, live, c)
  {
    hide Good;
  }

  lemma AllCopied(x: Extractor, past: Content, items: seq<Item>, live: Content, c: Content)
    requires Surveyed(x, past, items, live) && Copied(items, |items|, live, c)
    ensures Restamped(items, 0, live, c) && c.Keys == live.Keys
  {
    hide Good;
    forall p | p in live ensures p in c {
      var i :| 0 <= i < |items| && items[i].rel == p;
    }
  }

  method CopyReused(x: Extractor, prev: Index, idx: Index, items: seq<Item>, ghost past: Content, ghost live: Content,
                    ghost c: Content)
    returns (ghost c': Content)
    requires prev != idx && Rows(x, prev.PerFile(), past) && Surveyed(x, past, items, live) && "" !in live
    requires Rows(x, idx.PerFile(), c) && Copied(items, 0, live, c)
    modifies idx
    ensures Rows(x, idx.PerFile(), c') && Copied(items, |items|, live, c')
  {
    hide Rows, Surveyed, Copied, WithFile;
    c' := c;
    for i := 0 to |items|
      invariant Rows(x, idx.PerFile(), c') && Copied(items, i, live, c')
    {
      var it := items[i];
      SurveyedAt(x, past, items, live, i);
      if it.reuse {
        CopiedNext(x, past, items, i, live, c', it.stamp);
        PastRow(x, prev.PerFile(), past, it.rel);
        var stamp := if it.stamp.size > 0 then it.stamp else prev.fileStamps[it.rel];
        CopiedNext(x, past, items, i, live, c', stamp);
        CopiedRows(x, idx.PerFile(), prev.PerFile(), c', past, it.rel, it.hash, stamp);
        CopyFileFrom(prev, idx, it.rel, it.hash, it.stamp);
        c' := c'[it.rel := File(past[it.rel].body, stamp)];
      } else {
        CopiedNext(x, past, items, i, live, c', it.stamp);
      }
    }
  }

  /** The three-phase path. */
  method Reindex(x: Extractor, prev: Index?, items: seq<Item>, workers: nat, ghost past: Content, ghost live: Content)
    returns (idx: Index)
    requires workers >= 1 && Previous(x, prev, past) && Surveyed(x, past, items, live) && "" !in live
    requires prev == null ==> forall i :: 0 <= i < |items| ==> !items[i].reuse
    ensures fresh(idx) && IndexOf(x, x.lower, live, idx.Value())
  {
    hide Rows, Surveyed, Copied, Part, Restamped, Transposed, GraphOf, ContentOf, Distinct;
    var work := Changed(x, items, past, live);
    idx := IndexInParallel(x, work, workers);
    ghost var c := ContentOf(work);
    ChangedCopied(x, past, items, live, c);
    if prev != null {
      c := CopyReused(x, prev, idx, items, past, live, c);
    } else {
      NothingToCopy(items, live, c);
      AllCopied(x, past, items, live, c);
      c := Restamp(x, idx, items, false, past, live, c);
      Recopied(items, live, c);
    }
    AllCopied(x, past, items, live, c);
    c := Restamp(x, idx, items, true, past, live, c);
    assert c == live;
    idx.RebuildGlobal(x, live);
  }

  lemma NothingToCopy(items: seq<Item>, live: Content, c: Content)
    requires Copied(items, 0, live, c) && forall i :: 0 <= i < |items| ==> !items[i].reuse
    ensures Copied(items, |items|, live, c)
  {
  }

  lemma Recopied(items: seq<Item>, live: Content, c: Content)
    requires c.Keys == live.Keys && forall p :: p in live ==> c[p] == live[p]
    ensures Copied(items, |items|, live, c)
  {
  }

  // ----- the delta crawl -----------------------------------------------------------------------------

  datatype Stats = Stats(filesIndexed: nat, workers: nat, errors: nat, changed: nat, reused: nat, skippedByStamp: nat,
                         hashed: nat)

  /** Incremental crawl after any earlier crawl: the result is the index of the live files, on both paths; the
      hashes returned are those of that index; every path is counted once, and exactly the files with an unchanged stamp
      or hash count as reused. */
  method CrawlDeltaFrom(x: Extractor, paths: seq<string>, disk: Disk, workers: int, prevHashes: Option<map<string, string>>,
                        prev: Index?, ghost past: Content)
    returns (idx: Index, stats: Stats, hashes: map<string, string>)
    requires Unrepeated(paths) && "" !in paths
    requires forall p :: p in paths ==> p in disk && Faithful(x, past, p, disk[p])
    requires Previous(x, prev, past) && (prevHashes.Some? ==> Matches(x, prevHashes.value, past))
    ensures fresh(idx) && IndexOf(x, x.lower, Live(past, paths, disk), idx.Value())
    ensures Previous(x, idx, Live(past, paths, disk)) && Matches(x, hashes, Live(past, paths, disk))
    ensures hashes == idx.fileHashes
    ensures stats.filesIndexed == |idx.files| == stats.changed + stats.reused == stats.hashed + stats.skippedByStamp
    ensures stats.filesIndexed + stats.errors == |paths|
    ensures var known := if prevHashes.Some? then prevHashes.value else if prev != null then prev.fileHashes else map[];
            stats.reused == |UnchangedIn(x, past, known, paths, disk)| && stats.skippedByStamp == |HitsIn(past, paths, disk)|
  {
    hide IndexOf, Rows, Live, Surveyed, Counted, Faithful, Matches;
    var count := if workers < 1 then 1 else workers;
    var known := if prevHashes.Some? then prevHashes.value else if prev != null then prev.fileHashes else map[];
    KnownHashes(x, prev, past, known, prevHashes);
    var items, n := Survey(x, paths, disk, prev, known, past);
    ghost var live := Live(past, paths, disk);
    NamelessIsDead(past, paths, disk);
    if prev != null && n.changed == 0 && n.skipped == |items| && |items| > 0 {
      NoneChanged(n, items, |paths|);
      idx := ReuseAll(x, prev, items, past, live);
    } else {
      idx := Reindex(x, prev, items, count, past, live);
    }
    hashes := idx.fileHashes;
    stats := Stats(|items|, count, n.errors, n.changed, n.skipped, n.skippedStamp, n.hashed);
    IndexRows(x, x.lower, live, idx.Value());
    LiveHashes(x, live, idx.PerFile());
    OneItemEach(x, past, items, live);
    Tally(n, items, |paths|);
  }

  lemma IndexRows(x: Extractor, fold: string -> string, c: Content, v: Snapshot)
    requires IndexOf(x, fold, c, v)
    ensures Rows(x, v.store, c)
  {
  }

  lemma Tally(n: Counts, items: seq<Item>, paths: nat)
    requires Counted(n, items, paths)
    ensures n.changed + n.skipped == |items| == n.skippedStamp + n.hashed && |items| + n.errors == paths
  {
  }

  lemma NoneChanged(n: Counts, items: seq<Item>, paths: nat)
    requires Counted(n, items, paths) && n.changed == 0
    ensures forall i :: 0 <= i < |items| ==> items[i].reuse
  {
  }

  lemma KnownHashes(x: Extractor, prev: Index?, past: Content, known: map<string, string>, given: Option<map<string, string>>)
    requires Previous(x, prev, past) && (given.Some? ==> Matches(x, given.value, past))
    requires known == if given.Some? then given.value else if prev != null then prev.fileHashes else map[]
    ensures Matches(x, known, past)
  {
    if given.None? && prev != null {
      forall p | p in known && p in past ensures known[p] == x.hash(past[p].body) {
        PastRow(x, prev.PerFile(), past, p);
      }
    }
  }

  lemma NamelessIsDead(past: Content, paths: seq<string>, disk: Disk)
    requires "" !in paths
    ensures "" !in Live(past, paths, disk)
  {
  }

  lemma LiveHashes(x: Extractor, live: Content, s: Store)
    requires Rows(x, s, live)
    ensures Matches(x, s.hashes, live) && s.files == live.Keys
  {
    hide Rows;
    KeysOf(x, s, live);
    forall p | p in live ensures s.hashes[p] == x.hash(live[p].body) {
      PastRow(x, s, live, p);
    }
  }

  lemma OneItemEach(x: Extractor, past: Content, items: seq<Item>, live: Content)
    requires Surveyed(x, past, items, live)
    ensures |live.Keys| == |items|
  {
    hide Good;
    OneKeyEach(items, live.Keys);
  }

  lemma {:induction false} OneKeyEach(items: seq<Item>, keys: set<string>)
    requires forall i :: 0 <= i < |items| ==> items[i].rel in keys
    requires forall i, j :: 0 <= i < j < |items| ==> items[i].rel != items[j].rel
    requires forall p :: p in keys ==> exists i :: 0 <= i < |items| && items[i].rel == p
    ensures |keys| == |items|
    decreases |items|
  {
    if items == [] {
      assert keys == {};
    } else {
      var init, last := items[..|items| - 1], items[|items| - 1];
      var rest := keys - {last.rel};
      forall p | p in rest ensures exists i :: 0 <= i < |init| && init[i].rel == p {
        var i :| 0 <= i < |items| && items[i].rel == p;
        assert init[i].rel == p;
      }
      OneKeyEach(init, rest);
      assert keys == rest + {last.rel};
    }
  }

  /** The same files are live only if every file with an unchanged stamp can be read. */
  lemma SameLiveFiles(past: Content, paths: seq<string>, disk: Disk)
    requires forall p :: p in paths ==> p in disk
    requires Live(past, paths, disk).Keys == Live(map[], paths, disk).Keys
    ensures forall p :: p in paths && Hit(past, p, disk[p]) ==> disk[p].body.Some?
  {
    forall p | p in paths && Hit(past, p, disk[p]) ensures disk[p].body.Some? {
      assert p in Live(past, paths, disk).Keys;
      assert p in Live(map[], paths, disk);
    }
  }

  /** A delta crawl after any earlier crawl, full or incremental, and a clean crawl of the same tree give the same index, in every map,
      exactly when no file has become unreadable under an unchanged stamp. */
  method DeltaAgreesWithClean(x: Extractor, paths: seq<string>, disk: Disk, workers: int, workers': int, prev: Index,
                              ghost past: Content)
    returns (delta: Index, clean: Index)
    requires Unrepeated(paths) && "" !in paths
    requires forall p :: p in paths ==> p in disk && Faithful(x, past, p, disk[p])
    requires Rows(x, prev.PerFile(), past)
    ensures delta.Value() == clean.Value() <==> forall p :: p in paths && Hit(past, p, disk[p]) ==> disk[p].body.Some?
  {
    hide IndexOf, Live, Rows;
    var stats, hashes;
    delta, stats, hashes := CrawlDeltaFrom(x, paths, disk, workers, None, prev, past);
    clean, stats, hashes := CrawlDeltaFrom(x, paths, disk, workers', None, null, map[]);
    LiveIsClean(x, past, paths, disk);
    if forall p :: p in paths && Hit(past, p, disk[p]) ==> disk[p].body.Some? {
      IndexIsUnique(x, x.lower, Live(map[], paths, disk), delta.Value(), clean.Value());
    }
    IndexedFiles(x, x.lower, Live(past, paths, disk), delta.Value());
    IndexedFiles(x, x.lower, Live(map[], paths, disk), clean.Value());
    if delta.Value() == clean.Value() {
      SameLiveFiles(past, paths, disk);
    }
  }

  /** A full crawl of one tree followed by a delta crawl of a later one: the delta crawl gives what a clean crawl of
      the later tree gives, exactly when no file the full crawl indexed has become unreadable under an unchanged
      stamp. */
  method DeltaAfterFullCrawl(x: Extractor, paths: seq<string>, disk: Disk, workers: int,
                             later: seq<string>, laterDisk: Disk, deltaWorkers: int, cleanWorkers: int)
    returns (delta: Index, clean: Index)
    requires Unrepeated(paths) && forall p :: p in paths ==> p in disk
    requires Unrepeated(later) && "" !in later
    requires forall p :: p in later ==> p in laterDisk && Faithful(x, Crawled(Bounded(paths), disk), p, laterDisk[p])
    ensures var past := Crawled(Bounded(paths), disk);
            delta.Value() == clean.Value() <==> forall p :: p in later && Hit(past, p, laterDisk[p]) ==> laterDisk[p].body.Some?
  {
    hide IndexOf, Rows, Crawled, Faithful;
    var first, _, _ := CrawlDir(x, paths, disk, workers);
    ghost var past := Crawled(Bounded(paths), disk);
    IndexRows(x, Same, past, first.Value());
    delta, clean := DeltaAgreesWithClean(x, later, laterDisk, deltaWorkers, cleanWorkers, first, past);
  }
}
