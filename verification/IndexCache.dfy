/** The in-process cache of decoded indexes, as the interleaved steps of its readers, of invalidations and of
    rewrites of the files it caches. */
module IndexCache {
  import opened Wrappers

  datatype Ident = Ident(size: int, mtime: int)

  datatype Version = Absent | Present(id: Ident, bytes: string)

  /** Every version each file goes through, oldest first. */
  type History = map<string, seq<Version>>

  datatype Entry<D> = Entry(index: D, id: Ident)

  /** Where a reader is in its call. `since` is the version current when the call began, `until` the one current
      when it returned. */
  datatype Reader<D> =
    | Idle
    | Unreadable(path: string, since: nat)
    | Stated(path: string, since: nat, id: Ident)
    | Missed(path: string, since: nat, id: Ident)
    | Loaded(path: string, since: nat, id: Ident, index: D)
    | Checked(path: string, since: nat, id: Ident, index: D)
    | Done(path: string, since: nat, until: nat, result: Option<D>)

  /** now[path] is the version of the file that is on disk. */
  datatype State<D> = State(now: map<string, nat>, entries: map<string, Entry<D>>, readers: seq<Reader<D>>)

  datatype Step =
    | Call(reader: nat, path: string)
    | Lookup(reader: nat)
    | Load(reader: nat)
    | Restat(reader: nat)
    | Insert(reader: nat)
    | Invalidate(path: string)
    | Write(path: string)

  function Decoded<D>(decode: string -> Option<D>, v: Version): Option<D> {
    if v.Absent? then None else decode(v.bytes)
  }

  ghost predicate WellFormed<D>(h: History, s: State<D>) {
    s.now.Keys == h.Keys && forall p :: p in h ==> s.now[p] < |h[p]|
  }

  ghost function Start<D>(h: History, readers: nat): State<D> {
    State(map p | p in h :: 0, map[], seq(readers, _ => Idle))
  }

  /** One reader's next state. */
  function Advance<D>(h: History, decode: string -> Option<D>, s: State<D>, step: Step, r: Reader<D>): Reader<D>
    requires WellFormed(h, s)
  {
    if step.Call? then
      if (r.Idle? || r.Done?) && step.path in h then
        var v := h[step.path][s.now[step.path]];
        if v.Absent? then Unreadable(step.path, s.now[step.path]) else Stated(step.path, s.now[step.path], v.id)
      else r
    else if r.Idle? || r.Done? || r.path !in h then r
    else
      var now := s.now[r.path];
      var v := h[r.path][now];
      if step.Lookup? && r.Stated? then
        if r.path in s.entries && s.entries[r.path].id == r.id then Done(r.path, r.since, now, Some(s.entries[r.path].index))
        else Missed(r.path, r.since, r.id)
      else if step.Load? && (r.Unreadable? || r.Missed?) then
        if r.Missed? && Decoded(decode, v).Some? then Loaded(r.path, r.since, r.id, Decoded(decode, v).value)
        else Done(r.path, r.since, now, Decoded(decode, v))
      else if step.Restat? && r.Loaded? then
        if v.Present? && v.id == r.id then Checked(r.path, r.since, r.id, r.index)
        else Done(r.path, r.since, now, Some(r.index))
      else if step.Insert? && r.Checked? then Done(r.path, r.since, now, Some(r.index))
      else r
  }

  /** One step. A step that is not enabled changes nothing. */
  function Next<D>(h: History, decode: string -> Option<D>, s: State<D>, step: Step): State<D>
    requires WellFormed(h, s)
  {
    match step
    case Write(p) => if p in h && s.now[p] + 1 < |h[p]| then s.(now := s.now[p := s.now[p] + 1]) else s
    case Invalidate(p) => s.(entries := s.entries - {p})
    case _ =>
      if step.reader >= |s.readers| then s
      else
        var r := s.readers[step.reader];
        var t := s.(readers := s.readers[step.reader := Advance(h, decode, s, step, r)]);
        if step.Insert? && r.Checked? then t.(entries := t.entries[r.path := Entry(r.index, r.id)]) else t
  }

  lemma NextWellFormed<D>(h: History, decode: string -> Option<D>, s: State<D>, step: Step)
    requires WellFormed(h, s)
    ensures WellFormed(h, Next(h, decode, s, step))
  {
  }

  ghost function Run<D>(h: History, decode: string -> Option<D>, s: State<D>, steps: seq<Step>): (t: State<D>)
    requires WellFormed(h, s)
    ensures WellFormed(h, t)
    decreases |steps|
  {
    if steps == [] then s
    else
      NextWellFormed(h, decode, s, steps[0]);
      Run(h, decode, Next(h, decode, s, steps[0]), steps[1..])
  }

  // ----- what a reader may return --------------------------------------------------------------------

  ghost predicate SeenAt<D>(h: History, decode: string -> Option<D>, path: string, m: nat, result: Option<D>) {
    path in h && m < |h[path]| && Decoded(decode, h[path][m]) == result
  }

  /** The result is what some version current during the call decodes to. */
  ghost predicate Served<D(!new)>(h: History, decode: string -> Option<D>, r: Reader<D>) {
    r.Done? ==> exists m :: r.since <= m <= r.until && SeenAt(h, decode, r.path, m, r.result)
  }

  ghost predicate AllServed<D(!new)>(h: History, decode: string -> Option<D>, s: State<D>) {
    forall k :: 0 <= k < |s.readers| ==> Served(h, decode, s.readers[k])
  }

  /** A file that comes back to an identity it had before decodes as it and every version since then did. */
  ghost predicate NoReuse<D(!new)>(h: History, decode: string -> Option<D>) {
    forall p, i, m, k, d ::
      Bears(h, p, i, k) && i <= m <= k && SeenAt(h, decode, p, m, Some(d)) ==> SeenAt(h, decode, p, k, Some(d))
  }

  /** Versions i and k of a file have the same identity. */
  ghost predicate Bears(h: History, p: string, i: nat, k: nat) {
    && p in h && i <= k < |h[p]|
    && h[p][i].Present? && h[p][k].Present? && h[p][i].id == h[p][k].id
  }

  /** Every rewrite gives the file an identity it never had. */
  ghost predicate FreshIdentities(h: History) {
    forall p, i, k :: Bears(h, p, i, k) ==> i == k
  }

  lemma FreshMeansNoReuse<D(!new)>(h: History, decode: string -> Option<D>)
    requires FreshIdentities(h)
    ensures NoReuse(h, decode)
  {
  }

  // ----- the invariant -------------------------------------------------------------------------------

  ghost predicate Holds(h: History, p: string, i: nat, id: Ident) {
    p in h && i < |h[p]| && h[p][i].Present? && h[p][i].id == id
  }

  /** An entry was stated at version i, loaded at m and stated again at j. */
  ghost predicate Cached<D(!new)>(h: History, decode: string -> Option<D>, p: string, now: nat, e: Entry<D>) {
    exists i, m, j :: Witness(h, decode, p, now, e, i, m, j)
  }

  ghost predicate Witness<D(!new)>(h: History, decode: string -> Option<D>, p: string, now: nat, e: Entry<D>, i: nat, m: nat,
                                   j: nat)
  {
    i <= m <= j <= now && Holds(h, p, i, e.id) && SeenAt(h, decode, p, m, Some(e.index)) && Holds(h, p, j, e.id)
  }

  ghost predicate Sound<D(!new)>(h: History, decode: string -> Option<D>, now: map<string, nat>, r: Reader<D>) {
    match r
    case Idle => true
    case Unreadable(p, since) => p in now && since <= now[p]
    case Stated(p, since, id) => p in now && since <= now[p] && Holds(h, p, since, id)
    case Missed(p, since, id) => p in now && since <= now[p] && Holds(h, p, since, id)
    case Loaded(p, since, id, d) =>
      p in now && Holds(h, p, since, id) && exists m :: since <= m <= now[p] && SeenAt(h, decode, p, m, Some(d))
    case Checked(p, since, id, d) =>
      p in now && exists m, j :: since <= m <= j && Witness(h, decode, p, now[p], Entry(d, id), since, m, j)
    case Done(_, _, _, _) => true
  }

  /** Every entry, and everything a reader holds while it runs, is traced to versions of its file. */
  ghost predicate Inv<D(!new)>(h: History, decode: string -> Option<D>, s: State<D>) {
    && WellFormed(h, s)
    && (forall p :: p in s.entries ==> p in h && Cached(h, decode, p, s.now[p], s.entries[p]))
    && (forall k :: 0 <= k < |s.readers| ==> Sound(h, decode, s.now, s.readers[k]))
  }

  lemma LaterSound<D(!new)>(h: History, decode: string -> Option<D>, now: map<string, nat>, p: string, n: nat, r: Reader<D>)
    requires Sound(h, decode, now, r) && p in now && n >= now[p]
    ensures Sound(h, decode, now[p := n], r)
  {
    hide SeenAt, Holds;
    if r.Loaded? {
      var m: nat :| r.since <= m <= now[r.path] && SeenAt(h, decode, r.path, m, Some(r.index));
      assert m <= now[p := n][r.path];
    }
    if r.Checked? {
      var m: nat, j: nat :| r.since <= m <= j && Witness(h, decode, r.path, now[r.path], Entry(r.index, r.id), r.since, m, j);
      assert Witness(h, decode, r.path, now[p := n][r.path], Entry(r.index, r.id), r.since, m, j);
    }
  }

  lemma LaterCached<D(!new)>(h: History, decode: string -> Option<D>, p: string, now: nat, n: nat, e: Entry<D>)
    requires Cached(h, decode, p, now, e) && n >= now
    ensures Cached(h, decode, p, n, e)
  {
    hide SeenAt, Holds;
    var i: nat, m: nat, j: nat :| Witness(h, decode, p, now, e, i, m, j);
    assert Witness(h, decode, p, n, e, i, m, j);
  }

  /** A hit returns what a version current during the call decodes to. */
  lemma HitIsServed<D(!new)>(h: History, decode: string -> Option<D>, p: string, since: nat, now: nat, e: Entry<D>)
    requires NoReuse(h, decode) && Holds(h, p, since, e.id) && since <= now && Cached(h, decode, p, now, e)
    ensures exists m :: since <= m <= now && SeenAt(h, decode, p, m, Some(e.index))
  {
    var i: nat, m: nat, j: nat :| Witness(h, decode, p, now, e, i, m, j);
    if m < since {
      assert Bears(h, p, i, since);
      assert SeenAt(h, decode, p, since, Some(e.index));
    }
  }

  lemma AdvanceSound<D(!new)>(h: History, decode: string -> Option<D>, s: State<D>, step: Step, k: nat)
    requires Inv(h, decode, s) && k < |s.readers|
    ensures Sound(h, decode, s.now, Advance(h, decode, s, step, s.readers[k]))
  {
    hide Cached;
    var r := s.readers[k];
    assert Sound(h, decode, s.now, r);
    if r.Missed? && r.path in h {
      assert SeenAt(h, decode, r.path, s.now[r.path], Decoded(decode, h[r.path][s.now[r.path]]));
    }
    if r.Loaded? {
      RestatSound(h, decode, s, r);
    }
  }

  lemma RestatSound<D(!new)>(h: History, decode: string -> Option<D>, s: State<D>, r: Reader<D>)
    requires WellFormed(h, s) && r.Loaded? && Sound(h, decode, s.now, r)
    ensures r.path in h
    ensures Holds(h, r.path, s.now[r.path], r.id) ==> Sound(h, decode, s.now, Checked(r.path, r.since, r.id, r.index))
  {
    var now := s.now[r.path];
    var m: nat :| r.since <= m <= now && SeenAt(h, decode, r.path, m, Some(r.index));
    if Holds(h, r.path, now, r.id) {
      assert Witness(h, decode, r.path, now, Entry(r.index, r.id), r.since, m, now);
    }
  }

  /** A reader that returns was served a version current during its call, when no identity is reused. */
  lemma AdvanceServed<D(!new)>(h: History, decode: string -> Option<D>, s: State<D>, step: Step, k: nat)
    requires NoReuse(h, decode) && Inv(h, decode, s) && k < |s.readers| && Served(h, decode, s.readers[k])
    ensures Served(h, decode, Advance(h, decode, s, step, s.readers[k]))
  {
    hide NoReuse, Cached;
    var r := s.readers[k];
    assert Sound(h, decode, s.now, r);
    if r.Stated? && r.path in h && r.path in s.entries && s.entries[r.path].id == r.id {
      HitIsServed(h, decode, r.path, r.since, s.now[r.path], s.entries[r.path]);
    }
    if (r.Unreadable? || r.Missed?) && r.path in h {
      assert SeenAt(h, decode, r.path, s.now[r.path], Decoded(decode, h[r.path][s.now[r.path]]));
    }
    if r.Checked? {
      var m: nat, j: nat :| r.since <= m <= j && Witness(h, decode, r.path, s.now[r.path], Entry(r.index, r.id), r.since, m, j);
      assert SeenAt(h, decode, r.path, m, Some(r.index));
    }
  }

  lemma StartInv<D(!new)>(h: History, decode: string -> Option<D>, readers: nat)
    requires forall p :: p in h ==> |h[p]| > 0
    ensures Inv(h, decode, Start(h, readers)) && AllServed(h, decode, Start(h, readers))
  {
  }

  lemma NextInv<D(!new)>(h: History, decode: string -> Option<D>, s: State<D>, step: Step)
    requires Inv(h, decode, s)
    ensures Inv(h, decode, Next(h, decode, s, step))
  {
    hide Cached, Advance, Sound;
    var t := Next(h, decode, s, step);
    if step.Write? {
      if step.path in h && s.now[step.path] + 1 < |h[step.path]| {
        WriteInv(h, decode, s, step.path);
      }
    } else if !step.Invalidate? && step.reader < |s.readers| {
      AdvanceSound(h, decode, s, step, step.reader);
      if step.Insert? && s.readers[step.reader].Checked? {
        InsertInv(h, decode, s, s.readers[step.reader]);
      }
    }
  }

  lemma WriteInv<D(!new)>(h: History, decode: string -> Option<D>, s: State<D>, p: string)
    requires Inv(h, decode, s) && p in h && s.now[p] + 1 < |h[p]|
    ensures Inv(h, decode, s.(now := s.now[p := s.now[p] + 1]))
  {
    hide Cached, Sound;
    var now := s.now[p := s.now[p] + 1];
    forall q | q in s.entries ensures Cached(h, decode, q, now[q], s.entries[q]) {
      LaterCached(h, decode, q, s.now[q], now[q], s.entries[q]);
    }
    forall k | 0 <= k < |s.readers| ensures Sound(h, decode, now, s.readers[k]) {
      LaterSound(h, decode, s.now, p, now[p], s.readers[k]);
    }
  }

  lemma InsertInv<D(!new)>(h: History, decode: string -> Option<D>, s: State<D>, r: Reader<D>)
    requires WellFormed(h, s) && r.Checked? && Sound(h, decode, s.now, r)
    ensures r.path in h && Cached(h, decode, r.path, s.now[r.path], Entry(r.index, r.id))
  {
    var m: nat, j: nat :| r.since <= m <= j && Witness(h, decode, r.path, s.now[r.path], Entry(r.index, r.id), r.since, m, j);
  }

  lemma InvWellFormed<D(!new)>(h: History, decode: string -> Option<D>, s: State<D>)
    requires Inv(h, decode, s)
    ensures WellFormed(h, s)
  {
  }

  /** Every interleaving keeps every entry traced to a load between two stats of the identity it is held under. */
  lemma {:induction false} RunInv<D(!new)>(h: History, decode: string -> Option<D>, s: State<D>, steps: seq<Step>)
    requires Inv(h, decode, s)
    ensures WellFormed(h, s) && Inv(h, decode, Run(h, decode, s, steps))
    decreases |steps|
  {
    hide Inv;
    InvWellFormed(h, decode, s);
    if steps != [] {
      NextInv(h, decode, s, steps[0]);
      InvWellFormed(h, decode, Next(h, decode, s, steps[0]));
      RunInv(h, decode, Next(h, decode, s, steps[0]), steps[1..]);
    }
  }

  lemma NextServed<D(!new)>(h: History, decode: string -> Option<D>, s: State<D>, step: Step)
    requires NoReuse(h, decode) && Inv(h, decode, s) && AllServed(h, decode, s)
    ensures WellFormed(h, s) && AllServed(h, decode, Next(h, decode, s, step))
  {
    hide NoReuse, Inv, Advance, Served;
    InvWellFormed(h, decode, s);
    if !step.Write? && !step.Invalidate? && step.reader < |s.readers| {
      AdvanceServed(h, decode, s, step, step.reader);
    }
  }

  /** Without reuse of identities, every interleaving serves every call a version current during the call. */
  lemma {:induction false} RunServed<D(!new)>(h: History, decode: string -> Option<D>, s: State<D>, steps: seq<Step>)
    requires NoReuse(h, decode) && Inv(h, decode, s) && AllServed(h, decode, s)
    ensures WellFormed(h, s) && AllServed(h, decode, Run(h, decode, s, steps))
    decreases |steps|
  {
    hide NoReuse, Inv, AllServed;
    InvWellFormed(h, decode, s);
    if steps != [] {
      NextInv(h, decode, s, steps[0]);
      NextServed(h, decode, s, steps[0]);
      InvWellFormed(h, decode, Next(h, decode, s, steps[0]));
      RunServed(h, decode, Next(h, decode, s, steps[0]), steps[1..]);
    }
  }

  // ----- when identities come back -------------------------------------------------------------------

  ghost predicate Reaches<D(!new)>(h: History, decode: string -> Option<D>, s: State<D>, t: State<D>) {
    WellFormed(h, s) && exists steps :: Run(h, decode, s, steps) == t
  }

  lemma Steps<D(!new)>(h: History, decode: string -> Option<D>, s: State<D>, t: State<D>, step: Step)
    requires Reaches(h, decode, s, t)
    ensures WellFormed(h, t) && Reaches(h, decode, s, Next(h, decode, t, step))
  {
    hide Next;
    var steps :| Run(h, decode, s, steps) == t;
    RunOneMore(h, decode, s, steps, step);
  }

  lemma {:induction false} RunOneMore<D>(h: History, decode: string -> Option<D>, s: State<D>, steps: seq<Step>, step: Step)
    requires WellFormed(h, s)
    ensures Run(h, decode, s, steps + [step]) == Next(h, decode, Run(h, decode, s, steps), step)
    decreases |steps|
  {
    hide Next, WellFormed;
    if steps == [] {
      NextWellFormed(h, decode, s, step);
      assert (steps + [step])[1..] == [];
    } else {
      NextWellFormed(h, decode, s, steps[0]);
      RunOneMore(h, decode, Next(h, decode, s, steps[0]), steps[1..], step);
      assert (steps + [step])[1..] == steps[1..] + [step];
    }
  }

  lemma {:induction false} Writes<D(!new)>(h: History, decode: string -> Option<D>, s: State<D>, t: State<D>, p: string, n: nat)
    requires Reaches(h, decode, s, t) && p in h && p in t.now && t.now[p] <= n < |h[p]|
    ensures Reaches(h, decode, s, t.(now := t.now[p := n]))
    decreases n - t.now[p]
  {
    hide Run;
    if t.now[p] == n {
      assert t.now[p := n] == t.now;
    } else {
      Steps(h, decode, s, t, Write(p));
      var u := t.(now := t.now[p := t.now[p] + 1]);
      Writes(h, decode, s, u, p, n);
      assert u.now[p := n] == t.now[p := n];
    }
  }

  /** A reader loads version m between two stats that see the same identity, and caches it. */
  lemma StaleInsert<D(!new)>(h: History, decode: string -> Option<D>, p: string, i: nat, m: nat, k: nat, d: D) returns (t: State<D>)
    requires (forall q :: q in h ==> |h[q]| > 0) && Bears(h, p, i, k) && i <= m <= k && SeenAt(h, decode, p, m, Some(d))
    ensures Reaches(h, decode, Start(h, 2), t) && WellFormed(h, t) && t.now[p] == k && |t.readers| == 2 && t.readers[1].Idle?
    ensures p in t.entries && t.entries[p] == Entry(d, h[p][k].id)
  {
    hide Run, SeenAt, Reaches, Start;
    var s := Start(h, 2);
    t := Stale0(h, decode, p, i);
    Writes(h, decode, s, t, p, m);
    t := t.(now := t.now[p := m]);
    t := Stale1(h, decode, t, p, i, m, d);
    Writes(h, decode, s, t, p, k);
    t := t.(now := t.now[p := k]);
    Steps(h, decode, s, t, Restat(0));
    t := Next(h, decode, t, Restat(0));
    Steps(h, decode, s, t, Insert(0));
    t := Next(h, decode, t, Insert(0));
  }

  lemma Stale0<D(!new)>(h: History, decode: string -> Option<D>, p: string, i: nat) returns (t: State<D>)
    requires (forall q :: q in h ==> |h[q]| > 0) && p in h && i < |h[p]| && h[p][i].Present?
    ensures Reaches(h, decode, Start(h, 2), t) && WellFormed(h, t) && t.now[p] == i
    ensures |t.readers| == 2 && t.readers[0] == Missed(p, i, h[p][i].id) && t.readers[1].Idle?
  {
    hide Reaches;
    var s := Start(h, 2);
    assert Reaches(h, decode, s, s) by { Unmoved(h, decode, s); }
    Writes(h, decode, s, s, p, i);
    t := s.(now := s.now[p := i]);
    Steps(h, decode, s, t, Call(0, p));
    t := Next(h, decode, t, Call(0, p));
    Steps(h, decode, s, t, Lookup(0));
    t := Next(h, decode, t, Lookup(0));
  }

  lemma Unmoved<D(!new)>(h: History, decode: string -> Option<D>, s: State<D>)
    requires WellFormed(h, s)
    ensures Reaches(h, decode, s, s)
  {
    assert Run(h, decode, s, []) == s;
  }

  lemma Stale1<D(!new)>(h: History, decode: string -> Option<D>, t: State<D>, p: string, i: nat, m: nat, d: D) returns (u: State<D>)
    requires Reaches(h, decode, Start(h, 2), t) && WellFormed(h, t) && p in h && t.now[p] == m && SeenAt(h, decode, p, m, Some(d))
    requires i < |h[p]| && h[p][i].Present?
    requires |t.readers| == 2 && t.readers[0] == Missed(p, i, h[p][i].id) && t.readers[1].Idle?
    ensures Reaches(h, decode, Start(h, 2), u) && WellFormed(h, u) && u.now == t.now
    ensures |u.readers| == 2 && u.readers[0] == Loaded(p, i, h[p][i].id, d) && u.readers[1].Idle?
  {
    hide Reaches, Start;
    Steps(h, decode, Start(h, 2), t, Load(0));
    u := Next(h, decode, t, Load(0));
  }

  /** Then the next reader is served a version that was not current at any moment of its call. */
  lemma StaleHit<D(!new)>(h: History, decode: string -> Option<D>, p: string, i: nat, m: nat, k: nat, d: D) returns (t: State<D>)
    requires (forall q :: q in h ==> |h[q]| > 0) && Bears(h, p, i, k) && i <= m <= k && SeenAt(h, decode, p, m, Some(d))
    requires !SeenAt(h, decode, p, k, Some(d))
    ensures Reaches(h, decode, Start(h, 2), t) && !AllServed(h, decode, t)
  {
    hide Reaches, Start, SeenAt;
    t := StaleInsert(h, decode, p, i, m, k, d);
    Steps(h, decode, Start(h, 2), t, Call(1, p));
    t := Next(h, decode, t, Call(1, p));
    Steps(h, decode, Start(h, 2), t, Lookup(1));
    t := Next(h, decode, t, Lookup(1));
    assert t.readers[1] == Done(p, k, k, Some(d));
    assert !Served(h, decode, t.readers[1]);
  }

  /** Every call of every interleaving is served a version current during the call, exactly when no file comes
      back to an old identity with different contents in between. */
  lemma ServedIffNoReuse<D(!new)>(h: History, decode: string -> Option<D>)
    requires forall q :: q in h ==> |h[q]| > 0
    ensures NoReuse(h, decode) <==> forall t: State<D> :: Reaches(h, decode, Start(h, 2), t) ==> AllServed(h, decode, t)
    ensures NoReuse(h, decode) ==>
              forall n: nat, t: State<D> :: Reaches(h, decode, Start(h, n), t) ==> AllServed(h, decode, t)
  {
    hide Start, Run, SeenAt, Bears;
    if NoReuse(h, decode) {
      forall n: nat, t: State<D> | Reaches(h, decode, Start(h, n), t) ensures AllServed(h, decode, t) {
        var steps :| Run(h, decode, Start(h, n), steps) == t;
        StartInv(h, decode, n);
        RunServed(h, decode, Start(h, n), steps);
      }
    } else {
      var p, i, m, k, d :| Bears(h, p, i, k) && i <= m <= k && SeenAt(h, decode, p, m, Some(d)) && !SeenAt(h, decode, p, k, Some(d));
      var t := StaleHit(h, decode, p, i, m, k, d);
    }
  }

  /** When every rewrite gives the file an identity it never had, every call is served a current version. */
  lemma FreshIdentitiesServe<D(!new)>(h: History, decode: string -> Option<D>, n: nat, steps: seq<Step>)
    requires (forall q :: q in h ==> |h[q]| > 0) && FreshIdentities(h)
    ensures WellFormed(h, Start<D>(h, n)) && AllServed(h, decode, Run(h, decode, Start(h, n), steps))
  {
    hide Run, Start, NoReuse, AllServed, FreshIdentities;
    FreshMeansNoReuse(h, decode);
    StartInv(h, decode, n);
    RunServed(h, decode, Start(h, n), steps);
  }

  /** With fresh identities, whatever the interleaving, a cache entry is the decoding of the one version that
      bears its identity. */
  lemma EntriesMatchIdentity<D(!new)>(h: History, decode: string -> Option<D>, n: nat, steps: seq<Step>, p: string, k: nat)
    requires (forall q :: q in h ==> |h[q]| > 0) && FreshIdentities(h)
    requires WellFormed(h, Start<D>(h, n))
    requires var s := Run(h, decode, Start(h, n), steps); p in s.entries && Holds(h, p, k, s.entries[p].id)
    ensures SeenAt(h, decode, p, k, Some(Run(h, decode, Start(h, n), steps).entries[p].index))
  {
    hide Run, Start, SeenAt;
    var s := Run(h, decode, Start(h, n), steps);
    StartInv(h, decode, n);
    RunInv(h, decode, Start(h, n), steps);
    var e := s.entries[p];
    var i: nat, m: nat, j: nat :| Witness(h, decode, p, s.now[p], e, i, m, j);
    assert Bears(h, p, i, j);
    assert if i <= k then Bears(h, p, i, k) else Bears(h, p, k, i);
  }

  // ----- invalidation --------------------------------------------------------------------------------

  /** Invalidating a path drops its entry and nothing else. */
  lemma InvalidateDrops<D(!new)>(h: History, decode: string -> Option<D>, s: State<D>, p: string)
    requires WellFormed(h, s)
    ensures var t := Next(h, decode, s, Invalidate(p));
            && p !in t.entries && t.now == s.now && t.readers == s.readers
            && forall q :: q != p ==> (q in t.entries <==> q in s.entries) && (q in s.entries ==> t.entries[q] == s.entries[q])
  {
  }

  /** From an invalidation until the next insertion, whatever else happens, no call is answered from the cache: every
      lookup of the path goes on to load the file. */
  lemma {:induction false} InvalidatedIsLoaded<D(!new)>(h: History, decode: string -> Option<D>, s: State<D>, p: string,
                                                        steps: seq<Step>, k: nat)
    requires WellFormed(h, s) && p !in s.entries && forall i :: 0 <= i < |steps| ==> !steps[i].Insert?
    ensures var t := Run(h, decode, s, steps);
            && p !in t.entries
            && (k < |t.readers| && t.readers[k].Stated? && t.readers[k].path == p && p in h ==>
                  Next(h, decode, t, Lookup(k)).readers[k] == Missed(p, t.readers[k].since, t.readers[k].id))
    decreases |steps|
  {
    if steps != [] {
      NextWellFormed(h, decode, s, steps[0]);
      InvalidatedIsLoaded(h, decode, Next(h, decode, s, steps[0]), p, steps[1..], k);
    }
  }
}
