/** The hash-linked audit chain. */
module AuditChain {
  import opened Wrappers
  import opened Decimal
  import opened Fields

  datatype Metadata = Metadata(sequence: nat, eventId: string, tenant: string, aggregateType: string, aggregateId: string,
                               aggregateVersion: nat, commandId: string, payloadDigest: string, occurredAt: int)

  datatype Entry = Entry(metadata: Metadata, previous: string, digest: string)

  datatype Error = Corrupt

  /** SHA-256 in hexadecimal, as a function. */
  type Hash = string -> string

  predicate ValidMetadata(m: Metadata) {
    && m.sequence > 0 && m.eventId != "" && m.tenant != "" && m.aggregateType != "" && m.aggregateId != ""
    && m.aggregateVersion > 0 && m.commandId != "" && m.payloadDigest != "" && m.occurredAt > 0
  }

  function Parts(m: Metadata, previous: string): seq<string>
    requires m.occurredAt >= 0
  {
    ["v1", Format(m.sequence), m.eventId, m.tenant, m.aggregateType, m.aggregateId, Format(m.aggregateVersion), m.commandId,
     m.payloadDigest, Format(m.occurredAt), previous]
  }

  /** The digest of one link. */
  function Next(hash: Hash, m: Metadata, previous: string): Result<string, Error> {
    if !ValidMetadata(m) then Err(Corrupt) else Ok(hash(Join(Parts(m, previous))))
  }

  // ----- verification --------------------------------------------------------------------------------

  function PreviousOf(entries: seq<Entry>, i: nat): string
    requires i <= |entries|
  {
    if i == 0 then "" else entries[i - 1].digest
  }

  ghost predicate LinkHolds(hash: Hash, entries: seq<Entry>, i: nat)
    requires i < |entries|
  {
    var e := entries[i];
    && (i > 0 ==> entries[i - 1].metadata.sequence < e.metadata.sequence)
    && e.previous == PreviousOf(entries, i)
    && ValidMetadata(e.metadata)
    && e.digest == hash(Join(Parts(e.metadata, e.previous)))
  }

  /** Sequences increase, every link names its predecessor's digest, and every digest is that of its link. */
  ghost predicate Accepted(hash: Hash, entries: seq<Entry>) {
    forall i :: 0 <= i < |entries| ==> LinkHolds(hash, entries, i)
  }

  /** What a link must be, field by field: a later sequence, the digest of the link before it or nothing for the first,
      positive numbers, no empty text, and the digest of its eleven fields in order. */
  lemma LinkExactly(hash: Hash, entries: seq<Entry>, i: nat)
    requires i < |entries|
    ensures var e, m := entries[i], entries[i].metadata;
            LinkHolds(hash, entries, i) <==>
            && (i > 0 ==> entries[i - 1].metadata.sequence < m.sequence)
            && e.previous == (if i == 0 then "" else entries[i - 1].digest)
            && m.sequence >= 1 && m.aggregateVersion >= 1 && m.occurredAt >= 1
            && |m.eventId| >= 1 && |m.tenant| >= 1 && |m.aggregateType| >= 1 && |m.aggregateId| >= 1
            && |m.commandId| >= 1 && |m.payloadDigest| >= 1
            && e.digest == hash(Join(["v1", Format(m.sequence), m.eventId, m.tenant, m.aggregateType, m.aggregateId,
                                      Format(m.aggregateVersion), m.commandId, m.payloadDigest, Format(m.occurredAt), e.previous]))
  {
    hide Join, Format;
  }

  /** Accepts exactly the well-linked chains. */
  method Verify(hash: Hash, entries: seq<Entry>) returns (r: Option<Error>)
    ensures r.None? <==> Accepted(hash, entries)
  {
    var previous := "";
    for i := 0 to |entries|
      invariant previous == PreviousOf(entries, i)
      invariant forall j :: 0 <= j < i ==> LinkHolds(hash, entries, j)
    {
      var entry := entries[i];
      if i > 0 && entry.metadata.sequence <= entries[i - 1].metadata.sequence {
        assert !LinkHolds(hash, entries, i);
        return Some(Corrupt);
      }
      if entry.previous != previous {
        assert !LinkHolds(hash, entries, i);
        return Some(Corrupt);
      }
      var digest := Next(hash, entry.metadata, previous);
      if digest.Err? || entry.digest != digest.value {
        assert !LinkHolds(hash, entries, i);
        return Some(Corrupt);
      }
      previous := entry.digest;
    }
    return None;
  }

  // ----- tamper evidence -----------------------------------------------------------------------------

  ghost function Material(e: Entry): string
    requires ValidMetadata(e.metadata)
  {
    Join(Parts(e.metadata, e.previous))
  }

  ghost predicate LinksApart(hash: Hash, e: Entry, f: Entry) {
    ValidMetadata(e.metadata) && ValidMetadata(f.metadata) && hash(Material(e)) == hash(Material(f)) ==>
      Material(e) == Material(f)
  }

  /** No link of one chain collides with a different link of the other. */
  ghost predicate NoCollision(hash: Hash, a: seq<Entry>, b: seq<Entry>) {
    forall i, j :: 0 <= i < |a| && 0 <= j < |b| ==> LinksApart(hash, a[i], b[j])
  }

  ghost predicate NulFreeMetadata(m: Metadata) {
    Plain([m.eventId, m.tenant, m.aggregateType, m.aggregateId, m.commandId, m.payloadDigest])
  }

  /** Every text of the chain, its digests included, is free of NULs. */
  ghost predicate NulFreeChain(a: seq<Entry>) {
    forall i :: 0 <= i < |a| ==> NulFreeMetadata(a[i].metadata) && NUL !in a[i].digest
  }

  lemma PlainParts(m: Metadata, previous: string)
    requires m.occurredAt >= 0 && NulFreeMetadata(m) && NUL !in previous
    ensures Plain(Parts(m, previous))
  {
    var texts := [m.eventId, m.tenant, m.aggregateType, m.aggregateId, m.commandId, m.payloadDigest];
    assert NUL !in texts[0] && NUL !in texts[1] && NUL !in texts[2] && NUL !in texts[3] && NUL !in texts[4] && NUL !in texts[5];
    DigitsArePlain(m.sequence);
    DigitsArePlain(m.aggregateVersion);
    DigitsArePlain(m.occurredAt);
  }

  lemma DigitsArePlain(n: nat)
    ensures NUL !in Format(n)
  {
    assert AllDigits(Format(n));
  }

  /** The material of a link determines the link. */
  lemma PartsInjective(m: Metadata, p: string, n: Metadata, q: string)
    requires m.occurredAt >= 0 && n.occurredAt >= 0 && NulFreeMetadata(m) && NUL !in p
    requires Join(Parts(m, p)) == Join(Parts(n, q))
    ensures m == n && p == q
  {
    hide Join, Plain, NulFreeMetadata, Format;
    PlainParts(m, p);
    JoinInjective(Parts(m, p), Parts(n, q));
    var a, b := Parts(m, p), Parts(n, q);
    assert a[1] == b[1] && a[2] == b[2] && a[3] == b[3] && a[4] == b[4] && a[5] == b[5];
    assert a[6] == b[6] && a[7] == b[7] && a[8] == b[8] && a[9] == b[9] && a[10] == b[10];
    FormatInjective(m.sequence, n.sequence);
    FormatInjective(m.aggregateVersion, n.aggregateVersion);
    FormatInjective(m.occurredAt, n.occurredAt);
  }

  /** Two accepted chains that end in the same digest are the same, entry for entry, if one of them is free of
      NULs and the digests do not collide. */
  lemma {:induction false} TamperEvident(hash: Hash, a: seq<Entry>, b: seq<Entry>)
    requires Accepted(hash, a) && Accepted(hash, b) && a != [] && b != []
    requires a[|a| - 1].digest == b[|b| - 1].digest
    requires NulFreeChain(a) && NoCollision(hash, a, b) && forall s :: hash(s) != ""
    ensures a == b
    decreases |a|
  {
    hide Join, NulFreeMetadata, Parts;
    var i, j := |a| - 1, |b| - 1;
    assert LinkHolds(hash, a, i) && LinkHolds(hash, b, j);
    assert LinksApart(hash, a[i], b[j]);
    assert NUL !in a[i].previous;
    PartsInjective(a[i].metadata, a[i].previous, b[j].metadata, b[j].previous);
    if i > 0 {
      assert LinkHolds(hash, a, i - 1);
    }
    if j > 0 {
      assert LinkHolds(hash, b, j - 1);
    }
    if i > 0 && j > 0 {
      PrefixAccepted(hash, a, i);
      PrefixAccepted(hash, b, j);
      TamperEvident(hash, a[..i], b[..j]);
    }
    assert a == a[..i] + [a[i]] && b == b[..j] + [b[j]];
  }

  lemma PrefixAccepted(hash: Hash, a: seq<Entry>, n: nat)
    requires Accepted(hash, a) && n <= |a|
    ensures Accepted(hash, a[..n])
  {
    forall i | 0 <= i < n ensures LinkHolds(hash, a[..n], i) {
      assert LinkHolds(hash, a, i);
    }
  }

  /** The metadata with the rest of its event identifier moved into the tenant. */
  function TwinOf(m: Metadata, x: string, y: string): Metadata {
    m.(eventId := x, tenant := y + [NUL] + m.tenant)
  }

  lemma TwinMaterial(m: Metadata, previous: string, x: string, y: string)
    requires ValidMetadata(m) && m.eventId == x + [NUL] + y && x != ""
    ensures var twin := TwinOf(m, x, y);
            ValidMetadata(twin) && twin != m && Join(Parts(twin, previous)) == Join(Parts(m, previous))
  {
    hide Join, Format;
    var twin := TwinOf(m, x, y);
    Shifted(Parts(m, previous), Parts(twin, previous), x, y, m.tenant, 2);
    assert |twin.eventId| < |m.eventId|;
  }

  /** A link may be exchanged for another with the same sequence and material: the chain is still accepted. */
  lemma ExchangedLink(hash: Hash, a: seq<Entry>, i: nat, m: Metadata)
    requires Accepted(hash, a) && i < |a| && ValidMetadata(m) && m.sequence == a[i].metadata.sequence
    requires ValidMetadata(a[i].metadata)
    requires Join(Parts(m, a[i].previous)) == Join(Parts(a[i].metadata, a[i].previous))
    ensures Accepted(hash, a[i := a[i].(metadata := m)])
  {
    hide Join, Parts;
    var b := a[i := a[i].(metadata := m)];
    forall j | 0 <= j < |b| ensures LinkHolds(hash, b, j) {
      assert LinkHolds(hash, a, j);
      if j > 0 {
        assert b[j - 1].digest == a[j - 1].digest && b[j - 1].metadata.sequence == a[j - 1].metadata.sequence;
      }
    }
  }

  /** Every accepted chain with such an event identifier anywhere in it has a different accepted chain with the
      same digests throughout, whatever the hash. */
  lemma NulHidesTampering(hash: Hash, a: seq<Entry>, i: nat, x: string, y: string)
    requires Accepted(hash, a) && i < |a| && a[i].metadata.eventId == x + [NUL] + y && x != ""
    ensures var b := a[i := a[i].(metadata := TwinOf(a[i].metadata, x, y))];
            && b != a && Accepted(hash, b) && (forall j :: 0 <= j < |a| ==> b[j].digest == a[j].digest)
            && b[|a| - 1].digest == a[|a| - 1].digest
  {
    hide Join, Parts;
    assert LinkHolds(hash, a, i);
    TwinMaterial(a[i].metadata, a[i].previous, x, y);
    ExchangedLink(hash, a, i, TwinOf(a[i].metadata, x, y));
    var b := a[i := a[i].(metadata := TwinOf(a[i].metadata, x, y))];
    assert b[i] != a[i];
  }
}
