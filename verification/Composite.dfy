/** Length-prefixed composite strings: the vault's map keys, object-key preimages,
    additional authenticated data and operation identifiers are all built from them. */
module Composite {
  import opened Wrappers
  import opened Decimal

  function EncodePart(part: string): string {
    Format(|part|) + ":" + part
  }

  function Encode(parts: seq<string>): string {
    if parts == [] then "" else EncodePart(parts[0]) + Encode(parts[1..])
  }

  lemma Assoc(a: string, b: string, c: string)
    ensures a + (b + c) == (a + b) + c
  {
  }

  lemma {:induction false} EncodeConcat(left: seq<string>, right: seq<string>)
    ensures Encode(left + right) == Encode(left) + Encode(right)
  {
    if left == [] {
      assert left + right == right;
    } else {
      calc {
        Encode(left + right);
        { assert (left + right)[1..] == left[1..] + right; }
        EncodePart(left[0]) + Encode(left[1..] + right);
        { EncodeConcat(left[1..], right); }
        EncodePart(left[0]) + (Encode(left[1..]) + Encode(right));
        { Assoc(EncodePart(left[0]), Encode(left[1..]), Encode(right)); }
        Encode(left) + Encode(right);
      }
    }
  }

  method EncodeComposite(parts: seq<string>) returns (encoded: string)
    ensures encoded == Encode(parts)
  {
    encoded := "";
    for i := 0 to |parts|
      invariant encoded == Encode(parts[..i])
    {
      EncodeConcat(parts[..i], [parts[i]]);
      assert parts[..i] + [parts[i]] == parts[..i + 1];
      encoded := encoded + Format(|parts[i]|);
      encoded := encoded + ":";
      encoded := encoded + parts[i];
    }
    assert parts[..|parts|] == parts;
  }

  /** strings.IndexByte. */
  function IndexOf(s: string, c: char): (i: int)
    ensures i == -1 ==> c !in s
    ensures i != -1 ==> 0 <= i < |s| && s[i] == c && c !in s[..i]
  {
    if s == [] then -1
    else if s[0] == c then 0
    else
      var rest := IndexOf(s[1..], c);
      if rest == -1 then -1
      else
        assert s[..rest + 1] == [s[0]] + s[1..][..rest];
        rest + 1
  }

  /** Digits before a colon can be read off in one way only. */
  lemma SplitAtColon(d: string, x: string, e: string, y: string)
    requires AllDigits(d) && AllDigits(e)
    requires d + ":" + x == e + ":" + y
    ensures d == e && x == y
  {
    var s := d + ":" + x;
    assert s[|d|] == ':' && s[|e|] == ':';
    assert forall i | 0 <= i < |d| :: s[i] == d[i];
    assert forall i | 0 <= i < |e| :: s[i] == e[i];
    assert d == s[..|d|] && e == s[..|e|];
    assert x == s[|d| + 1..] && y == s[|e| + 1..];
  }

  lemma SplitConcat(a: string, x: string, b: string, y: string)
    requires a + x == b + y && |a| == |b|
    ensures a == b && x == y
  {
    assert a == (a + x)[..|a|] && b == (b + y)[..|b|];
    assert x == (a + x)[|a|..] && y == (b + y)[|b|..];
  }

  lemma EncodeHead(parts: seq<string>)
    requires parts != []
    ensures Encode(parts) == Format(|parts[0]|) + ":" + (parts[0] + Encode(parts[1..]))
  {
    Assoc(Format(|parts[0]|) + ":", parts[0], Encode(parts[1..]));
  }

  datatype DecodeError = Invalid

  datatype Front = Front(part: string, rest: string)

  /** One step of the decoder: the first part and what follows it. */
  function ReadFront(encoded: string): (r: Result<Front, DecodeError>)
    ensures r.Ok? ==> |r.value.rest| < |encoded|
  {
    var separator := IndexOf(encoded, ':');
    if separator <= 0 then Err(Invalid)
    else
      var length := Atoi(encoded[..separator]);
      if length.None? || length.value < 0 || length.value > |encoded| - separator - 1 then Err(Invalid)
      else
        var start := separator + 1;
        Ok(Front(encoded[start..start + length.value], encoded[start + length.value..]))
  }

  /** What that step reads at the front of a canonical encoding. */
  lemma ReadFrontOfEncode(parts: seq<string>)
    requires parts != [] && |Encode(parts)| <= MAX_INT
    ensures ReadFront(Encode(parts)) == Ok(Front(parts[0], Encode(parts[1..])))
  {
    var encoded := Encode(parts);
    var digits, rest := Format(|parts[0]|), parts[0] + Encode(parts[1..]);
    EncodeHead(parts);
    ColonAfterDigits(digits, rest);
    AtoiOfFormat(|parts[0]|);
    assert encoded[..|digits|] == digits;
    var start := |digits| + 1;
    assert encoded[start..] == rest;
    assert encoded[start..start + |parts[0]|] == rest[..|parts[0]|] == parts[0];
    assert encoded[start + |parts[0]|..] == rest[|parts[0]|..] == Encode(parts[1..]);
  }

  lemma ColonAfterDigits(digits: string, rest: string)
    requires AllDigits(digits)
    ensures IndexOf(digits + ":" + rest, ':') == |digits|
  {
    var s := digits + ":" + rest;
    var i := IndexOf(s, ':');
    assert s[|digits|] == ':';
    assert forall k | 0 <= k < |digits| :: s[k] == digits[k];
    assert forall k | 0 <= k < i :: s[..i][k] == s[k];
  }

  /** Two encodings agree only when the part lists agree, whatever their counts. */
  lemma {:induction false} UniqueDecoding(p: seq<string>, q: seq<string>)
    requires Encode(p) == Encode(q)
    ensures p == q
  {
    if p == [] || q == [] {
      assert |Encode(p)| == 0;
    } else {
      EncodeHead(p);
      EncodeHead(q);
      SplitAtColon(Format(|p[0]|), p[0] + Encode(p[1..]), Format(|q[0]|), q[0] + Encode(q[1..]));
      FormatInjective(|p[0]|, |q[0]|);
      SplitConcat(p[0], Encode(p[1..]), q[0], Encode(q[1..]));
      UniqueDecoding(p[1..], q[1..]);
      assert p == [p[0]] + p[1..] && q == [q[0]] + q[1..];
    }
  }

  /** How far the decoder has come through the encoding of `parts`. */
  ghost predicate Consumed(all: seq<string>, parts: seq<string>, encoded: string) {
    |parts| <= |all| && parts == all[..|parts|] && encoded == Encode(all[|parts|..])
  }

  lemma ConsumeOne(all: seq<string>, parts: seq<string>, encoded: string)
    requires Consumed(all, parts, encoded) && |encoded| <= MAX_INT && |parts| < |all|
    ensures var front := ReadFront(encoded);
            front.Ok? && Consumed(all, parts + [front.value.part], front.value.rest)
  {
    ReadFrontOfEncode(all[|parts|..]);
    assert all[|parts|..][1..] == all[|parts| + 1..];
    assert all[..|parts|] + [all[|parts|]] == all[..|parts| + 1];
  }

  lemma ConsumedAll(all: seq<string>, parts: seq<string>, encoded: string)
    requires Consumed(all, parts, encoded)
    requires encoded == "" || |parts| == |all|
    ensures parts == all && encoded == ""
  {
  }

  /** Decoding accepts exactly the canonical encodings of `count` parts. */
  method DecodeComposite(original: GoString, count: nat) returns (r: Result<seq<string>, DecodeError>)
    ensures r.Ok? ==> |r.value| == count && Encode(r.value) == original
    ensures r.Err? ==> forall p: seq<string> :: |p| == count ==> Encode(p) != original
  {
    ghost var canonical := exists p: seq<string> :: |p| == count && Encode(p) == original;
    ghost var all: seq<string> := [];
    if canonical {
      all :| |all| == count && Encode(all) == original;
      assert all[0..] == all;
    }
    var encoded := original;
    var parts: seq<string> := [];
    while |encoded| > 0 && |parts| < count
      invariant |parts| <= count && |encoded| <= |original|
      invariant canonical ==> Consumed(all, parts, encoded)
      decreases |encoded|
    {
      if canonical {
        ConsumeOne(all, parts, encoded);
      }
      var front := ReadFront(encoded);
      if front.Err? {
        return Err(Invalid);
      }
      parts := parts + [front.value.part];
      encoded := front.value.rest;
    }
    if canonical {
      ConsumedAll(all, parts, encoded);
    }
    var recoded := EncodeComposite(parts);
    if |parts| != count || encoded != "" || recoded != original {
      return Err(Invalid);
    }
    return Ok(parts);
  }
}
