/** Truncating text without splitting a character. Text is a sequence of bytes; well-formed UTF-8 is that of the
    grammar in section 4 of RFC 3629. */
module TextBound {
  import opened Contracts

  type Text = Bytes

  const UTF_MAX := 4

  // ----- UTF-8 ---------------------------------------------------------------------------------------

  predicate Tail(b: byte) {
    0x80 <= b <= 0xBF
  }

  /** The first byte of a character, or an ASCII byte: anything but a continuation byte. */
  predicate RuneStart(b: byte) {
    !Tail(b)
  }

  /** The length of a character that starts with this byte, or 0 if none does. */
  function Width(b: byte): nat {
    if b <= 0x7F then 1
    else if 0xC2 <= b <= 0xDF then 2
    else if 0xE0 <= b <= 0xEF then 3
    else if 0xF0 <= b <= 0xF4 then 4
    else 0
  }

  /** The second byte is restricted after some first bytes. */
  predicate Second(first: byte, b: byte) {
    if first == 0xE0 then 0xA0 <= b <= 0xBF
    else if first == 0xED then 0x80 <= b <= 0x9F
    else if first == 0xF0 then 0x90 <= b <= 0xBF
    else if first == 0xF4 then 0x80 <= b <= 0x8F
    else Tail(b)
  }

  /** s begins with a well-formed character. */
  predicate StartsWell(s: Text) {
    s != [] &&
    var n := Width(s[0]);
    && 0 < n <= |s|
    && (n >= 2 ==> Second(s[0], s[1]))
    && (n >= 3 ==> Tail(s[2]))
    && (n >= 4 ==> Tail(s[3]))
  }

  ghost predicate Valid(s: Text) {
    s == [] || (StartsWell(s) && Valid(s[Width(s[0])..]))
  }

  lemma TailsInside(s: Text, k: nat)
    requires StartsWell(s) && 0 < k < Width(s[0])
    ensures Tail(s[k])
  {
  }

  lemma WidthIsSmall(b: byte)
    ensures Width(b) <= 4 && (Width(b) > 0 ==> RuneStart(b))
  {
  }

  /** Whether text begins with a well-formed character depends only on that character. */
  lemma StartsWellLocal(s: Text, k: nat)
    requires s != [] && Width(s[0]) <= k <= |s| && k > 0
    ensures StartsWell(s[..k]) <==> StartsWell(s)
  {
  }

  /** In well-formed text a prefix is well-formed exactly when it stops before a character start. */
  lemma {:induction false} PrefixIsValid(s: Text, k: nat)
    requires Valid(s) && k < |s|
    ensures Valid(s[..k]) <==> RuneStart(s[k])
  {
    hide StartsWell, Second;
    var n := Width(s[0]);
    WidthIsSmall(s[0]);
    Starts(s);
    if 0 < k < n {
      TailsInside(s, k);
      TooShort(s, k);
    } else if k >= n {
      StartsWellLocal(s, k);
      assert s[..k][n..] == s[n..][..k - n];
      PrefixIsValid(s[n..], k - n);
    }
  }

  lemma Starts(s: Text)
    requires StartsWell(s)
    ensures s != [] && 0 < Width(s[0]) <= |s|
  {
  }

  lemma TooShort(s: Text, k: nat)
    requires s != [] && 0 < k < Width(s[0]) && k <= |s|
    ensures !Valid(s[..k])
  {
  }

  /** In well-formed text a character starts within three bytes before any position. */
  lemma {:induction false} StartIsNear(s: Text, k: nat) returns (c: nat)
    requires Valid(s) && k < |s|
    ensures c <= k <= c + 3 && RuneStart(s[c])
  {
    hide StartsWell;
    Starts(s);
    WidthIsSmall(s[0]);
    var n := Width(s[0]);
    if k < n {
      c := 0;
    } else {
      var d := StartIsNear(s[n..], k - n);
      c := d + n;
    }
  }

  lemma {:induction false} ValidConcat(a: Text, b: Text)
    requires Valid(a) && Valid(b)
    ensures Valid(a + b)
  {
    hide StartsWell;
    if a == [] {
      assert a + b == b;
    } else {
      var n := Width(a[0]);
      Starts(a);
      assert (a + b)[..|a|] == a;
      StartsWellLocal(a + b, |a|);
      ValidConcat(a[n..], b);
      assert (a + b)[n..] == a[n..] + b;
    }
  }

  // ----- well-formed text and the characters it stands for -------------------------------------------

  /** A Unicode scalar value: any code point but a surrogate. */
  predicate Scalar(c: int) {
    0 <= c <= 0x10FFFF && !(0xD800 <= c <= 0xDFFF)
  }

  /** The encoding of one scalar value, in section 3 of RFC 3629. */
  function Utf8(c: int): (r: Text)
    requires Scalar(c)
    ensures 1 <= |r| <= 4
  {
    if c <= 0x7F then [c]
    else if c <= 0x7FF then [0xC0 + c / 64, 0x80 + c % 64]
    else if c <= 0xFFFF then [0xE0 + c / 4096, 0x80 + c / 64 % 64, 0x80 + c % 64]
    else [0xF0 + c / 262144, 0x80 + c / 4096 % 64, 0x80 + c / 64 % 64, 0x80 + c % 64]
  }

  ghost predicate Scalars(cs: seq<int>) {
    forall i :: 0 <= i < |cs| ==> Scalar(cs[i])
  }

  function Utf8All(cs: seq<int>): Text
    requires forall i :: 0 <= i < |cs| ==> Scalar(cs[i])
  {
    if cs == [] then [] else Utf8(cs[0]) + Utf8All(cs[1..])
  }

  /** The encoding of a scalar value is one well-formed character, whatever follows it. */
  lemma EncodedStartsWell(c: int, rest: Text)
    requires Scalar(c)
    ensures var s := Utf8(c) + rest;
            StartsWell(s) && Width(s[0]) == |Utf8(c)| && s[|Utf8(c)|..] == rest
  {
    var s, r := Utf8(c) + rest, Utf8(c);
    assert forall i :: 0 <= i < |r| ==> s[i] == r[i];
    assert s[|r|..] == rest;
  }

  lemma Digits(h: int, l: int)
    requires 0 <= l < 64
    ensures (h * 64 + l) / 64 == h && (h * 64 + l) % 64 == l
  {
  }

  lemma ThreeDigits(a: int, b: int, c: int)
    requires 0 <= a && 0 <= b < 64 && 0 <= c < 64
    ensures var n := a * 4096 + b * 64 + c; n / 4096 == a && n / 64 % 64 == b && n % 64 == c
  {
    var n := a * 4096 + b * 64 + c;
    Digits(a * 64 + b, c);
    Digits(a, b);
    assert n == (a * 64 + b) * 64 + c;
  }

  lemma FourDigits(a: int, b: int, c: int, d: int)
    requires 0 <= a && 0 <= b < 64 && 0 <= c < 64 && 0 <= d < 64
    ensures var n := a * 262144 + b * 4096 + c * 64 + d;
            n / 262144 == a && n / 4096 % 64 == b && n / 64 % 64 == c && n % 64 == d
  {
    var n := a * 262144 + b * 4096 + c * 64 + d;
    ThreeDigits(a * 64 + b, c, d);
    Digits(a, b);
    assert n == (a * 64 + b) * 4096 + c * 64 + d;
  }

  lemma DecodedThree(first: byte, second: byte, third: byte) returns (c: int)
    requires 0xE0 <= first <= 0xEF && Second(first, second) && Tail(third)
    ensures Scalar(c) && Utf8(c) == [first, second, third]
  {
    var a: int, b: int, d: int := first - 0xE0, second - 0x80, third - 0x80;
    c := a * 4096 + b * 64 + d;
    ThreeDigits(a, b, d);
  }

  lemma DecodedFour(first: byte, second: byte, third: byte, fourth: byte) returns (c: int)
    requires 0xF0 <= first <= 0xF4 && Second(first, second) && Tail(third) && Tail(fourth)
    ensures Scalar(c) && Utf8(c) == [first, second, third, fourth]
  {
    var a: int, b: int, d: int, e: int := first - 0xF0, second - 0x80, third - 0x80, fourth - 0x80;
    c := a * 262144 + b * 4096 + d * 64 + e;
    FourDigits(a, b, d, e);
  }

  /** And every well-formed character is the encoding of a scalar value. */
  lemma DecodedScalar(s: Text) returns (c: int)
    requires StartsWell(s)
    ensures Scalar(c) && Utf8(c) == s[..Width(s[0])]
  {
    var n, first: int := Width(s[0]), s[0];
    if n == 1 {
      c := first;
      assert s[..1] == [first];
    } else if n == 2 {
      var second: int := s[1];
      c := (first - 0xC0) * 64 + (second - 0x80);
      Digits(first - 0xC0, second - 0x80);
      assert s[..2] == [first, second];
    } else if n == 3 {
      c := DecodedThree(s[0], s[1], s[2]);
      assert s[..3] == [s[0], s[1], s[2]];
    } else {
      c := DecodedFour(s[0], s[1], s[2], s[3]);
      assert s[..4] == [s[0], s[1], s[2], s[3]];
    }
  }

  /** Every sequence of scalar values encodes to well-formed text. */
  lemma {:induction false} EncodedIsValid(cs: seq<int>)
    requires Scalars(cs)
    ensures Valid(Utf8All(cs))
  {
    hide StartsWell, Utf8;
    if cs != [] {
      EncodedIsValid(cs[1..]);
      EncodedStartsWell(cs[0], Utf8All(cs[1..]));
    }
  }

  lemma {:induction false} ValidDecodes(s: Text) returns (cs: seq<int>)
    requires Valid(s)
    ensures Scalars(cs) && Utf8All(cs) == s
    decreases |s|
  {
    hide StartsWell, Utf8;
    if s == [] {
      cs := [];
    } else {
      Starts(s);
      var n := Width(s[0]);
      var c := DecodedScalar(s);
      var rest := ValidDecodes(s[n..]);
      cs := [c] + rest;
      assert cs[1..] == rest && s == s[..n] + s[n..];
    }
  }

  /** Text is well-formed exactly when it is the encoding of some scalar values. */
  lemma ValidIsUtf8(s: Text)
    ensures Valid(s) <==> exists cs: seq<int> :: Scalars(cs) && Utf8All(cs) == s
  {
    hide Valid, Utf8All;
    if Valid(s) {
      var cs := ValidDecodes(s);
    }
    if cs: seq<int> :| Scalars(cs) && Utf8All(cs) == s {
      EncodedIsValid(cs);
    }
  }

  // ----- bounding by bytes ---------------------------------------------------------------------------

  /** r is the longest well-formed prefix of s within the limit. */
  ghost predicate LongestWithin(s: Text, limit: int, r: Text) {
    r <= s && Valid(r) && forall c :: |r| < c <= limit && c <= |s| ==> !Valid(s[..c])
  }

  /** At most limit bytes of s. Of well-formed text, the longest well-formed prefix within the limit; of any
      over-long text, no less than three bytes short of it. */
  method Bytes(s: Text, limit: int) returns (r: Text)
    ensures r <= s && |r| <= (if limit < 0 then 0 else limit)
    ensures 0 < limit && |s| <= limit ==> r == s
    ensures 0 < limit < |s| ==> |r| >= limit - 3
    ensures Valid(s) ==> LongestWithin(s, limit, r)
  {
    hide Valid, RuneStart;
    assert Valid([]) by { EmptyIsValid(); }
    if limit <= 0 {
      return [];
    }
    if |s| <= limit {
      assert s[..|s|] == s;
      return s;
    }
    var floor := if limit - (UTF_MAX - 1) < 0 then 0 else limit - (UTF_MAX - 1);
    var cut := limit;
    while cut > floor
      invariant floor <= cut <= limit
      invariant forall c :: cut < c <= limit ==> !RuneStart(s[c])
    {
      if RuneStart(s[cut]) {
        CutIsLongest(s, limit, cut);
        return s[..cut];
      }
      cut := cut - 1;
    }
    if RuneStart(s[floor]) {
      CutIsLongest(s, limit, floor);
      return s[..floor];
    }
    if Valid(s) {
      ghost var c := StartIsNear(s, limit);
      assert false;
    }
    return s[..limit];
  }

  lemma EmptyIsValid()
    ensures Valid([])
  {
  }

  lemma CutIsLongest(s: Text, limit: nat, cut: nat)
    requires cut <= limit < |s| && RuneStart(s[cut]) && forall c :: cut < c <= limit ==> !RuneStart(s[c])
    ensures Valid(s) ==> LongestWithin(s, limit, s[..cut])
  {
    hide Valid, RuneStart;
    if Valid(s) {
      PrefixIsValid(s, cut);
      forall c | cut < c <= limit ensures !Valid(s[..c]) {
        PrefixIsValid(s, c);
      }
    }
  }

  // ----- bounding by characters ----------------------------------------------------------------------

  /** How far decoding moves: over a well-formed character, or over one stray byte. */
  function Advance(s: Text): (n: nat)
    requires s != []
    ensures 0 < n <= |s|
  {
    if StartsWell(s) then Width(s[0]) else 1
  }

  function RuneCount(s: Text): nat {
    if s == [] then 0 else 1 + RuneCount(s[Advance(s)..])
  }

  /** Decoding s passes through position k after n characters. */
  ghost predicate Reaches(s: Text, n: nat, k: nat)
    requires k <= |s|
    decreases n
  {
    if n == 0 then k == 0 else s != [] && Advance(s) <= k && Reaches(s[Advance(s)..], n - 1, k - Advance(s))
  }

  lemma {:induction false} ReachesNext(s: Text, n: nat, k: nat)
    requires k < |s| && Reaches(s, n, k)
    ensures Reaches(s, n + 1, k + Advance(s[k..]))
    decreases n
  {
    hide Advance;
    if n == 0 {
      assert s[0..] == s;
    } else {
      var a := Advance(s);
      assert s[a..][k - a..] == s[k..];
      ReachesNext(s[a..], n - 1, k - a);
    }
  }

  /** A prefix that stops where decoding passes has as many characters as decoding has passed. */
  lemma {:induction false} PrefixCount(s: Text, n: nat, k: nat)
    requires k <= |s| && Reaches(s, n, k)
    ensures RuneCount(s[..k]) == n && RuneCount(s) == n + RuneCount(s[k..])
    decreases n
  {
    hide Advance, StartsWell;
    if n == 0 {
      assert s[..0] == [] && s[0..] == s;
    } else {
      var a := Advance(s);
      AdvanceLocal(s, k);
      assert s[..k][a..] == s[a..][..k - a] && s[a..][k - a..] == s[k..];
      PrefixCount(s[a..], n - 1, k - a);
    }
  }

  lemma AdvanceLocal(s: Text, k: nat)
    requires s != [] && Advance(s) <= k <= |s|
    ensures Advance(s[..k]) == Advance(s)
  {
  }

  /** In well-formed text decoding passes only through character boundaries. */
  lemma {:induction false} ReachedPrefixIsValid(s: Text, n: nat, k: nat)
    requires k <= |s| && Reaches(s, n, k) && Valid(s)
    ensures Valid(s[..k])
    decreases n
  {
    hide StartsWell;
    if n == 0 {
      assert s[..0] == [];
    } else {
      var a := Advance(s);
      StartsWellLocal(s, k);
      assert s[..k][a..] == s[a..][..k - a];
      ReachedPrefixIsValid(s[a..], n - 1, k - a);
    }
  }

  /** Of well-formed text, decoding counts the scalar values it encodes. */
  lemma {:induction false} CountsScalars(cs: seq<int>)
    requires Scalars(cs)
    ensures RuneCount(Utf8All(cs)) == |cs|
  {
    hide StartsWell, Utf8;
    if cs != [] {
      CountsScalars(cs[1..]);
      EncodedStartsWell(cs[0], Utf8All(cs[1..]));
    }
  }

  /** At most limit characters of s: a prefix with that many, well-formed if s is. */
  method Runes(s: Text, limit: int) returns (r: Text)
    ensures r <= s
    ensures RuneCount(r) == if limit <= 0 then 0 else if RuneCount(s) <= limit then RuneCount(s) else limit
    ensures limit > 0 && RuneCount(s) <= limit ==> r == s
    ensures Valid(s) ==> Valid(r)
  {
    hide Valid, Advance;
    assert Valid([]) by { EmptyIsValid(); }
    if limit <= 0 {
      return [];
    }
    if RuneCount(s) <= limit {
      return s;
    }
    var count, index := 0, 0;
    while index < |s|
      invariant 0 <= count <= limit && 0 <= index <= |s| && Reaches(s, count, index)
      decreases |s| - index
    {
      if count == limit {
        PrefixCount(s, count, index);
        if Valid(s) {
          ReachedPrefixIsValid(s, count, index);
        }
        return s[..index];
      }
      ReachesNext(s, count, index);
      index := index + Advance(s[index..]);
      count := count + 1;
    }
    PrefixCount(s, count, index);
    assert false;
    return s;
  }

  // ----- marking what was cut ------------------------------------------------------------------------

  /** The ellipsis character. */
  const MARK: Text := [0xE2, 0x80, 0xA6]

  lemma MarkIsValid()
    ensures Valid(MARK) && MARK == Utf8(0x2026)
  {
    assert StartsWell(MARK);
    assert MARK[3..] == [];
  }

  /** At most limit bytes of s, the mark included. Over-long text ends in the mark exactly when the limit is more
      than the mark; otherwise it is cut without one. */
  method Ellipsis(s: Text, limit: int) returns (r: Text)
    ensures |r| <= (if limit < 0 then 0 else limit)
    ensures 0 < limit && |s| <= limit ==> r == s
    ensures |s| > limit > |MARK| ==>
              |r| >= |MARK| && r[|r| - |MARK|..] == MARK && r[..|r| - |MARK|] <= s && |r| >= limit - 3
    ensures Valid(s) && |s| > limit > |MARK| ==> LongestWithin(s, limit - |MARK|, r[..|r| - |MARK|])
    ensures |s| > limit && limit <= |MARK| ==> r <= s
    ensures Valid(s) && |s| > limit && limit <= |MARK| ==> LongestWithin(s, limit, r)
    ensures Valid(s) ==> Valid(r)
  {
    hide Valid;
    if limit <= 0 {
      EmptyIsValid();
      return [];
    }
    if |s| <= limit {
      return s;
    }
    if limit <= |MARK| {
      r := Bytes(s, limit);
      return;
    }
    var cut := Bytes(s, limit - |MARK|);
    MarkIsValid();
    if Valid(cut) {
      ValidConcat(cut, MARK);
    }
    r := cut + MARK;
    assert r[..|cut|] == cut;
  }
}
