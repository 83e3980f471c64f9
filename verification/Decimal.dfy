/** The base-10 conversions of Go's strconv that the vault and the audit chain rely on. */
module Decimal {
  import opened Wrappers

  const MAX_INT: int := 0x7fff_ffff_ffff_ffff
  const MAX_UINT64: int := 0xffff_ffff_ffff_ffff

  /** A Go string: its length always fits an int. */
  type GoString = s: string | |s| <= MAX_INT

  predicate IsDigit(c: char) {
    '0' <= c <= '9'
  }

  predicate AllDigits(s: string) {
    forall i | 0 <= i < |s| :: IsDigit(s[i])
  }

  /** strconv.Itoa and strconv.FormatUint on non-negative numbers. */
  function Format(n: nat): (s: string)
    ensures |s| > 0 && AllDigits(s)
  {
    if n < 10 then [('0' as int + n) as char]
    else Format(n / 10) + [('0' as int + n % 10) as char]
  }

  /** The number a string of digits denotes. */
  function Value(s: string): nat
    requires AllDigits(s)
  {
    if s == [] then 0
    else 10 * Value(s[..|s| - 1]) + (s[|s| - 1] as int - '0' as int)
  }

  /** strconv.ParseUint(s, 10, 64). */
  function ParseUint(s: string): Option<nat> {
    if s == [] || !AllDigits(s) || Value(s) > MAX_UINT64 then None else Some(Value(s))
  }

  /** strconv.Atoi: an optional sign, then digits, within the range of int. */
  function Atoi(s: string): Option<int> {
    var signed := s != [] && (s[0] == '+' || s[0] == '-');
    var digits := if signed then s[1..] else s;
    if digits == [] || !AllDigits(digits) then None
    else
      var magnitude: int := Value(digits);
      var n := if signed && s[0] == '-' then -magnitude else magnitude;
      if -MAX_INT - 1 <= n <= MAX_INT then Some(n) else None
  }

  lemma {:induction false} ValueOfFormat(n: nat)
    ensures Value(Format(n)) == n
  {
    if n >= 10 {
      ValueOfFormat(n / 10);
      var s := Format(n);
      assert s[..|s| - 1] == Format(n / 10);
    }
  }

  lemma FormatInjective(m: nat, n: nat)
    requires Format(m) == Format(n)
    ensures m == n
  {
    ValueOfFormat(m);
    ValueOfFormat(n);
  }

  lemma ParseUintOfFormat(n: nat)
    requires n <= MAX_UINT64
    ensures ParseUint(Format(n)) == Some(n)
  {
    ValueOfFormat(n);
  }

  lemma AtoiOfFormat(n: nat)
    requires n <= MAX_INT
    ensures Atoi(Format(n)) == Some(n)
  {
    ValueOfFormat(n);
    assert IsDigit(Format(n)[0]);
  }
}
