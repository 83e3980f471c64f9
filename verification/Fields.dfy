/** Fields joined by NUL characters, the material of run identifiers and audit digests. */
module Fields {
  const NUL: char := '\0'

  function Join(parts: seq<string>): string
    requires parts != []
  {
    if |parts| == 1 then parts[0] else parts[0] + [NUL] + Join(parts[1..])
  }

  ghost function Nuls(s: string): nat {
    if s == "" then 0 else (if s[0] == NUL then 1 else 0) + Nuls(s[1..])
  }

  ghost function TotalNuls(parts: seq<string>): nat {
    if parts == [] then 0 else Nuls(parts[0]) + TotalNuls(parts[1..])
  }

  ghost predicate Plain(parts: seq<string>) {
    forall i :: 0 <= i < |parts| ==> NUL !in parts[i]
  }

  lemma {:induction false} NulsOfSum(s: string, t: string)
    ensures Nuls(s + t) == Nuls(s) + Nuls(t)
  {
    if s == "" {
      assert s + t == t;
    } else {
      assert (s + t)[1..] == s[1..] + t;
      NulsOfSum(s[1..], t);
    }
  }

  lemma {:induction false} NulFree(s: string)
    ensures Nuls(s) == 0 <==> NUL !in s
  {
    if s != "" {
      NulFree(s[1..]);
      assert s == [s[0]] + s[1..];
    }
  }

  /** A joined text has one NUL per separator beside those of its fields. */
  lemma {:induction false} NulsOfJoin(parts: seq<string>)
    requires parts != []
    ensures Nuls(Join(parts)) == TotalNuls(parts) + |parts| - 1
  {
    if |parts| > 1 {
      NulsOfJoin(parts[1..]);
      NulsOfSum(parts[0] + [NUL], Join(parts[1..]));
      NulsOfSum(parts[0], [NUL]);
      assert Nuls([NUL]) == 1;
    } else {
      assert TotalNuls(parts) == Nuls(parts[0]) + TotalNuls(parts[1..]);
    }
  }

  lemma {:induction false} PlainMeansNoNuls(parts: seq<string>)
    ensures Plain(parts) <==> TotalNuls(parts) == 0
  {
    if parts != [] {
      NulFree(parts[0]);
      PlainMeansNoNuls(parts[1..]);
      assert parts == [parts[0]] + parts[1..];
    }
  }

  lemma SplitsAlike(a: string, s: string, b: string, t: string)
    requires NUL !in a && NUL !in b && a + [NUL] + s == b + [NUL] + t
    ensures a == b && s == t
  {
    var u := a + [NUL] + s;
    assert u[|a|] == NUL && u[|b|] == NUL;
    assert forall i :: 0 <= i < |a| ==> u[i] == a[i];
    assert forall i :: 0 <= i < |b| ==> u[i] == b[i];
    assert |a| == |b|;
    assert a == u[..|a|] && b == u[..|b|];
    assert s == u[|a| + 1..] && t == u[|b| + 1..];
  }

  lemma {:induction false} PlainJoinInjective(a: seq<string>, b: seq<string>)
    requires |a| == |b| > 0 && Plain(a) && Plain(b) && Join(a) == Join(b)
    ensures a == b
  {
    if |a| > 1 {
      SplitsAlike(a[0], Join(a[1..]), b[0], Join(b[1..]));
      PlainJoinInjective(a[1..], b[1..]);
    }
    assert a == [a[0]] + a[1..] && b == [b[0]] + b[1..];
  }

  /** If one list of fields has no NUL in it, no other list of as many fields joins to the same text. */
  lemma JoinInjective(a: seq<string>, b: seq<string>)
    requires |a| == |b| > 0 && Plain(a) && Join(a) == Join(b)
    ensures a == b
  {
    NulsOfJoin(a);
    NulsOfJoin(b);
    PlainMeansNoNuls(a);
    PlainMeansNoNuls(b);
    PlainJoinInjective(a, b);
  }

  /** Moving a NUL from the end of one field to the start of the next leaves the joined text as it was. */
  lemma {:induction false} Shifted(a: seq<string>, b: seq<string>, x: string, y: string, z: string, k: nat)
    requires |a| == |b| && k + 1 < |a| && (forall i :: 0 <= i < |a| && i != k && i != k + 1 ==> a[i] == b[i])
    requires a[k] == x + [NUL] + y && a[k + 1] == z && b[k] == x && b[k + 1] == y + [NUL] + z
    ensures Join(a) == Join(b)
    decreases |a|
  {
    if k > 0 {
      Shifted(a[1..], b[1..], x, y, z, k - 1);
    } else {
      SameTail(a, b);
      if |a| == 2 {
        assert Join(a) == x + [NUL] + y + [NUL] + z;
        assert Join(b) == x + [NUL] + (y + [NUL] + z);
      } else {
        var rest := Join(a[2..]);
        assert a[1..][1..] == a[2..] && b[1..][1..] == b[2..];
        assert Join(a) == (x + [NUL] + y) + [NUL] + (z + [NUL] + rest);
        assert Join(b) == x + [NUL] + ((y + [NUL] + z) + [NUL] + rest);
        assert Join(a) == Join(b);
      }
    }
  }

  lemma SameTail(a: seq<string>, b: seq<string>)
    requires |a| == |b| >= 2 && forall i :: 2 <= i < |a| ==> a[i] == b[i]
    ensures a[2..] == b[2..]
  {
  }

  /** No other list of as many fields joins to the same text. */
  ghost predicate Determined(a: seq<string>)
    requires a != []
  {
    forall b: seq<string> :: |b| == |a| && Join(b) == Join(a) ==> b == a
  }

  /** A list with a NUL in one of its fields has a twin. */
  lemma Twin(a: seq<string>, i: nat, p: nat) returns (b: seq<string>)
    requires |a| >= 2 && i < |a| && p < |a[i]| && a[i][p] == NUL
    ensures |b| == |a| && Join(b) == Join(a) && b != a
  {
    hide Join;
    var x, y := a[i][..p], a[i][p + 1..];
    assert a[i] == x + [NUL] + y;
    if i + 1 < |a| {
      b := a[i := x][i + 1 := y + [NUL] + a[i + 1]];
      Shifted(a, b, x, y, a[i + 1], i);
    } else {
      b := a[i - 1 := a[i - 1] + [NUL] + x][i := y];
      Shifted(b, a, a[i - 1], x, y, i - 1);
    }
    assert |b[i]| < |a[i]|;
  }

  /** Two or more fields can be told from their joined text exactly when none of them holds a NUL. */
  lemma DeterminedIffPlain(a: seq<string>)
    requires |a| >= 2
    ensures Determined(a) <==> Plain(a)
  {
    hide Join;
    if Plain(a) {
      forall b: seq<string> | |b| == |a| && Join(b) == Join(a) ensures b == a {
        JoinInjective(a, b);
      }
    } else {
      var i :| 0 <= i < |a| && NUL in a[i];
      var p :| 0 <= p < |a[i]| && a[i][p] == NUL;
      var b := Twin(a, i, p);
    }
  }
}
