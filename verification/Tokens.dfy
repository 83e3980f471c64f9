/** The whitespace tokenizer. Positions are character positions of the source. */
module Tokens {

  /** unicode.IsSpace: the Unicode White_Space property. */
  predicate IsSpace(c: char) {
    var n := c as int;
    9 <= n <= 13 || n == 0x20 || n == 0x85 || n == 0xA0 || n == 0x1680 || 0x2000 <= n <= 0x200A
    || n == 0x2028 || n == 0x2029 || n == 0x202F || n == 0x205F || n == 0x3000
  }

  datatype Token = Token(start: nat, end: nat)

  /** What one more character, ending at n, does to the tokens before it: a space leaves them, a
      character after a space (or at the start) opens a token, any other extends the last one. */
  function Next(toks: seq<Token>, space: bool, opens: bool, n: nat): seq<Token>
    requires n > 0 && (space || opens || toks != [])
  {
    if space then toks
    else if opens then toks + [Token(n - 1, n)]
    else toks[..|toks| - 1] + [Token(toks[|toks| - 1].start, n)]
  }

  /** Whether a token would start at position p. */
  predicate Opens(s: string, p: nat) {
    p <= |s| && (p == 0 || IsSpace(s[p - 1]))
  }

  /** The tokens of the first n characters. */
  function Scan(s: string, n: nat): (toks: seq<Token>)
    requires n <= |s|
    ensures n > 0 && !IsSpace(s[n - 1]) ==> toks != [] && toks[|toks| - 1].end == n
  {
    if n == 0 then [] else Next(Scan(s, n - 1), IsSpace(s[n - 1]), Opens(s, n - 1), n)
  }

  function Tokenized(s: string): seq<Token> {
    Scan(s, |s|)
  }

  /** The number of tokens of the first n characters. */
  function Words(s: string, n: nat): nat
    requires n <= |s|
  {
    |Scan(s, n)|
  }

  function CountTokens(s: string): nat {
    Words(s, |s|)
  }

  method Tokenize(s: string) returns (toks: seq<Token>)
    ensures toks == Tokenized(s)
  {
    toks := [];
    var start := -1;
    for i := 0 to |s|
      invariant -1 <= start < i
      invariant start < 0 ==> toks == Scan(s, i) && (i == 0 || IsSpace(s[i - 1]))
      invariant start >= 0 ==> toks + [Token(start, i)] == Scan(s, i) && !IsSpace(s[i - 1])
    {
      if IsSpace(s[i]) {
        if start >= 0 {
          toks := toks + [Token(start, i)];
          start := -1;
        }
        continue;
      }
      if start < 0 {
        start := i;
      } else {
        assert (toks + [Token(start, i)])[..|toks|] == toks;
      }
    }
    if start >= 0 {
      toks := toks + [Token(start, |s|)];
    }
  }

  /** A token is a maximal run of non-space characters. */
  ghost predicate IsRun(s: string, t: Token) {
    && t.start < t.end <= |s|
    && (forall p :: t.start <= p < t.end ==> !IsSpace(s[p]))
    && (t.start == 0 || IsSpace(s[t.start - 1]))
    && (t.end == |s| || IsSpace(s[t.end]))
  }

  ghost predicate IsRunUpTo(s: string, n: nat, t: Token)
    requires n <= |s|
  {
    && t.start < t.end <= n
    && (forall p :: t.start <= p < t.end ==> !IsSpace(s[p]))
    && (t.start == 0 || IsSpace(s[t.start - 1]))
    && (t.end == n || IsSpace(s[t.end]))
  }

  /** Every token is a maximal run of what has been scanned, and they are apart, in order. */
  ghost predicate RunsUpTo(s: string, n: nat, toks: seq<Token>)
    requires n <= |s|
  {
    && (forall i :: 0 <= i < |toks| ==> IsRunUpTo(s, n, toks[i]))
    && (forall i, j :: 0 <= i < j < |toks| ==> toks[i].end < toks[j].start)
  }

  lemma KeepRun(s: string, n: nat, t: Token)
    requires 0 < n <= |s| && IsRunUpTo(s, n - 1, t) && (t.end < n - 1 || IsSpace(s[n - 1]))
    ensures IsRunUpTo(s, n, t)
  {
  }

  lemma GrowRun(s: string, n: nat, t: Token)
    requires 0 < n <= |s| && IsRunUpTo(s, n - 1, t) && t.end == n - 1 && !IsSpace(s[n - 1])
    ensures IsRunUpTo(s, n, Token(t.start, n))
  {
  }

  /** A token that ends where a space stands would contain it. */
  lemma EndsBefore(s: string, n: nat, t: Token)
    requires 0 < n <= |s| && IsRunUpTo(s, n - 1, t) && Opens(s, n - 1)
    ensures t.end < n - 1
  {
    assert !IsSpace(s[t.end - 1]);
  }

  lemma NextRuns(s: string, n: nat, toks: seq<Token>)
    requires 0 < n <= |s| && RunsUpTo(s, n - 1, toks)
    requires n > 1 && !IsSpace(s[n - 2]) ==> toks != [] && toks[|toks| - 1].end == n - 1
    ensures RunsUpTo(s, n, Next(toks, IsSpace(s[n - 1]), Opens(s, n - 1), n))
  {
    hide IsSpace, IsRunUpTo;
    var space, opens := IsSpace(s[n - 1]), Opens(s, n - 1);
    forall i | 0 <= i < |toks|
      ensures toks[i].start < toks[i].end <= n - 1
      ensures space || opens || i + 1 < |toks| ==> IsRunUpTo(s, n, toks[i])
      ensures opens ==> toks[i].end < n - 1
    {
      RunBounds(s, n - 1, toks[i]);
      if opens {
        EndsBefore(s, n, toks[i]);
      } else if i + 1 < |toks| {
        RunBounds(s, n - 1, toks[|toks| - 1]);
      }
      if space || opens || i + 1 < |toks| {
        KeepRun(s, n, toks[i]);
      }
    }
    if !space && !opens {
      GrowRun(s, n, toks[|toks| - 1]);
    } else if !space {
      OpenRun(s, n);
    }
  }

  lemma OpenRun(s: string, n: nat)
    requires 0 < n <= |s| && !IsSpace(s[n - 1]) && Opens(s, n - 1)
    ensures IsRunUpTo(s, n, Token(n - 1, n))
  {
  }

  lemma RunBounds(s: string, n: nat, t: Token)
    requires n <= |s| && IsRunUpTo(s, n, t)
    ensures t.start < t.end <= n
  {
  }

  lemma {:induction false} ScanRuns(s: string, n: nat)
    requires n <= |s|
    ensures RunsUpTo(s, n, Scan(s, n))
  {
    hide IsSpace, Next, IsRunUpTo;
    if n > 0 {
      ScanRuns(s, n - 1);
      NextRuns(s, n, Scan(s, n - 1));
    }
  }

  lemma NextKeeps(toks: seq<Token>, space: bool, opens: bool, n: nat, i: nat)
    requires n > 0 && (space || opens || toks != []) && i < |toks|
    ensures var next := Next(toks, space, opens, n);
            i < |next| && next[i].start == toks[i].start && (next[i].end == toks[i].end || next[i].end == n)
  {
  }

  lemma {:induction false} ScanCovers(s: string, n: nat, p: nat) returns (i: nat)
    requires p < n <= |s| && !IsSpace(s[p])
    ensures i < |Scan(s, n)| && Scan(s, n)[i].start <= p < Scan(s, n)[i].end
  {
    hide IsSpace, Next;
    if p == n - 1 {
      i := |Scan(s, n)| - 1;
      ScanRuns(s, n);
      RunBounds(s, n, Scan(s, n)[i]);
    } else {
      i := ScanCovers(s, n - 1, p);
      NextKeeps(Scan(s, n - 1), IsSpace(s[n - 1]), Opens(s, n - 1), n, i);
    }
  }

  /** Tokenizing yields exactly the maximal runs, in order: sound, disjoint and complete. */
  lemma TokenizedAreTheRuns(s: string, t: Token)
    ensures t in Tokenized(s) <==> IsRun(s, t)
    ensures forall i, j :: 0 <= i < j < |Tokenized(s)| ==> Tokenized(s)[i].end < Tokenized(s)[j].start
  {
    hide IsSpace, Scan;
    var toks := Tokenized(s);
    ScanRuns(s, |s|);
    if IsRun(s, t) {
      var i := ScanCovers(s, |s|, t.start);
      assert IsRunUpTo(s, |s|, toks[i]);
      SameRun(s, t, toks[i]);
    }
  }

  lemma SameRun(s: string, a: Token, b: Token)
    requires IsRun(s, a) && IsRunUpTo(s, |s|, b) && b.start <= a.start < b.end
    ensures a == b
  {
  }

  // ----- substrings ----------------------------------------------------------------------------

  function Shift(toks: seq<Token>, k: nat): (r: seq<Token>)
    ensures |r| == |toks|
    ensures forall i :: 0 <= i < |toks| ==> r[i] == Token(toks[i].start + k, toks[i].end + k)
  {
    seq(|toks|, i requires 0 <= i < |toks| => Token(toks[i].start + k, toks[i].end + k))
  }

  lemma {:induction false} ScanOfPrefix(s: string, b: nat, n: nat)
    requires n <= b <= |s|
    ensures Scan(s[..b], n) == Scan(s, n)
    decreases n
  {
    hide IsSpace, Next;
    if n > 0 {
      ScanOfPrefix(s, b, n - 1);
    }
  }

  /** Taking in a character commutes with shifting the tokens right of a split. */
  lemma NextShifted(left: seq<Token>, right: seq<Token>, space: bool, opens: bool, a: nat, n: nat)
    requires n > 0 && (space || opens || right != [])
    ensures Next(left + Shift(right, a), space, opens, n + a) == left + Shift(Next(right, space, opens, n), a)
  {
    if !space && !opens {
      var init, last := right[..|right| - 1], right[|right| - 1];
      assert (left + Shift(right, a))[..|left| + |right| - 1] == left + Shift(init, a);
      assert Shift(init + [Token(last.start, n)], a) == Shift(init, a) + [Token(last.start + a, n + a)];
    } else if !space {
      assert Shift(right + [Token(n - 1, n)], a) == Shift(right, a) + [Token(n + a - 1, n + a)];
    }
  }

  /** From a clear position on, the tokens of the whole are those before it followed by the shifted
      tokens of the rest. */
  lemma {:induction false} ScanSplits(s: string, a: nat, n: nat)
    requires Opens(s, a) && a <= n <= |s|
    ensures Scan(s, n) == Scan(s, a) + Shift(Scan(s[a..], n - a), a)
    decreases n
  {
    hide IsSpace, Next;
    if n > a {
      ScanSplits(s, a, n - 1);
      assert s[a..][n - 1 - a] == s[n - 1];
      assert n - 1 > a ==> s[a..][n - 2 - a] == s[n - 2];
      NextShifted(Scan(s, a), Scan(s[a..], n - 1 - a), IsSpace(s[n - 1]), Opens(s, n - 1), a, n - a);
    }
  }

  /** Tokenizing a substring that starts at a clear position. */
  lemma TokensOfSubstring(s: string, a: nat, b: nat)
    requires Opens(s, a) && a <= b <= |s|
    ensures Scan(s, b) == Scan(s, a) + Shift(Tokenized(s[a..b]), a)
    ensures CountTokens(s[a..b]) == Words(s, b) - Words(s, a)
  {
    hide IsSpace, Scan;
    var t := s[..b];
    ScanOfPrefix(s, b, a);
    ScanOfPrefix(s, b, b);
    assert Opens(t, a);
    ScanSplits(t, a, b);
    assert t[a..] == s[a..b];
  }

  lemma {:induction false} WordsMonotone(s: string, a: nat, b: nat)
    requires a <= b <= |s|
    ensures Words(s, a) <= Words(s, b)
    decreases b
  {
    if a < b {
      WordsMonotone(s, a, b - 1);
    }
  }

  /** A stretch of white space adds no token. */
  lemma {:induction false} BlankAddsNothing(s: string, a: nat, b: nat)
    requires a <= b <= |s| && forall p :: a <= p < b ==> IsSpace(s[p])
    ensures Scan(s, b) == Scan(s, a)
    decreases b
  {
    if a < b {
      BlankAddsNothing(s, a, b - 1);
    }
  }

  lemma NextPrefixes(toks: seq<Token>, space: bool, opens: bool, n: nat, i: nat)
    requires n > 0 && (space || opens || toks != [])
    requires i < |Next(toks, space, opens, n)|
    ensures var next := Next(toks, space, opens, n);
            && i <= |toks| && next[..i] == toks[..i]
            && (i < |toks| ==> next[i].start == toks[i].start)
            && (if i < |toks| && next[i].end == toks[i].end then next[..i + 1] == toks[..i + 1]
                else next[i].end == n && next[..i + 1] == next && (i == |toks| ==> next[i].start == n - 1))
  {
  }

  /** The scan up to the end, or the start, of token i has exactly the tokens up to it. */
  lemma {:induction false} ScanAtToken(s: string, n: nat, i: nat)
    requires n <= |s| && i < |Scan(s, n)|
    ensures var t := Scan(s, n)[i];
            t.start < t.end <= n && Scan(s, t.end) == Scan(s, n)[..i + 1] && Scan(s, t.start) == Scan(s, n)[..i]
    decreases n
  {
    hide IsSpace, Next;
    var before := Scan(s, n - 1);
    NextPrefixes(before, IsSpace(s[n - 1]), Opens(s, n - 1), n, i);
    if i < |before| {
      ScanAtToken(s, n - 1, i);
    } else {
      assert before[..i] == before;
    }
  }
}
