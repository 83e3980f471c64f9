/** Fixed token windows with overlap, and the receipts that spans turn into. */
module Windows {
  import opened Arithmetic
  import opened Tokens

  datatype Span = Span(start: nat, end: nat)

  /** The overlap after the clamps that guard direct callers. */
  function Clamp(target: int, overlap: int): int {
    if overlap < 0 then 0 else if overlap >= target then target - 1 else overlap
  }

  function Stride(target: int, overlap: int): int {
    target - Clamp(target, overlap)
  }

  /** An overlap that fits is kept, and one that does not becomes the nearest that leaves a step of at least one. */
  lemma ClampIsNearest(target: int, overlap: int, other: int)
    requires target >= 1 && 0 <= other < target
    ensures 0 <= Clamp(target, overlap) < target && (0 <= overlap < target ==> Clamp(target, overlap) == overlap)
    ensures overlap < 0 ==> Clamp(target, overlap) <= other
    ensures overlap >= target ==> other <= Clamp(target, overlap)
  {
  }

  /** How many windows n tokens take. */
  function WindowCount(n: nat, target: int, stride: int): nat
    requires target >= 1 && stride >= 1
  {
    if n == 0 then 0 else if n <= target then 1 else 1 + (n - target + stride - 1) / stride
  }

  /** One past the last token of window k. */
  function WindowEnd(n: nat, target: int, stride: int, k: nat): int {
    if k * stride + target > n then n else k * stride + target
  }

  /** A window's tokens exist, and another window follows exactly while tokens remain. */
  lemma WindowExists(n: nat, target: int, stride: int, k: nat)
    requires 1 <= stride <= target && k < WindowCount(n, target, stride)
    ensures 0 <= k * stride < WindowEnd(n, target, stride, k) <= n
    ensures k + 1 < WindowCount(n, target, stride) <==> k * stride + target < n
  {
    if n > target {
      var m := n - target + stride - 1;
      var q := m / stride;
      assert q * stride <= m < q * stride + stride;
      if k >= 1 {
        assert (k - 1) * stride <= (q - 1) * stride by { TimesMonotone(k - 1, q - 1, stride); }
        assert (k - 1) * stride == k * stride - stride;
        assert (q - 1) * stride == q * stride - stride;
      }
      if k + 1 < 1 + q {
        TimesMonotone(k, q - 1, stride);
        assert (q - 1) * stride == q * stride - stride;
      } else {
        assert k == q;
      }
    }
  }

  ghost predicate IsWindow(toks: seq<Token>, target: int, stride: int, k: nat, span: Span)
    requires 1 <= stride <= target
  {
    && 0 <= k * stride < WindowEnd(|toks|, target, stride, k) <= |toks|
    && span == Span(toks[k * stride].start, toks[WindowEnd(|toks|, target, stride, k) - 1].end)
  }

  /** The windows start at multiples of the stride, hold the target number of tokens save the last, and
      number exactly what covers the source. */
  ghost predicate AreWindows(toks: seq<Token>, target: int, stride: int, out: seq<Span>)
    requires 1 <= stride <= target
  {
    && |out| == WindowCount(|toks|, target, stride)
    && forall k :: 0 <= k < |out| ==> IsWindow(toks, target, stride, k, out[k])
  }

  method FixedSpans(src: string, target: int, overlap: int) returns (out: seq<Span>)
    requires target >= 1
    ensures AreWindows(Tokenized(src), target, Stride(target, overlap), out)
  {
    hide Tokenized, IsSpace;
    var toks := Tokenize(src);
    var n := |toks|;
    if n == 0 {
      return [];
    }
    var lap := overlap;
    if lap < 0 {
      lap := 0;
    }
    if lap >= target {
      lap := target - 1;
    }
    out := [];
    var i := 0;
    ghost var stride := Stride(target, overlap);
    assert lap == Clamp(target, overlap);
    FirstWindow(n, target, stride);
    while true
      invariant i == |out| * stride && |out| < WindowCount(n, target, stride)
      invariant forall k :: 0 <= k < |out| ==> IsWindow(toks, target, stride, k, out[k])
      decreases WindowCount(n, target, stride) - |out|
    {
      WindowExists(n, target, stride, |out|);
      var j := i + target;
      if j > n {
        j := n;
      }
      assert IsWindow(toks, target, stride, |out|, Span(toks[i].start, toks[j - 1].end));
      out := out + [Span(toks[i].start, toks[j - 1].end)];
      if j == n {
        break;
      }
      var next := j - lap;
      if next <= i {
        next := i + 1;
      }
      assert (|out| - 1) * stride + stride == |out| * stride;
      i := next;
    }
  }

  lemma FirstWindow(n: nat, target: int, stride: int)
    requires 1 <= stride <= target && n > 0
    ensures WindowCount(n, target, stride) >= 1
  {
  }

  /** Every token lies in some window. */
  lemma WindowsCover(n: nat, target: int, stride: int, t: nat) returns (k: nat)
    requires 1 <= stride <= target && t < n
    ensures k < WindowCount(n, target, stride)
    ensures k * stride <= t < WindowEnd(n, target, stride, k)
  {
    var last := WindowCount(n, target, stride) - 1;
    k := 0;
    while t >= k * stride + target
      invariant k < WindowCount(n, target, stride) && k * stride <= t
      decreases WindowCount(n, target, stride) - k
    {
      WindowExists(n, target, stride, k);
      assert (k + 1) * stride == k * stride + stride;
      k := k + 1;
    }
  }

  /** Two consecutive windows share exactly the overlap, and the second reaches further. */
  lemma WindowsShare(n: nat, target: int, stride: int, k: nat)
    requires 1 <= stride <= target && k + 1 < WindowCount(n, target, stride)
    ensures WindowEnd(n, target, stride, k) - (k + 1) * stride == target - stride
    ensures WindowEnd(n, target, stride, k) < WindowEnd(n, target, stride, k + 1)
    ensures WindowEnd(n, target, stride, k) - k * stride == target
  {
    WindowExists(n, target, stride, k);
    WindowExists(n, target, stride, k + 1);
    assert (k + 1) * stride == k * stride + stride;
  }

  lemma LastWindowEnds(n: nat, target: int, stride: int)
    requires 1 <= stride <= target && n > 0
    ensures WindowCount(n, target, stride) > 0
    ensures WindowEnd(n, target, stride, WindowCount(n, target, stride) - 1) == n
  {
    WindowExists(n, target, stride, WindowCount(n, target, stride) - 1);
  }

  // ----- receipts --------------------------------------------------------------------------------

  datatype Receipt = Receipt(sequence: nat, start: nat, end: nat, tokens: nat, text: string)

  predicate InSource(src: string, sp: Span) {
    sp.start <= sp.end <= |src|
  }

  /** The receipt of one span: trimmed to its first and last token. */
  function ReceiptOf(src: string, sp: Span, sequence: nat): Receipt
    requires InSource(src, sp) && Tokenized(src[sp.start..sp.end]) != []
  {
    var toks := Tokenized(src[sp.start..sp.end]);
    TokensInRange(src[sp.start..sp.end]);
    var start, end := sp.start + toks[0].start, sp.start + toks[|toks| - 1].end;
    Receipt(sequence, start, end, |toks|, src[start..end])
  }

  lemma TokensInRange(s: string)
    ensures var toks := Tokenized(s); toks != [] ==> toks[0].start < toks[|toks| - 1].end <= |s|
  {
    hide IsSpace, Scan;
    ScanRuns(s, |s|);
    var toks := Tokenized(s);
    if toks != [] {
      assert IsRunUpTo(s, |s|, toks[0]) && IsRunUpTo(s, |s|, toks[|toks| - 1]);
    }
  }

  function Receipts(src: string, spans: seq<Span>): seq<Receipt>
    requires forall i :: 0 <= i < |spans| ==> InSource(src, spans[i])
  {
    if spans == [] then []
    else
      assert InSource(src, spans[|spans| - 1]);
      var before, sp := Receipts(src, spans[..|spans| - 1]), spans[|spans| - 1];
      if Tokenized(src[sp.start..sp.end]) == [] then before else before + [ReceiptOf(src, sp, |before|)]
  }

  lemma NoReceipts(src: string, spans: seq<Span>)
    requires spans == []
    ensures Receipts(src, spans) == []
  {
  }

  method ReceiptsFor(src: string, spans: seq<Span>) returns (out: seq<Receipt>)
    requires forall i :: 0 <= i < |spans| ==> InSource(src, spans[i])
    ensures out == Receipts(src, spans)
  {
    hide Tokenized;
    out := [];
    var sequence := 0;
    for i := 0 to |spans|
      invariant out == Receipts(src, spans[..i]) && sequence == |out|
    {
      var sp := spans[i];
      assert spans[..i + 1][..i] == spans[..i];
      var toks := Tokenize(src[sp.start..sp.end]);
      if |toks| == 0 {
        continue;
      }
      TokensInRange(src[sp.start..sp.end]);
      var start := sp.start + toks[0].start;
      var end := sp.start + toks[|toks| - 1].end;
      out := out + [Receipt(sequence, start, end, |toks|, src[start..end])];
      sequence := sequence + 1;
    }
    assert spans[..|spans|] == spans;
  }

  /** Spans that all hold tokens turn into one receipt each, numbered in order. */
  lemma {:induction false} OneReceiptEach(src: string, spans: seq<Span>, k: nat)
    requires forall i :: 0 <= i < |spans| ==> InSource(src, spans[i]) && Tokenized(src[spans[i].start..spans[i].end]) != []
    requires k < |spans|
    ensures |Receipts(src, spans)| == |spans|
    ensures Receipts(src, spans)[k] == ReceiptOf(src, spans[k], k)
    decreases |spans|
  {
    hide Tokenized;
    if |spans| > 1 {
      OneReceiptEach(src, spans[..|spans| - 1], if k + 1 < |spans| then k else 0);
    }
  }

  /** Re-tokenizing the text from token i to token j - 1 gives those tokens back, shifted. */
  lemma RetokenizeWindow(src: string, i: nat, j: nat)
    requires i < j <= |Tokenized(src)|
    ensures var toks := Tokenized(src);
            var a, b := toks[i].start, toks[j - 1].end;
            && a < b <= |src| && Opens(src, a)
            && Shift(Tokenized(src[a..b]), a) == toks[i..j]
  {
    hide IsSpace, Scan, Shift;
    var toks := Tokenized(src);
    var a, b := toks[i].start, toks[j - 1].end;
    ScanRuns(src, |src|);
    assert IsRunUpTo(src, |src|, toks[i]) && IsRunUpTo(src, |src|, toks[j - 1]);
    ScanAtToken(src, |src|, i);
    ScanAtToken(src, |src|, j - 1);
    TokensOfSubstring(src, a, b);
    CancelPrefix(toks, i, j, Shift(Tokenized(src[a..b]), a));
  }

  lemma CancelPrefix(toks: seq<Token>, i: nat, j: nat, rest: seq<Token>)
    requires i <= j <= |toks| && toks[..j] == toks[..i] + rest
    ensures rest == toks[i..j]
  {
    assert rest == toks[..j][i..];
  }

  /** A window's receipt is exact: same offsets as the span, text cut by them, and the token count. */
  lemma WindowReceipt(src: string, target: int, stride: int, k: nat, span: Span)
    requires 1 <= stride <= target && IsWindow(Tokenized(src), target, stride, k, span)
    ensures InSource(src, span) && Tokenized(src[span.start..span.end]) != []
    ensures ReceiptOf(src, span, k)
            == Receipt(k, span.start, span.end, WindowEnd(|Tokenized(src)|, target, stride, k) - k * stride, src[span.start..span.end])
  {
    hide IsSpace, Scan, Tokenized;
    var i, j := k * stride, WindowEnd(|Tokenized(src)|, target, stride, k);
    RetokenizeWindow(src, i, j);
    var inner := Tokenized(src[span.start..span.end]);
    var shifted := Shift(inner, span.start);
    var window := Tokenized(src)[i..j];
    assert shifted == window && |inner| == j - i;
    assert window[0] == Tokenized(src)[i] && window[j - i - 1] == Tokenized(src)[j - 1];
    assert shifted[0] == Tokenized(src)[i] && shifted[|inner| - 1] == Tokenized(src)[j - 1];
  }
}
