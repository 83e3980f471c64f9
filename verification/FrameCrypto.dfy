/** Envelope layout of one encrypted frame. The cipher and the hash are parameters:
    a proof uses only the laws it names in its hypotheses. */
module FrameCrypto {
  import opened Wrappers
  import opened Contracts
  import opened VaultTypes

  const ROOT_KEY_BYTES := 32
  const FRAME_MAGIC: Bytes := [79, 85, 82, 79, 70, 82, 77, 49]

  /** seal(key, nonce, plaintext, aad) and its partial inverse. */
  datatype Aead = Aead(
    seal: (Bytes, Bytes, Bytes, string) -> Bytes,
    open: (Bytes, Bytes, Bytes, string) -> Option<Bytes>)

  /** Opening what was sealed under the same key, nonce and additional data gives it back;
      the tag adds sixteen bytes. */
  ghost predicate Lawful(c: Aead) {
    && (forall k, n, p, a :: c.open(k, n, c.seal(k, n, p, a), a) == Some(p))
    && (forall k, n, p, a :: |c.seal(k, n, p, a)| == |p| + 16)
  }

  /** Nothing sealed under additional data a opens under b. */
  ghost predicate Separates(c: Aead, a: string, b: string) {
    forall k, n, p :: c.open(k, n, c.seal(k, n, p, a), b) == None
  }

  function BigEndian(n: nat, width: nat): (b: Bytes)
    ensures |b| == width
  {
    if width == 0 then [] else BigEndian(n / 256, width - 1) + [n % 256]
  }

  function FromBigEndian(b: Bytes): nat {
    if b == [] then 0 else 256 * FromBigEndian(b[..|b| - 1]) + b[|b| - 1]
  }

  function Pow256(e: nat): nat {
    if e == 0 then 1 else 256 * Pow256(e - 1)
  }

  lemma {:induction false} BigEndianRoundTrip(n: nat, width: nat)
    requires n < Pow256(width)
    ensures FromBigEndian(BigEndian(n, width)) == n
  {
    if width > 0 {
      BigEndianRoundTrip(n / 256, width - 1);
      var b := BigEndian(n, width);
      assert b[..|b| - 1] == BigEndian(n / 256, width - 1);
    }
  }

  /** The random bytes one frame consumes. */
  datatype FrameRandom = FrameRandom(dek: Bytes, wrapNonce: Bytes, dataNonce: Bytes)

  predicate WellSized(r: FrameRandom) {
    |r.dek| == ROOT_KEY_BYTES && |r.wrapNonce| == 12 && |r.dataNonce| == 12
  }

  function Header(c: Aead, root: Bytes, m: Manifest, aad: string, length: nat, r: FrameRandom): Bytes {
    FRAME_MAGIC + BigEndian(m.keyEpoch, 8) + BigEndian(length, 4)
    + r.wrapNonce + c.seal(root, r.wrapNonce, r.dek, aad) + r.dataNonce
  }

  function EncryptFrame(c: Aead, root: Bytes, m: Manifest, locator: string, index: uint32,
                        plaintext: Bytes, r: FrameRandom): Result<Bytes, VaultError>
  {
    if |root| != ROOT_KEY_BYTES || |plaintext| == 0 then Err(Invalid)
    else
      var aad := FrameAad(GenerationOf(m), locator, index);
      Ok(Header(c, root, m, aad, |plaintext|, r) + c.seal(r.dek, r.dataNonce, plaintext, aad))
  }

  function DecryptFrame(c: Aead, root: Bytes, m: Manifest, locator: string, frame: FrameRecord,
                        envelope: Bytes): Result<Bytes, VaultError>
  {
    if |root| != ROOT_KEY_BYTES || |envelope| < FRAME_HEADER_BYTES || envelope[..8] != FRAME_MAGIC then Err(Corrupt)
    else if FromBigEndian(envelope[8..16]) != m.keyEpoch || FromBigEndian(envelope[16..20]) != frame.length then Err(Corrupt)
    else
      var aad := FrameAad(GenerationOf(m), locator, frame.index);
      var dek := c.open(root, envelope[20..32], envelope[32..80], aad);
      if dek.None? then Err(Corrupt)
      else
        var plaintext := c.open(dek.value, envelope[80..92], envelope[92..], aad);
        if plaintext.None? || |plaintext.value| != frame.length then Err(Corrupt) else Ok(plaintext.value)
  }

  lemma HeaderLayout(h: Bytes, magic: Bytes, epoch: Bytes, length: Bytes, wrapNonce: Bytes, wrapped: Bytes,
                     dataNonce: Bytes, body: Bytes)
    requires |magic| == 8 && |epoch| == 8 && |length| == 4 && |wrapNonce| == 12 && |wrapped| == 48 && |dataNonce| == 12
    requires h == magic + epoch + length + wrapNonce + wrapped + dataNonce
    ensures |h| == FRAME_HEADER_BYTES
    ensures var e := h + body;
            && e[..8] == magic && e[8..16] == epoch && e[16..20] == length && e[20..32] == wrapNonce
            && e[32..80] == wrapped && e[80..92] == dataNonce && e[92..] == body
  {
  }

  lemma EpochAndLengthFit(epoch: uint64, length: uint32)
    ensures FromBigEndian(BigEndian(epoch, 8)) == epoch
    ensures FromBigEndian(BigEndian(length, 4)) == length
  {
    assert Pow256(4) == 0x1_0000_0000;
    assert Pow256(8) == Pow256(4) * Pow256(4);
    BigEndianRoundTrip(epoch, 8);
    BigEndianRoundTrip(length, 4);
  }

  /** How a sealed envelope reads back under any record, locator and frame. */
  lemma DecryptOfEncrypt(c: Aead, root: Bytes, m: Manifest, locator: string, index: uint32, plaintext: Bytes,
                         r: FrameRandom, m': Manifest, locator': string, frame: FrameRecord)
    requires Lawful(c) && WellSized(r)
    requires |root| == ROOT_KEY_BYTES && 0 < |plaintext| < 0x1_0000_0000
    ensures EncryptFrame(c, root, m, locator, index, plaintext, r).Ok?
    ensures var envelope := EncryptFrame(c, root, m, locator, index, plaintext, r).value;
            var aad := FrameAad(GenerationOf(m), locator, index);
            var aad' := FrameAad(GenerationOf(m'), locator', frame.index);
            && |envelope| == FRAME_HEADER_BYTES + |plaintext| + 16
            && (m'.keyEpoch != m.keyEpoch || frame.length != |plaintext| ==>
                  DecryptFrame(c, root, m', locator', frame, envelope) == Err(Corrupt))
            && (m'.keyEpoch == m.keyEpoch && frame.length == |plaintext| && aad == aad' ==>
                  DecryptFrame(c, root, m', locator', frame, envelope) == Ok(plaintext))
            && (Separates(c, aad, aad') ==> DecryptFrame(c, root, m', locator', frame, envelope) == Err(Corrupt))
  {
    var aad := FrameAad(GenerationOf(m), locator, index);
    var wrapped := c.seal(root, r.wrapNonce, r.dek, aad);
    var body := c.seal(r.dek, r.dataNonce, plaintext, aad);
    var header := Header(c, root, m, aad, |plaintext|, r);
    HeaderLayout(header, FRAME_MAGIC, BigEndian(m.keyEpoch, 8), BigEndian(|plaintext|, 4), r.wrapNonce, wrapped,
                 r.dataNonce, body);
    EpochAndLengthFit(m.keyEpoch, |plaintext|);
  }

  /** A sealed frame opens exactly under the tuple it was sealed for. */
  lemma DecryptIffSameFrame(c: Aead, root: Bytes, m: Manifest, locator: string, index: uint32, plaintext: Bytes,
                            r: FrameRandom, m': Manifest, locator': string, frame: FrameRecord)
    requires Lawful(c) && WellSized(r)
    requires |root| == ROOT_KEY_BYTES && 0 < |plaintext| < 0x1_0000_0000
    requires var aad := FrameAad(GenerationOf(m), locator, index);
             var aad' := FrameAad(GenerationOf(m'), locator', frame.index);
             aad != aad' ==> Separates(c, aad, aad')
    ensures var sealed := EncryptFrame(c, root, m, locator, index, plaintext, r);
            sealed.Ok? &&
            (DecryptFrame(c, root, m', locator', frame, sealed.value) == Ok(plaintext)
             <==> GenerationOf(m') == GenerationOf(m) && locator' == locator && frame.index == index
                  && m'.keyEpoch == m.keyEpoch && frame.length == |plaintext|)
  {
    DecryptOfEncrypt(c, root, m, locator, index, plaintext, r, m', locator', frame);
    if FrameAad(GenerationOf(m), locator, index) == FrameAad(GenerationOf(m'), locator', frame.index) {
      FrameAadInjective(GenerationOf(m), locator, index, GenerationOf(m'), locator', frame.index);
    }
  }

  /** The envelope of a frame, part by part; both its key and its content are sealed under the frame's own data. */
  lemma EnvelopeLayout(c: Aead, root: Bytes, m: Manifest, locator: string, index: uint32, plaintext: Bytes, r: FrameRandom)
    requires |root| == 32 && |plaintext| > 0
    ensures var aad := FrameAad(GenerationOf(m), locator, index);
            EncryptFrame(c, root, m, locator, index, plaintext, r) ==
            Ok(['O' as int, 'U' as int, 'R' as int, 'O' as int, 'F' as int, 'R' as int, 'M' as int, '1' as int]
               + BigEndian(m.keyEpoch, 8) + BigEndian(|plaintext|, 4) + r.wrapNonce + c.seal(root, r.wrapNonce, r.dek, aad)
               + r.dataNonce + c.seal(r.dek, r.dataNonce, plaintext, aad))
  {
  }

  /** Neither layer can be exchanged: an envelope whose key, or whose content, was sealed for another frame does not
      open. */
  lemma BothLayersAreBound(c: Aead, root: Bytes, m: Manifest, locator: string, frame: FrameRecord, plaintext: Bytes,
                           r: FrameRandom, other: string)
    requires Lawful(c) && WellSized(r) && |root| == ROOT_KEY_BYTES && 0 < |plaintext| < 0x1_0000_0000
    requires Separates(c, other, FrameAad(GenerationOf(m), locator, frame.index))
    ensures var aad := FrameAad(GenerationOf(m), locator, frame.index);
            var mine, foreign := Header(c, root, m, aad, |plaintext|, r), Header(c, root, m, other, |plaintext|, r);
            && DecryptFrame(c, root, m, locator, frame, mine + c.seal(r.dek, r.dataNonce, plaintext, other)) == Err(Corrupt)
            && DecryptFrame(c, root, m, locator, frame, foreign + c.seal(r.dek, r.dataNonce, plaintext, aad)) == Err(Corrupt)
  {
    var aad := FrameAad(GenerationOf(m), locator, frame.index);
    var epoch, length := BigEndian(m.keyEpoch, 8), BigEndian(|plaintext|, 4);
    HeaderLayout(Header(c, root, m, aad, |plaintext|, r), FRAME_MAGIC, epoch, length, r.wrapNonce,
                 c.seal(root, r.wrapNonce, r.dek, aad), r.dataNonce, c.seal(r.dek, r.dataNonce, plaintext, other));
    HeaderLayout(Header(c, root, m, other, |plaintext|, r), FRAME_MAGIC, epoch, length, r.wrapNonce,
                 c.seal(root, r.wrapNonce, r.dek, other), r.dataNonce, c.seal(r.dek, r.dataNonce, plaintext, aad));
  }
}
