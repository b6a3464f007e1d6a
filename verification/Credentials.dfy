/** The credential pipeline of pkg/gate/authenticator.go over an arbitrary invertible block cipher: PKCS#7 padding
    (section 6.3 of RFC 5652), cipher block chaining (section 6.2 of NIST SP 800-38A), the IV in front, base64
    around. */
module Credentials {
  import opened Base64
  import opened Options

  const BLOCK := 16

  type Bytes = seq<bv8>

  /** A keyed permutation of blocks and its inverse. */
  datatype Cipher = Cipher(enc: (Bytes, Bytes) -> Bytes, dec: (Bytes, Bytes) -> Bytes)

  ghost predicate Invertible(c: Cipher) {
    forall key, b: Bytes :: |b| == BLOCK ==> |c.enc(key, b)| == BLOCK && c.dec(key, c.enc(key, b)) == b
  }

  /** Err is an error value the code returns, Panic a run-time panic (a slice out of range, a partial block). */
  datatype Result<T> = Ok(value: T) | Err | Panic

  function Zeros(n: nat): (r: Bytes)
    ensures |r| == n
  {
    seq(n, _ => 0)
  }

  /** `NewAesCBCCrypto`: the key is filled up with zeros to 16, 24 or 32 bytes, or cut at 32. */
  function FitKey(key: Bytes): (r: Bytes)
    ensures |r| in {16, 24, 32}
    ensures |key| in {16, 24, 32} ==> r == key
    ensures (|key| <= 16 ==> |r| == 16) && (|key| <= 24 ==> |r| <= 24)
    ensures |key| <= 32 ==> key <= r && forall i :: |key| <= i < |r| ==> r[i] == 0
    ensures |key| > 32 ==> r == key[..32]
  {
    if |key| <= 16 then key + Zeros(16 - |key|)
    else if |key| <= 24 then key + Zeros(24 - |key|)
    else if |key| <= 32 then key + Zeros(32 - |key|)
    else key[..32]
  }

  /** The IV actually used: filled up with zeros or cut to one block. */
  function FitIV(iv: Bytes): (r: Bytes)
    ensures |r| == BLOCK
    ensures |iv| >= BLOCK ==> r == iv[..BLOCK]
    ensures |iv| < BLOCK ==> iv <= r && forall i :: |iv| <= i < BLOCK ==> r[i] == 0
  {
    if |iv| < BLOCK then iv + Zeros(BLOCK - |iv|) else iv[..BLOCK]
  }

  function PadLength(n: nat): (p: nat)
    ensures 1 <= p <= BLOCK && (n + p) % BLOCK == 0
  {
    BLOCK - n % BLOCK
  }

  function Pad(src: Bytes): Bytes {
    var p := PadLength(|src|);
    src + seq(p, _ => p as bv8)
  }

  /** What `Decrypt` does with the last byte: it trusts it, up to the length of the data. */
  function Unpad(dst: Bytes): Result<Bytes> {
    if |dst| == 0 then Err
    else
      var n := dst[|dst| - 1] as int;
      if |dst| < n then Err else Ok(dst[..|dst| - n])
  }

  lemma ByteOfPadding(p: nat)
    requires 1 <= p <= BLOCK
    ensures (p as bv8) as int == p
  {}

  lemma UnpadPad(src: Bytes)
    ensures Unpad(Pad(src)) == Ok(src) && |Pad(src)| % BLOCK == 0 && |Pad(src)| > 0
    ensures |src| < |Pad(src)| <= |src| + BLOCK && src <= Pad(src)
    ensures forall i :: |src| <= i < |Pad(src)| ==> Pad(src)[i] as int == |Pad(src)| - |src|
  {
    ByteOfPadding(PadLength(|src|));
  }

  function Xor(a: Bytes, b: Bytes): (r: Bytes)
    requires |a| == |b|
    ensures |r| == |a|
  {
    seq(|a|, i requires 0 <= i < |a| => a[i] ^ b[i])
  }

  lemma XorByte(x: bv8, y: bv8)
    ensures (x ^ y) ^ y == x
  {}

  lemma XorTwice(a: Bytes, b: Bytes)
    requires |a| == |b|
    ensures Xor(Xor(a, b), b) == a
  {
    forall i | 0 <= i < |a| ensures Xor(Xor(a, b), b)[i] == a[i] {
      XorByte(a[i], b[i]);
    }
  }

  /** CBC encryption; `prev` is the block chained in. */
  function CbcEncrypt(c: Cipher, key: Bytes, prev: Bytes, src: Bytes): Bytes
    requires |prev| == BLOCK && |src| % BLOCK == 0
    requires forall b: Bytes :: |b| == BLOCK ==> |c.enc(key, b)| == BLOCK
    decreases |src|
  {
    if src == [] then []
    else
      var b := c.enc(key, Xor(src[..BLOCK], prev));
      b + CbcEncrypt(c, key, b, src[BLOCK..])
  }

  function CbcDecrypt(c: Cipher, key: Bytes, prev: Bytes, src: Bytes): Bytes
    requires |prev| == BLOCK && |src| % BLOCK == 0
    decreases |src|
  {
    if src == [] then []
    else
      var b := c.dec(key, src[..BLOCK]);
      (if |b| == BLOCK then Xor(b, prev) else b) + CbcDecrypt(c, key, src[..BLOCK], src[BLOCK..])
  }

  lemma {:induction false} CbcRoundTrip(c: Cipher, key: Bytes, prev: Bytes, src: Bytes)
    requires Invertible(c) && |prev| == BLOCK && |src| % BLOCK == 0
    ensures |CbcEncrypt(c, key, prev, src)| == |src|
    ensures CbcDecrypt(c, key, prev, CbcEncrypt(c, key, prev, src)) == src
    decreases |src|
  {
    if src != [] {
      var x := Xor(src[..BLOCK], prev);
      var b := c.enc(key, x);
      var rest := CbcEncrypt(c, key, b, src[BLOCK..]);
      CbcRoundTrip(c, key, b, src[BLOCK..]);
      XorTwice(src[..BLOCK], prev);
      assert (b + rest)[..BLOCK] == b && (b + rest)[BLOCK..] == rest;
      assert c.dec(key, b) == x;
      assert src == src[..BLOCK] + src[BLOCK..];
    }
  }

  function BlockAt(s: Bytes, i: nat): (b: Bytes)
    requires BLOCK * i + BLOCK <= |s|
    ensures |b| == BLOCK
  {
    s[BLOCK * i..BLOCK * i + BLOCK]
  }

  /** Block i of the ciphertext is the cipher of block i of the text, combined with the block before. */
  lemma {:induction false} CbcChaining(c: Cipher, key: Bytes, prev: Bytes, src: Bytes, i: nat)
    requires Invertible(c) && |prev| == BLOCK && |src| % BLOCK == 0 && BLOCK * i + BLOCK <= |src|
    ensures |CbcEncrypt(c, key, prev, src)| == |src|
    ensures var out := CbcEncrypt(c, key, prev, src);
            BlockAt(out, i) == c.enc(key, Xor(BlockAt(src, i), if i == 0 then prev else BlockAt(out, i - 1)))
    decreases i
  {
    CbcRoundTrip(c, key, prev, src);
    var b := c.enc(key, Xor(src[..BLOCK], prev));
    var rest := CbcEncrypt(c, key, b, src[BLOCK..]);
    CbcRoundTrip(c, key, b, src[BLOCK..]);
    var out := b + rest;
    assert out == CbcEncrypt(c, key, prev, src);
    assert BlockAt(out, 0) == b && BlockAt(src, 0) == src[..BLOCK];
    if i > 0 {
      CbcChaining(c, key, b, src[BLOCK..], i - 1);
      assert BlockAt(out, i) == BlockAt(rest, i - 1) && BlockAt(src, i) == BlockAt(src[BLOCK..], i - 1);
      assert i > 1 ==> BlockAt(out, i - 1) == BlockAt(rest, i - 2);
    }
  }

  /** `Encrypt` under the key the crypto object was made with. */
  function Encrypt(c: Cipher, key: Bytes, src: Bytes, iv: Bytes): Bytes
    requires forall k, b: Bytes :: |b| == BLOCK ==> |c.enc(k, b)| == BLOCK
  {
    UnpadPad(src);
    CbcEncrypt(c, FitKey(key), FitIV(iv), Pad(src))
  }

  /** `Decrypt`; a partial last block panics in the block mode. */
  function Decrypt(c: Cipher, key: Bytes, src: Bytes, iv: Bytes): Result<Bytes> {
    if |src| % BLOCK != 0 then Panic else Unpad(CbcDecrypt(c, FitKey(key), FitIV(iv), src))
  }

  /** Decryption undoes encryption: every payload, key of any length, IV of any length. */
  lemma DecryptEncrypt(c: Cipher, key: Bytes, src: Bytes, iv: Bytes)
    requires Invertible(c)
    ensures Decrypt(c, key, Encrypt(c, key, src, iv), iv) == Ok(src)
    ensures |Encrypt(c, key, src, iv)| == |src| + PadLength(|src|)
  {
    UnpadPad(src);
    CbcRoundTrip(c, FitKey(key), FitIV(iv), Pad(src));
  }

  // What key and IV do, through their own properties.

  /** K is the key as AES takes it: filled up with zeros to the next of 16, 24 and 32 bytes, or cut at 32. */
  ghost predicate FitsKey(key: Bytes, K: Bytes) {
    && |K| == (if |key| <= 16 then 16 else if |key| <= 24 then 24 else 32)
    && (forall j :: 0 <= j < |K| ==> K[j] == if j < |key| then key[j] else 0)
  }

  /** V is the IV filled up with zeros or cut to one block. */
  ghost predicate FitsIV(iv: Bytes, V: Bytes) {
    |V| == 16 && forall j :: 0 <= j < 16 ==> V[j] == if j < |iv| then iv[j] else 0
  }

  lemma FitUnique(key: Bytes, K: Bytes, iv: Bytes, V: Bytes)
    requires FitsKey(key, K) && FitsIV(iv, V)
    ensures FitKey(key) == K && FitIV(iv) == V
  {}

  /** P is the text with 1 to 16 bytes behind it, each their number, in whole blocks. */
  ghost predicate Padded(src: Bytes, P: Bytes) {
    && src <= P && 1 <= |P| - |src| <= 16 && |P| % 16 == 0
    && (forall j :: |src| <= j < |P| ==> P[j] as int == |P| - |src|)
  }

  lemma PadUnique(src: Bytes, P: Bytes)
    requires Padded(src, P)
    ensures Pad(src) == P
  {
    UnpadPad(src);
    var Q := Pad(src);
    assert |P| == |Q|;
    forall j | 0 <= j < |P| ensures P[j] == Q[j] {
      if j >= |src| {
        SameByte(P[j], Q[j]);
      }
    }
  }

  lemma SameByte(x: bv8, y: bv8)
    requires x as int == y as int
    ensures x == y
  {}

  /** The output is as long as the padded text, and block i of it is the cipher, under the fitted key, of block i of the
      padded text combined byte by byte with the block before it, or with the fitted IV. */
  lemma EncryptBlock(c: Cipher, key: Bytes, src: Bytes, iv: Bytes, K: Bytes, V: Bytes, P: Bytes, X: Bytes, i: nat)
    requires Invertible(c) && FitsKey(key, K) && FitsIV(iv, V) && Padded(src, P) && 16 * i + 16 <= |P|
    ensures var out := Encrypt(c, key, src, iv);
            && |out| == |P|
            && (|X| == 16
                && (forall j :: 0 <= j < 16 ==> X[j] == P[16 * i + j] ^ (if i == 0 then V[j] else out[16 * i + j - 16]))
                ==> out[16 * i..16 * i + 16] == c.enc(K, X))
  {
    FitUnique(key, K, iv, V);
    PadUnique(src, P);
    CbcChaining(c, K, V, P, i);
    var out := Encrypt(c, key, src, iv);
    var Y := Xor(BlockAt(P, i), if i == 0 then V else BlockAt(out, i - 1));
    if && |X| == 16
       && forall j :: 0 <= j < 16 ==> X[j] == P[16 * i + j] ^ (if i == 0 then V[j] else out[16 * i + j - 16])
    {
      assert X == Y;
    }
  }

  /** D is, byte by byte, the inverse cipher under K of each block combined with the block before it, or with V. */
  ghost predicate Unchained(c: Cipher, K: Bytes, V: Bytes, src: Bytes, D: Bytes)
    requires |V| == 16 && |src| % 16 == 0 && forall b: Bytes :: |b| == 16 ==> |c.dec(K, b)| == 16
  {
    |D| == |src| && forall k :: 0 <= k < |D| ==>
      D[k] == c.dec(K, BlockAt(src, k / 16))[k % 16] ^ (if k < 16 then V[k] else src[k - 16])
  }

  lemma UnchainedRest(c: Cipher, K: Bytes, V: Bytes, src: Bytes, D: Bytes)
    requires |V| == 16 && |src| % 16 == 0 && forall b: Bytes :: |b| == 16 ==> |c.dec(K, b)| == 16
    requires src != [] && Unchained(c, K, V, src, D)
    ensures Unchained(c, K, src[..16], src[16..], D[16..])
  {
    var head, rest := src[..16], src[16..];
    forall k | 0 <= k < |rest|
      ensures D[16..][k] == c.dec(K, BlockAt(rest, k / 16))[k % 16] ^ (if k < 16 then head[k] else rest[k - 16])
    {
      assert D[k + 16] == c.dec(K, BlockAt(src, (k + 16) / 16))[(k + 16) % 16] ^ src[k];
      NextBlock(src, k);
    }
  }

  lemma NextBlock(src: Bytes, k: nat)
    requires |src| % 16 == 0 && k + 16 < |src|
    ensures (k + 16) % 16 == k % 16 && BlockAt(src, (k + 16) / 16) == BlockAt(src[16..], k / 16)
  {}

  lemma UnchainedFirst(c: Cipher, K: Bytes, V: Bytes, src: Bytes, D: Bytes)
    requires |V| == 16 && |src| % 16 == 0 && forall b: Bytes :: |b| == 16 ==> |c.dec(K, b)| == 16
    requires src != [] && Unchained(c, K, V, src, D)
    ensures D[..16] == Xor(c.dec(K, src[..16]), V)
  {
    assert BlockAt(src, 0) == src[..16];
    forall k | 0 <= k < 16 ensures D[k] == c.dec(K, src[..16])[k] ^ V[k] {
      assert D[k] == c.dec(K, BlockAt(src, k / 16))[k % 16] ^ V[k];
    }
  }

  lemma {:induction false} CbcDecryptUnchained(c: Cipher, K: Bytes, V: Bytes, src: Bytes, D: Bytes)
    requires |V| == 16 && |src| % 16 == 0 && forall b: Bytes :: |b| == 16 ==> |c.dec(K, b)| == 16
    requires Unchained(c, K, V, src, D)
    ensures CbcDecrypt(c, K, V, src) == D
    decreases |src|
  {
    assert |D| == |src|;
    hide Unchained, Xor;
    if src != [] {
      UnchainedFirst(c, K, V, src, D);
      UnchainedRest(c, K, V, src, D);
      CbcDecryptUnchained(c, K, src[..16], src[16..], D[16..]);
      assert D == D[..16] + D[16..];
    }
  }

  /** `Decrypt` panics exactly on a partial block; otherwise it undoes the chaining under the fitted key and IV and
      takes off as many bytes as the last one says, if there are that many. */
  lemma DecryptExact(c: Cipher, key: Bytes, src: Bytes, iv: Bytes, K: Bytes, V: Bytes, D: Bytes)
    requires FitsKey(key, K) && FitsIV(iv, V) && forall b: Bytes :: |b| == 16 ==> |c.dec(K, b)| == 16
    ensures Decrypt(c, key, src, iv).Panic? <==> |src| % 16 != 0
    ensures |src| % 16 == 0 && Unchained(c, K, V, src, D) ==>
              Decrypt(c, key, src, iv)
              == if D == [] || D[|D| - 1] as int > |D| then Err else Ok(D[..|D| - D[|D| - 1] as int])
  {
    FitUnique(key, K, iv, V);
    if |src| % 16 == 0 && Unchained(c, K, V, src, D) {
      CbcDecryptUnchained(c, K, V, src, D);
    }
  }

  /** The JSON codec of the credentials. */
  datatype Json<!T> = Json(marshal: T -> Bytes, unmarshal: Bytes -> Option<T>)

  /** `EncryptCredentials` on the random IV it draws. */
  function EncryptCredentials<T>(c: Cipher, j: Json<T>, key: Bytes, x: T, iv: Bytes): Bytes
    requires forall k, b: Bytes :: |b| == BLOCK ==> |c.enc(k, b)| == BLOCK
    requires |iv| == BLOCK
  {
    Encode(iv + Encrypt(c, key, j.marshal(x), iv))
  }

  /** `DecryptCredentials`: the buffer is sized from the text, line breaks included, and zero where nothing was
      decoded; one shorter than a block panics. */
  function DecryptCredentials<T>(c: Cipher, j: Json<T>, key: Bytes, src: Bytes): Result<T> {
    var decoded := Decode(src);
    if decoded.None? then Err
    else
      var n := DecodedLen(|src|);
      var encrypt := decoded.value + Zeros(if |decoded.value| <= n then n - |decoded.value| else 0);
      if |encrypt| < BLOCK then Panic
      else
        match Decrypt(c, key, encrypt[BLOCK..], encrypt[..BLOCK])
        case Err => Err
        case Panic => Panic
        case Ok(json) =>
          var x := j.unmarshal(json);
          if x.None? then Err else Ok(x.value)
  }

  /** The whole pipeline: credentials encrypted under a key come back under that key, for every IV. */
  lemma CredentialsRoundTrip<T>(c: Cipher, j: Json<T>, key: Bytes, x: T, iv: Bytes)
    requires Invertible(c) && |iv| == BLOCK && j.unmarshal(j.marshal(x)) == Some(x)
    ensures DecryptCredentials(c, j, key, EncryptCredentials(c, j, key, x, iv)) == Ok(x)
  {
    var body := Encrypt(c, key, j.marshal(x), iv);
    DecryptEncrypt(c, key, j.marshal(x), iv);
    DecodeEncode(iv + body);
    assert iv + body + Zeros(0) == iv + body;
    assert (iv + body)[..BLOCK] == iv && (iv + body)[BLOCK..] == body;
  }

  /** The text stands for the IV, in the first 16 bytes, and the encrypted credentials behind it. */
  lemma CredentialsLayout<T>(c: Cipher, j: Json<T>, key: Bytes, x: T, iv: Bytes)
    requires Invertible(c) && |iv| == BLOCK
    ensures var text := Decode(EncryptCredentials(c, j, key, x, iv));
            && text.Some? && |text.value| >= 16
            && text.value[..16] == iv && text.value[16..] == Encrypt(c, key, j.marshal(x), iv)
  {
    DecodeEncode(iv + Encrypt(c, key, j.marshal(x), iv));
  }

  /** A text panics exactly if it decodes and its length does not stand for an IV and whole blocks. */
  lemma DecryptPanics<T>(c: Cipher, j: Json<T>, key: Bytes, src: Bytes)
    ensures DecryptCredentials(c, j, key, src).Panic? <==>
              && (forall ch <- src :: IsBreak(ch) || Value(ch).Some?) && |WithoutBreaks(src)| % 4 != 1
              && (DecodedLen(|src|) < BLOCK || DecodedLen(|src|) % BLOCK != 0)
  {
    hide Decode, DecodedLen, IsBreak, Value, WithoutBreaks, CbcDecrypt, FitIV, FitKey;
    DecodeExact(src);
  }

  /** The check on the length of the credentials lets through texts that panic: all texts of letters, 5 to 21 of
      them, that do not leave a single one over. */
  lemma ShortTextPanics<T>(c: Cipher, j: Json<T>, key: Bytes, src: Bytes)
    requires 5 <= |src| <= 21 && |src| % 4 != 1 && forall ch <- src :: Value(ch).Some?
    ensures DecryptCredentials(c, j, key, src).Panic?
  {
    hide DecryptCredentials, WithoutBreaks;
    DecryptPanics(c, j, key, src);
    NoBreaks(src);
  }
}
