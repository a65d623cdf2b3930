/** USM crypto plumbing (mock-snmp-agent/src/usm.rs): password stretching, the
    AES-CFB initialisation vector and the CFB chaining, over an arbitrary hash
    and an arbitrary block function. */
module Usm {
  import opened Numbers
  import opened ByteSearch
  import opened AuthTag

  const PRIV_KEY_LEN: nat := 16

  type Hash = seq<byte> -> Digest

  /** One AES block. */
  type Block = s: seq<byte> | |s| == 16 witness seq(16, i => 0)

  type BlockCipher = (seq<byte>, Block) -> Block

  // ----- Key derivation (RFC 3414 appendix A.2) -----

  /** The first `n` bytes of the password repeated for ever. */
  function Stretched(password: seq<byte>, n: nat): (s: seq<byte>)
    requires password != []
    ensures |s| == n
    ensures forall i | 0 <= i < n :: s[i] == password[i % |password|]
  {
    seq(n, i requires 0 <= i < n => password[i % |password|])
  }

  /** The hash of the stretched megabyte, localized to an engine. */
  function LocalizedKey(hash: Hash, password: seq<byte>, engineId: seq<byte>): (r: Digest)
    requires password != []
  {
    var key := hash(Stretched(password, 1_048_576));
    hash(key + engineId + key)
  }

  /** An incremental hasher: it hashes the concatenation of its updates. */
  class Hasher {
    var fed: seq<byte>

    constructor ()
      ensures fed == []
    {
      fed := [];
    }

    method Update(bytes: seq<byte>)
      modifies this
      ensures fed == old(fed) + bytes
    {
      fed := fed + bytes;
    }

    method Finalize(hash: Hash) returns (d: Digest)
      ensures d == hash(fed)
    {
      d := hash(fed);
    }
  }

  /** `derive_localized_key`: 16384 rounds of a 64-byte buffer filled through a
      wrapping password index. The source indexes an empty password and panics. */
  method DeriveLocalizedKey(hash: Hash, password: seq<byte>, engineId: seq<byte>) returns (key: Digest)
    requires password != []
    ensures key == LocalizedKey(hash, password, engineId)
    ensures exists long: seq<byte>, digest: seq<byte> ::
              && |long| == 1_048_576 && (forall i | 0 <= i < |long| :: long[i] == password[i % |password|])
              && digest == hash(long) && key == hash(digest + engineId + digest)
  {
    var hasher := new Hasher();
    var passwordIndex := 0;
    var buf := new byte[64](i => 0);
    for round := 0 to 16_384
      invariant fresh(hasher) && fresh(buf)
      invariant passwordIndex == (64 * round) % |password|
      invariant hasher.fed == Stretched(password, 64 * round)
    {
      passwordIndex := FillBuffer(buf, password, passwordIndex, 64 * round);
      ghost var before := hasher.fed;
      hasher.Update(buf[..]);
      StretchOn(password, 64 * round, before, buf[..]);
    }
    var digest := hasher.Finalize(hash);
    var localize := new Hasher();
    localize.Update(digest);
    localize.Update(engineId);
    localize.Update(digest);
    key := localize.Finalize(hash);
    assert [] + digest == digest;
    ghost var long := Stretched(password, 1_048_576);
    assert key == hash(digest + engineId + digest) && digest == hash(long);
  }

  /** The inner loop: fill the buffer from password position `at % len`. */
  method FillBuffer(buf: array<byte>, password: seq<byte>, start: nat, ghost at: nat) returns (passwordIndex: nat)
    requires password != [] && start == at % |password|
    modifies buf
    ensures passwordIndex == (at + buf.Length) % |password|
    ensures forall j | 0 <= j < buf.Length :: buf[j] == password[(at + j) % |password|]
  {
    passwordIndex := start;
    for j := 0 to buf.Length
      invariant passwordIndex == (at + j) % |password| < |password|
      invariant forall k | 0 <= k < j :: buf[k] == password[(at + k) % |password|]
    {
      buf[j] := password[passwordIndex];
      NextIndex(at + j, |password|);
      passwordIndex := (passwordIndex + 1) % |password|;
    }
  }

  lemma NextIndex(i: nat, n: nat)
    requires n > 0
    ensures (i % n + 1) % n == (i + 1) % n
  {
    var q, r := i / n, i % n;
    if r + 1 < n {
      QuotientUnique(i + 1, n, q, r + 1);
    } else {
      Regroup(1, n, q, 1);
      QuotientUnique(i + 1, n, q + 1, 0);
    }
  }

  lemma StretchOn(password: seq<byte>, n: nat, fed: seq<byte>, more: seq<byte>)
    requires password != [] && fed == Stretched(password, n)
    requires forall j | 0 <= j < |more| :: more[j] == password[(n + j) % |password|]
    ensures fed + more == Stretched(password, n + |more|)
  {
  }

  function Repeat(password: seq<byte>, k: nat): (r: seq<byte>)
    ensures |r| == k * |password|
  {
    if k == 0 then [] else Repeat(password, k - 1) + password
  }

  lemma {:induction false} RepeatAt(password: seq<byte>, k: nat, i: nat)
    requires password != [] && i < |Repeat(password, k)|
    ensures Repeat(password, k)[i] == password[i % |password|]
  {
    var n, before := |password|, (k - 1) * |password|;
    if i < before {
      RepeatAt(password, k - 1, i);
    } else {
      assert i == n * (k - 1) + (i - before);
      QuotientUnique(i, n, k - 1, i - before);
    }
  }

  lemma Regroup(k: int, n: int, q: int, inner: int)
    ensures k * n * q + n * inner == n * (k * q + inner)
  {
    assert k * n * q == n * (k * q);
  }

  lemma ModOfMultiple(i: nat, n: nat, k: nat)
    requires n > 0 && k > 0
    ensures k * n > 0 && (i % (k * n)) % n == i % n
  {
    var m := k * n;
    assert m > 0;
    var q, x := i / m, i % m;
    var inner, rest := x / n, x % n;
    Regroup(k, n, q, inner);
    assert i == m * q + x;
    assert x == n * inner + rest;
    assert 0 <= k * q;
    QuotientUnique(i, n, k * q + inner, rest);
  }

  /** A password and any whole number of repetitions of it derive the same key
      on every engine. */
  lemma RepetitionsShareKeys(hash: Hash, password: seq<byte>, k: nat, engineId: seq<byte>)
    requires password != [] && k > 0
    ensures Repeat(password, k) != []
    ensures LocalizedKey(hash, Repeat(password, k), engineId) == LocalizedKey(hash, password, engineId)
  {
    var long := Repeat(password, k);
    ModOfMultiple(0, |password|, k);
    forall i: nat | i < 1_048_576
      ensures Stretched(long, 1_048_576)[i] == Stretched(password, 1_048_576)[i]
    {
      ModOfMultiple(i, |password|, k);
      RepeatAt(password, k, i % |long|);
    }
    assert Stretched(long, 1_048_576) == Stretched(password, 1_048_576);
  }

  // ----- Initialisation vector (RFC 3826 section 3.1.2.1) -----

  /** `u32::to_be_bytes`. */
  function BigEndian(n: u32): (r: seq<byte>)
    ensures |r| == 4
  {
    [n / 0x100_0000, n / 0x1_0000 % 256, n / 256 % 256, n % 256]
  }

  lemma BigEndianInjective(m: u32, n: u32)
    requires BigEndian(m) == BigEndian(n)
    ensures m == n
  {
    SameOctets(BigEndian(m), BigEndian(n));
    DigitsOf(m);
    DigitsOf(n);
  }

  lemma SameOctets(a: seq<byte>, b: seq<byte>)
    requires a == b && |a| == 4
    ensures a[0] == b[0] && a[1] == b[1] && a[2] == b[2] && a[3] == b[3]
  {
  }

  lemma DigitsOf(n: u32)
    ensures n == ((n / 0x100_0000 * 256 + n / 0x1_0000 % 256) * 256 + n / 256 % 256) * 256 + n % 256
  {
    assert n / 256 == n / 0x1_0000 * 256 + n / 256 % 256;
    assert n / 0x1_0000 == n / 0x100_0000 * 256 + n / 0x1_0000 % 256;
  }

  /** boots, time, then the first eight salt bytes; shorter salts panic. */
  function Iv(boots: u32, time: u32, salt: seq<byte>): (r: Block)
    requires |salt| >= 8
  {
    BigEndian(boots) + BigEndian(time) + salt[..8]
  }

  function FourOctets(a: int, b: int, c: int, d: int): (n: int) {
    0x100_0000 * a + 0x1_0000 * b + 0x100 * c + d
  }

  /** Read back: four big-endian bytes of boots, four of time, then the salt. */
  lemma IvReads(boots: u32, time: u32, salt: seq<byte>)
    requires |salt| >= 8
    ensures
      var v := Iv(boots, time, salt);
      && FourOctets(v[0], v[1], v[2], v[3]) == boots && FourOctets(v[4], v[5], v[6], v[7]) == time
      && forall i | 0 <= i < 8 :: v[8 + i] == salt[i]
  {
    DigitsOf(boots);
    DigitsOf(time);
  }

  method BuildIv(boots: u32, time: u32, salt: seq<byte>) returns (iv: array<byte>)
    requires |salt| >= 8
    ensures fresh(iv) && iv[..] == Iv(boots, time, salt)
  {
    iv := new byte[16](i => 0);
    for i := 0 to 4
      invariant forall k | 0 <= k < i :: iv[k] == BigEndian(boots)[k]
      invariant forall k | 0 <= k < i :: iv[4 + k] == BigEndian(time)[k]
    {
      iv[i], iv[4 + i] := BigEndian(boots)[i], BigEndian(time)[i];
    }
    for i := 0 to 8
      invariant forall k | 0 <= k < 4 :: iv[k] == BigEndian(boots)[k] && iv[4 + k] == BigEndian(time)[k]
      invariant forall k | 0 <= k < i :: iv[8 + k] == salt[k]
    {
      iv[8 + i] := salt[i];
    }
  }

  /** Different boots, times or 8-byte salts give different vectors. */
  lemma IvInjective(b1: u32, t1: u32, s1: seq<byte>, b2: u32, t2: u32, s2: seq<byte>)
    requires |s1| == 8 && |s2| == 8 && Iv(b1, t1, s1) == Iv(b2, t2, s2)
    ensures b1 == b2 && t1 == t2 && s1 == s2
  {
    var v, w := Iv(b1, t1, s1), Iv(b2, t2, s2);
    assert v[..4] == BigEndian(b1) && w[..4] == BigEndian(b2);
    assert v[4..8] == BigEndian(t1) && w[4..8] == BigEndian(t2);
    assert v[8..] == s1 && w[8..] == s2;
    BigEndianInjective(b1, b2);
    BigEndianInjective(t1, t2);
  }

  // ----- CFB chaining -----

  /** Exclusive-or of the low `n` bits. */
  function XorBits(a: nat, b: nat, n: nat): (r: nat)
    ensures r < Exp2(n)
  {
    if n == 0 then 0 else 2 * XorBits(a / 2, b / 2, n - 1) + (a + b) % 2
  }

  function Exp2(n: nat): (r: nat) {
    if n == 0 then 1 else 2 * Exp2(n - 1)
  }

  lemma {:induction false} XorBitsTwice(a: nat, b: nat, n: nat)
    requires a < Exp2(n)
    ensures XorBits(XorBits(a, b, n), b, n) == a
  {
    if n > 0 {
      var h := XorBits(a / 2, b / 2, n - 1);
      var r := 2 * h + (a + b) % 2;
      assert r / 2 == h && r % 2 == (a + b) % 2;
      XorBitsTwice(a / 2, b / 2, n - 1);
      Parity(a, b, r);
    }
  }

  lemma Parity(a: nat, b: nat, r: nat)
    requires r % 2 == (a + b) % 2
    ensures (r + b) % 2 == a % 2
  {
  }

  function Xor(a: byte, b: byte): (r: byte) {
    ByteRange();
    XorBits(a, b, 8)
  }

  lemma ByteRange()
    ensures Exp2(8) == 256
  {
    assert Exp2(4) == 16;
  }

  lemma XorTwice(a: byte, b: byte)
    ensures Xor(Xor(a, b), b) == a
  {
    ByteRange();
    XorBitsTwice(a, b, 8);
  }

  /** Bit `k` of a number. */
  function Bit(x: nat, k: nat): (r: nat) {
    if k == 0 then x % 2 else Bit(x / 2, k - 1)
  }

  lemma {:induction false} XorBitAt(a: nat, b: nat, n: nat, k: nat)
    requires k < n
    ensures Bit(XorBits(a, b, n), k) == (Bit(a, k) + Bit(b, k)) % 2
  {
    if k > 0 {
      XorBitAt(a / 2, b / 2, n - 1, k - 1);
    }
  }

  /** Exclusive or, bit by bit. */
  lemma XorIsBitwise(a: byte, b: byte)
    ensures forall k: nat | k < 8 :: Bit(Xor(a, b), k) == 1 <==> Bit(a, k) != Bit(b, k)
  {
    forall k: nat | k < 8
      ensures Bit(Xor(a, b), k) == 1 <==> Bit(a, k) != Bit(b, k)
    {
      XorBitAt(a, b, 8, k);
      BitIsBit(a, k);
      BitIsBit(b, k);
    }
  }

  lemma {:induction false} BitIsBit(x: nat, k: nat)
    ensures Bit(x, k) == 0 || Bit(x, k) == 1
  {
    if k > 0 {
      BitIsBit(x / 2, k - 1);
    }
  }

  /** Combine with as much key stream as there is text. */
  function XorWith(text: seq<byte>, stream: Block): (r: seq<byte>)
    requires |text| <= 16
    ensures |r| == |text|
  {
    seq(|text|, i requires 0 <= i < |text| => Xor(text[i], stream[i]))
  }

  /** CFB128 encryption: each ciphertext block is the next cipher input; the last
      block may be partial. */
  function CfbEncrypt(cipher: Block -> Block, iv: Block, text: seq<byte>): (r: seq<byte>)
    ensures |r| == |text|
    decreases |text|
  {
    if |text| <= 16 then XorWith(text, cipher(iv))
    else
      var c := XorWith(text[..16], cipher(iv));
      c + CfbEncrypt(cipher, c, text[16..])
  }

  function CfbDecrypt(cipher: Block -> Block, iv: Block, text: seq<byte>): (r: seq<byte>)
    ensures |r| == |text|
    decreases |text|
  {
    if |text| <= 16 then XorWith(text, cipher(iv))
    else XorWith(text[..16], cipher(iv)) + CfbDecrypt(cipher, text[..16], text[16..])
  }

  /** The end of block `b`, the last one possibly short. */
  function BlockEnd(text: seq<byte>, b: nat): (r: nat) {
    if 16 * b + 16 < |text| then 16 * b + 16 else |text|
  }

  /** Every ciphertext block is the plaintext block combined with the enciphered
      previous ciphertext block, the first one with the enciphered vector
      (RFC 3826 section 3.1.1). */
  lemma {:induction false} CiphertextBlock(cipher: Block -> Block, iv: Block, text: seq<byte>, b: nat)
    requires 16 * b < |text|
    ensures
      var c := CfbEncrypt(cipher, iv, text);
      var prev := if b == 0 then iv else c[16 * b - 16..16 * b];
      c[16 * b..BlockEnd(text, b)] == XorWith(text[16 * b..BlockEnd(text, b)], cipher(prev))
    decreases b
  {
    if |text| <= 16 {
      Whole(text);
      Whole(CfbEncrypt(cipher, iv, text));
    } else {
      var first := XorWith(text[..16], cipher(iv));
      var rest := CfbEncrypt(cipher, first, text[16..]);
      var end := BlockEnd(text, b);
      Whole(text[..16]);
      if b == 0 {
        assert (first + rest)[0..16] == first;
      } else {
        CiphertextBlock(cipher, first, text[16..], b - 1);
        Shifted(text[..16], text[16..], 16 * b - 16, end - 16);
        Shifted(first, rest, 16 * b - 16, end - 16);
        assert text[..16] + text[16..] == text;
        if b == 1 {
          assert (first + rest)[0..16] == first;
        } else {
          Shifted(first, rest, 16 * b - 32, 16 * b - 16);
        }
      }
    }
  }

  lemma Whole(s: seq<byte>)
    ensures s[0..|s|] == s
  {
  }

  lemma Shifted(first: seq<byte>, rest: seq<byte>, from: nat, to: nat)
    requires |first| == 16 && from <= to <= |rest|
    ensures (first + rest)[from + 16..to + 16] == rest[from..to]
  {
  }

  lemma XorWithTwice(text: seq<byte>, stream: Block)
    requires |text| <= 16
    ensures XorWith(XorWith(text, stream), stream) == text
  {
    forall i | 0 <= i < |text|
      ensures XorWith(XorWith(text, stream), stream)[i] == text[i]
    {
      XorTwice(text[i], stream[i]);
    }
  }

  /** For every block function, text length and vector, decryption undoes
      encryption: the block function is never inverted. */
  lemma {:induction false} CfbRoundTrip(cipher: Block -> Block, iv: Block, text: seq<byte>)
    ensures CfbDecrypt(cipher, iv, CfbEncrypt(cipher, iv, text)) == text
    decreases |text|
  {
    if |text| <= 16 {
      XorWithTwice(text, cipher(iv));
    } else {
      var c := XorWith(text[..16], cipher(iv));
      var rest := CfbEncrypt(cipher, c, text[16..]);
      XorWithTwice(text[..16], cipher(iv));
      CfbRoundTrip(cipher, c, text[16..]);
      assert (c + rest)[..16] == c && (c + rest)[16..] == rest;
      assert text == text[..16] + text[16..];
    }
  }

  /** Exclusive-or part of a buffer with key stream, in place. */
  method XorInPlace(out: array<byte>, start: nat, n: nat, stream: Block)
    requires n <= 16 && start + n <= out.Length
    modifies out
    ensures out[..] == old(out[..start]) + XorWith(old(out[start..start + n]), stream) + old(out[start + n..])
  {
    for j := 0 to n
      invariant forall k | 0 <= k < out.Length :: out[k] ==
                  if start <= k < start + j then Xor(old(out[k]), stream[k - start]) else old(out[k])
    {
      out[start + j] := Xor(out[start + j], stream[j]);
    }
  }

  /** `done` is the first `at` bytes of the encryption of `text`, and the rest
      continues from `prev`. */
  ghost predicate EncryptedTo(cipher: Block -> Block, iv: Block, text: seq<byte>, at: nat, prev: Block,
                              done: seq<byte>)
  {
    && |done| == at <= |text|
    && CfbEncrypt(cipher, iv, text) == done + CfbEncrypt(cipher, prev, text[at..])
  }

  lemma EncryptStep(cipher: Block -> Block, iv: Block, text: seq<byte>, at: nat, prev: Block, done: seq<byte>)
    requires EncryptedTo(cipher, iv, text, at, prev, done) && at + 16 < |text|
    ensures
      var c := XorWith(text[at..at + 16], cipher(prev));
      EncryptedTo(cipher, iv, text, at + 16, c, done + c)
  {
    var c := XorWith(text[at..at + 16], cipher(prev));
    assert text[at..][..16] == text[at..at + 16] && text[at..][16..] == text[at + 16..];
    Associate(done, c, CfbEncrypt(cipher, c, text[at + 16..]));
  }

  ghost predicate DecryptedTo(cipher: Block -> Block, iv: Block, text: seq<byte>, at: nat, prev: Block,
                              done: seq<byte>)
  {
    && |done| == at <= |text|
    && CfbDecrypt(cipher, iv, text) == done + CfbDecrypt(cipher, prev, text[at..])
  }

  lemma DecryptStep(cipher: Block -> Block, iv: Block, text: seq<byte>, at: nat, prev: Block, done: seq<byte>)
    requires DecryptedTo(cipher, iv, text, at, prev, done) && at + 16 < |text|
    ensures DecryptedTo(cipher, iv, text, at + 16, text[at..at + 16], done + XorWith(text[at..at + 16], cipher(prev)))
  {
    var block := text[at..at + 16];
    assert text[at..][..16] == block && text[at..][16..] == text[at + 16..];
    Associate(done, XorWith(block, cipher(prev)), CfbDecrypt(cipher, block, text[at + 16..]));
  }

  lemma SameSlice(s: seq<byte>, t: seq<byte>, from: nat, to: nat)
    requires from <= to <= |s| == |t| && s[from..] == t[from..]
    ensures s[from..to] == t[from..to]
  {
    assert s[from..to] == s[from..][..to - from];
    assert t[from..to] == t[from..][..to - from];
  }

  /** One block in place, the rest of the buffer untouched. */
  method XorBlock(out: array<byte>, start: nat, n: nat, stream: Block, ghost text: seq<byte>, ghost done: seq<byte>)
    requires n <= 16 && start + n <= out.Length && |text| == out.Length && |done| == start
    requires out[..start] == done && out[start..] == text[start..]
    modifies out
    ensures out[..start + n] == done + XorWith(text[start..start + n], stream)
    ensures out[start + n..] == text[start + n..]
  {
    assert out[start..start + n] == out[start..][..n] == text[start..start + n];
    assert out[start + n..] == out[start..][n..] == text[start + n..];
    XorInPlace(out, start, n, stream);
  }

  /** The in-place encryptor of `aes_cfb_encrypt`. */
  method CfbEncryptInPlace(cipher: Block -> Block, iv: Block, out: array<byte>)
    modifies out
    ensures out[..] == CfbEncrypt(cipher, iv, old(out[..]))
  {
    ghost var text, done := out[..], [];
    var prev: Block, at := iv, 0;
    while out.Length - at > 16
      invariant 0 <= at <= out.Length && |done| == at
      invariant out[..at] == done && out[at..] == text[at..]
      invariant EncryptedTo(cipher, iv, text, at, prev, done)
    {
      EncryptStep(cipher, iv, text, at, prev, done);
      XorBlock(out, at, 16, cipher(prev), text, done);
      ghost var c := XorWith(text[at..at + 16], cipher(prev));
      assert out[at..at + 16] == out[..at + 16][at..] == c;
      done := done + c;
      prev, at := out[at..at + 16], at + 16;
    }
    XorBlock(out, at, out.Length - at, cipher(prev), text, done);
    assert out[..] == out[..out.Length] && text[at..out.Length] == text[at..];
  }

  /** The in-place decryptor of `aes_cfb_decrypt`: each ciphertext block is kept
      for the next round before it is overwritten. */
  method CfbDecryptInPlace(cipher: Block -> Block, iv: Block, out: array<byte>)
    modifies out
    ensures out[..] == CfbDecrypt(cipher, iv, old(out[..]))
  {
    ghost var text, done := out[..], [];
    var prev: Block, at := iv, 0;
    while out.Length - at > 16
      invariant 0 <= at <= out.Length && |done| == at
      invariant out[..at] == done && out[at..] == text[at..]
      invariant DecryptedTo(cipher, iv, text, at, prev, done)
    {
      DecryptStep(cipher, iv, text, at, prev, done);
      var block := out[at..at + 16];
      SameSlice(out[..], text, at, at + 16);
      XorBlock(out, at, 16, cipher(prev), text, done);
      done := done + XorWith(text[at..at + 16], cipher(prev));
      prev, at := block, at + 16;
    }
    XorBlock(out, at, out.Length - at, cipher(prev), text, done);
    assert out[..] == out[..out.Length] && text[at..out.Length] == text[at..];
  }

  // ----- The agent's use of it -----

  /** The cipher under the first sixteen octets of a key. */
  function Keyed(cipher: BlockCipher, key: seq<byte>): (f: Block -> Block)
    requires |key| >= PRIV_KEY_LEN
    ensures forall b: Block :: f(b) == cipher(key[..16], b)
  {
    b => cipher(key[..PRIV_KEY_LEN], b)
  }

  /** `aes_cfb_encrypt` with its random salt as a parameter. */
  function Encrypt(cipher: BlockCipher, key: seq<byte>, boots: u32, time: u32, salt: seq<byte>, text: seq<byte>)
    : (r: seq<byte>)
    requires |key| >= PRIV_KEY_LEN && |salt| >= 8
    ensures |r| == |text|
  {
    CfbEncrypt(Keyed(cipher, key), Iv(boots, time, salt), text)
  }

  function Decrypt(cipher: BlockCipher, key: seq<byte>, boots: u32, time: u32, salt: seq<byte>, text: seq<byte>)
    : (r: seq<byte>)
    requires |key| >= PRIV_KEY_LEN && |salt| >= 8
    ensures |r| == |text|
  {
    CfbDecrypt(Keyed(cipher, key), Iv(boots, time, salt), text)
  }

  method AesCfbEncrypt(cipher: BlockCipher, key: seq<byte>, boots: u32, time: u32, salt: seq<byte>, text: seq<byte>)
    returns (r: seq<byte>)
    requires |key| >= PRIV_KEY_LEN && |salt| >= 8
    ensures r == Encrypt(cipher, key, boots, time, salt, text)
  {
    var iv := BuildIv(boots, time, salt);
    var out := new byte[|text|](i requires 0 <= i < |text| => text[i]);
    assert out[..] == text;
    CfbEncryptInPlace(Keyed(cipher, key), iv[..], out);
    return out[..];
  }

  method AesCfbDecrypt(cipher: BlockCipher, key: seq<byte>, boots: u32, time: u32, salt: seq<byte>, text: seq<byte>)
    returns (r: seq<byte>)
    requires |key| >= PRIV_KEY_LEN && |salt| >= 8
    ensures r == Decrypt(cipher, key, boots, time, salt, text)
  {
    var iv := BuildIv(boots, time, salt);
    var out := new byte[|text|](i requires 0 <= i < |text| => text[i]);
    assert out[..] == text;
    CfbDecryptInPlace(Keyed(cipher, key), iv[..], out);
    return out[..];
  }

  /** Each octet is combined with that octet of the enciphered previous ciphertext
      block, the first sixteen with the enciphered vector of boots, time and salt. */
  lemma EncryptedOctet(cipher: BlockCipher, key: seq<byte>, boots: u32, time: u32, salt: seq<byte>, text: seq<byte>,
                       b: nat, j: nat)
    requires |key| >= 16 && |salt| >= 8 && j < 16 && 16 * b + j < |text|
    ensures
      var c := Encrypt(cipher, key, boots, time, salt, text);
      var prev := if b == 0 then Iv(boots, time, salt) else c[16 * b - 16..16 * b];
      c[16 * b + j] == Xor(text[16 * b + j], cipher(key[..16], prev)[j])
  {
    OctetOfBlock(Keyed(cipher, key), Iv(boots, time, salt), text, b, j);
  }

  lemma OctetOfBlock(f: Block -> Block, iv: Block, text: seq<byte>, b: nat, j: nat)
    requires j < 16 && 16 * b + j < |text|
    ensures
      var c := CfbEncrypt(f, iv, text);
      var prev := if b == 0 then iv else c[16 * b - 16..16 * b];
      c[16 * b + j] == Xor(text[16 * b + j], f(prev)[j])
  {
    var c := CfbEncrypt(f, iv, text);
    var prev := if b == 0 then iv else c[16 * b - 16..16 * b];
    CiphertextBlock(f, iv, text, b);
    var block, plain := c[16 * b..BlockEnd(text, b)], text[16 * b..BlockEnd(text, b)];
    assert block == XorWith(plain, f(prev));
    assert block[j] == c[16 * b + j] && plain[j] == text[16 * b + j];
  }

  /** With equal key, boots, time and salt, any text survives the round trip. */
  lemma EncryptRoundTrip(cipher: BlockCipher, key: seq<byte>, boots: u32, time: u32, salt: seq<byte>, text: seq<byte>)
    requires |key| >= PRIV_KEY_LEN && |salt| >= 8
    ensures Decrypt(cipher, key, boots, time, salt, Encrypt(cipher, key, boots, time, salt, text)) == text
  {
    CfbRoundTrip(Keyed(cipher, key), Iv(boots, time, salt), text);
  }
}
