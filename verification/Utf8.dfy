/** Well-formed UTF-8 (RFC 3629 section 4), which a user name must be to be looked
    up (mock-snmp-agent/src/v3.rs). */
module Utf8 {
  import opened Numbers

  /** `bs[from..from + n]` are continuation octets. */
  predicate Continuations(bs: seq<byte>, from: nat, n: nat)
    requires from + n <= |bs|
  {
    forall i | from <= i < from + n :: 0x80 <= bs[i] < 0xC0
  }

  /** `std::str::from_utf8` succeeds. */
  predicate ValidUtf8(bs: seq<byte>) {
    if bs == [] then true
    else if bs[0] < 0x80 then ValidUtf8(bs[1..])
    else if 0xC2 <= bs[0] < 0xE0 then |bs| >= 2 && Continuations(bs, 1, 1) && ValidUtf8(bs[2..])
    else if 0xE0 <= bs[0] < 0xF0 then
      && |bs| >= 3 && Continuations(bs, 1, 2)
      && (bs[0] == 0xE0 ==> bs[1] >= 0xA0) && (bs[0] == 0xED ==> bs[1] < 0xA0)
      && ValidUtf8(bs[3..])
    else if 0xF0 <= bs[0] < 0xF5 then
      && |bs| >= 4 && Continuations(bs, 1, 3)
      && (bs[0] == 0xF0 ==> bs[1] >= 0x90) && (bs[0] == 0xF4 ==> bs[1] < 0x90)
      && ValidUtf8(bs[4..])
    else false
  }

  // ----- The encoding itself -----

  /** A Unicode scalar value: a code point that is no surrogate. */
  type Scalar = n: int | 0 <= n < 0x11_0000 && !(0xD800 <= n < 0xE000)

  /** RFC 3629 section 3. */
  function Encode(n: Scalar): (bs: seq<byte>)
    ensures 1 <= |bs| <= 4
  {
    if n < 0x80 then [n]
    else if n < 0x800 then [0xC0 + n / 64, 0x80 + n % 64]
    else if n < 0x1_0000 then [0xE0 + n / 64 / 64, 0x80 + n / 64 % 64, 0x80 + n % 64]
    else [0xF0 + n / 64 / 64 / 64, 0x80 + n / 64 / 64 % 64, 0x80 + n / 64 % 64, 0x80 + n % 64]
  }

  function EncodeAll(text: seq<Scalar>): (bs: seq<byte>) {
    if text == [] then [] else Encode(text[0]) + EncodeAll(text[1..])
  }

  lemma EncodedFirst(n: Scalar, rest: seq<byte>)
    ensures ValidUtf8(Encode(n) + rest) <==> ValidUtf8(rest)
  {
    var bs := Encode(n) + rest;
    assert bs[|Encode(n)|..] == rest;
    assert forall i | 0 <= i < |Encode(n)| :: bs[i] == Encode(n)[i];
  }

  lemma {:induction false} EncodedIsValid(text: seq<Scalar>)
    ensures ValidUtf8(EncodeAll(text))
  {
    if text != [] {
      EncodedIsValid(text[1..]);
      EncodedFirst(text[0], EncodeAll(text[1..]));
    }
  }

  lemma FirstScalar(bs: seq<byte>) returns (n: Scalar)
    requires bs != [] && ValidUtf8(bs)
    ensures |Encode(n)| <= |bs| && bs[..|Encode(n)|] == Encode(n) && ValidUtf8(bs[|Encode(n)|..])
  {
    if bs[0] < 0x80 {
      n := bs[0];
    } else if bs[0] < 0xE0 {
      n := Joined(bs[0] - 0xC0, bs[1]);
    } else if bs[0] < 0xF0 {
      n := Joined(Joined(bs[0] - 0xE0, bs[1]), bs[2]);
    } else {
      n := Joined(Joined(Joined(bs[0] - 0xF0, bs[1]), bs[2]), bs[3]);
    }
  }

  /** `high` followed by the six bits of a continuation octet. */
  function Joined(high: nat, octet: byte): (n: nat)
    requires 0x80 <= octet < 0xC0
    ensures n / 64 == high && n % 64 == octet - 0x80
  {
    high * 64 + (octet - 0x80)
  }

  lemma {:induction false} ValidIsEncoded(bs: seq<byte>) returns (text: seq<Scalar>)
    requires ValidUtf8(bs)
    ensures EncodeAll(text) == bs
  {
    if bs == [] {
      text := [];
    } else {
      var n := FirstScalar(bs);
      var rest := ValidIsEncoded(bs[|Encode(n)|..]);
      text := [n] + rest;
      assert text[1..] == rest;
      assert bs == bs[..|Encode(n)|] + bs[|Encode(n)|..];
    }
  }

  /** The accepted names are exactly the encodings of sequences of scalar values. */
  lemma ValidUtf8Exactly(bs: seq<byte>)
    ensures ValidUtf8(bs) <==> exists text :: EncodeAll(text) == bs
  {
    if ValidUtf8(bs) {
      var text := ValidIsEncoded(bs);
    }
    if text :| EncodeAll(text) == bs {
      EncodedIsValid(text);
    }
  }
}
