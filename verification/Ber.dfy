/** The definite-length BER subset the SNMPv3 envelope uses
    (ITU-T X.690 sections 8.1.3, 8.3, 8.7): encoder, decoder, round trips. */
module Ber {
  import opened Numbers

  const INTEGER: byte := 0x02
  const OCTETS: byte := 0x04
  const SEQUENCE: byte := 0x30

  /** Big-endian base-256 digits, no leading zero digit. */
  function Digits(n: nat): (r: seq<byte>)
    ensures |r| >= 1
    ensures n > 0 ==> r[0] != 0
  {
    if n < 256 then [n] else Digits(n / 256) + [n % 256]
  }

  function FromDigits(bs: seq<byte>): (r: nat) {
    if bs == [] then 0 else FromDigits(bs[..|bs| - 1]) * 256 + bs[|bs| - 1]
  }

  lemma DigitsRoundTrip(n: nat)
    ensures FromDigits(Digits(n)) == n
  {
    if n < 256 {
      assert Digits(n)[..0] == [];
    } else {
      DigitsRoundTrip(n / 256);
      var d := Digits(n);
      assert d[..|d| - 1] == Digits(n / 256);
    }
  }

  function Exp256(k: nat): (r: nat) {
    if k == 0 then 1 else 256 * Exp256(k - 1)
  }

  lemma {:induction false} DigitsLength(n: nat, k: nat)
    requires n < Exp256(k) && k >= 1
    ensures |Digits(n)| <= k
  {
    if n >= 256 {
      assert Exp256(1) == 256;
      DigitsLength(n / 256, k - 1);
    }
  }

  /** Length octets: short form below 128, else the minimal long form
      (the count of length octets is cast to a byte). */
  function LengthOctets(n: nat): (r: seq<byte>)
    ensures |r| >= 1
  {
    if n < 128 then [n] else [(0x80 + |Digits(n)|) % 256] + Digits(n)
  }

  lemma LengthOctetsFit(n: nat)
    requires n < USIZE_LIMIT
    ensures |Digits(n)| <= 8 && |LengthOctets(n)| <= 9
  {
    assert Exp256(8) == USIZE_LIMIT by {
      assert Exp256(4) == 0x1_0000_0000;
      assert Exp256(6) == 0x1_0000_0000_0000;
    }
    DigitsLength(n, 8);
  }

  /** Tag and length octets of a value of `n` content octets. */
  function Head(tag: byte, n: nat): (r: seq<byte>)
    ensures |r| >= 2 && r[0] == tag
  {
    [tag] + LengthOctets(n)
  }

  function Tlv(tag: byte, content: seq<byte>): (r: seq<byte>)
    ensures |r| >= 2 + |content| && r[0] == tag
  {
    Head(tag, |content|) + content
  }

  datatype Element = Element(tag: byte, content: seq<byte>, rest: seq<byte>)

  /** Read one definite-length element; indefinite and reserved lengths and
      truncated input are refused, non-minimal long forms are accepted. */
  function ReadTlv(bs: seq<byte>): (r: Option<Element>)
    ensures r.Some? ==> |r.value.rest| + |r.value.content| + 2 <= |bs|
  {
    if |bs| < 2 then None
    else if bs[1] < 128 then
      if 2 + bs[1] > |bs| then None
      else Some(Element(bs[0], bs[2..2 + bs[1]], bs[2 + bs[1]..]))
    else
      var k := bs[1] - 128;
      if k == 0 || k == 127 || 2 + k > |bs| then None
      else
        var n := FromDigits(bs[2..2 + k]);
        if 2 + k + n > |bs| then None
        else Some(Element(bs[0], bs[2 + k..2 + k + n], bs[2 + k + n..]))
  }

  lemma ReadBack(tag: byte, content: seq<byte>, rest: seq<byte>)
    requires |content| < USIZE_LIMIT
    ensures ReadTlv(Tlv(tag, content) + rest) == Some(Element(tag, content, rest))
  {
    var n := |content|;
    var bs := Tlv(tag, content) + rest;
    if n < 128 {
      assert bs == [tag, n] + content + rest;
      assert bs[2..2 + n] == content && bs[2 + n..] == rest;
    } else {
      LengthOctetsFit(n);
      DigitsRoundTrip(n);
      var d := Digits(n);
      var k := |d|;
      assert bs == [tag, 0x80 + k] + d + content + rest;
      assert bs[2..2 + k] == d;
      assert bs[2 + k..2 + k + n] == content && bs[2 + k + n..] == rest;
    }
  }

  /** Minimal two's-complement contents octets. */
  function IntegerOctets(n: int): (r: seq<byte>)
    ensures |r| >= 1
    decreases if n < 0 then -n else n
  {
    if -128 <= n < 128 then [n % 256] else IntegerOctets(n / 256) + [n % 256]
  }

  /** Value of two's-complement contents octets. */
  function IntegerValue(bs: seq<byte>): (r: int)
    requires |bs| >= 1
  {
    if |bs| == 1 then (if bs[0] < 128 then bs[0] else bs[0] - 256)
    else IntegerValue(bs[..|bs| - 1]) * 256 + bs[|bs| - 1]
  }

  lemma {:induction false} IntegerRoundTrip(n: int)
    ensures IntegerValue(IntegerOctets(n)) == n
    decreases if n < 0 then -n else n
  {
    if !(-128 <= n < 128) {
      IntegerRoundTrip(n / 256);
      var bs := IntegerOctets(n);
      assert bs[..|bs| - 1] == IntegerOctets(n / 256);
    }
  }

  lemma {:induction false} IntegerOctetsLength(n: int, k: nat)
    requires -128 * Exp256(k) <= n < 128 * Exp256(k)
    ensures |IntegerOctets(n)| <= k + 1
    decreases k
  {
    if !(-128 <= n < 128) {
      assert Exp256(0) == 1;
      assert Exp256(k) == 256 * Exp256(k - 1);
      IntegerOctetsLength(n / 256, k - 1);
    }
  }

  function Integer(n: int): (r: seq<byte>)
    ensures |r| >= 3 && r[0] == INTEGER
  {
    Tlv(INTEGER, IntegerOctets(n))
  }

  /** Read an element that must carry `tag`. */
  function ReadTagged(tag: byte, bs: seq<byte>): (r: Option<Element>)
    ensures r.Some? ==> |r.value.rest| + |r.value.content| + 2 <= |bs|
  {
    var e :- ReadTlv(bs);
    if e.tag == tag then Some(e) else None
  }

  /** Read an INTEGER: its value and what follows. */
  function ReadInteger(bs: seq<byte>): (r: Option<(int, seq<byte>)>) {
    var e :- ReadTagged(INTEGER, bs);
    if e.content == [] then None else Some((IntegerValue(e.content), e.rest))
  }

  lemma ReadIntegerBack(n: int, rest: seq<byte>)
    requires |IntegerOctets(n)| < USIZE_LIMIT
    ensures ReadInteger(Integer(n) + rest) == Some((n, rest))
  {
    ReadBack(INTEGER, IntegerOctets(n), rest);
    IntegerRoundTrip(n);
  }
}
