/** First-match search and length-preserving splices over raw bytes: the two
    operations the USM code performs instead of decoding and re-encoding. */
module ByteSearch {
  import opened Numbers

  /** `needle` stands in `hay` at position `p`. */
  predicate At(hay: seq<byte>, needle: seq<byte>, p: int) {
    0 <= p && p + |needle| <= |hay| && hay[p..p + |needle|] == needle
  }

  predicate Occurs(hay: seq<byte>, needle: seq<byte>) {
    exists p | 0 <= p <= |hay| :: At(hay, needle, p)
  }

  /** `windows(n).position(|w| w == needle)`, starting at `from`. */
  function FirstMatchFrom(hay: seq<byte>, needle: seq<byte>, from: nat): (r: Option<nat>)
    requires from <= |hay|
    ensures r.Some? ==> from <= r.value && At(hay, needle, r.value)
    ensures r.Some? ==> forall q | from <= q < r.value :: !At(hay, needle, q)
    ensures r.None? ==> forall q | from <= q :: !At(hay, needle, q)
    decreases |hay| - from
  {
    if At(hay, needle, from) then Some(from)
    else if from + |needle| >= |hay| then None
    else FirstMatchFrom(hay, needle, from + 1)
  }

  function FirstMatch(hay: seq<byte>, needle: seq<byte>): (r: Option<nat>) {
    FirstMatchFrom(hay, needle, 0)
  }

  /** The first match is the one position that matches with none before it. */
  lemma FirstMatchIs(hay: seq<byte>, needle: seq<byte>, p: nat)
    ensures FirstMatch(hay, needle) == Some(p)
       <==> At(hay, needle, p) && forall q | 0 <= q < p :: !At(hay, needle, q)
  {
  }

  /** The search loop of the source. */
  method Position(hay: seq<byte>, needle: seq<byte>) returns (r: Option<nat>)
    requires |needle| > 0
    ensures r == FirstMatch(hay, needle)
  {
    var p := 0;
    while p + |needle| <= |hay|
      invariant 0 <= p
      invariant forall q | 0 <= q < p :: !At(hay, needle, q)
    {
      if hay[p..p + |needle|] == needle {
        FirstMatchIs(hay, needle, p);
        return Some(p);
      }
      p := p + 1;
    }
    return None;
  }

  /** `hay` with the bytes from `p` replaced by `patch`. */
  function Splice(hay: seq<byte>, p: nat, patch: seq<byte>): (r: seq<byte>)
    requires p + |patch| <= |hay|
    ensures |r| == |hay|
  {
    hay[..p] + patch + hay[p + |patch|..]
  }

  function Zeros(n: nat): (r: seq<byte>)
    ensures |r| == n
    ensures forall i | 0 <= i < n :: r[i] == 0
  {
    seq(n, i => 0)
  }

  /** In-place overwrite of part of a buffer. */
  method Overwrite(buf: array<byte>, p: nat, patch: seq<byte>)
    requires p + |patch| <= buf.Length
    modifies buf
    ensures buf[..] == Splice(old(buf[..]), p, patch)
  {
    ghost var before := buf[..];
    var i := 0;
    while i < |patch|
      invariant 0 <= i <= |patch|
      invariant forall j | 0 <= j < buf.Length :: buf[j] == if p <= j < p + i then patch[j - p] else before[j]
    {
      buf[p + i] := patch[i];
      i := i + 1;
    }
  }

  lemma Associate(a: seq<byte>, b: seq<byte>, c: seq<byte>)
    ensures a + (b + c) == a + b + c
  {
  }
}
