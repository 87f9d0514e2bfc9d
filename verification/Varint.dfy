/**
 The multiformats unsigned varint: base-128 groups, least significant first, the top bit set on every
 byte but the last, and no superfluous last group. The library the multiplexer calls is modelled by
 this encoding; a decoder is limited in the bytes it reads and in the width of its result.
 */
module Varint {
  import opened Bytes
  import opened Wrappers

  datatype Error = Insufficient | Overflow | NotMinimal

  type Decoded = Result<(nat, seq<byte>), Error>

  function Encode(v: nat): (b: seq<byte>)
    ensures |b| > 0
  {
    if v < 128 then [v] else [v % 128 + 128] + Encode(v / 128)
  }

  // Reads at most `bytes` bytes; the second component is what is left of the buffer.
  function DecodeGroups(buf: seq<byte>, bytes: nat, first: bool): (d: Decoded)
    requires bytes > 0
    ensures d.Ok? ==> |d.value.1| < |buf|
  {
    if buf == [] then Err(Insufficient)
    else if buf[0] < 128 then
      if buf[0] == 0 && !first then Err(NotMinimal) else Ok((buf[0], buf[1..]))
    else if bytes == 1 then Err(Overflow)
    else
      match DecodeGroups(buf[1..], bytes - 1, false)
      case Ok((v, rest)) => Ok((buf[0] - 128 + 128 * v, rest))
      case Err(e) => Err(e)
  }

  // Bits beyond the width of the result are shifted out.
  function Narrowed(d: Decoded, limit: nat): Decoded
    requires limit > 0
  {
    match d
    case Ok((v, rest)) => Ok((v % limit, rest))
    case Err(e) => Err(e)
  }

  function DecodeU32(buf: seq<byte>): Decoded { Narrowed(DecodeGroups(buf, 5, true), Pow256(4)) }

  function DecodeUsize(buf: seq<byte>): Decoded { Narrowed(DecodeGroups(buf, 10, true), Pow256(8)) }

  function Pow128(n: nat): (p: nat)
    ensures p > 0
  {
    if n == 0 then 1 else 128 * Pow128(n - 1)
  }

  // Decoding undoes encoding, whatever follows in the buffer.
  lemma {:induction false} GroupsRoundTrip(v: nat, bytes: nat, first: bool, rest: seq<byte>)
    requires bytes > 0 && v < Pow128(bytes) && (first || v > 0)
    ensures DecodeGroups(Encode(v) + rest, bytes, first) == Ok((v, rest))
  {
    var buf := Encode(v) + rest;
    if v < 128 {
      assert buf[1..] == rest;
    } else {
      assert Pow128(1) == 128;
      GroupsRoundTrip(v / 128, bytes - 1, false, rest);
      assert buf[1..] == Encode(v / 128) + rest;
    }
  }

  lemma {:induction false} EncodeIsShort(v: nat, bytes: nat)
    requires bytes > 0 && v < Pow128(bytes)
    ensures |Encode(v)| <= bytes
  {
    if v >= 128 {
      assert Pow128(1) == 128;
      EncodeIsShort(v / 128, bytes - 1);
    }
  }

  lemma U32Fits()
    ensures Pow256(4) <= Pow128(5)
  {
    assert Pow256(4) == 0x1_0000_0000;
    assert Pow128(5) == 0x8_0000_0000;
  }

  lemma UsizeFits()
    ensures Pow256(8) <= Pow128(10)
  {
    assert Pow256(8) == 0x1_0000_0000_0000_0000;
    assert Pow128(10) == 0x40_0000_0000_0000_0000;
  }

  lemma SmallMod(v: nat, m: nat)
    requires v < m
    ensures v % m == v
  {}

  lemma U32RoundTrip(v: nat, rest: seq<byte>)
    requires v < Pow256(4)
    ensures DecodeU32(Encode(v) + rest) == Ok((v, rest))
  {
    U32Fits();
    hide Pow256, Pow128;
    GroupsRoundTrip(v, 5, true, rest);
    hide DecodeGroups, Encode;
    SmallMod(v, Pow256(4));
  }

  lemma UsizeRoundTrip(v: nat, rest: seq<byte>)
    requires v < Pow256(8)
    ensures DecodeUsize(Encode(v) + rest) == Ok((v, rest))
  {
    UsizeFits();
    hide Pow256, Pow128;
    GroupsRoundTrip(v, 10, true, rest);
    hide DecodeGroups, Encode;
    SmallMod(v, Pow256(8));
  }

  // The first `k` groups written, then the rest: a group holds seven bits, and the top bit says that
  // another follows.
  lemma {:induction false} EncodeDigit(v: nat, i: nat)
    requires i < |Encode(v)|
    ensures Encode(v)[i] % 128 == (v / Pow128(i)) % 128
    ensures Encode(v)[i] >= 128 <==> i < |Encode(v)| - 1
    decreases i
  {
    if i > 0 {
      EncodeDigit(v / 128, i - 1);
      DivideTwice(v, Pow128(i - 1));
    }
  }

  lemma DivideTwice(v: nat, p: nat)
    requires p > 0
    ensures (v / 128) / p == v / (128 * p)
  {
    var q, r := v / 128, v % 128;
    var a, b := q / p, q % p;
    assert v == 128 * (a * p + b) + r;
    assert 128 * (a * p + b) + r == (128 * p) * a + (128 * b + r);
    RemainderUnique(v, 128 * p, a, 128 * b + r);
  }

  // No encoding is longer than it has to be.
  lemma {:induction false} EncodeIsMinimal(v: nat, bytes: nat)
    requires bytes > 0
    ensures |Encode(v)| <= bytes <==> v < Pow128(bytes)
  {
    assert Pow128(1) == 128;
    if v >= 128 && bytes > 1 {
      EncodeIsMinimal(v / 128, bytes - 1);
      assert v < 128 * Pow128(bytes - 1) <==> v / 128 < Pow128(bytes - 1);
    }
    if bytes == 1 && v >= 128 { assert |Encode(v)| == 1 + |Encode(v / 128)|; }
    if v < 128 { PowGrows(bytes); }
  }

  lemma {:induction false} PowGrows(bytes: nat)
    requires bytes > 0
    ensures Pow128(bytes) >= 128
  {
    if bytes > 1 { PowGrows(bytes - 1); }
  }

  // Nothing decodes but what was encoded, within the limit of bytes.
  lemma {:induction false} DecodesOnlyEncodings(buf: seq<byte>, bytes: nat, first: bool, v: nat, rest: seq<byte>)
    requires bytes > 0
    ensures DecodeGroups(buf, bytes, first) == Ok((v, rest)) <==>
      buf == Encode(v) + rest && v < Pow128(bytes) && (first || v > 0)
  {
    if DecodeGroups(buf, bytes, first) == Ok((v, rest)) {
      DecodedIsEncoding(buf, bytes, first);
    }
    if v < Pow128(bytes) && (first || v > 0) { GroupsRoundTrip(v, bytes, first, rest); }
  }

  lemma {:induction false} DecodedIsEncoding(buf: seq<byte>, bytes: nat, first: bool)
    requires bytes > 0 && DecodeGroups(buf, bytes, first).Ok?
    ensures var (v, rest) := DecodeGroups(buf, bytes, first).value;
      buf == Encode(v) + rest && v < Pow128(bytes) && (first || v > 0)
  {
    if buf[0] < 128 {
      PowGrows(bytes);
      assert buf == [buf[0]] + buf[1..];
    } else {
      DecodedIsEncoding(buf[1..], bytes - 1, false);
      var (w, rest) := DecodeGroups(buf[1..], bytes - 1, false).value;
      var v := buf[0] - 128 + 128 * w;
      assert v % 128 == buf[0] - 128 && v / 128 == w;
      assert Encode(v) == [buf[0]] + Encode(w);
      assert buf == [buf[0]] + buf[1..];
    }
  }
}
