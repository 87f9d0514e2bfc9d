// Fixed-width integers as bytes, in both byte orders. Wider values are truncated, as a cast does.
module Bytes {
  type byte = x: int | 0 <= x < 256

  const U32_LIMIT: nat := 0x1_0000_0000

  function Pow256(width: nat): (p: nat)
    ensures p > 0
  {
    if width == 0 then 1 else 256 * Pow256(width - 1)
  }

  function ToLe(v: nat, width: nat): (b: seq<byte>)
    ensures |b| == width
  {
    if width == 0 then [] else [v % 256] + ToLe(v / 256, width - 1)
  }

  function FromLe(b: seq<byte>): nat {
    if b == [] then 0 else b[0] + 256 * FromLe(b[1..])
  }

  function ToBe(v: nat, width: nat): (b: seq<byte>)
    ensures |b| == width
  {
    if width == 0 then [] else ToBe(v / 256, width - 1) + [v % 256]
  }

  function FromBe(b: seq<byte>): nat {
    if b == [] then 0 else 256 * FromBe(b[..|b| - 1]) + b[|b| - 1]
  }

  lemma ModSplit(v: nat, p: nat)
    requires p > 0
    ensures v % 256 + 256 * ((v / 256) % p) == v % (256 * p)
  {
    var q, r := v / 256, v % 256;
    var a, b := q / p, q % p;
    assert v == 256 * (a * p + b) + r;
    assert 256 * (a * p + b) + r == (256 * p) * a + (256 * b + r);
    assert 0 <= 256 * b + r < 256 * p;
    RemainderUnique(v, 256 * p, a, 256 * b + r);
  }

  lemma RemainderUnique(v: int, d: int, q: int, r: int)
    requires v == d * q + r && 0 <= r < d
    ensures v % d == r && v / d == q
  {
    assert d * (v / d - q) == r - v % d;
    MultipleGrows(d, v / d - q);
  }

  lemma MultipleGrows(d: int, k: int)
    requires d > 0
    ensures k >= 1 ==> d * k >= d
    ensures k <= -1 ==> d * k <= -d
  {}

  lemma {:induction false} LeRoundTrip(v: nat, width: nat)
    ensures FromLe(ToLe(v, width)) == v % Pow256(width)
  {
    if width > 0 {
      LeRoundTrip(v / 256, width - 1);
      assert ToLe(v, width)[1..] == ToLe(v / 256, width - 1);
      ModSplit(v, Pow256(width - 1));
    }
  }

  lemma {:induction false} BeRoundTrip(v: nat, width: nat)
    ensures FromBe(ToBe(v, width)) == v % Pow256(width)
  {
    if width > 0 {
      BeRoundTrip(v / 256, width - 1);
      assert ToBe(v, width)[..width - 1] == ToBe(v / 256, width - 1);
      ModSplit(v, Pow256(width - 1));
    }
  }

  // Byte `i` of the little-endian form, and of the big-endian form from its end, is digit `i` in base 256.
  lemma {:induction false} LeDigit(v: nat, width: nat, i: nat)
    requires i < width
    ensures ToLe(v, width)[i] == (v / Pow256(i)) % 256
  {
    if i > 0 {
      LeDigit(v / 256, width - 1, i - 1);
      DivideTwice(v, Pow256(i - 1));
    }
  }

  lemma {:induction false} BeDigit(v: nat, width: nat, i: nat)
    requires i < width
    ensures ToBe(v, width)[width - 1 - i] == (v / Pow256(i)) % 256
  {
    if i > 0 {
      BeDigit(v / 256, width - 1, i - 1);
      DivideTwice(v, Pow256(i - 1));
    }
  }

  lemma DivideTwice(v: nat, p: nat)
    requires p > 0
    ensures (v / 256) / p == v / (256 * p)
  {
    var q, r := v / 256, v % 256;
    var a, b := q / p, q % p;
    assert v == 256 * (a * p + b) + r;
    assert 256 * (a * p + b) + r == (256 * p) * a + (256 * b + r);
    RemainderUnique(v, 256 * p, a, 256 * b + r);
  }

  // Reading bytes and writing the value gives them back.
  lemma {:induction false} LeOfValue(b: seq<byte>)
    ensures ToLe(FromLe(b), |b|) == b && FromLe(b) < Pow256(|b|)
  {
    if b != [] {
      LeOfValue(b[1..]);
      RemainderUnique(FromLe(b), 256, FromLe(b[1..]), b[0]);
      hide Pow256, FromLe;
      assert ToLe(FromLe(b), |b|) == [b[0]] + ToLe(FromLe(b[1..]), |b| - 1);
    }
  }
}
