/**
 The field GF(256) as the coder computes in it: addition is exclusive-or, multiplication is the
 shift-and-reduce loop with constant 0x1b (FIPS 197, section 4.2), and the inverse is found by search.

 The loops are proved against `Mul`, and `Mul` is proved to make the bytes a field.
 */
module GF256 {
  import opened Wrappers

  type Byte = bv8

  function Add(a: Byte, b: Byte): Byte { a ^ b }

  // What a carry out of the top bit folds back into the byte.
  function Fold(top: Byte): Byte { if top != 0 then 0x1b else 0 }

  // Multiplication by the polynomial x.
  function XTime(a: Byte): Byte { (a << 1) ^ Fold(a & 0x80) }

  // The product, one bit of the multiplier at a time.
  function Mul(a: Byte, b: Byte): Byte
    decreases b
  {
    if b == 0 then 0 else Add(if b & 1 != 0 then a else 0, Mul(XTime(a), b >> 1))
  }

  // ---------- addition ----------

  lemma AddLaws(a: Byte, b: Byte, c: Byte)
    ensures Add(a, b) == Add(b, a)
    ensures Add(Add(a, b), c) == Add(a, Add(b, c))
    ensures Add(a, 0) == a == Add(0, a)
    ensures Add(a, a) == 0
  {}

  lemma XorSwap(a: Byte, b: Byte, c: Byte, d: Byte)
    ensures (a ^ b) ^ (c ^ d) == (a ^ c) ^ (b ^ d)
  {}

  lemma AddSwap(a: Byte, b: Byte, c: Byte, d: Byte)
    ensures Add(Add(a, b), Add(c, d)) == Add(Add(a, c), Add(b, d))
  {
    hide Add;
    AddLaws(a, b, Add(c, d));
    AddLaws(b, c, d);
    AddLaws(c, b, d);
    AddLaws(a, c, Add(b, d));
  }

  lemma AddCancel(a: Byte, b: Byte)
    ensures Add(Add(a, b), b) == a
    ensures Add(a, b) == 0 <==> a == b
  {
    assert (a ^ b) ^ b == a;
    if a ^ b == 0 { assert a == 0 ^ b == b; }
  }

  // ---------- multiplication by x is linear ----------

  lemma TopBit(a: Byte)
    ensures a & 0x80 == 0 || a & 0x80 == 0x80
  {}

  lemma FoldAdd(h: Byte, k: Byte)
    requires h == 0 || h == 0x80
    requires k == 0 || k == 0x80
    ensures Fold(h ^ k) == Fold(h) ^ Fold(k)
  {}

  lemma XTimeAdd(a: Byte, c: Byte)
    ensures XTime(Add(a, c)) == Add(XTime(a), XTime(c))
  {
    TopBit(a);
    TopBit(c);
    FoldAdd(a & 0x80, c & 0x80);
    assert (a ^ c) & 0x80 == (a & 0x80) ^ (c & 0x80);
    assert (a ^ c) << 1 == (a << 1) ^ (c << 1);
    XorSwap(a << 1, c << 1, Fold(a & 0x80), Fold(c & 0x80));
  }

  // ---------- ring laws ----------

  lemma {:induction false} MulZero(a: Byte)
    ensures Mul(0, a) == 0 == Mul(a, 0)
    decreases a
  {
    if a != 0 {
      MulZero(a >> 1);
      assert XTime(0) == 0;
    }
  }

  lemma {:induction false} MulAddLeft(a: Byte, c: Byte, b: Byte)
    ensures Mul(Add(a, c), b) == Add(Mul(a, b), Mul(c, b))
    decreases b
  {
    hide Add;
    AddLaws(0, 0, 0);
    if b != 0 {
      XTimeAdd(a, c);
      MulAddLeft(XTime(a), XTime(c), b >> 1);
      var a', c' := if b & 1 != 0 then a else 0, if b & 1 != 0 then c else 0;
      AddSwap(a', c', Mul(XTime(a), b >> 1), Mul(XTime(c), b >> 1));
    }
  }

  lemma {:induction false} MulXTime(a: Byte, b: Byte)
    ensures Mul(XTime(a), b) == XTime(Mul(a, b))
    decreases b
  {
    assert XTime(0) == 0;
    if b != 0 {
      MulXTime(XTime(a), b >> 1);
      XTimeAdd(if b & 1 != 0 then a else 0, Mul(XTime(a), b >> 1));
    }
  }

  // The two multipliers of a product can be applied in either order.
  lemma {:induction false} MulSwapFactors(x: Byte, b: Byte, c: Byte)
    ensures Mul(Mul(x, b), c) == Mul(Mul(x, c), b)
    decreases b
  {
    MulZero(c);
    if b != 0 {
      MulSwapFactors(XTime(x), b >> 1, c);
      MulAddLeft(if b & 1 != 0 then x else 0, Mul(XTime(x), b >> 1), c);
      MulXTime(x, c);
    }
  }

  lemma {:induction false} MulOne(b: Byte)
    ensures Mul(1, b) == b == Mul(b, 1)
    decreases b
  {
    hide Add, XTime;
    MulZero(1);
    MulZero(XTime(b));
    AddLaws(b, 0, 0);
    if b != 0 {
      MulOne(b >> 1);
      MulXTime(1, b >> 1);
      LowBit(b);
    }
  }

  lemma LowBit(b: Byte)
    ensures Add(if b & 1 != 0 then 1 else 0, XTime(b >> 1)) == b
  {
    assert (b >> 1) & 0x80 == 0;
    assert ((b >> 1) << 1) ^ (b & 1) == b;
    assert b & 1 == 0 || b & 1 == 1;
  }

  lemma MulComm(a: Byte, b: Byte)
    ensures Mul(a, b) == Mul(b, a)
  {
    MulSwapFactors(1, a, b);
    MulOne(a);
    MulOne(b);
  }

  lemma MulAssoc(a: Byte, b: Byte, c: Byte)
    ensures Mul(Mul(a, b), c) == Mul(a, Mul(b, c))
  {
    MulComm(a, b);
    MulSwapFactors(b, a, c);
    MulComm(Mul(b, c), a);
  }

  lemma MulAddRight(a: Byte, b: Byte, c: Byte)
    ensures Mul(a, Add(b, c)) == Add(Mul(a, b), Mul(a, c))
  {
    MulComm(a, Add(b, c));
    MulAddLeft(b, c, a);
    MulComm(a, b);
    MulComm(a, c);
  }

  // The example of FIPS 197, section 4.2: {57} times {13} is {fe}.
  lemma FipsExample()
    ensures Mul(0x57, 0x13) == 0xfe
  {
    assert XTime(0x57) == 0xae && XTime(0xae) == 0x47 && XTime(0x47) == 0x8e && XTime(0x8e) == 0x07;
    hide XTime;
    assert Mul(0x07, 1) == 0x07 by { MulOne(0x07); }
    assert Mul(0x8e, 2) == 0x07;
    assert Mul(0x47, 4) == 0x07;
    assert Mul(0xae, 9) == 0xa9;
  }

  // ---------- inverses ----------

  function Bit(b: Byte, a: Byte): Byte { if b & 1 != 0 then a else 0 }

  lemma MulStep(a: Byte, b: Byte)
    ensures Mul(a, b) == Add(Bit(b, a), Mul(XTime(a), b >> 1))
  {
    if b == 0 {
      MulZero(XTime(a));
      AddLaws(0, 0, 0);
    }
  }

  function Squared(x: Byte): Byte { Mul(x, x) }

  // Squaring is linear, so the images of the eight bits determine it.
  function Spread(x: Byte): Byte {
    Bit(x, 0x01) ^ Bit(x >> 1, 0x04) ^ Bit(x >> 2, 0x10) ^ Bit(x >> 3, 0x40)
    ^ Bit(x >> 4, 0x1b) ^ Bit(x >> 5, 0x6c) ^ Bit(x >> 6, 0xab) ^ Bit(x >> 7, 0x9a)
  }

  // Two and four squarings at once.
  function Spread2(x: Byte): Byte {
    Bit(x, 0x01) ^ Bit(x >> 1, 0x10) ^ Bit(x >> 2, 0x1b) ^ Bit(x >> 3, 0xab)
    ^ Bit(x >> 4, 0x5e) ^ Bit(x >> 5, 0x97) ^ Bit(x >> 6, 0xb3) ^ Bit(x >> 7, 0xc5)
  }

  function Spread4(x: Byte): Byte {
    Bit(x, 0x01) ^ Bit(x >> 1, 0x5e) ^ Bit(x >> 2, 0xe4) ^ Bit(x >> 3, 0xe8)
    ^ Bit(x >> 4, 0x4d) ^ Bit(x >> 5, 0x91) ^ Bit(x >> 6, 0x1d) ^ Bit(x >> 7, 0x6c)
  }

  lemma SquareAdd(a: Byte, b: Byte)
    ensures Squared(Add(a, b)) == Add(Squared(a), Squared(b))
  {
    hide Mul, Add;
    MulAddLeft(a, b, Add(a, b));
    MulAddRight(a, a, b);
    MulAddRight(b, a, b);
    MulComm(a, b);
    AddSwap(Mul(a, a), Mul(a, b), Mul(a, b), Mul(b, b));
    AddLaws(Mul(a, a), Mul(b, b), 0);
    AddSwap(Mul(a, a), Mul(a, b), Mul(b, b), Mul(a, b));
    AddLaws(Mul(a, b), Mul(b, b), 0);
    AddLaws(Add(Mul(a, a), Mul(b, b)), 0, 0);
  }

  lemma SquareXTime(a: Byte)
    ensures Squared(XTime(a)) == XTime(XTime(Squared(a)))
  {
    hide Mul, XTime;
    MulXTime(a, XTime(a));
    MulComm(a, XTime(a));
    MulXTime(a, a);
  }

  lemma XTimeTwice(v: Byte)
    ensures XTime(XTime(v)) == (v << 2) ^ Bit(v >> 6, 0x1b) ^ Bit(v >> 7, 0x36)
  {}

  lemma SpreadStep(b: Byte)
    ensures Spread(b) == Add(Bit(b, 1), XTime(XTime(Spread(b >> 1))))
  {
    var v := Spread(b >> 1);
    assert Spread(b) == Bit(b, 1) ^ ((v << 2) ^ Bit(v >> 6, 0x1b) ^ Bit(v >> 7, 0x36));
    hide Spread, XTime;
    XTimeTwice(v);
  }

  lemma {:induction false} SquareIsSpread(x: Byte)
    ensures Squared(x) == Spread(x)
    decreases x
  {
    MulZero(0);
    if x != 0 {
      SquareIsSpread(x >> 1);
      SpreadStep(x);
      LowBit(x);
      MulOne(1);
      hide Mul, Add, XTime, Spread;
      SquareAdd(Bit(x, 1), XTime(x >> 1));
      SquareXTime(x >> 1);
    }
  }

  // Every byte to the 256th power is itself, and no byte but 0 and 1 is its own square.
  lemma SpreadTwice(x: Byte)
    ensures Spread(Spread(x)) == Spread2(x)
  {}

  lemma Spread2Twice(x: Byte)
    ensures Spread2(Spread2(x)) == Spread4(x)
  {}

  lemma Spread4Twice(x: Byte)
    ensures Spread4(Spread4(x)) == x
  {}

  lemma SpreadFixes(x: Byte)
    ensures Spread(x) == x ==> x == 0 || x == 1
  {}

  // The byte squared `k` times.
  function Squares(x: Byte, k: nat): Byte
    decreases k
  {
    if k == 0 then x else Squares(Squared(x), k - 1)
  }

  // The product of the first `k` of them.
  function Chain(x: Byte, k: nat): Byte
    decreases k
  {
    if k == 0 then 1 else Mul(x, Chain(Squared(x), k - 1))
  }

  lemma SquareTwice(x: Byte)
    ensures Squared(Squared(x)) == Spread2(x)
  {
    hide Squared, Spread, Spread2;
    SquareIsSpread(x);
    SquareIsSpread(Spread(x));
    SpreadTwice(x);
  }

  lemma SquaresReturn(x: Byte)
    ensures Squares(x, 8) == x
  {
    hide Squared, Spread2, Spread4;
    var x2 := Squared(Squared(x));
    var x4 := Squared(Squared(x2));
    var x6 := Squared(Squared(x4));
    SquareTwice(x);
    SquareTwice(x2);
    SquareTwice(x4);
    SquareTwice(x6);
    Spread2Twice(x);
    Spread2Twice(x4);
    Spread4Twice(x);
    assert Squares(x, 8) == Squares(x2, 6) == Squares(x4, 4) == Squares(x6, 2);
  }

  lemma SquareMul(a: Byte, b: Byte)
    ensures Squared(Mul(a, b)) == Mul(Squared(a), Squared(b))
  {
    hide Mul;
    MulAssoc(a, b, Mul(a, b));
    MulComm(b, Mul(a, b));
    MulAssoc(a, b, b);
    MulAssoc(a, a, Mul(b, b));
  }

  // One more factor, at either end.
  lemma {:induction false} ChainEnd(x: Byte, k: nat)
    ensures Chain(x, k + 1) == Mul(Chain(x, k), Squares(x, k))
    decreases k
  {
    hide Mul, Squared;
    MulOne(x);
    if k > 0 {
      ChainEnd(Squared(x), k - 1);
      MulAssoc(x, Chain(Squared(x), k - 1), Squares(Squared(x), k - 1));
    }
  }

  lemma {:induction false} SquareChain(x: Byte, k: nat)
    ensures Squared(Chain(x, k)) == Chain(Squared(x), k)
    decreases k
  {
    hide Mul;
    MulOne(1);
    if k > 0 {
      SquareMul(x, Chain(Squared(x), k - 1));
      SquareChain(Squared(x), k - 1);
    }
  }

  lemma {:induction false} ChainTelescopes(x: Byte, k: nat)
    ensures Mul(x, Chain(x, k)) == Squares(x, k)
    decreases k
  {
    hide Mul;
    MulOne(x);
    if k > 0 {
      MulAssoc(x, x, Chain(Squared(x), k - 1));
      ChainTelescopes(Squared(x), k - 1);
    }
  }

  // The 255th power of a nonzero byte is its own square and not zero.
  lemma ChainIsOne(x: Byte)
    requires x != 0
    ensures Chain(x, 8) == 1
  {
    hide Mul, Squared, Spread;
    var e := Chain(x, 8);
    SquaresReturn(x);
    ChainTelescopes(x, 8);
    MulZero(x);
    SquareChain(x, 8);
    ChainEnd(Squared(x), 7);
    MulComm(x, Chain(Squared(x), 7));
    SquareIsSpread(e);
    SpreadFixes(e);
  }

  // The one inverse a nonzero byte has: its 254th power.
  function Inverse(x: Byte): (y: Byte)
    requires x != 0
    ensures y != 0 && Mul(x, y) == 1
  {
    ChainIsOne(x);
    MulZero(x);
    Chain(Squared(x), 7)
  }

  lemma InverseUnique(x: Byte, y: Byte, z: Byte)
    requires Mul(x, y) == 1 == Mul(x, z)
    ensures y == z
  {
    hide Mul;
    MulOne(y);
    MulOne(z);
    MulAssoc(y, x, z);
    MulComm(x, y);
  }

  // ---------- the loops ----------

  // The largest multiplier left after `round` right shifts.
  function Mask(round: nat): Byte {
    match round
    case 0 => 0xff
    case 1 => 0x7f
    case 2 => 0x3f
    case 3 => 0x1f
    case 4 => 0x0f
    case 5 => 0x07
    case 6 => 0x03
    case 7 => 0x01
    case _ => 0x00
  }

  method GfAdd(a: Byte, b: Byte) returns (sum: Byte)
    ensures sum == Add(a, b)
  {
    sum := a ^ b;
  }

  lemma MaskShrinks(b: Byte, round: nat)
    requires round < 8 && b <= Mask(round)
    ensures b >> 1 <= Mask(round + 1)
  {}

  lemma MaskEmpty(b: Byte)
    requires b <= Mask(8)
    ensures b == 0
  {}

  lemma XorIsAdd(p: Byte, a: Byte)
    ensures p ^ a == Add(p, a)
  {}

  lemma ShiftIsXTime(a: Byte, a': Byte)
    requires a' == if a & 0x80 != 0 then (a << 1) ^ 0x1b else a << 1
    ensures a' == XTime(a)
  {
    if a & 0x80 == 0 { assert (a << 1) ^ 0 == a << 1; }
  }

  // One round moves a term of the product into the accumulator.
  lemma RoundKeepsProduct(p: Byte, a: Byte, b: Byte, p': Byte, a': Byte)
    requires p' == if b & 1 != 0 then p ^ a else p
    requires a' == if a & 0x80 != 0 then (a << 1) ^ 0x1b else a << 1
    ensures Add(p', Mul(a', b >> 1)) == Add(p, Mul(a, b))
  {
    hide Mul, Add, XTime;
    ShiftIsXTime(a, a');
    AddLaws(p, 0, 0);
    assert p' == Add(p, Bit(b, a)) by { XorIsAdd(p, a); }
    MulStep(a, b);
    AddLaws(p, Bit(b, a), Mul(XTime(a), b >> 1));
  }

  method GfMul(a0: Byte, b0: Byte) returns (p: Byte)
    ensures p == Mul(a0, b0)
  {
    hide Mul, Add;
    var a, b := a0, b0;
    p := 0;
    AddLaws(Mul(a, b), 0, 0);
    assert b <= Mask(0);
    for round := 0 to 8
      invariant Add(p, Mul(a, b)) == Mul(a0, b0)
      invariant b <= Mask(round)
    {
      MaskShrinks(b, round);
      ghost var p', a', b' := p, a, b;
      if b & 1 != 0 {
        p := p ^ a;
      }
      var carry := a & 0x80;
      a := a << 1;
      if carry != 0 {
        a := a ^ 0x1b;
      }
      b := b >> 1;
      RoundKeepsProduct(p', a', b', p, a);
    }
    MaskEmpty(b);
    MulZero(a);
    AddLaws(p, 0, 0);
  }

  // The search panics exactly when it is asked for the inverse of zero.
  method GfInv(x: Byte) returns (inverse: Option<Byte>)
    ensures inverse == if x == 0 then None else Some(Inverse(x))
  {
    hide Mul, Inverse;
    MulZero(x);
    ghost var answer := if x != 0 then Inverse(x) else 0;
    assert x != 0 ==> Mul(x, answer) == 1;
    var i: Byte := 1;
    while true
      invariant 1 <= i
      invariant forall k: Byte :: 1 <= k < i ==> Mul(x, k) != 1
      decreases 255 - i
    {
      var product := GfMul(x, i);
      if product == 1 {
        MulZero(i);
        InverseUnique(x, i, Inverse(x));
        return Some(i);
      }
      if i == 255 { break; }
      i := i + 1;
    }
    return None;
  }
}
