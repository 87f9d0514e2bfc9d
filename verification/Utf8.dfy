// Which bytes are a string: UTF-8, section 4 of RFC 3629.
module Utf8 {
  import opened Bytes

  predicate Between(b: seq<byte>, i: nat, low: byte, high: byte) { i < |b| && low <= b[i] <= high }

  predicate Tail(b: seq<byte>, i: nat) { Between(b, i, 0x80, 0xBF) }

  // The length of the character at the front; zero if there is none.
  function FirstLength(b: seq<byte>): (n: nat)
    ensures n <= |b|
  {
    if Between(b, 0, 0x00, 0x7F) then 1
    else if Between(b, 0, 0xC2, 0xDF) && Tail(b, 1) then 2
    else if Between(b, 0, 0xE0, 0xE0) && Between(b, 1, 0xA0, 0xBF) && Tail(b, 2) then 3
    else if Between(b, 0, 0xED, 0xED) && Between(b, 1, 0x80, 0x9F) && Tail(b, 2) then 3
    else if Between(b, 0, 0xE1, 0xEF) && b[0] != 0xED && Tail(b, 1) && Tail(b, 2) then 3
    else if Between(b, 0, 0xF0, 0xF0) && Between(b, 1, 0x90, 0xBF) && Tail(b, 2) && Tail(b, 3) then 4
    else if Between(b, 0, 0xF1, 0xF3) && Tail(b, 1) && Tail(b, 2) && Tail(b, 3) then 4
    else if Between(b, 0, 0xF4, 0xF4) && Between(b, 1, 0x80, 0x8F) && Tail(b, 2) && Tail(b, 3) then 4
    else 0
  }

  predicate IsString(b: seq<byte>) {
    b == [] || (FirstLength(b) > 0 && IsString(b[FirstLength(b)..]))
  }

  lemma {:induction false} AsciiIsString(b: seq<byte>)
    requires forall c :: c in b ==> c < 0x80
    ensures IsString(b)
  {
    if b != [] {
      assert b[0] in b && Between(b, 0, 0x00, 0x7F);
      assert forall c :: c in b[1..] ==> c in b;
      AsciiIsString(b[1..]);
    }
  }

  // ---------- the characters of a string ----------

  predicate Scalar(c: nat) { c < 0xD800 || 0xE000 <= c < 0x11_0000 }

  function EncodeChar(c: nat): (b: seq<byte>)
    requires Scalar(c)
    ensures |b| > 0
  {
    if c < 0x80 then [c]
    else if c < 0x800 then [0xC0 + c / 64, 0x80 + c % 64]
    else if c < 0x1_0000 then [0xE0 + c / 64 / 64, 0x80 + c / 64 % 64, 0x80 + c % 64]
    else [0xF0 + c / 64 / 64 / 64, 0x80 + c / 64 / 64 % 64, 0x80 + c / 64 % 64, 0x80 + c % 64]
  }

  ghost predicate Scalars(cs: seq<nat>) { forall i :: 0 <= i < |cs| ==> Scalar(cs[i]) }

  function EncodeAll(cs: seq<nat>): seq<byte>
    requires Scalars(cs)
  {
    if cs == [] then [] else EncodeChar(cs[0]) + EncodeAll(cs[1..])
  }

  lemma CharIsFirst(c: nat, rest: seq<byte>)
    requires Scalar(c)
    ensures FirstLength(EncodeChar(c) + rest) == |EncodeChar(c)|
  {}

  // The character whose bytes come first.
  function FirstChar(b: seq<byte>): nat
    requires FirstLength(b) > 0
  {
    match FirstLength(b)
    case 1 => b[0]
    case 2 => (b[0] as nat - 0xC0) * 64 + (b[1] as nat - 0x80)
    case 3 => ((b[0] as nat - 0xE0) * 64 + (b[1] as nat - 0x80)) * 64 + (b[2] as nat - 0x80)
    case _ =>
      (((b[0] as nat - 0xF0) * 64 + (b[1] as nat - 0x80)) * 64 + (b[2] as nat - 0x80)) * 64 + (b[3] as nat - 0x80)
  }

  lemma SixBits(q: nat, r: nat)
    requires r < 64
    ensures (q * 64 + r) / 64 == q && (q * 64 + r) % 64 == r
  {}

  lemma TwoBytes(b: seq<byte>)
    requires FirstLength(b) == 2
    ensures Scalar(FirstChar(b)) && EncodeChar(FirstChar(b)) == [b[0], b[1]]
  {
    SixBits(b[0] as nat - 0xC0, b[1] as nat - 0x80);
  }

  lemma ThreeBytes(b: seq<byte>)
    requires FirstLength(b) == 3
    ensures Scalar(FirstChar(b)) && EncodeChar(FirstChar(b)) == [b[0], b[1], b[2]]
  {
    var high := (b[0] as nat - 0xE0) * 64 + (b[1] as nat - 0x80);
    SixBits(b[0] as nat - 0xE0, b[1] as nat - 0x80);
    SixBits(high, b[2] as nat - 0x80);
    assert FirstChar(b) == high * 64 + (b[2] as nat - 0x80);
    assert 0x20 <= high < 0x400 && !(0x360 <= high < 0x380);
  }

  lemma FourBytes(b: seq<byte>)
    requires FirstLength(b) == 4
    ensures Scalar(FirstChar(b)) && EncodeChar(FirstChar(b)) == [b[0], b[1], b[2], b[3]]
  {
    var top := (b[0] as nat - 0xF0) * 64 + (b[1] as nat - 0x80);
    var high := top * 64 + (b[2] as nat - 0x80);
    SixBits(b[0] as nat - 0xF0, b[1] as nat - 0x80);
    SixBits(top, b[2] as nat - 0x80);
    SixBits(high, b[3] as nat - 0x80);
    assert FirstChar(b) == high * 64 + (b[3] as nat - 0x80);
    assert 0x10 <= top < 0x110;
  }

  lemma FirstIsChar(b: seq<byte>)
    requires FirstLength(b) > 0
    ensures Scalar(FirstChar(b)) && EncodeChar(FirstChar(b)) == b[..FirstLength(b)]
  {
    if FirstLength(b) == 2 { TwoBytes(b); }
    if FirstLength(b) == 3 { ThreeBytes(b); }
    if FirstLength(b) == 4 { FourBytes(b); }
    LengthIsSmall(b);
    var n := FirstLength(b);
    assert n == 1 ==> EncodeChar(FirstChar(b)) == [b[0]];
    hide EncodeChar, FirstLength, FirstChar;
    assert b[..n] == if n == 1 then [b[0]] else if n == 2 then [b[0], b[1]]
                     else if n == 3 then [b[0], b[1], b[2]] else [b[0], b[1], b[2], b[3]];
  }

  lemma LengthIsSmall(b: seq<byte>)
    ensures FirstLength(b) <= 4
    ensures FirstLength(b) == 1 ==> b[0] < 0x80
  {}

  // Bytes are a string exactly when they encode a sequence of characters.
  lemma {:induction false} IsStringIff(b: seq<byte>)
    ensures IsString(b) <==> exists cs :: Scalars(cs) && b == EncodeAll(cs)
  {
    if IsString(b) { var cs := CharsOf(b); }
    if cs :| Scalars(cs) && b == EncodeAll(cs) { EncodedIsString(cs); }
  }

  lemma {:induction false} CharsOf(b: seq<byte>) returns (cs: seq<nat>)
    requires IsString(b)
    ensures Scalars(cs) && b == EncodeAll(cs)
  {
    cs := [];
    if b != [] {
      FirstIsChar(b);
      var rest := CharsOf(b[FirstLength(b)..]);
      hide EncodeChar, FirstLength, FirstChar;
      cs := [FirstChar(b)] + rest;
      assert cs[1..] == rest && b == b[..FirstLength(b)] + b[FirstLength(b)..];
    }
  }

  lemma {:induction false} EncodedIsString(cs: seq<nat>)
    requires Scalars(cs)
    ensures IsString(EncodeAll(cs))
  {
    if cs != [] {
      EncodedIsString(cs[1..]);
      CharIsFirst(cs[0], EncodeAll(cs[1..]));
      hide EncodeChar, FirstLength;
      var b := EncodeAll(cs);
      assert b[FirstLength(b)..] == EncodeAll(cs[1..]);
    }
  }
}
