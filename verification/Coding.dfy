// Little-endian integers in byte buffers. Checksums are bit vectors and are coded by
// shifts and ors; lengths, offsets and sequence numbers are numbers and are coded by
// their base-256 digits, which is what the shifts compute.
module Coding {
  import opened Keys

  const U32: nat := 0x1_0000_0000
  const U64: nat := 0x1_0000_0000_0000_0000

  function PutU32(v: bv32): (b: Bytes)
    ensures |b| == 4
  {
    [(v & 0xFF) as bv8, ((v >> 8) & 0xFF) as bv8, ((v >> 16) & 0xFF) as bv8, ((v >> 24) & 0xFF) as bv8]
  }

  function GetU32(b: Bytes): bv32
    requires |b| == 4
  {
    (b[0] as bv32) | ((b[1] as bv32) << 8) | ((b[2] as bv32) << 16) | ((b[3] as bv32) << 24)
  }

  lemma RoundTrip32(v: bv32)
    ensures GetU32(PutU32(v)) == v
  {
  }

  // A byte and the number it stands for, one bit at a time.

  function Doubled(b: bv8, low: bool): bv8 {
    (b << 1) | (if low then 1 else 0)
  }

  function Halved(b: bv8): bv8 {
    b >> 1
  }

  predicate LowBit(b: bv8) {
    b & 1 != 0
  }

  lemma HalvedLess(b: bv8)
    requires b != 0
    ensures Halved(b) < b
  {
  }

  function BinaryValue(b: bv8): nat {
    if b == 0 then 0
    else
      HalvedLess(b);
      (if LowBit(b) then 1 else 0) + 2 * BinaryValue(Halved(b))
  }

  function Octet(n: nat): bv8 {
    if n == 0 then 0 else Doubled(Octet(n / 2), n % 2 == 1)
  }

  function Power(w: nat): nat {
    if w == 0 then 1 else 2 * Power(w - 1)
  }

  /** Nothing is left of b after w halvings. */
  predicate Narrow(b: bv8, w: nat) {
    if w == 0 then b == 0 else Narrow(Halved(b), w - 1)
  }

  predicate TopBit(b: bv8) {
    b & 0x80 != 0
  }

  lemma HalvedDoubled(b: bv8, low: bool)
    requires !TopBit(b)
    ensures Halved(Doubled(b, low)) == b && LowBit(Doubled(b, low)) == low
    ensures Doubled(b, low) == 0 ==> b == 0 && !low
  {
  }

  lemma DoubledHalved(b: bv8)
    ensures Doubled(Halved(b), LowBit(b)) == b
  {
  }

  lemma {:induction false} NarrowWider(b: bv8, w: nat)
    requires Narrow(b, w)
    ensures Narrow(b, w + 1)
    decreases w
  {
    if w > 0 {
      NarrowWider(Halved(b), w - 1);
    } else {
      ZeroHalves();
    }
  }

  lemma ZeroHalves()
    ensures Halved(0) == 0
  {
  }

  lemma {:induction false} NarrowSeven(b: bv8, w: nat)
    requires Narrow(b, w) && w <= 7
    ensures !TopBit(b)
    decreases 7 - w
  {
    hide TopBit, Halved;
    if w < 7 {
      NarrowWider(b, w);
      NarrowSeven(b, w + 1);
    } else {
      SevenHalves(b);
      NarrowFour(b, 3);
      var c := Halved(Halved(Halved(Halved(b))));
      assert Narrow(Halved(c), 2) && Narrow(Halved(Halved(c)), 1) && Narrow(Halved(Halved(Halved(c))), 0);
    }
  }

  lemma NarrowFour(b: bv8, w: nat)
    ensures Narrow(b, w + 4) <==> Narrow(Halved(Halved(Halved(Halved(b)))), w)
  {
    hide Halved;
    assert Narrow(b, w + 4) <==> Narrow(Halved(b), w + 3);
    assert Narrow(Halved(b), w + 3) <==> Narrow(Halved(Halved(b)), w + 2);
    assert Narrow(Halved(Halved(b)), w + 2) <==> Narrow(Halved(Halved(Halved(b))), w + 1);
    assert Narrow(Halved(Halved(Halved(b))), w + 1) <==> Narrow(Halved(Halved(Halved(Halved(b)))), w);
  }

  lemma SevenHalves(b: bv8)
    ensures TopBit(b) ==> Halved(Halved(Halved(Halved(Halved(Halved(Halved(b))))))) != 0
  {
  }

  lemma EightHalves(b: bv8)
    ensures Halved(Halved(Halved(Halved(Halved(Halved(Halved(Halved(b)))))))) == 0
  {
  }

  lemma NarrowEight(b: bv8)
    ensures Narrow(b, 8)
  {
    hide Halved;
    EightHalves(b);
    NarrowFour(b, 4);
    var c := Halved(Halved(Halved(Halved(b))));
    NarrowFour(c, 0);
  }

  lemma {:induction false} BinaryBound(b: bv8, w: nat)
    requires Narrow(b, w)
    ensures BinaryValue(b) < Power(w)
    decreases w
  {
    hide Halved, LowBit;
    if w > 0 { BinaryBound(Halved(b), w - 1); }
    ZeroHalves();
  }

  lemma PowerEight()
    ensures Power(8) == 256
  {
    assert Power(4) == 16;
  }

  lemma ByteBound(b: bv8)
    ensures BinaryValue(b) < 256
  {
    hide BinaryValue, Power, Narrow;
    NarrowEight(b);
    BinaryBound(b, 8);
    PowerEight();
  }

  function ByteValue(b: bv8): (n: nat)
    ensures n < 256
  {
    ByteBound(b);
    BinaryValue(b)
  }

  function Digit(n: nat): bv8 {
    Octet(n % 256)
  }

  lemma {:induction false} OctetValue(n: nat, w: nat)
    requires n < Power(w) && w <= 8
    ensures BinaryValue(Octet(n)) == n && Narrow(Octet(n), w)
    decreases w
  {
    hide Halved, LowBit, Doubled, TopBit;
    if w > 0 {
      var x := Octet(n / 2);
      OctetValue(n / 2, w - 1);
      NarrowSeven(x, w - 1);
      HalvedDoubled(x, n % 2 == 1);
      if n == 0 { NarrowZero(w); }
    }
  }

  lemma {:induction false} NarrowZero(w: nat)
    ensures Narrow(0, w)
  {
    hide Halved;
    ZeroHalves();
    if w > 0 { NarrowZero(w - 1); }
  }

  lemma {:induction false} ByteOctet(b: bv8)
    ensures Octet(BinaryValue(b)) == b
    decreases b
  {
    hide Halved, LowBit, Doubled;
    if b != 0 {
      HalvedLess(b);
      ByteOctet(Halved(b));
      DoubledHalved(b);
      if BinaryValue(b) == 0 { ZeroDoubles(); }
    }
  }

  lemma ZeroDoubles()
    ensures Doubled(0, false) == 0
  {
  }

  lemma DigitValue(n: nat)
    ensures ByteValue(Digit(n)) == n % 256
  {
    hide BinaryValue, Octet, Power, Narrow;
    PowerEight();
    OctetValue(n % 256, 8);
  }

  lemma ByteDigit(b: bv8)
    ensures Digit(ByteValue(b)) == b
  {
    hide BinaryValue, Octet;
    assert ByteValue(b) % 256 == ByteValue(b);
    ByteOctet(b);
  }

  /** The bit of b under the mask, as a number. */
  function Bit(b: bv8, mask: bv8): nat {
    if b & mask != 0 then 1 else 0
  }

  lemma BinaryStep(b: bv8)
    ensures BinaryValue(b) == (if LowBit(b) then 1 else 0) + 2 * BinaryValue(Halved(b))
  {
    if b == 0 { ZeroHalves(); }
  }

  lemma BitsDown(b: bv8)
    ensures LowBit(b) <==> b & 1 != 0
    ensures LowBit(Halved(b)) <==> b & 2 != 0
    ensures LowBit(Halved(Halved(b))) <==> b & 4 != 0
    ensures LowBit(Halved(Halved(Halved(b)))) <==> b & 8 != 0
  {
  }

  lemma BitsUp(b: bv8)
    ensures var h := Halved(Halved(Halved(Halved(b))));
            && (h & 1 != 0 <==> b & 16 != 0) && (h & 2 != 0 <==> b & 32 != 0)
            && (h & 4 != 0 <==> b & 64 != 0) && (h & 8 != 0 <==> b & 128 != 0)
            && Halved(Halved(Halved(Halved(h)))) == 0
  {
  }

  lemma NibbleValue(b: bv8)
    ensures BinaryValue(b) == Bit(b, 1) + 2 * Bit(b, 2) + 4 * Bit(b, 4) + 8 * Bit(b, 8)
                              + 16 * BinaryValue(Halved(Halved(Halved(Halved(b)))))
  {
    hide BinaryValue, Halved, LowBit;
    BitsDown(b);
    BinaryStep(b);
    BinaryStep(Halved(b));
    BinaryStep(Halved(Halved(b)));
    BinaryStep(Halved(Halved(Halved(b))));
  }

  /** The value of a byte, bit by bit. */
  lemma ByteBits(b: bv8)
    ensures ByteValue(b) == Bit(b, 1) + 2 * Bit(b, 2) + 4 * Bit(b, 4) + 8 * Bit(b, 8)
                            + 16 * Bit(b, 16) + 32 * Bit(b, 32) + 64 * Bit(b, 64) + 128 * Bit(b, 128)
  {
    hide Halved;
    BitsUp(b);
    NibbleValue(b);
    NibbleValue(Halved(Halved(Halved(Halved(b)))));
    assert BinaryValue(0) == 0;
  }

  lemma DigitIs(n: nat, b: bv8)
    requires n % 256 == ByteValue(b)
    ensures Digit(n) == b
  {
    hide ByteValue, Octet;
    ByteDigit(b);
  }

  lemma ByteValueInjective(a: bv8, b: bv8)
    requires ByteValue(a) == ByteValue(b)
    ensures a == b
  {
    hide ByteValue, Digit;
    ByteDigit(a);
    ByteDigit(b);
  }

  function EncodeLen(n: nat): (b: Bytes)
    requires n < U32
    ensures |b| == 4
  {
    [Digit(n), Digit(n / 0x100), Digit(n / 0x100 / 0x100), Digit(n / 0x100 / 0x100 / 0x100)]
  }

  function DecodeLen(b: Bytes): nat
    requires |b| == 4
  {
    ByteValue(b[0]) + 0x100 * ByteValue(b[1]) + 0x1_0000 * ByteValue(b[2]) + 0x100_0000 * ByteValue(b[3])
  }

  lemma DecodeLenBound(b: Bytes)
    requires |b| == 4
    ensures DecodeLen(b) < U32
  {
    hide ByteValue;
  }

  /** A number is its lowest digit and the rest. */
  lemma LowestDigit(n: nat)
    ensures ByteValue(Digit(n)) + 0x100 * (n / 0x100) == n
  {
    hide ByteValue, Digit;
    DigitValue(n);
  }

  lemma LenRoundTrip(n: nat)
    requires n < U32
    ensures DecodeLen(EncodeLen(n)) == n
  {
    hide ByteValue, Digit;
    var a := n / 0x100;
    var b := a / 0x100;
    var c := b / 0x100;
    LowestDigit(n);
    LowestDigit(a);
    LowestDigit(b);
    LowestDigit(c);
    assert c / 0x100 == 0;
  }

  function EncodeSeq(n: nat): (b: Bytes)
    requires n < U64
    ensures |b| == 8
  {
    EncodeLen(n % U32) + EncodeLen(n / U32)
  }

  function DecodeSeq(b: Bytes): nat
    requires |b| == 8
  {
    DecodeLen(b[..4]) + U32 * DecodeLen(b[4..])
  }

  lemma SeqRoundTrip(n: nat)
    requires n < U64
    ensures DecodeSeq(EncodeSeq(n)) == n
  {
    hide EncodeLen, DecodeLen;
    LenRoundTrip(n % U32);
    LenRoundTrip(n / U32);
    assert EncodeSeq(n)[..4] == EncodeLen(n % U32) && EncodeSeq(n)[4..] == EncodeLen(n / U32);
  }

  // Every buffer is the encoding of what it decodes to, so decoding loses nothing.

  lemma GetThenPut32(b: Bytes)
    requires |b| == 4
    ensures PutU32(GetU32(b)) == b
  {
    hide PutU32, GetU32;
    assert b == [b[0], b[1], b[2], b[3]];
    FourBytes(b[0], b[1], b[2], b[3]);
  }

  lemma FourBytes(a: bv8, b: bv8, c: bv8, d: bv8)
    ensures PutU32(GetU32([a, b, c, d])) == [a, b, c, d]
  {
  }

  lemma LowDigit(b: bv8, rest: nat)
    ensures Digit(ByteValue(b) + 0x100 * rest) == b && (ByteValue(b) + 0x100 * rest) / 0x100 == rest
  {
    hide ByteValue, Octet;
    var n := ByteValue(b) + 0x100 * rest;
    assert n % 0x100 == ByteValue(b) == ByteValue(b) % 0x100;
    ByteDigit(b);
  }

  lemma LenFromBytes(b: Bytes)
    requires |b| == 4
    ensures DecodeLen(b) < U32 && EncodeLen(DecodeLen(b)) == b
  {
    hide ByteValue, Digit;
    DecodeLenBound(b);
    LowDigit(b[3], 0);
    LowDigit(b[2], ByteValue(b[3]));
    LowDigit(b[1], ByteValue(b[2]) + 0x100 * ByteValue(b[3]));
    LowDigit(b[0], ByteValue(b[1]) + 0x100 * (ByteValue(b[2]) + 0x100 * ByteValue(b[3])));
  }

  lemma SeqFromBytes(b: Bytes)
    requires |b| == 8
    ensures DecodeSeq(b) < U64 && EncodeSeq(DecodeSeq(b)) == b
  {
    hide EncodeLen, DecodeLen;
    LenFromBytes(b[..4]);
    LenFromBytes(b[4..]);
    HalvesOf(DecodeLen(b[..4]), DecodeLen(b[4..]));
  }

  lemma HalvesOf(low: nat, high: nat)
    requires low < U32 && high < U32
    ensures (low + U32 * high) % U32 == low && (low + U32 * high) / U32 == high && low + U32 * high < U64
  {
  }
}
