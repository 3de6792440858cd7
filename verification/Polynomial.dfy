// Polynomials over GF(2) as bit sequences, highest coefficient first, long division
// by the CRC-32 generator, and that the checksum is the remainder section 8 of RFC 1952
// asks for.
module Polynomial {
  import opened Keys
  import opened Crc

  type Bits = seq<bool>

  function XorBits(a: Bits, b: Bits): (r: Bits)
    requires |a| == |b|
    ensures |r| == |a|
    ensures forall i :: 0 <= i < |a| ==> r[i] == (a[i] != b[i])
  {
    seq(|a|, i requires 0 <= i < |a| => a[i] != b[i])
  }

  function Constant(n: nat, v: bool): (r: Bits)
    ensures |r| == n && forall i :: 0 <= i < n ==> r[i] == v
  {
    seq(n, i => v)
  }

  function Negate(a: Bits): (r: Bits)
    ensures |r| == |a| && forall i :: 0 <= i < |a| ==> r[i] == !a[i]
  {
    seq(|a|, i requires 0 <= i < |a| => !a[i])
  }

  /** The low n bits of a word, lowest first. */
  function BitsOf(c: bv32, n: nat): (r: Bits)
    ensures |r| == n
    decreases n
  {
    if n == 0 then [] else [Odd(c)] + BitsOf(Half(c), n - 1)
  }

  /** The generator without its leading term x^32. */
  function Generator(): (g: Bits)
    ensures |g| == 32
  {
    BitsOf(POLY, 32)
  }

  /** x^32 + x^26 + x^23 + x^22 + x^16 + x^12 + x^11 + x^10 + x^8 + x^7 + x^5 + x^4 + x^2 + x + 1. */
  lemma GeneratorIs(i: nat)
    requires i < 32
    ensures Generator()[i] <==> 31 - i in {26, 23, 22, 16, 12, 11, 10, 8, 7, 5, 4, 2, 1, 0}
  {
    hide BitsOf;
    FourBits(POLY, 0x0EDB_8832, 28);
    FourBits(0x0EDB_8832, 0x00ED_B883, 24);
    FourBits(0x00ED_B883, 0x000E_DB88, 20);
    FourBits(0x000E_DB88, 0x0000_EDB8, 16);
    FourBits(0x0000_EDB8, 0x0000_0EDB, 12);
    FourBits(0x0000_0EDB, 0x0000_00ED, 8);
    FourBits(0x0000_00ED, 0x0000_000E, 4);
    FourBits(0x0000_000E, 0, 0);
  }

  lemma FourBits(c: bv32, rest: bv32, n: nat)
    requires rest == c >> 4
    ensures BitsOf(c, 4 + n) == [c & 1 != 0, c & 2 != 0, c & 4 != 0, c & 8 != 0] + BitsOf(rest, n)
  {
    hide BitsOf, Half, Odd;
    LowBits(c);
    NextBits(c);
    FourHalves(c);
    FirstBit(c, 3 + n);
    FirstBit(Half(c), 2 + n);
    FirstBit(Half(Half(c)), 1 + n);
    FirstBit(Half(Half(Half(c))), n);
  }

  lemma FirstBit(c: bv32, n: nat)
    ensures BitsOf(c, n + 1) == [Odd(c)] + BitsOf(Half(c), n)
  {
  }

  lemma LowBits(c: bv32)
    ensures Odd(c) <==> c & 1 != 0
    ensures Odd(Half(c)) <==> c & 2 != 0
  {
  }

  lemma NextBits(c: bv32)
    ensures Odd(Half(Half(c))) <==> c & 4 != 0
    ensures Odd(Half(Half(Half(c)))) <==> c & 8 != 0
  {
  }

  lemma FourHalves(c: bv32)
    ensures Half(Half(Half(Half(c)))) == c >> 4
  {
  }

  /** Long division: cancel the leading coefficient until the degree is below 32. */
  function Remainder(p: Bits): (r: Bits)
    requires |p| >= 32
    ensures |r| == 32
    decreases |p|
  {
    if |p| == 32 then p
    else if p[0] then Remainder(XorBits(p[1..33], Generator()) + p[33..])
    else Remainder(p[1..])
  }

  /** The bytes of a message as polynomial coefficients: lowest bit of each byte first. */
  function Message(data: Bytes): (m: Bits) {
    if data == [] then [] else BitsOf(Word(data[0]), 8) + Message(data[1..])
  }

  /**
   * The definition: multiply by x^32, invert the first 32 bits, divide, invert the
   * remainder.
   */
  function Reference(data: Bytes): (r: Bits)
    ensures |r| == 32
  {
    Negate(Remainder(Dividend(Constant(32, true), Message(data))))
  }

  /** The message followed by 32 zeros, with r xor-ed into its front. */
  function Dividend(r: Bits, m: Bits): (d: Bits)
    requires |r| == 32
    ensures |d| == |m| + 32
  {
    XorBits(r + Constant(|m|, false), m + Constant(32, false))
  }

  // ------------------------------------------------- the shift register

  function Register(r: Bits, b: bool): (r': Bits)
    requires |r| == 32
    ensures |r'| == 32
  {
    var shifted := r[1..] + [false];
    if r[0] != b then XorBits(shifted, Generator()) else shifted
  }

  function Run(r: Bits, m: Bits): (r': Bits)
    requires |r| == 32
    ensures |r'| == 32
    decreases |m|
  {
    if m == [] then r else Run(Register(r, m[0]), m[1..])
  }

  lemma DividendStep(r: Bits, m: Bits)
    requires |r| == 32 && m != []
    ensures var d := Dividend(r, m);
            && d[0] == (r[0] != m[0])
            && (if d[0] then XorBits(d[1..33], Generator()) + d[33..] else d[1..]) ==
                Dividend(Register(r, m[0]), m[1..])
  {
    hide Generator;
    var d := Dividend(r, m);
    var next := if d[0] then XorBits(d[1..33], Generator()) + d[33..] else d[1..];
    var want := Dividend(Register(r, m[0]), m[1..]);
    assert |next| == |want|;
    forall i | 0 <= i < |want|
      ensures next[i] == want[i]
    {
      var r' := Register(r, m[0]);
      assert want[i] == ((r' + Constant(|m| - 1, false))[i] != (m[1..] + Constant(32, false))[i]);
      assert d[i + 1] == ((r + Constant(|m|, false))[i + 1] != (m + Constant(32, false))[i + 1]);
      assert (m[1..] + Constant(32, false))[i] == (m + Constant(32, false))[i + 1];
    }
  }

  /** Shifting the message through a 32-bit register is dividing it. */
  lemma {:induction false} RegisterDivides(r: Bits, m: Bits)
    requires |r| == 32
    ensures Remainder(Dividend(r, m)) == Run(r, m)
    decreases |m|
  {
    hide Dividend, Register, Generator;
    if m == [] {
      DividendEmpty(r);
    } else {
      DividendStep(r, m);
      RegisterDivides(Register(r, m[0]), m[1..]);
    }
  }

  lemma DividendEmpty(r: Bits)
    requires |r| == 32
    ensures Dividend(r, []) == r
  {
  }

  lemma {:induction false} RunConcat(r: Bits, a: Bits, b: Bits)
    requires |r| == 32
    ensures Run(r, a + b) == Run(Run(r, a), b)
    decreases |a|
  {
    hide Register;
    if a == [] {
      assert a + b == b;
    } else {
      RunConcat(Register(r, a[0]), a[1..], b);
      assert (a + b)[1..] == a[1..] + b;
    }
  }

  // ---------------------------------------------- the register is the word

  lemma {:induction false} BitsXor(x: bv32, y: bv32, n: nat)
    ensures BitsOf(Xor(x, y), n) == XorBits(BitsOf(x, n), BitsOf(y, n))
    decreases n
  {
    hide Xor, Half, Odd;
    if n > 0 {
      XorHalf(x, y);
      BitsXor(Half(x), Half(y), n - 1);
    }
  }

  lemma {:induction false} BitsSnoc(c: bv32, n: nat)
    ensures BitsOf(c, n + 1) == BitsOf(c, n) + [Odd(ShiftBy(c, n))]
    decreases n
  {
    hide Half, Odd;
    if n > 0 {
      BitsSnoc(Half(c), n - 1);
    } else {
      assert BitsOf(c, 1) == [Odd(c)] + BitsOf(Half(c), 0);
    }
  }

  function DownByte(c: bv32): bv32 {
    c >> 8
  }

  lemma ShiftDown(c: bv32)
    ensures ShiftBy(c, 8) == DownByte(c)
  {
    hide ShiftBy;
    ShiftByte(c);
  }

  lemma ShiftAll(c: bv32)
    ensures ShiftBy(c, 32) == DownByte(DownByte(DownByte(DownByte(c))))
  {
    hide ShiftBy, DownByte;
    ShiftAdds(c, 8, 24);
    ShiftDown(c);
    var c1 := DownByte(c);
    ShiftAdds(c1, 8, 16);
    ShiftDown(c1);
    var c2 := DownByte(c1);
    ShiftAdds(c2, 8, 8);
    ShiftDown(c2);
    ShiftDown(DownByte(c2));
  }

  lemma FourBytesOut(c: bv32)
    ensures !Odd(DownByte(DownByte(DownByte(DownByte(c)))))
  {
  }

  lemma ShiftedOut(c: bv32)
    ensures !Odd(ShiftBy(c, 32))
  {
    hide ShiftBy, DownByte, Odd;
    ShiftAll(c);
    FourBytesOut(c);
  }

  lemma HalfBits(c: bv32)
    ensures BitsOf(Half(c), 32) == BitsOf(c, 32)[1..] + [false]
  {
    hide Half, Odd, ShiftBy, BitsOf;
    BitsSnoc(Half(c), 31);
    ShiftAdds(c, 1, 31);
    ShiftOne(c);
    ShiftedOut(c);
    BitsFirst(c, 32);
  }

  lemma BitsFirst(c: bv32, n: nat)
    requires n > 0
    ensures BitsOf(c, n) == [Odd(c)] + BitsOf(Half(c), n - 1)
  {
    hide Half, Odd;
  }

  lemma ShiftOne(c: bv32)
    ensures ShiftBy(c, 1) == Half(c)
  {
    hide Half;
    assert ShiftBy(Half(c), 0) == Half(c);
  }

  lemma InputBit(c: bv32, v: bv32)
    ensures Half(Xor(c, LowBit(v))) == Half(c)
    ensures Odd(Xor(c, LowBit(v))) <==> Odd(c) != Odd(v)
  {
  }

  lemma RegisterIsStep(c: bv32, v: bv32)
    ensures BitsOf(BitStep(Xor(c, LowBit(v))), 32) == Register(BitsOf(c, 32), Odd(v))
  {
    hide Half, Odd, Xor, LowBit, BitsOf;
    InputBit(c, v);
    HalfBits(c);
    BitsXor(POLY, Half(c), 32);
    assert XorBits(BitsOf(POLY, 32), BitsOf(Half(c), 32)) == XorBits(BitsOf(Half(c), 32), BitsOf(POLY, 32));
    BitsFirst(c, 32);
  }

  lemma {:induction false} RunIsFeeding(c: bv32, v: bv32, n: nat)
    ensures BitsOf(Feed(c, v, n), 32) == Run(BitsOf(c, 32), BitsOf(v, n))
    decreases n
  {
    hide Half, Odd, Xor, LowBit, BitStep, Register;
    if n > 0 {
      var c' := BitStep(Xor(c, LowBit(v)));
      RegisterIsStep(c, v);
      RunIsFeeding(c', Half(v), n - 1);
      RunFirst(BitsOf(c, 32), Odd(v), BitsOf(Half(v), n - 1));
    }
  }

  lemma RunFirst(r: Bits, b: bool, rest: Bits)
    requires |r| == 32
    ensures Run(r, [b] + rest) == Run(Register(r, b), rest)
  {
    hide Register;
    assert ([b] + rest)[1..] == rest;
  }

  lemma {:induction false} FoldIsRun(c: bv32, data: Bytes)
    ensures BitsOf(Fold(c, data), 32) == Run(BitsOf(c, 32), Message(data))
    decreases |data|
  {
    hide Update, Feed, Word, BitsOf, Run;
    if data == [] {
      RunNothing(BitsOf(c, 32));
    } else {
      var c' := Update(c, data[0]);
      UpdateIsFeeding(c, data[0]);
      RunIsFeeding(c, Word(data[0]), 8);
      FoldIsRun(c', data[1..]);
      RunConcat(BitsOf(c, 32), BitsOf(Word(data[0]), 8), Message(data[1..]));
    }
  }

  lemma RunNothing(r: Bits)
    requires |r| == 32
    ensures Run(r, []) == r
  {
  }

  lemma {:induction false} OnesBits(n: nat, c: bv32)
    requires n <= 32 && AllOdd(c, n)
    ensures BitsOf(c, n) == Constant(n, true)
    decreases n
  {
    hide Half, Odd;
    if n > 0 { OnesBits(n - 1, Half(c)); }
  }

  predicate AllOdd(c: bv32, n: nat)
    decreases n
  {
    n == 0 || (Odd(c) && AllOdd(Half(c), n - 1))
  }

  lemma {:induction false} AllOddAdds(c: bv32, m: nat, n: nat)
    requires AllOdd(c, m) && AllOdd(ShiftBy(c, m), n)
    ensures AllOdd(c, m + n)
    decreases m
  {
    hide Half, Odd;
    if m > 0 { AllOddAdds(Half(c), m - 1, n); }
  }

  lemma FourOdd(c: bv32)
    requires c & 0xF == 0xF
    ensures AllOdd(c, 4)
  {
    FourOddBits(c);
    hide Half, Odd;
    var c2 := Half(Half(c));
    assert AllOdd(c2, 2) by { assert AllOdd(Half(Half(c2)), 0); }
    assert AllOdd(Half(c), 3);
  }

  lemma FourOddBits(c: bv32)
    requires c & 0xF == 0xF
    ensures Odd(c) && Odd(Half(c)) && Odd(Half(Half(c))) && Odd(Half(Half(Half(c))))
  {
  }

  lemma ByteOdd(c: bv32)
    requires c & 0xFF == 0xFF
    ensures AllOdd(c, 8)
  {
    hide ShiftBy, AllOdd;
    ByteOddBits(c);
    FourOdd(c);
    ShiftFour(c);
    FourOdd(ShiftBy(c, 4));
    AllOddAdds(c, 4, 4);
  }

  lemma ByteOddBits(c: bv32)
    requires c & 0xFF == 0xFF
    ensures c & 0xF == 0xF && Half(Half(Half(Half(c)))) & 0xF == 0xF
  {
  }

  lemma AllOnes()
    ensures BitsOf(ONES, 32) == Constant(32, true)
  {
    hide ShiftBy, AllOdd, BitsOf;
    ByteOdd(ONES);
    ByteOdd(ONES >> 8);
    ByteOdd((ONES >> 8) >> 8);
    ByteOdd(((ONES >> 8) >> 8) >> 8);
    ShiftByte(ONES);
    ShiftByte(ONES >> 8);
    ShiftByte((ONES >> 8) >> 8);
    AllOddAdds((ONES >> 8) >> 8, 8, 8);
    AllOddAdds(ONES >> 8, 8, 16);
    AllOddAdds(ONES, 8, 24);
    OnesBits(32, ONES);
  }

  /** The table-driven checksum is the remainder of polynomial division, on every byte string. */
  lemma ChecksumIsRemainder(data: Bytes)
    ensures BitsOf(Checksum(data), 32) == Reference(data)
  {
    hide BitsOf, Fold, Xor, Run, Remainder, Dividend;
    AllOnes();
    FoldIsRun(ONES, data);
    RegisterDivides(Constant(32, true), Message(data));
    BitsXor(Fold(ONES, data), ONES, 32);
  }
}
