// CRC-32: the table-driven loop, its bit-at-a-time form, and the polynomial
// division over GF(2) that section 8 of RFC 1952 defines it by.
module Crc {
  import opened Keys
  import opened Coding

  const POLY: bv32 := 0xEDB8_8320
  const ONES: bv32 := 0xFFFF_FFFF

  // The word operations, named so that proofs above single words can leave them closed.

  function Xor(a: bv32, b: bv32): bv32 {
    a ^ b
  }

  function Half(c: bv32): bv32 {
    c >> 1
  }

  predicate Odd(c: bv32) {
    c & 1 == 1
  }

  function Word(b: bv8): bv32 {
    b as bv32
  }

  function LowByte(c: bv32): bv8 {
    (c & 0xFF) as bv8
  }

  function HighPart(c: bv32): bv32 {
    c & 0xFFFF_FF00
  }

  /** One bit of division, low bit first. */
  function BitStep(c: bv32): bv32 {
    if Odd(c) then Xor(POLY, Half(c)) else Half(c)
  }

  function BitSteps(c: bv32, n: nat): bv32
    decreases n
  {
    if n == 0 then c else BitSteps(BitStep(c), n - 1)
  }

  function TableEntry(i: bv8): bv32 {
    BitSteps(Word(i), 8)
  }

  function Update(crc: bv32, b: bv8): bv32 {
    Xor(TableEntry(LowByte(Xor(crc, Word(b)))), crc >> 8)
  }

  function Fold(crc: bv32, data: Bytes): bv32
    decreases |data|
  {
    if data == [] then crc else Fold(Update(crc, data[0]), data[1..])
  }

  function Checksum(data: Bytes): bv32 {
    Xor(Fold(ONES, data), ONES)
  }

  // ------------------------------------------------------------- the loops

  method BuildTable() returns (table: array<bv32>)
    ensures fresh(table) && table.Length == 256
    ensures forall i: bv8 :: table[ByteValue(i)] == TableEntry(i)
  {
    hide BitSteps, Xor, Half, Odd, Word, ByteValue;
    table := new bv32[256];
    for i := 0 to 256
      invariant forall k: bv8 :: ByteValue(k) < i ==> table[ByteValue(k)] == TableEntry(k)
    {
      var c := Word(Digit(i));
      for j := 0 to 8
        invariant BitSteps(c, 8 - j) == TableEntry(Digit(i))
        invariant forall k: bv8 :: ByteValue(k) < i ==> table[ByteValue(k)] == TableEntry(k)
      {
        StepsUnfold(c, 8 - j);
        c := if Odd(c) then Xor(POLY, Half(c)) else Half(c);
      }
      StepsUnfold(c, 0);
      table[i] := c;
      ByteOfDigit(i);
    }
  }

  lemma StepsUnfold(c: bv32, n: nat)
    ensures n > 0 ==> BitSteps(c, n) == BitSteps(BitStep(c), n - 1)
    ensures n == 0 ==> BitSteps(c, n) == c
  {
    hide BitStep;
  }

  lemma ByteOfDigit(i: nat)
    requires i < 256
    ensures ByteValue(Digit(i)) == i
    ensures forall k: bv8 :: ByteValue(k) == i ==> k == Digit(i)
  {
    hide ByteValue, Digit;
    DigitValue(i);
    forall k: bv8 | ByteValue(k) == i ensures k == Digit(i) { ByteValueInjective(k, Digit(i)); }
  }

  /** crc32: one table look-up per byte. */
  method Crc32(table: array<bv32>, data: Bytes) returns (crc: bv32)
    requires table.Length == 256 && forall i: bv8 :: table[ByteValue(i)] == TableEntry(i)
    ensures crc == Checksum(data)
  {
    hide TableEntry, Fold, Xor, Word, LowByte, ByteValue;
    crc := ONES;
    assert data[0..] == data;
    for i := 0 to |data|
      invariant Fold(crc, data[i..]) == Fold(ONES, data)
    {
      FoldStep(crc, data, i);
      crc := Xor(table[ByteValue(LowByte(Xor(crc, Word(data[i]))))], crc >> 8);
    }
    FoldStep(crc, data, |data|);
    crc := Xor(crc, ONES);
  }

  lemma FoldStep(crc: bv32, data: Bytes, i: nat)
    requires i <= |data|
    ensures i < |data| ==> Fold(crc, data[i..]) == Fold(Update(crc, data[i]), data[i + 1..])
    ensures i == |data| ==> Fold(crc, data[i..]) == crc
  {
    hide Update;
    if i < |data| { assert data[i..][1..] == data[i + 1..]; }
  }

  // ---------------------------------------------------------- single words

  lemma XorHalf(x: bv32, y: bv32)
    ensures Half(Xor(x, y)) == Xor(Half(x), Half(y))
    ensures Odd(Xor(x, y)) <==> Odd(x) != Odd(y)
  {
  }

  lemma XorCommutes(x: bv32, y: bv32)
    ensures Xor(x, y) == Xor(y, x)
  {
  }

  lemma XorAssociates(x: bv32, y: bv32, z: bv32)
    ensures Xor(Xor(x, y), z) == Xor(x, Xor(y, z))
  {
  }

  lemma XorZero(x: bv32)
    ensures Xor(x, 0) == x && Xor(0, x) == x && Xor(x, x) == 0
  {
  }

  lemma XorCancels(x: bv32, y: bv32, z: bv32)
    requires Xor(x, z) == Xor(y, z) || Xor(z, x) == Xor(z, y)
    ensures x == y
  {
  }

  lemma StepInjective(x: bv32, y: bv32)
    requires BitStep(x) == BitStep(y)
    ensures x == y
  {
  }

  lemma StepLinear(x: bv32, y: bv32)
    ensures BitStep(Xor(x, y)) == Xor(BitStep(x), BitStep(y))
  {
    hide Xor, Half, Odd;
    var hx, hy := Half(x), Half(y);
    XorHalf(x, y);
    XorAssociates(POLY, hx, hy);
    XorAssociates(hx, POLY, hy);
    XorCommutes(hx, POLY);
    if Odd(x) && Odd(y) { PolyCancels(hx, hy); }
  }

  lemma PolyCancels(a: bv32, b: bv32)
    ensures Xor(Xor(POLY, a), Xor(POLY, b)) == Xor(a, b)
  {
    hide Xor;
    XorCommutes(POLY, a);
    XorAssociates(a, POLY, Xor(POLY, b));
    XorAssociates(POLY, POLY, b);
    XorZero(POLY);
    XorZero(b);
  }

  lemma {:induction false} StepsLinear(x: bv32, y: bv32, n: nat)
    ensures BitSteps(Xor(x, y), n) == Xor(BitSteps(x, n), BitSteps(y, n))
    decreases n
  {
    hide BitStep, Xor;
    if n > 0 {
      StepLinear(x, y);
      StepsLinear(BitStep(x), BitStep(y), n - 1);
    }
  }

  lemma {:induction false} StepsInjective(x: bv32, y: bv32, n: nat)
    requires BitSteps(x, n) == BitSteps(y, n)
    ensures x == y
    decreases n
  {
    hide BitStep;
    if n > 0 {
      StepsInjective(BitStep(x), BitStep(y), n - 1);
      StepInjective(x, y);
    }
  }

  lemma {:induction false} StepsAdd(c: bv32, m: nat, n: nat)
    ensures BitSteps(c, m + n) == BitSteps(BitSteps(c, m), n)
    decreases m
  {
    hide BitStep;
    if m > 0 { StepsAdd(BitStep(c), m - 1, n); }
  }

  function ShiftBy(c: bv32, n: nat): bv32
    decreases n
  {
    if n == 0 then c else ShiftBy(Half(c), n - 1)
  }

  lemma {:induction false} ShiftAdds(c: bv32, m: nat, n: nat)
    ensures ShiftBy(c, m + n) == ShiftBy(ShiftBy(c, m), n)
    decreases m
  {
    hide Half;
    if m > 0 { ShiftAdds(Half(c), m - 1, n); }
  }

  lemma ShiftFour(c: bv32)
    ensures ShiftBy(c, 4) == Half(Half(Half(Half(c))))
  {
    hide Half;
    var c2 := Half(Half(c));
    assert ShiftBy(c, 4) == ShiftBy(c2, 2);
    assert ShiftBy(c2, 2) == Half(Half(c2));
  }

  lemma EightHalves(c: bv32)
    ensures Half(Half(Half(Half(Half(Half(Half(Half(c)))))))) == c >> 8
  {
  }

  lemma ShiftByte(c: bv32)
    ensures ShiftBy(c, 8) == c >> 8
  {
    hide ShiftBy, Half;
    ShiftFour(c);
    ShiftFour(ShiftBy(c, 4));
    ShiftAdds(c, 4, 4);
    EightHalves(c);
  }

  // --------------------------------------- feeding bits one at a time

  /** The register after the low n bits of v have been fed in, lowest first. */
  function Feed(c: bv32, v: bv32, n: nat): bv32
    decreases n
  {
    if n == 0 then c else Feed(BitStep(Xor(c, LowBit(v))), Half(v), n - 1)
  }

  function LowBit(v: bv32): bv32 {
    v & 1
  }

  function EvenPart(v: bv32): bv32 {
    v & 0xFFFF_FFFE
  }

  lemma EvenPartStep(v: bv32)
    ensures BitStep(EvenPart(v)) == Half(v)
    ensures v == Xor(LowBit(v), EvenPart(v))
  {
  }

  lemma FeedOne(c: bv32, v: bv32)
    ensures BitStep(Xor(c, v)) == Xor(BitStep(Xor(c, LowBit(v))), Half(v))
  {
    hide BitStep, Half, Xor, LowBit, EvenPart;
    EvenPartStep(v);
    XorAssociates(c, LowBit(v), EvenPart(v));
    StepLinear(Xor(c, LowBit(v)), EvenPart(v));
  }

  /** Xor-ing a word in at the start is feeding its bits one by one. */
  lemma {:induction false} StepsAreFeeding(c: bv32, v: bv32, n: nat)
    ensures BitSteps(Xor(c, v), n) == Xor(Feed(c, v, n), ShiftBy(v, n))
    decreases n
  {
    hide BitStep, Xor, Half, LowBit;
    if n > 0 {
      FeedOne(c, v);
      StepsAreFeeding(BitStep(Xor(c, LowBit(v))), Half(v), n - 1);
    }
  }

  lemma WordShiftsOut(b: bv8)
    ensures Word(b) >> 8 == 0
  {
  }

  /** A byte's eight steps, fed bit by bit. */
  lemma ByteIsFed(c: bv32, b: bv8)
    ensures BitSteps(Xor(c, Word(b)), 8) == Feed(c, Word(b), 8)
  {
    hide BitSteps, Xor, Feed, ShiftBy, Word;
    StepsAreFeeding(c, Word(b), 8);
    ShiftByte(Word(b));
    WordShiftsOut(b);
    XorZero(Feed(c, Word(b), 8));
  }

  lemma LowAndHigh(x: bv32)
    ensures x == Xor(Word(LowByte(x)), HighPart(x))
  {
  }

  lemma HighPartKept(crc: bv32, b: bv8)
    ensures HighPart(Xor(crc, Word(b))) >> 8 == crc >> 8
  {
  }

  predicate LowClear(c: bv32, n: nat)
    decreases n
  {
    n == 0 || (!Odd(c) && LowClear(Half(c), n - 1))
  }

  /** While the low bits are clear a step only shifts. */
  lemma {:induction false} StepsShift(c: bv32, n: nat)
    requires LowClear(c, n)
    ensures BitSteps(c, n) == ShiftBy(c, n)
    decreases n
  {
    hide Half, Odd, Xor;
    if n > 0 { StepsShift(Half(c), n - 1); }
  }

  lemma {:induction false} LowClearAdds(c: bv32, m: nat, n: nat)
    requires LowClear(c, m) && LowClear(ShiftBy(c, m), n)
    ensures LowClear(c, m + n)
    decreases m
  {
    hide Half, Odd;
    if m > 0 { LowClearAdds(Half(c), m - 1, n); }
  }

  lemma FourEven(c: bv32)
    requires !Odd(c) && !Odd(Half(c)) && !Odd(Half(Half(c))) && !Odd(Half(Half(Half(c))))
    ensures LowClear(c, 4)
  {
    hide Half, Odd;
    var c2 := Half(Half(c));
    assert LowClear(c2, 2) by { assert LowClear(Half(Half(c2)), 0); }
    assert LowClear(Half(c), 3);
  }

  lemma HighBitsEven(c: bv32)
    ensures var d := HighPart(c);
            !Odd(d) && !Odd(Half(d)) && !Odd(Half(Half(d))) && !Odd(Half(Half(Half(d))))
    ensures var d := Half(Half(Half(Half(HighPart(c)))));
            !Odd(d) && !Odd(Half(d)) && !Odd(Half(Half(d))) && !Odd(Half(Half(Half(d))))
  {
  }

  lemma HighPartClear(c: bv32)
    ensures LowClear(HighPart(c), 8)
  {
    hide ShiftBy, LowClear, Half, Odd, HighPart;
    var d := HighPart(c);
    HighBitsEven(c);
    FourEven(d);
    ShiftFour(d);
    FourEven(ShiftBy(d, 4));
    LowClearAdds(d, 4, 4);
  }

  /** The table look-up does eight bit steps at once. */
  lemma TableIsEightSteps(crc: bv32, b: bv8)
    ensures Update(crc, b) == BitSteps(Xor(crc, Word(b)), 8)
  {
    hide BitSteps, LowClear, Xor, Word, LowByte, HighPart;
    var x := Xor(crc, Word(b));
    LowAndHigh(x);
    HighPartKept(crc, b);
    StepsLinear(Word(LowByte(x)), HighPart(x), 8);
    HighPartClear(x);
    StepsShift(HighPart(x), 8);
    ShiftByte(HighPart(x));
  }

  lemma UpdateIsFeeding(crc: bv32, b: bv8)
    ensures Update(crc, b) == Feed(crc, Word(b), 8)
  {
    hide Update, BitSteps, Feed, Xor, Word;
    TableIsEightSteps(crc, b);
    ByteIsFed(crc, b);
  }

  // ------------------------------------------------------- error detection

  lemma UpdateInjective(x: bv32, y: bv32, b: bv8)
    requires Update(x, b) == Update(y, b)
    ensures x == y
  {
    hide Update, BitSteps, Xor, Word;
    TableIsEightSteps(x, b);
    TableIsEightSteps(y, b);
    StepsInjective(Xor(x, Word(b)), Xor(y, Word(b)), 8);
    XorCancels(x, y, Word(b));
  }

  lemma {:induction false} FoldInjective(x: bv32, y: bv32, data: Bytes)
    requires Fold(x, data) == Fold(y, data)
    ensures x == y
    decreases |data|
  {
    hide Update;
    if data != [] {
      FoldInjective(Update(x, data[0]), Update(y, data[0]), data[1..]);
      UpdateInjective(x, y, data[0]);
    }
  }

  lemma {:induction false} FoldConcat(c: bv32, a: Bytes, b: Bytes)
    ensures Fold(c, a + b) == Fold(Fold(c, a), b)
    decreases |a|
  {
    hide Update;
    if a == [] {
      assert a + b == b;
    } else {
      FoldConcat(Update(c, a[0]), a[1..], b);
      assert (a + b)[1..] == a[1..] + b;
    }
  }

  function UpByte(v: bv32): bv32 {
    v << 8
  }

  /** Up to four bytes as one word, first byte lowest. */
  function WordOf(w: Bytes): bv32 {
    if w == [] then 0 else Xor(Word(w[0]), UpByte(WordOf(w[1..])))
  }

  predicate OneByte(v: bv32) {
    v & 0xFFFF_FF00 == 0
  }

  predicate TwoBytes(v: bv32) {
    v & 0xFFFF_0000 == 0
  }

  predicate ThreeBytes(v: bv32) {
    v & 0xFF00_0000 == 0
  }

  lemma ZeroFits()
    ensures OneByte(0) && TwoBytes(0) && ThreeBytes(0)
  {
  }

  lemma GrowOne(b: bv8)
    ensures OneByte(Xor(Word(b), UpByte(0)))
  {
  }

  lemma GrowTwo(b: bv8, v: bv32)
    requires OneByte(v)
    ensures TwoBytes(Xor(Word(b), UpByte(v)))
  {
  }

  lemma GrowThree(b: bv8, v: bv32)
    requires TwoBytes(v)
    ensures ThreeBytes(Xor(Word(b), UpByte(v)))
  {
  }

  lemma WordOne(w: Bytes)
    requires |w| <= 1
    ensures OneByte(WordOf(w))
  {
    hide OneByte, Xor, Word, UpByte;
    ZeroFits();
    if w != [] { GrowOne(w[0]); }
  }

  lemma WordTwo(w: Bytes)
    requires |w| <= 2
    ensures TwoBytes(WordOf(w))
  {
    hide OneByte, TwoBytes, Xor, Word, UpByte;
    ZeroFits();
    if w != [] {
      WordOne(w[1..]);
      GrowTwo(w[0], WordOf(w[1..]));
    }
  }

  lemma WordThree(w: Bytes)
    requires |w| <= 3
    ensures ThreeBytes(WordOf(w))
  {
    hide TwoBytes, ThreeBytes, Xor, Word, UpByte;
    ZeroFits();
    if w != [] {
      WordTwo(w[1..]);
      GrowThree(w[0], WordOf(w[1..]));
    }
  }

  lemma UpByteInjective(a: bv8, v: bv32, b: bv8, u: bv32)
    requires Xor(Word(a), UpByte(v)) == Xor(Word(b), UpByte(u)) && ThreeBytes(v) && ThreeBytes(u)
    ensures a == b && v == u
  {
  }

  lemma {:induction false} WordInjective(a: Bytes, b: Bytes)
    requires |a| == |b| <= 4 && WordOf(a) == WordOf(b)
    ensures a == b
  {
    hide Xor, Word, UpByte, ThreeBytes;
    if a != [] {
      WordThree(a[1..]);
      WordThree(b[1..]);
      UpByteInjective(a[0], WordOf(a[1..]), b[0], WordOf(b[1..]));
      WordInjective(a[1..], b[1..]);
    }
  }

  lemma UpByteShifts(v: bv32)
    requires ThreeBytes(v)
    ensures UpByte(v) >> 8 == v && HighPart(UpByte(v)) == UpByte(v)
  {
  }

  lemma UpByteSteps(v: bv32)
    requires ThreeBytes(v)
    ensures BitSteps(UpByte(v), 8) == v
  {
    hide BitSteps, ShiftBy, LowClear, UpByte, HighPart, ThreeBytes;
    UpByteShifts(v);
    HighPartClear(UpByte(v));
    StepsShift(UpByte(v), 8);
    ShiftByte(UpByte(v));
  }

  /** Eight steps shift out the first byte and leave the others xor-ed in. */
  lemma ByteThenRest(c: bv32, b: bv8, v: bv32)
    requires ThreeBytes(v)
    ensures BitSteps(Xor(c, Xor(Word(b), UpByte(v))), 8) == Xor(Update(c, b), v)
  {
    hide BitSteps, UpByte, Xor, Word, Update, ThreeBytes;
    XorAssociates(c, Word(b), UpByte(v));
    StepsLinear(Xor(c, Word(b)), UpByte(v), 8);
    UpByteSteps(v);
    TableIsEightSteps(c, b);
  }

  /** Up to four bytes folded in are one word xor-ed in and stepped through. */
  lemma {:induction false} FoldIsWord(c: bv32, w: Bytes)
    requires |w| <= 4
    ensures Fold(c, w) == BitSteps(Xor(c, WordOf(w)), 8 * |w|)
    decreases |w|
  {
    hide Xor, Word, UpByte, ThreeBytes, Update, BitStep;
    if w == [] {
      XorZero(c);
    } else {
      WordThree(w[1..]);
      ByteThenRest(c, w[0], WordOf(w[1..]));
      StepsAdd(Xor(c, WordOf(w)), 8, 8 * (|w| - 1));
      FoldIsWord(Update(c, w[0]), w[1..]);
    }
  }

  /** Two strings that differ only inside a window of at most four bytes have different checksums. */
  lemma BurstDetected(p: Bytes, a: Bytes, b: Bytes, s: Bytes)
    requires |a| == |b| <= 4 && a != b
    ensures Checksum(p + a + s) != Checksum(p + b + s)
  {
    hide Fold, Xor, WordOf, BitSteps;
    var c := Fold(ONES, p);
    FoldConcat(ONES, p + a, s);
    FoldConcat(ONES, p + b, s);
    FoldConcat(ONES, p, a);
    FoldConcat(ONES, p, b);
    if Checksum(p + a + s) == Checksum(p + b + s) {
      XorCancels(Fold(ONES, p + a + s), Fold(ONES, p + b + s), ONES);
      FoldInjective(Fold(c, a), Fold(c, b), s);
      FoldIsWord(c, a);
      FoldIsWord(c, b);
      StepsInjective(Xor(c, WordOf(a)), Xor(c, WordOf(b)), 8 * |a|);
      XorCancels(WordOf(a), WordOf(b), c);
      WordInjective(a, b);
    }
  }

  // ----------------------------------------------------------- known values

  lemma FoldThree(crc: bv32, a: bv8, b: bv8, c: bv8)
    ensures Fold(crc, [a, b, c]) == Update(Update(Update(crc, a), b), c)
  {
    hide Fold, Update;
    var data: Bytes := [a, b, c];
    assert data[0..] == data;
    FoldStep(crc, data, 0);
    FoldStep(Update(crc, a), data, 1);
    FoldStep(Update(Update(crc, a), b), data, 2);
    FoldStep(Update(Update(Update(crc, a), b), c), data, 3);
  }

  lemma Digits123()
    ensures Fold(ONES, [0x31, 0x32, 0x33]) == 0x77B7_9C2D
  {
    hide Fold;
    FoldThree(ONES, 0x31, 0x32, 0x33);
    assert Update(ONES, 0x31) == 0x7C23_1048 && Update(0x7C23_1048, 0x32) == 0xB0AC_BB32;
  }

  lemma Digits456()
    ensures Fold(0x77B7_9C2D, [0x34, 0x35, 0x36]) == 0xF68D_2C9E
  {
    hide Fold;
    FoldThree(0x77B7_9C2D, 0x34, 0x35, 0x36);
    assert Update(0x77B7_9C2D, 0x34) == 0x641C_1F5C && Update(0x641C_1F5C, 0x35) == 0x340A_C5E3;
  }

  lemma Digits789()
    ensures Fold(0xF68D_2C9E, [0x37, 0x38, 0x39]) == 0x340B_C6D9
  {
    hide Fold;
    FoldThree(0xF68D_2C9E, 0x37, 0x38, 0x39);
    assert Update(0xF68D_2C9E, 0x37) == 0xAFFC_9660 && Update(0xAFFC_9660, 0x38) == 0x651F_2550;
  }

  /** The check value of CRC-32: the checksum of the digits "123456789". */
  lemma CheckValue()
    ensures Checksum([0x31, 0x32, 0x33, 0x34, 0x35, 0x36, 0x37, 0x38, 0x39]) == 0xCBF4_3926
  {
    hide Fold;
    var a, b, c: Bytes := [0x31, 0x32, 0x33], [0x34, 0x35, 0x36], [0x37, 0x38, 0x39];
    Digits123();
    Digits456();
    Digits789();
    FoldConcat(ONES, a, b);
    FoldConcat(ONES, a + b, c);
    assert a + b + c == [0x31, 0x32, 0x33, 0x34, 0x35, 0x36, 0x37, 0x38, 0x39];
  }

  lemma ZeroChecksum()
    ensures Checksum([0, 0, 0, 0]) == 0x2144_DF1C
  {
    hide Fold;
    FoldThree(ONES, 0, 0, 0);
    assert Update(ONES, 0) == 0x2DFD_1072 && Update(0x2DFD_1072, 0) == 0xBE26_ED00;
    assert Update(0xBE26_ED00, 0) == 0x00BE_26ED && Update(0x00BE_26ED, 0) == 0xDEBB_20E3;
    var z: Bytes := [0, 0, 0];
    FoldConcat(ONES, z, [0]);
    FoldOne(0x00BE_26ED, 0);
    assert z + [0] == [0, 0, 0, 0];
  }

  lemma FoldOne(crc: bv32, b: bv8)
    ensures Fold(crc, [b]) == Update(crc, b)
  {
    hide Update;
    assert [b][1..] == [];
  }
}
