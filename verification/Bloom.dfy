// The bloom filter: FNV-1a double hashing into a bit array, exact about which bits are
// set, and its serialised form.
module Bloom {
  import opened Keys
  import opened Entries
  import opened Coding

  const FNV_BASIS: bv64 := 0xcbf2_9ce4_8422_2325
  const FNV_PRIME: bv64 := 0x0000_0100_0000_01B3
  const BITS_PER_KEY: nat := 10
  /** 10 * 0.6931 rounded. */
  const PROBES: nat := 7

  datatype Filter = Filter(k: nat, size: nat, bits: Bytes)

  ghost predicate WellFormed(f: Filter) {
    f.k < 0x8000_0000 && 0 < f.size < U64 && f.size == 8 * |f.bits|
  }

  // ------------------------------------------------------------------ bits

  function Mask(j: nat): bv8
    requires j < 8
  {
    match j
    case 0 => 1 case 1 => 2 case 2 => 4 case 3 => 8
    case 4 => 16 case 5 => 32 case 6 => 64 case 7 => 128
  }

  predicate BitOf(b: bv8, j: nat)
    requires j < 8
  {
    b & Mask(j) != 0
  }

  function WithBit(b: bv8, j: nat): bv8
    requires j < 8
  {
    b | Mask(j)
  }

  lemma WithBitSets(b: bv8, j: nat, i: nat)
    requires j < 8 && i < 8
    ensures BitOf(WithBit(b, j), i) <==> i == j || BitOf(b, i)
  {
  }

  predicate HasBit(bits: Bytes, n: nat)
    requires n < 8 * |bits|
  {
    BitOf(bits[n / 8], n % 8)
  }

  function SetBit(bits: Bytes, n: nat): (r: Bytes)
    requires n < 8 * |bits|
    ensures |r| == |bits|
  {
    bits[n / 8 := WithBit(bits[n / 8], n % 8)]
  }

  lemma SetBitSets(bits: Bytes, n: nat, m: nat)
    requires n < 8 * |bits| && m < 8 * |bits|
    ensures HasBit(SetBit(bits, n), m) <==> m == n || HasBit(bits, m)
  {
    hide BitOf, WithBit;
    if m / 8 == n / 8 {
      WithBitSets(bits[n / 8], n % 8, m % 8);
    }
  }

  // --------------------------------------------------------------- hashing

  function HashByte(h: bv64, b: bv8): bv64 {
    (h ^ (b as bv64)) * FNV_PRIME
  }

  function HashFrom(h: bv64, key: Bytes): bv64
    decreases |key|
  {
    if key == [] then h else HashFrom(HashByte(h, key[0]), key[1..])
  }

  function LittleEndian(h: bv64): (b: Bytes)
    ensures |b| == 8
  {
    [(h & 0xFF) as bv8, ((h >> 8) & 0xFF) as bv8, ((h >> 16) & 0xFF) as bv8, ((h >> 24) & 0xFF) as bv8,
     ((h >> 32) & 0xFF) as bv8, ((h >> 40) & 0xFF) as bv8, ((h >> 48) & 0xFF) as bv8, ((h >> 56) & 0xFF) as bv8]
  }

  /** The low and the high half of the hash, as numbers. */
  function Halves(key: Bytes): (nat, nat) {
    var b := LittleEndian(HashFrom(FNV_BASIS, key));
    (DecodeLen(b[..4]), DecodeLen(b[4..]))
  }

  function Probe(key: Bytes, i: nat, size: nat): (n: nat)
    requires size > 0
    ensures n < size
  {
    (Halves(key).0 + i * Halves(key).1) % size
  }

  // ------------------------------------------------------------ the filter

  function New(keys: nat): (f: Filter)
    ensures f.size >= 8 && f.size == 8 * |f.bits| && f.k == PROBES
  {
    var raw := (if keys == 0 then 1 else keys) * BITS_PER_KEY;
    Filter(PROBES, (raw + 7) / 8 * 8, seq((raw + 7) / 8, i => 0))
  }

  /** Ten bits for every key, rounded up to whole bytes. */
  lemma FilterSize(keys: nat)
    requires keys > 0
    ensures 10 * keys <= New(keys).size < 10 * keys + 8 && New(keys).size % 8 == 0
  {
  }

  function AddProbes(f: Filter, key: Bytes, n: nat): (r: Filter)
    requires f.size > 0 && f.size == 8 * |f.bits|
    ensures r.k == f.k && r.size == f.size && |r.bits| == |f.bits|
    decreases n
  {
    if n == 0 then f
    else
      var g := AddProbes(f, key, n - 1);
      g.(bits := SetBit(g.bits, Probe(key, n - 1, g.size)))
  }

  function Add(f: Filter, key: Bytes): (r: Filter)
    requires f.size > 0 && f.size == 8 * |f.bits|
    ensures r.k == f.k && r.size == f.size && |r.bits| == |f.bits|
  {
    AddProbes(f, key, f.k)
  }

  function AddAll(f: Filter, keys: seq<Bytes>): (r: Filter)
    requires f.size > 0 && f.size == 8 * |f.bits|
    ensures r.k == f.k && r.size == f.size && |r.bits| == |f.bits|
  {
    if keys == [] then f else Add(AddAll(f, keys[..|keys| - 1]), keys[|keys| - 1])
  }

  predicate Usable(f: Filter) {
    0 < f.size <= 8 * |f.bits|
  }

  predicate MayContain(f: Filter, key: Bytes)
    requires Usable(f)
  {
    forall i :: 0 <= i < f.k ==> HasBit(f.bits, Probe(key, i, f.size))
  }

  // ----------------------------------------------------- what the bits mean

  /** Position n is one of the first `probes` probes of one of the keys. */
  ghost predicate Probed(keys: seq<Bytes>, n: nat, probes: nat, size: nat)
    requires size > 0
  {
    exists j, i :: 0 <= j < |keys| && 0 <= i < probes && Probe(keys[j], i, size) == n
  }

  lemma {:induction false} AddProbesBits(f: Filter, key: Bytes, n: nat, m: nat)
    requires f.size > 0 && f.size == 8 * |f.bits| && m < f.size
    ensures HasBit(AddProbes(f, key, n).bits, m) <==> HasBit(f.bits, m) || Probed([key], m, n, f.size)
    decreases n
  {
    hide HasBit, SetBit, Probe;
    if n > 0 {
      var g := AddProbes(f, key, n - 1);
      AddProbesBits(f, key, n - 1, m);
      SetBitSets(g.bits, Probe(key, n - 1, g.size), m);
      assert Probe([key][0], n - 1, f.size) == m ==> Probed([key], m, n, f.size);
    }
  }

  lemma ProbedSnoc(keys: seq<Bytes>, key: Bytes, n: nat, probes: nat, size: nat)
    requires size > 0
    ensures Probed(keys + [key], n, probes, size) <==> Probed(keys, n, probes, size) || Probed([key], n, probes, size)
  {
    hide Probe;
    if Probed(keys, n, probes, size) {
      var j, i :| 0 <= j < |keys| && 0 <= i < probes && Probe(keys[j], i, size) == n;
      assert (keys + [key])[j] == keys[j];
    }
    if Probed([key], n, probes, size) {
      var j, i :| 0 <= j < 1 && 0 <= i < probes && Probe([key][j], i, size) == n;
      assert (keys + [key])[|keys|] == key;
    }
    if Probed(keys + [key], n, probes, size) {
      var j, i :| 0 <= j <= |keys| && 0 <= i < probes && Probe((keys + [key])[j], i, size) == n;
      if j == |keys| { assert [key][0] == (keys + [key])[j]; }
    }
  }

  /** The bits of a filter are exactly the probes of the keys added to it. */
  lemma {:induction false} AddAllBits(keys: seq<Bytes>, count: nat, n: nat)
    requires n < New(count).size
    ensures HasBit(AddAll(New(count), keys).bits, n) <==> Probed(keys, n, PROBES, New(count).size)
    decreases |keys|
  {
    hide HasBit, Probe, New, AddProbes;
    if keys == [] {
      NewIsEmpty(count, n);
    } else {
      var front := keys[..|keys| - 1];
      AddAllBits(front, count, n);
      AddProbesBits(AddAll(New(count), front), keys[|keys| - 1], PROBES, n);
      ProbedSnoc(front, keys[|keys| - 1], n, PROBES, New(count).size);
      assert front + [keys[|keys| - 1]] == keys;
    }
  }

  lemma NewIsEmpty(count: nat, n: nat)
    requires n < New(count).size
    ensures !HasBit(New(count).bits, n)
  {
    hide Mask;
    NoBit(n % 8);
  }

  lemma NoBit(j: nat)
    requires j < 8
    ensures !BitOf(0, j)
  {
  }

  /**
   * A filter answers maybe exactly for the keys all of whose probes are probes of added
   * keys; so it never denies a key that was added.
   */
  lemma MayContainIff(keys: seq<Bytes>, count: nat, key: Bytes)
    ensures MayContain(AddAll(New(count), keys), key)
       <==> forall i :: 0 <= i < PROBES ==> Probed(keys, Probe(key, i, New(count).size), PROBES, New(count).size)
    ensures key in keys ==> MayContain(AddAll(New(count), keys), key)
  {
    hide HasBit, Probe, New, AddAll;
    var size := New(count).size;
    forall i | 0 <= i < PROBES
      ensures HasBit(AddAll(New(count), keys).bits, Probe(key, i, size)) <==>
                Probed(keys, Probe(key, i, size), PROBES, size)
    {
      AddAllBits(keys, count, Probe(key, i, size));
    }
    if key in keys {
      var j :| 0 <= j < |keys| && keys[j] == key;
      assert forall i :: 0 <= i < PROBES ==> Probe(keys[j], i, size) == Probe(key, i, size);
    }
  }

  // --------------------------------------------------------- serialisation

  function Serialize(f: Filter): (b: Bytes)
    ensures |b| == 12 + |f.bits|
  {
    EncodeLen(f.k % U32) + EncodeSeq(f.size % U64) + f.bits
  }

  function Load(b: Bytes): Option<Filter> {
    if |b| < 12 then None
    else
      var size := DecodeSeq(b[4..12]);
      var count := (size + 7) / 8;
      if |b| < 12 + count then None
      else Some(Filter(DecodeLen(b[..4]), size, b[12..12 + count]))
  }

  lemma LoadRestores(f: Filter)
    requires WellFormed(f)
    ensures Load(Serialize(f)) == Some(f)
  {
    hide EncodeLen, DecodeLen, EncodeSeq, DecodeSeq;
    var b := Serialize(f);
    assert b[..4] == EncodeLen(f.k) && b[4..12] == EncodeSeq(f.size) && b[12..] == f.bits;
    LenRoundTrip(f.k);
    SeqRoundTrip(f.size);
    assert (8 * |f.bits| + 7) / 8 == |f.bits|;
    assert b[12..12 + |f.bits|] == f.bits;
  }

  // ----------------------------------------------------------- known values

  lemma Basis()
    ensures LittleEndian(HashFrom(FNV_BASIS, [])) == [0x25, 0x23, 0x22, 0x84, 0xE4, 0x9C, 0xF2, 0xCB]
  {
  }

  lemma BasisLow()
    ensures DecodeLen([0x25, 0x23, 0x22, 0x84]) == 0x8422_2325
  {
    hide ByteValue;
    ByteBits(0x25);
    ByteBits(0x23);
    ByteBits(0x22);
    ByteBits(0x84);
  }

  lemma BasisHigh()
    ensures DecodeLen([0xE4, 0x9C, 0xF2, 0xCB]) == 0xCBF2_9CE4
  {
    hide ByteValue;
    ByteBits(0xE4);
    ByteBits(0x9C);
    ByteBits(0xF2);
    ByteBits(0xCB);
  }

  /** The hash of the empty key is the offset basis of FNV-1a. */
  lemma HashOfNothing()
    ensures Halves([]) == (0x8422_2325, 0xCBF2_9CE4)
  {
    hide DecodeLen, LittleEndian, HashFrom;
    Basis();
    BasisLow();
    BasisHigh();
    var b: Bytes := [0x25, 0x23, 0x22, 0x84, 0xE4, 0x9C, 0xF2, 0xCB];
    assert b[..4] == [0x25, 0x23, 0x22, 0x84] && b[4..] == [0xE4, 0x9C, 0xF2, 0xCB];
  }

  lemma HashedA()
    ensures LittleEndian(HashFrom(FNV_BASIS, [0x61])) == [0x8C, 0xEC, 0x01, 0x86, 0x4C, 0xDC, 0x63, 0xAF]
  {
    var key: Bytes := [0x61];
    assert key[1..] == [];
    assert HashFrom(FNV_BASIS, key) == HashByte(FNV_BASIS, 0x61);
  }

  /** The FNV-1a hash of "a" is 0xAF63DC4C8601EC8C. */
  lemma HashOfA()
    ensures Halves([0x61]) == (0x8601_EC8C, 0xAF63_DC4C)
  {
    hide ByteValue, LittleEndian, HashFrom;
    HashedA();
    ByteBits(0x8C);
    ByteBits(0xEC);
    ByteBits(0x01);
    ByteBits(0x86);
    ByteBits(0x4C);
    ByteBits(0xDC);
    ByteBits(0x63);
    ByteBits(0xAF);
    var b: Bytes := [0x8C, 0xEC, 0x01, 0x86, 0x4C, 0xDC, 0x63, 0xAF];
    assert b[..4] == [0x8C, 0xEC, 0x01, 0x86] && b[4..] == [0x4C, 0xDC, 0x63, 0xAF];
  }

  lemma ProbesOfNothing(i: nat)
    requires i < 7
    ensures Probe([], i, 16) == [5, 9, 13, 1, 5, 9, 13][i]
  {
    hide Halves;
    HashOfNothing();
  }

  /** The filter of the empty key alone: seven probes into 16 bits, of which four are different. */
  lemma OneKeyFilter()
    ensures AddAll(New(1), [[]]) == Filter(7, 16, [0x22, 0x22])
  {
    hide Probe, AddProbes, SetBit, New;
    OneKeyEmpty();
    var f := New(1);
    SetBits();
    OneProbe(f, 0, [0, 0], [0x20, 0]);
    OneProbe(f, 1, [0x20, 0], [0x20, 0x02]);
    OneProbe(f, 2, [0x20, 0x02], [0x20, 0x22]);
    OneProbe(f, 3, [0x20, 0x22], [0x22, 0x22]);
    OneProbe(f, 4, [0x22, 0x22], [0x22, 0x22]);
    OneProbe(f, 5, [0x22, 0x22], [0x22, 0x22]);
    OneProbe(f, 6, [0x22, 0x22], [0x22, 0x22]);
  }

  lemma OneKeyEmpty()
    ensures New(1) == Filter(7, 16, [0, 0])
    ensures AddProbes(New(1), [], 0) == New(1) && AddAll(New(1), [[]]) == AddProbes(New(1), [], 7)
  {
    hide Probe, SetBit;
    assert New(1).bits == [0, 0];
    var keys: seq<Bytes> := [[]];
    assert keys[..0] == [] && AddAll(New(1), []) == New(1);
  }

  lemma SetBits()
    ensures SetBit([0, 0], 5) == [0x20, 0] && SetBit([0x20, 0], 9) == [0x20, 0x02]
    ensures SetBit([0x20, 0x02], 13) == [0x20, 0x22] && SetBit([0x20, 0x22], 1) == [0x22, 0x22]
    ensures SetBit([0x22, 0x22], 5) == [0x22, 0x22] && SetBit([0x22, 0x22], 9) == [0x22, 0x22]
    ensures SetBit([0x22, 0x22], 13) == [0x22, 0x22]
  {
  }

  lemma OneProbe(f: Filter, i: nat, was: Bytes, now: Bytes)
    requires i < 7 && f == Filter(7, 16, [0, 0]) && AddProbes(f, [], i) == f.(bits := was) && |was| == 2
    requires SetBit(was, [5, 9, 13, 1, 5, 9, 13][i]) == now
    ensures AddProbes(f, [], i + 1) == f.(bits := now)
  {
    hide Probe, SetBit;
    ProbesOfNothing(i);
  }

  // ------------------------------------------------------- the filter object

  method Hash(key: Bytes) returns (h1: nat, h2: nat)
    ensures (h1, h2) == Halves(key)
  {
    hide LittleEndian, DecodeLen, HashByte;
    var h := FNV_BASIS;
    assert key[0..] == key;
    for i := 0 to |key|
      invariant HashFrom(FNV_BASIS, key) == HashFrom(h, key[i..])
    {
      assert key[i..][1..] == key[i + 1..];
      h := HashByte(h, key[i]);
    }
    var b := LittleEndian(h);
    assert key[|key|..] == [];
    h1, h2 := DecodeLen(b[..4]), DecodeLen(b[4..]);
  }

  class BloomFilter {
    var bits: Bytes
    var size: nat
    var k: nat

    function Value(): Filter
      reads this
    {
      Filter(k, size, bits)
    }

    ghost predicate Valid()
      reads this
    {
      size > 0 && size == 8 * |bits|
    }

    /** The filter of a loaded table. */
    constructor FromFilter(f: Filter)
      ensures Value() == f
    {
      bits, size, k := f.bits, f.size, f.k;
    }

    constructor (keyCount: nat)
      ensures Valid() && Value() == New(keyCount)
    {
      var count := if keyCount == 0 then 1 else keyCount;
      var raw := count * BITS_PER_KEY;
      var m := (raw + 7) / 8 * 8;
      if m < 8 { m := 8; }
      size, bits, k := m, seq(m / 8, i => 0), PROBES;
    }

    method AddKey(key: Bytes)
      requires Valid()
      modifies this
      ensures Valid() && Value() == Add(old(Value()), key)
    {
      hide Halves, SetBit, Mask, BitOf;
      var h1, h2 := Hash(key);
      ghost var f := Value();
      for i := 0 to k
        invariant Valid() && k == f.k && Value() == AddProbes(f, key, i)
      {
        var idx := (h1 + i * h2) % size;
        assert idx == Probe(key, i, size);
        ByteUpdate(bits, idx);
        bits := bits[idx / 8 := bits[idx / 8] | Mask(idx % 8)];
      }
    }

    method Test(key: Bytes) returns (r: bool)
      requires Usable(Value())
      ensures r == MayContain(Value(), key)
    {
      hide Halves, Mask, BitOf;
      var h1, h2 := Hash(key);
      for i := 0 to k
        invariant forall j :: 0 <= j < i ==> HasBit(bits, Probe(key, j, size))
      {
        var idx := (h1 + i * h2) % size;
        assert idx == Probe(key, i, size);
        ByteTest(bits, idx);
        if bits[idx / 8] & Mask(idx % 8) == 0 { return false; }
      }
      return true;
    }
  }

  lemma ByteUpdate(bits: Bytes, n: nat)
    requires n < 8 * |bits|
    ensures bits[n / 8 := bits[n / 8] | Mask(n % 8)] == SetBit(bits, n)
  {
  }

  lemma ByteTest(bits: Bytes, n: nat)
    requires n < 8 * |bits|
    ensures HasBit(bits, n) <==> bits[n / 8] & Mask(n % 8) != 0
  {
  }
}
