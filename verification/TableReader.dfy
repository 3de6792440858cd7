// Point reads of a table file: bloom filter, binary search of the index, one block, and
// the entries of that block in order.
module TableReader {
  import opened Keys
  import opened Entries
  import opened Coding
  import opened Crc
  import opened Records
  import opened Bloom
  import opened Gc
  import opened TableIndex
  import opened TableFormat

  // ------------------------------------------------------------- one block

  function SearchBlock(b: Bytes, key: Bytes, s: nat): Status
    decreases |b|
  {
    if |b| < HEADER || |b| < SizeAt(b) then NotFound
    else
      var r := RecordAt(b);
      if r.key == key && r.seqno <= s then (if r.tag == 1 then Deleted else Found(r.value))
      else if r.key != key && Less(key, r.key) then NotFound
      else SearchBlock(b[SizeAt(b)..], key, s)
  }

  lemma SearchFirst(e: Entry, rest: Bytes, key: Bytes, s: nat)
    requires EntryFits(e)
    ensures SearchBlock(EntryBody(e) + rest, key, s) ==
              if Visible(e, key, s) then StatusOf(Some(e))
              else if e.key != key && Less(key, e.key) then NotFound
              else SearchBlock(rest, key, s)
  {
    hide EntryBody, KeyLenAt, ValueLenAt, SizeAt, RecordAt, Less;
    TableFormat.EntryReads(e, rest);
  }

  /** The bytes of a sorted block are searched as its entries are. */
  lemma {:induction false} SearchIsLookup(es: seq<Entry>, key: Bytes, s: nat)
    requires AllFit(es) && Sorted(es)
    ensures SearchBlock(BlockBytes(es), key, s) == StatusOf(Lookup(es, key, s))
    decreases |es|
  {
    hide EntryBody, EntryFits, SearchBlock, Less;
    if es == [] {
      SearchNothing(key, s);
    } else {
      SearchFirst(es[0], BlockBytes(es[1..]), key, s);
      SearchIsLookup(es[1..], key, s);
      if Less(key, es[0].key) { AboveMiss(es, key, s); }
    }
  }

  lemma SearchNothing(key: Bytes, s: nat)
    ensures SearchBlock([], key, s) == NotFound
  {
  }

  lemma CutEntry(e: Entry, n: nat, key: Bytes, s: nat)
    requires EntryFits(e) && n < |EntryBody(e)|
    ensures SearchBlock(EntryBody(e)[..n], key, s) == NotFound
  {
    hide EntryBody, RecordAt, DecodeLen;
    var b, cut := EntryBody(e) + [], EntryBody(e)[..n];
    TableFormat.EntryReads(e, []);
    if n >= HEADER { assert cut[9..13] == b[9..13] && cut[13..17] == b[13..17]; }
  }

  /** A block cut short is searched up to its last whole entry. */
  lemma {:induction false} SearchCut(es: seq<Entry>, n: nat, key: Bytes, s: nat) returns (j: nat)
    requires AllFit(es) && Sorted(es) && n <= |BlockBytes(es)|
    ensures j <= |es| && |BlockBytes(es[..j])| <= n && (j < |es| ==> n < |BlockBytes(es[..j + 1])|)
    ensures SearchBlock(BlockBytes(es)[..n], key, s) == StatusOf(Lookup(es[..j], key, s))
    decreases |es|
  {
    hide EntryBody, EntryFits, SearchBlock, Less, Lookup, Sorted;
    j := 0;
    LookupNothing(es[..0], key, s);
    if es == [] {
      SearchNothing(key, s);
    } else {
      var e, size := es[0], |EntryBody(es[0])|;
      OneEntryBytes(es);
      if n < size {
        CutEntry(e, n, key, s);
        assert BlockBytes(es)[..n] == EntryBody(e)[..n];
      } else {
        TailSorted(es, 1);
        var k := SearchCut(es[1..], n - size, key, s);
        j := k + 1;
        var rest := BlockBytes(es[1..])[..n - size];
        assert BlockBytes(es)[..n] == EntryBody(e) + rest;
        SearchFirst(e, rest, key, s);
        assert es[..j] == [e] + es[1..][..k];
        FrontBytes(e, es[1..][..k]);
        if j < |es| {
          assert es[..j + 1] == [e] + es[1..][..k + 1];
          FrontBytes(e, es[1..][..k + 1]);
        }
        LookupFront(es, j, key, s);
      }
    }
  }

  lemma FrontBytes(e: Entry, es: seq<Entry>)
    ensures BlockBytes([e] + es) == EntryBody(e) + BlockBytes(es)
  {
    hide EntryBody;
    assert ([e] + es)[1..] == es;
  }

  lemma OneEntryBytes(es: seq<Entry>)
    requires es != []
    ensures BlockBytes(es) == EntryBody(es[0]) + BlockBytes(es[1..]) && |BlockBytes(es[..1])| == |EntryBody(es[0])|
    ensures |BlockBytes(es[..0])| == 0
  {
    hide EntryBody;
    assert es[..1] == [es[0]] + [];
    FrontBytes(es[0], []);
  }

  /** The first entry decides, or the rest does; above the key nothing is found. */
  lemma LookupFront(es: seq<Entry>, j: nat, key: Bytes, s: nat)
    requires Sorted(es) && 1 <= j <= |es|
    ensures Lookup(es[..j], key, s)
         == if Visible(es[0], key, s) then Some(es[0])
            else if es[0].key != key && Less(key, es[0].key) then None
            else Lookup(es[1..][..j - 1], key, s)
  {
    var front := es[..j];
    assert Sorted(front) && front[0] == es[0] && front[1..] == es[1..][..j - 1];
    if Less(key, es[0].key) { AboveMiss(front, key, s); }
  }

  lemma AboveMiss(es: seq<Entry>, key: Bytes, s: nat)
    requires es != [] && Sorted(es) && Less(key, es[0].key)
    ensures Lookup(es, key, s) == None
  {
    hide Less, Lookup;
    forall e | e in es ensures e.key != key {
      var i :| 0 <= i < |es| && es[i] == e;
      LessIrreflexive(es[0].key);
      assert i > 0 ==> !Before(es[i], es[0]);
      LessThenNotGreater(key, es[0].key, e.key);
      LessIrreflexive(key);
    }
    LookupMiss(es, key, s);
  }

  // ------------------------------------------------------------- the index

  /** The binary search, for any index at all. */
  function Bisect(index: seq<IndexEntry>, key: Bytes, lo: nat, hi: nat): nat
    requires lo < hi <= |index|
    decreases hi - lo
  {
    if lo + 1 >= hi then lo
    else
      var mid := lo + (hi - lo) / 2;
      if !Less(key, index[mid].firstKey) then Bisect(index, key, mid, hi) else Bisect(index, key, lo, mid)
  }

  function FindBlock(index: seq<IndexEntry>, key: Bytes): int {
    if index == [] || Less(key, index[0].firstKey) then -1 else Bisect(index, key, 0, |index|)
  }

  lemma {:induction false} BisectEnds(index: seq<IndexEntry>, key: Bytes, lo: nat, hi: nat)
    requires lo < hi <= |index|
    requires !Less(key, index[lo].firstKey) && (hi < |index| ==> Less(key, index[hi].firstKey))
    ensures var r := Bisect(index, key, lo, hi);
            && r < |index| && !Less(key, index[r].firstKey) && (r + 1 < |index| ==> Less(key, index[r + 1].firstKey))
    decreases hi - lo
  {
    hide Less;
    if lo + 1 < hi {
      var mid := lo + (hi - lo) / 2;
      if !Less(key, index[mid].firstKey) { BisectEnds(index, key, mid, hi); } else { BisectEnds(index, key, lo, mid); }
    }
  }

  /** On a sorted table the binary search finds the last block that may hold the key. */
  lemma FindBlockIs(blocks: seq<seq<Entry>>, key: Bytes)
    requires NoneEmpty(blocks) && Sorted(Concat(blocks))
    ensures FindBlock(IndexOf(blocks, 0), key) == BlockFor(blocks, key)
  {
    hide Less, Bisect, IndexOf, BlockFor, Concat, Sorted;
    var index := IndexOf(blocks, 0);
    if index != [] && !Less(key, index[0].firstKey) {
      BisectEnds(index, key, 0, |index|);
    }
    BlockForUnique(blocks, key, FindBlock(index, key));
  }

  // --------------------------------------------------------------- the read

  /** The filter divides by its size. */
  predicate Readable(t: Table) {
    t.filter.Some? ==> Usable(t.filter.value)
  }

  function GetBytes(file: Bytes, t: Table, key: Bytes, s: nat): Result<Status>
    requires Readable(t)
  {
    if t.filter.Some? && !MayContain(t.filter.value, key) then Ok(NotFound)
    else
      var i := FindBlock(t.index, key);
      if !(0 <= i < |t.index|) then Ok(NotFound)
      else
        match ReadBlock(file, t.index[i])
        case Failed => Failed
        case Ok(b) => Ok(SearchBlock(b, key, s))
  }

  lemma PartFits(blocks: seq<seq<Entry>>, i: nat)
    requires AllFit(Concat(blocks)) && i < |blocks|
    ensures AllFit(blocks[i])
  {
    hide Concat, EntryFits;
    forall j | 0 <= j < |blocks[i]| ensures EntryFits(blocks[i][j]) {
      var e := blocks[i][j];
      assert e in blocks[i];
      ConcatMembers(blocks, e);
      var n :| 0 <= n < |Concat(blocks)| && Concat(blocks)[n] == e;
    }
  }

  lemma FoundIsKept(es: seq<Entry>, key: Bytes, s: nat)
    ensures IndexedLookup(BlocksOf(es), key, s).Some? ==> key in KeysOf(es)
  {
    hide BlocksOf, BlockFor, Lookup, Concat;
    BlocksWhole(es);
    var blocks := BlocksOf(es);
    var r := BlockFor(blocks, key);
    if r >= 0 {
      LookupFound(blocks[r], key, s);
      var found := Lookup(blocks[r], key, s);
      if found.Some? {
        ConcatMembers(blocks, found.value);
        var j :| 0 <= j < |es| && es[j] == found.value;
        assert KeysOf(es)[j] == key;
      }
    }
  }

  /** A key the filter denies is nowhere in the table. */
  lemma DeniedIsAbsent(es: seq<Entry>, key: Bytes, s: nat)
    requires !MayContain(FilterOf(es), key)
    ensures IndexedLookup(BlocksOf(es), key, s) == None
  {
    hide BlocksOf, MayContain, AddAll, New, IndexedLookup;
    MayContainIff(KeysOf(es), |es|, key);
    FoundIsKept(es, key, s);
  }

  lemma BlockAnswers(es: seq<Entry>, r: nat, key: Bytes, s: nat)
    requires TableFits(es) && Sorted(es) && r < |BlocksOf(es)|
    ensures ReadBlock(FileBytes(es), TableOf(es).index[r]) == Ok(BlockBytes(BlocksOf(es)[r]))
    ensures SearchBlock(BlockBytes(BlocksOf(es)[r]), key, s) == StatusOf(Lookup(BlocksOf(es)[r], key, s))
  {
    hide BlocksOf, FilterOf, FileBytes, IndexOf, Lookup, Concat, Sorted, EntryFits, AllFit, BlockBytes, ReadBlock,
         SearchBlock, MaxSeq;
    var blocks := BlocksOf(es);
    BlocksWhole(es);
    BlocksRead(es, r);
    PartSorted(blocks, r);
    PartFits(blocks, r);
    SearchIsLookup(blocks[r], key, s);
  }

  lemma GetUnfolds(file: Bytes, t: Table, key: Bytes, s: nat)
    requires Readable(t)
    ensures t.filter.Some? && !MayContain(t.filter.value, key) ==> GetBytes(file, t, key, s) == Ok(NotFound)
    ensures FindBlock(t.index, key) < 0 ==> GetBytes(file, t, key, s) == Ok(NotFound)
    ensures (t.filter.Some? ==> MayContain(t.filter.value, key)) && 0 <= FindBlock(t.index, key) < |t.index| ==>
              var b := ReadBlock(file, t.index[FindBlock(t.index, key)]);
              b.Ok? ==> GetBytes(file, t, key, s) == Ok(SearchBlock(b.value, key, s))
  {
    hide MayContain, FindBlock, ReadBlock, SearchBlock;
  }

  /** get on a table file answers as the index does over the entries of the table. */
  lemma GetIsIndexed(es: seq<Entry>, key: Bytes, s: nat)
    requires TableFits(es) && Sorted(es)
    ensures GetBytes(FileBytes(es), TableOf(es), key, s) == Ok(StatusOf(IndexedLookup(BlocksOf(es), key, s)))
  {
    hide BlocksOf, FilterOf, FileBytes, IndexOf, MayContain, BlockFor, Lookup, Concat, Sorted, BlockBytes,
      ReadBlock, SearchBlock, FindBlock, MaxSeq, NoneEmpty, New, TableFits, GetBytes;
    var blocks := BlocksOf(es);
    BlocksWhole(es);
    FindBlockIs(blocks, key);
    GetUnfolds(FileBytes(es), TableOf(es), key, s);
    if es != [] && !MayContain(FilterOf(es), key) {
      DeniedIsAbsent(es, key, s);
    } else if BlockFor(blocks, key) >= 0 {
      BlockAnswers(es, BlockFor(blocks, key), key, s);
    }
  }

  /** ... and so as a linear scan of all entries does, for every key that does not straddle blocks. */
  lemma GetIsLinear(es: seq<Entry>, key: Bytes, s: nat)
    requires TableFits(es) && Sorted(es) && !Straddles(BlocksOf(es), key)
    ensures GetBytes(FileBytes(es), TableOf(es), key, s) == Ok(StatusOf(Lookup(es, key, s)))
  {
    hide BlocksOf, TableFits, TableOf, FileBytes, Lookup, Concat, Sorted, GetBytes, Straddles, IndexedLookup, FilterOf;
    GetIsIndexed(es, key, s);
    BlocksWhole(es);
    IndexedLookupRight(BlocksOf(es), key, s);
  }

  /**
   * With at most four adjacent bytes of block r damaged the file opens as before; a get that the
   * filter lets through to that block fails, and every other one answers as before.
   */
  lemma DamagedGet(file: Bytes, es: seq<Entry>, r: nat, p: Bytes, a: Bytes, b: Bytes, s: Bytes, key: Bytes, snap: nat)
    requires TableFits(es) && Sorted(es) && r < |BlocksOf(es)| && ChangedIn(file, es, r)
    requires BlockBytes(BlocksOf(es)[r]) == p + a + s && |a| == |b| <= 4 && a != b
    requires Slice(file, BlockStart(BlocksOf(es), r), p + b + s + PutU32(Checksum(p + a + s)))
    ensures OpenBytes(file) == Ok(TableOf(es))
    ensures GetBytes(file, TableOf(es), key, snap)
         == if MayContain(FilterOf(es), key) && BlockFor(BlocksOf(es), key) == r then Failed
            else GetBytes(FileBytes(es), TableOf(es), key, snap)
  {
    hide BlocksOf, FilterOf, FileBytes, IndexOf, MayContain, BlockFor, Concat, Sorted, BlockBytes, ReadBlock,
         SearchBlock, FindBlock, MaxSeq, NoneEmpty, New, TableFits, BlockStart, ChangedIn, Slice, OpenBytes, Checksum;
    var blocks, t := BlocksOf(es), TableOf(es);
    ChangedOpens(file, es, r);
    SomeData(es);
    BlocksWhole(es);
    FindBlockIs(blocks, key);
    IndexPlaces(blocks, 0, r);
    DamagedBlock(file, t.index[r], p, a, b, s);
    var i := BlockFor(blocks, key);
    if i >= 0 && i != r { ChangedReads(file, es, r, i); }
  }

  /** A table file cut short behind its back answers not found for whatever lay behind the cut. */
  lemma CutGet(es: seq<Entry>, n: nat, key: Bytes, snap: nat)
    requires TableFits(es) && Sorted(es) && n <= |FileBytes(es)|
    requires var r := BlockFor(BlocksOf(es), key); r >= 0 ==> n < BlockStart(BlocksOf(es), r + 1)
    ensures GetBytes(FileBytes(es)[..n], TableOf(es), key, snap) == Ok(NotFound)
  {
    hide BlocksOf, FilterOf, FileBytes, IndexOf, MayContain, BlockFor, Concat, Sorted, BlockBytes, SearchBlock,
         FindBlock, MaxSeq, NoneEmpty, New, TableFits, BlockStart, Checksum;
    var blocks := BlocksOf(es);
    BlocksWhole(es);
    FindBlockIs(blocks, key);
    var r := BlockFor(blocks, key);
    if r >= 0 {
      IndexPlaces(blocks, 0, r);
      BlockEnds(blocks, r);
      SearchNothing(key, snap);
    }
  }

  // ------------------------------------------------------- as the source runs

  method FindBlockIdx(index: seq<IndexEntry>, key: Bytes) returns (r: int)
    ensures r == FindBlock(index, key) && -1 <= r < |index|
  {
    hide Less;
    if |index| == 0 || Less(key, index[0].firstKey) { return -1; }
    var lo, hi := 0, |index|;
    while lo + 1 < hi
      invariant 0 <= lo < hi <= |index|
      invariant Bisect(index, key, 0, |index|) == Bisect(index, key, lo, hi)
      decreases hi - lo
    {
      var mid := lo + (hi - lo) / 2;
      if !Less(key, index[mid].firstKey) { lo := mid; } else { hi := mid; }
    }
    return lo;
  }

  method LoadBlock(file: Bytes, ie: IndexEntry, table: array<bv32>) returns (r: Result<Bytes>)
    requires table.Length == 256 && forall i: bv8 :: table[ByteValue(i)] == TableEntry(i)
    ensures r == ReadBlock(file, ie)
  {
    hide Checksum, GetU32, TableEntry, ByteValue;
    if ie.offset + ie.length > |file| { return Ok([]); }
    var buf := file[ie.offset..ie.offset + ie.length];
    if |buf| >= 4 {
      var payload := |buf| - 4;
      var stored := GetU32(buf[payload..]);
      var computed := Crc32(table, buf[..payload]);
      if stored != computed { return Failed; }
      buf := buf[..payload];
    }
    return Ok(buf);
  }

  method ScanBlock(b: Bytes, key: Bytes, s: nat) returns (r: Status)
    ensures r == SearchBlock(b, key, s)
  {
    hide KeyLenAt, ValueLenAt, SeqAt, Less, SearchBlock;
    var pos := 0;
    assert b[0..] == b;
    while pos + HEADER <= |b|
      invariant pos <= |b|
      invariant SearchBlock(b, key, s) == SearchBlock(b[pos..], key, s)
      decreases |b| - pos
    {
      var at := b[pos..];
      var tag := at[0];
      var seqno := SeqAt(at);
      var keyLen := KeyLenAt(at);
      var valueLen := ValueLenAt(at);
      SearchStep(at, key, s);
      if HEADER + keyLen + valueLen > |at| { return NotFound; }
      var entryKey := at[HEADER..HEADER + keyLen];
      if entryKey == key {
        if seqno <= s {
          if tag == 1 { return Deleted; }
          return Found(at[HEADER + keyLen..HEADER + keyLen + valueLen]);
        }
      } else if Less(key, entryKey) {
        return NotFound;
      }
      assert at[SizeAt(at)..] == b[pos + HEADER + keyLen + valueLen..];
      pos := pos + HEADER + keyLen + valueLen;
    }
    SearchShort(b[pos..], key, s);
    return NotFound;
  }

  lemma SearchShort(b: Bytes, key: Bytes, s: nat)
    requires |b| < HEADER
    ensures SearchBlock(b, key, s) == NotFound
  {
  }

  lemma SearchStep(b: Bytes, key: Bytes, s: nat)
    requires |b| >= HEADER
    ensures SearchBlock(b, key, s) ==
              if |b| < SizeAt(b) then NotFound
              else
                var r := RecordAt(b);
                if r.key == key && r.seqno <= s then (if r.tag == 1 then Deleted else Found(r.value))
                else if r.key != key && Less(key, r.key) then NotFound
                else SearchBlock(b[SizeAt(b)..], key, s)
  {
    hide KeyLenAt, ValueLenAt, SeqAt, Less;
  }

  method Get(file: Bytes, t: Table, key: Bytes, s: nat, table: array<bv32>) returns (r: Result<Status>)
    requires Readable(t)
    requires table.Length == 256 && forall i: bv8 :: table[ByteValue(i)] == TableEntry(i)
    ensures r == GetBytes(file, t, key, s)
  {
    hide TableEntry, ByteValue, MayContain, FindBlock, ReadBlock, SearchBlock;
    if t.filter.Some? {
      var bloom := new BloomFilter.FromFilter(t.filter.value);
      var maybe := bloom.Test(key);
      if !maybe { return Ok(NotFound); }
    }
    var i := FindBlockIdx(t.index, key);
    if i < 0 { return Ok(NotFound); }
    var block := LoadBlock(file, t.index[i], table);
    if block.Failed? { return Failed; }
    var status := ScanBlock(block.value, key, s);
    return Ok(status);
  }
}
