// The table iterator: it walks positions through one block after another, and yields the
// entries of the table in order from where it was started.
module TableIterator {
  import opened Keys
  import opened Entries
  import opened Coding
  import opened Crc
  import opened Records
  import opened Gc
  import opened Scanning
  import opened TableIndex
  import opened TableFormat
  import opened TableReader

  ghost predicate Ahead(left: seq<Entry>, blocks: seq<seq<Entry>>, next: nat, es: seq<Entry>) {
    next <= |blocks| && es == left + Concat(blocks[next..])
  }

  /** The position stands where the bytes of `left` begin. */
  ghost predicate StandsAt(block: Bytes, pos: nat, left: seq<Entry>) {
    pos <= |block| && block[pos..] == BlockBytes(left) && AllFit(left)
  }

  /** The file holds these blocks where the index says. */
  ghost predicate Holds(file: Bytes, table: Table, blocks: seq<seq<Entry>>) {
    && |table.index| == |blocks|
    && NoneEmpty(blocks)
    && (forall i :: 0 <= i < |blocks| ==> ReadBlock(file, table.index[i]) == Ok(BlockBytes(blocks[i])))
    && (forall i :: 0 <= i < |blocks| ==> AllFit(blocks[i]))
  }

  lemma AtEntry(block: Bytes, pos: nat, left: seq<Entry>)
    requires StandsAt(block, pos, left)
    ensures pos + HEADER <= |block| <==> left != []
    ensures left != [] ==>
              var b := block[pos..];
              && |b| >= HEADER && |b| >= SizeAt(b) && EntryOfRecord(RecordAt(b)) == left[0]
              && KeyLenAt(b) == |left[0].key| && ValueLenAt(b) == |left[0].value|
              && StandsAt(block, pos + SizeAt(b), left[1..])
  {
    hide EntryBody, EntryFits, KeyLenAt, ValueLenAt, SizeAt, RecordAt;
    if left != [] {
      TableFormat.EntryReads(left[0], BlockBytes(left[1..]));
      assert block[pos + SizeAt(block[pos..])..] == block[pos..][SizeAt(block[pos..])..];
    }
  }

  class Iterator {
    const file: Bytes
    const table: Table
    const crc: array<bv32>
    var blockIdx: nat
    var block: Bytes
    var pos: nat
    var valid: bool
    var current: Entry

    ghost const blocks: seq<seq<Entry>>
    /** What is left of the block in hand, and everything still to be yielded. */
    ghost var left: seq<Entry>
    ghost var rest: seq<Entry>

    /** The file is a table of these blocks. */
    ghost predicate Reads()
      reads crc
    {
      && Holds(file, table, blocks)
      && crc.Length == 256
      && forall i: bv8 :: crc[ByteValue(i)] == TableEntry(i)
    }

    ghost predicate Valid()
      reads this, crc
    {
      && Reads()
      && (valid ==> blockIdx < |blocks| && StandsAt(block, pos, left) && Ahead(left, blocks, blockIdx + 1, rest))
      && (!valid ==> rest == [])
    }

    method LoadBlockAt()
      requires Reads() && blockIdx <= |blocks|
      modifies this
      ensures Valid() && blockIdx == old(blockIdx) && current == old(current)
      ensures rest == Concat(blocks[blockIdx..])
      ensures valid <==> blockIdx < |blocks|
      ensures valid ==> left != []
    {
      hide ReadBlock, BlockBytes, EntryFits, TableEntry, ByteValue;
      if blockIdx >= |table.index| {
        valid := false;
        rest := [];
        assert blocks[blockIdx..] == [];
        return;
      }
      var r := LoadBlock(file, table.index[blockIdx], crc);
      block := r.value;
      NotEmptyBytes(blocks[blockIdx]);
      pos, valid := 0, true;
      left := blocks[blockIdx];
      rest := Concat(blocks[blockIdx..]);
      assert block[0..] == block;
      ConcatFirst(blocks, blockIdx);
    }

    /** Goes on to the next block if this one is used up. */
    method Refill()
      requires Valid() && valid
      modifies this
      ensures Valid() && rest == old(rest) && current == old(current)
      ensures valid <==> rest != []
      ensures valid ==> left != []
    {
      hide ReadBlock, BlockBytes, EntryFits, TableEntry, ByteValue, StandsAt, Concat, Holds;
      AtEntry(block, pos, left);
      if pos + HEADER > |block| {
        ghost var was := rest;
        blockIdx := blockIdx + 1;
        LoadBlockAt();
        assert rest == was;
        NoBlocks(blocks);
      }
    }

    /** Takes the next entry, from the next block if this one is used up. */
    method ParseEntry()
      requires Valid()
      modifies this
      ensures Valid()
      ensures valid <==> old(rest) != []
      ensures valid ==> current == old(rest)[0] && rest == old(rest)[1..]
    {
      hide ReadBlock, BlockBytes, EntryFits, TableEntry, ByteValue, KeyLenAt, ValueLenAt, SizeAt, RecordAt, StandsAt,
           Concat;
      if !valid { return; }
      Refill();
      if !valid { return; }
      AtEntry(block, pos, left);
      var at := block[pos..];
      current := EntryOfRecord(RecordAt(at));
      pos := pos + SizeAt(at);
      left, rest := left[1..], rest[1..];
    }

    constructor Begin(file: Bytes, table: Table, crc: array<bv32>, ghost blocks: seq<seq<Entry>>)
      requires Holds(file, table, blocks)
      requires crc.Length == 256 && forall i: bv8 :: crc[ByteValue(i)] == TableEntry(i)
      ensures Valid() && this.file == file && this.table == table && this.crc == crc && this.blocks == blocks
      ensures valid <==> Concat(blocks) != []
      ensures valid ==> current == Concat(blocks)[0] && rest == Concat(blocks)[1..]
    {
      hide ReadBlock, BlockBytes, EntryFits, TableEntry, ByteValue, StandsAt, Concat;
      this.file, this.table, this.crc, this.blocks := file, table, crc, blocks;
      blockIdx, pos, valid := 0, 0, true;
      block, current := [], Entry([], [], false, 0);
      left, rest := [], [];
      new;
      LoadBlockAt();
      assert blocks[0..] == blocks;
      if valid { ParseEntry(); }
    }

    /** seek: start in the block the index picks and skip the entries below the target. */
    constructor Seek(file: Bytes, table: Table, crc: array<bv32>, target: Bytes, ghost blocks: seq<seq<Entry>>)
      requires Holds(file, table, blocks)
      requires crc.Length == 256 && forall i: bv8 :: crc[ByteValue(i)] == TableEntry(i)
      requires NoneEmpty(blocks) && FindBlock(table.index, target) == BlockFor(blocks, target)
      ensures Valid() && this.file == file && this.table == table && this.crc == crc && this.blocks == blocks
      ensures valid <==> IndexedSeek(blocks, target) != []
      ensures valid ==> current == IndexedSeek(blocks, target)[0] && rest == IndexedSeek(blocks, target)[1..]
    {
      hide ReadBlock, BlockBytes, EntryFits, TableEntry, ByteValue, StandsAt, Concat, FindBlock, BlockFor, Less;
      hide KeyLenAt, ValueLenAt, SizeAt, RecordAt, SeekFrom;
      var i := FindBlockIdx(table.index, target);
      this.file, this.table, this.crc, this.blocks := file, table, crc, blocks;
      blockIdx := if i < 0 then 0 else i;
      pos, valid := 0, true;
      block, current := [], Entry([], [], false, 0);
      left, rest := [], [];
      new;
      LoadBlockAt();
      assert blocks[0..] == blocks;
      SkipBelow(target);
    }

    method SkipBelow(target: Bytes)
      requires Valid()
      modifies this
      ensures Valid()
      ensures valid <==> SeekFrom(old(rest), target) != []
      ensures valid ==> current == SeekFrom(old(rest), target)[0] && rest == SeekFrom(old(rest), target)[1..]
    {
      hide ReadBlock, BlockBytes, EntryFits, TableEntry, ByteValue, StandsAt, Concat, Less;
      hide KeyLenAt, ValueLenAt, SizeAt, RecordAt, SeekFrom;
      SeekNothing(target);
      while valid
        invariant Valid() && SeekFrom(rest, target) == SeekFrom(old(rest), target)
        decreases |rest|
      {
        Refill();
        if !valid { return; }
        AtEntry(block, pos, left);
        var at := block[pos..];
        var key := RecordAt(at).key;
        SeekOne(rest, target);
        if !Less(key, target) {
          ParseEntry();
          return;
        }
        pos := pos + SizeAt(at);
        left, rest := left[1..], rest[1..];
      }
    }
  }

  lemma NotEmptyBytes(es: seq<Entry>)
    requires es != []
    ensures BlockBytes(es) != []
  {
    hide EntryBody, EntryBytes;
    assert |EntryBody(es[0])| >= 17 by { EntryBytesBound(es[0]); }
  }

  lemma EntryBytesBound(e: Entry)
    ensures EntryBytes(e) >= 17
  {
  }

  lemma NoBlocks(blocks: seq<seq<Entry>>)
    ensures Concat(blocks[|blocks|..]) == []
  {
    assert blocks[|blocks|..] == [];
  }

  lemma SeekNothing(target: Bytes)
    ensures SeekFrom([], target) == []
  {
  }

  lemma SeekOne(es: seq<Entry>, target: Bytes)
    requires es != []
    ensures SeekFrom(es, target) == if Less(es[0].key, target) then SeekFrom(es[1..], target) else es
  {
  }

  /** What an iterator over the file of a table needs to know about it. */
  lemma TableReads(es: seq<Entry>)
    requires TableFits(es)
    ensures Holds(FileBytes(es), TableOf(es), BlocksOf(es))
    ensures Concat(BlocksOf(es)) == es
  {
    hide BlocksOf, FileBytes, IndexOf, ReadBlock, BlockBytes, EntryFits, Concat, FilterOf, MaxSeq;
    var blocks := BlocksOf(es);
    BlocksWhole(es);
    forall i | 0 <= i < |blocks|
      ensures ReadBlock(FileBytes(es), TableOf(es).index[i]) == Ok(BlockBytes(blocks[i])) && AllFit(blocks[i])
    {
      BlocksRead(es, i);
      PartFits(blocks, i);
    }
  }

  /** Collects everything an iterator still has to yield. */
  method Drain(it: Iterator) returns (out: seq<Entry>)
    requires it.Valid()
    modifies it
    ensures out == old(Yields(it.valid, it.current, it.rest))
  {
    hide TableEntry, ByteValue, StandsAt, Concat, Holds, Ahead;
    ghost var all := Yields(it.valid, it.current, it.rest);
    out := [];
    while it.valid
      invariant it.Valid()
      invariant all == out + Yields(it.valid, it.current, it.rest)
      decreases |all| - |out|
    {
      out := out + [it.current];
      it.ParseEntry();
    }
  }

  /** Opening and iterating the file of a table yields exactly its entries, in order. */
  method ReadAll(file: Bytes, crc: array<bv32>, ghost es: seq<Entry>) returns (out: seq<Entry>)
    requires TableFits(es) && file == FileBytes(es)
    requires crc.Length == 256 && forall i: bv8 :: crc[ByteValue(i)] == TableEntry(i)
    ensures out == es
  {
    hide BlocksOf, FileBytes, OpenBytes, TableEntry, ByteValue, StandsAt, Concat, TableOf, TableFits, Holds,
         NoneEmpty, Ahead;
    OpenRestores(es);
    TableReads(es);
    var table := OpenBytes(file).value;
    var it := new Iterator.Begin(file, table, crc, BlocksOf(es));
    out := Drain(it);
  }

  ghost function Yields(valid: bool, current: Entry, rest: seq<Entry>): seq<Entry> {
    if valid then [current] + rest else []
  }

  /** Seeking yields what the index finds: every entry from the target on, iff it does not straddle blocks. */
  method SeekTable(file: Bytes, crc: array<bv32>, target: Bytes, ghost es: seq<Entry>) returns (it: Iterator)
    requires TableFits(es) && Sorted(es) && file == FileBytes(es)
    requires crc.Length == 256 && forall i: bv8 :: crc[ByteValue(i)] == TableEntry(i)
    ensures it.Valid() && fresh(it) && Yields(it.valid, it.current, it.rest) == IndexedSeek(BlocksOf(es), target)
    ensures Yields(it.valid, it.current, it.rest) == SeekFrom(es, target) <==> !Straddles(BlocksOf(es), target)
  {
    hide BlocksOf, FileBytes, OpenBytes, TableEntry, ByteValue, StandsAt, Concat, Straddles, TableFits, Holds,
         NoneEmpty, Ahead;
    hide SeekFrom, FindBlock, BlockFor, Sorted, IndexOf, IndexedSeek, FilterOf, MaxSeq;
    OpenRestores(es);
    TableReads(es);
    FindBlockIs(BlocksOf(es), target);
    var table := OpenBytes(file).value;
    it := new Iterator.Seek(file, table, crc, target, BlocksOf(es));
    IndexedSeekIff(BlocksOf(es), target);
  }
}
