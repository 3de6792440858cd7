// The table writer, which grows a block, its index and its key list entry by entry, and
// the opening of a finished file.
module TableWriter {
  import opened Keys
  import opened Entries
  import opened Coding
  import opened Crc
  import opened Bloom
  import opened TableIndex
  import opened TableFormat

  /** The bytes and the index written so far are those of the closed blocks. */
  ghost predicate Written(file: Bytes, offset: nat, index: seq<IndexEntry>, done: seq<seq<Entry>>) {
    NoneEmpty(done) && file == DataBytes(done) && offset == |file| && index == IndexOf(done, 0)
  }

  /** The block buffer holds the entries of the block being filled. */
  ghost predicate Filling(blockBuf: Bytes, firstKey: Bytes, cur: seq<Entry>) {
    blockBuf == BlockBytes(cur) && (cur != [] ==> firstKey == cur[0].key)
  }

  /** The closed blocks and the open one are the blocks of the entries added. */
  ghost predicate CutInto(es: seq<Entry>, done: seq<seq<Entry>>, cur: seq<Entry>) {
    && BlocksOf(es) == done + (if cur == [] then [] else [cur])
    && (es == [] <==> cur == [])
    && (es == [] ==> done == [])
  }

  ghost predicate Counted(es: seq<Entry>, keys: seq<Bytes>, count: nat, maxSeq: nat, smallest: Bytes, largest: Bytes) {
    && keys == KeysOf(es)
    && count == |es|
    && maxSeq == MaxSeq(es)
    && (es != [] ==> smallest == es[0].key && largest == es[|es| - 1].key)
  }

  class Writer {
    var file: Bytes
    var blockBuf: Bytes
    var blockFirstKey: Bytes
    var offset: nat
    var index: seq<IndexEntry>
    var count: nat
    var maxSeq: nat
    var smallest: Bytes
    var largest: Bytes
    var keys: seq<Bytes>
    const crc: array<bv32>

    /** The entries added, the blocks closed, and the block being filled. */
    ghost var es: seq<Entry>
    ghost var done: seq<seq<Entry>>
    ghost var cur: seq<Entry>

    ghost predicate CrcOk()
      reads crc
    {
      crc.Length == 256 && forall i: bv8 :: crc[ByteValue(i)] == TableEntry(i)
    }

    ghost predicate Valid()
      reads this, crc
    {
      && CrcOk()
      && Written(file, offset, index, done)
      && Filling(blockBuf, blockFirstKey, cur)
      && CutInto(es, done, cur)
      && Counted(es, keys, count, maxSeq, smallest, largest)
    }

    constructor ()
      ensures Valid() && es == [] && fresh(crc)
    {
      var t := BuildTable();
      crc := t;
      file, blockBuf, blockFirstKey, offset, index := [], [], [], 0, [];
      count, maxSeq, smallest, largest, keys := 0, 0, [], [], [];
      es, done, cur := [], [], [];
      new;
      Fresh();
    }

    method FlushBlock()
      requires CrcOk() && Written(file, offset, index, done) && Filling(blockBuf, blockFirstKey, cur)
      modifies this`file, this`offset, this`index, this`blockBuf, this`blockFirstKey, this`done, this`cur
      ensures Written(file, offset, index, done) && Filling(blockBuf, blockFirstKey, cur) && cur == []
      ensures done == old(done) + (if old(cur) == [] then [] else [old(cur)])
    {
      hide TableEntry, ByteValue, Checksum, PutU32, BlockBytes, Written;
      BlockEmptyIff(cur);
      BlockEmptyIff([]);
      if blockBuf == [] { return; }
      var checksum := Crc32(crc, blockBuf);
      var total := |blockBuf| + 4;
      WrittenSnoc(file, offset, index, done, cur);
      index := index + [IndexEntry(blockFirstKey, offset, total)];
      file := file + blockBuf;
      file := file + PutU32(checksum);
      offset := offset + total;
      blockBuf, blockFirstKey := [], [];
      done, cur := done + [cur], [];
    }

    /** Closes a full block that did not start with this key. */
    method CloseFullBlock(key: Bytes, ghost e: Entry)
      requires CrcOk() && Written(file, offset, index, done) && Filling(blockBuf, blockFirstKey, cur)
      requires CutInto(es, done, cur) && e.key == key
      modifies this`file, this`offset, this`index, this`blockBuf, this`blockFirstKey, this`done, this`cur
      ensures Written(file, offset, index, done) && Filling(blockBuf, blockFirstKey, cur)
      ensures CutInto(es + [e], done, cur + [e])
    {
      hide TableEntry, ByteValue, BlockBytes, Written, CutInto, Filling, Closes;
      CutSnoc(es, done, cur, e);
      FillingCloses(blockBuf, blockFirstKey, cur, e);
      if blockBuf != [] && |blockBuf| >= BLOCK_TARGET && key != blockFirstKey {
        FlushBlock();
      }
    }

    method Count(key: Bytes, seqno: nat, ghost e: Entry)
      requires Counted(es, keys, count, maxSeq, smallest, largest) && e.key == key && e.seqno == seqno
      modifies this`keys, this`count, this`maxSeq, this`smallest, this`largest
      ensures Counted(es + [e], keys, count, maxSeq, smallest, largest)
    {
      hide Counted;
      CountedSnoc(es, keys, count, maxSeq, smallest, largest, e);
      if count == 0 { smallest := key; }
      largest := key;
      if seqno > maxSeq { maxSeq := seqno; }
      keys := keys + [key];
      count := count + 1;
    }

    method Add(key: Bytes, value: Bytes, tombstone: bool, seqno: nat)
      requires Valid()
      modifies this
      ensures Valid() && es == old(es) + [Kept(Entry(key, value, tombstone, seqno))]
    {
      hide TableEntry, ByteValue, EntryBody, BlockBytes, Written, CutInto, Counted, Filling, Kept;
      ghost var e := Kept(Entry(key, value, tombstone, seqno));
      KeptKey(Entry(key, value, tombstone, seqno));
      CloseFullBlock(key, e);
      FillingSnoc(blockBuf, blockFirstKey, cur, e);
      if blockBuf == [] { blockFirstKey := key; }
      AppendEntry(key, value, tombstone, seqno);
      Count(key, seqno, e);
      cur, es := cur + [e], es + [e];
    }

    /** The fields of an entry appended to the block one after the other. */
    method AppendEntry(key: Bytes, value: Bytes, tombstone: bool, seqno: nat)
      modifies this`blockBuf
      ensures blockBuf == old(blockBuf) + EntryBody(Kept(Entry(key, value, tombstone, seqno)))
    {
      hide EncodeSeq, EncodeLen;
      blockBuf := blockBuf + [if tombstone then 1 else 0];
      blockBuf := blockBuf + EncodeSeq(seqno % U64);
      var valueLen := if tombstone then 0 else |value| % U32;
      blockBuf := blockBuf + (EncodeLen(|key| % U32) + EncodeLen(valueLen));
      blockBuf := blockBuf + key;
      if !tombstone && value != [] { blockBuf := blockBuf + value; }
    }

    method WriteIndex() returns (size: nat)
      modifies this`file
      ensures file == old(file) + IndexBytes(index) && size == |IndexBytes(index)|
    {
      hide EncodeSeq, EncodeLen, IndexBytes;
      size := 0;
      NoIndexBytes();
      for i := 0 to |index|
        invariant file == old(file) + IndexBytes(index[..i]) && size == |IndexBytes(index[..i])|
        invariant index == old(index)
      {
        var ie := index[i];
        IndexBytesSnoc(index[..i], ie);
        assert index[..i] + [ie] == index[..i + 1];
        file := file + EncodeLen(|ie.firstKey| % U32);
        file := file + ie.firstKey;
        file := file + (EncodeSeq(ie.offset % U64) + EncodeSeq(ie.length % U64));
        size := size + 4 + |ie.firstKey| + 16;
      }
      assert index[..|index|] == index;
    }

    /** The finished file is the table of the entries that were added. */
    method Finish()
      requires Valid()
      modifies this`file, this`offset, this`index, this`blockBuf, this`blockFirstKey, this`done, this`cur
      ensures file == FileBytes(es)
      ensures Counted(es, keys, count, maxSeq, smallest, largest)
    {
      hide TableEntry, ByteValue, DataBytes, IndexOf, BlockBytes, BlocksOf, MaxSeq, IndexBytes, FooterBytes, AddAll,
           New, Serialize;
      FlushBlock();
      var indexOffset := offset;
      var indexSize := WriteIndex();
      var bloomOffset := indexOffset + indexSize;
      var bloom := BuildFilter(keys);
      file := file + Serialize(bloom);
      file := file + FooterBytes(indexOffset, bloomOffset, count, maxSeq);
    }
  }

  method BuildFilter(keys: seq<Bytes>) returns (f: Filter)
    ensures f == AddAll(New(|keys|), keys)
  {
    hide New, Add;
    var bloom := new BloomFilter(|keys|);
    for i := 0 to |keys|
      invariant fresh(bloom) && bloom.Valid() && bloom.Value() == AddAll(New(|keys|), keys[..i])
    {
      assert keys[..i + 1][..i] == keys[..i];
      bloom.AddKey(keys[i]);
    }
    assert keys[..|keys|] == keys;
    f := bloom.Value();
  }

  lemma BlockEmptyIff(es: seq<Entry>)
    ensures BlockBytes(es) == [] <==> es == []
  {
    hide EntryBody;
    if es != [] { assert |EntryBody(es[0])| >= 17; }
  }

  lemma Fresh()
    ensures Written([], 0, [], []) && Filling([], [], []) && CutInto([], [], []) && Counted([], [], 0, 0, [], [])
  {
  }

  lemma WrittenSnoc(file: Bytes, offset: nat, index: seq<IndexEntry>, done: seq<seq<Entry>>, cur: seq<Entry>)
    requires Written(file, offset, index, done) && cur != []
    ensures var b := BlockBytes(cur);
            Written(file + b + PutU32(Checksum(b)), offset + |b| + 4,
                    index + [IndexEntry(cur[0].key, offset, |b| + 4)], done + [cur])
  {
    hide BlockBytes, DataBytes, IndexOf, Checksum, PutU32;
    DataSnoc(done, cur);
    IndexSnoc(done, cur, 0);
    var b := BlockBytes(cur);
    assert file + b + PutU32(Checksum(b)) == file + Sealed(b);
  }

  lemma KeptKey(e: Entry)
    ensures Kept(e).key == e.key && Kept(e).seqno == e.seqno
  {
  }

  lemma FillingCloses(blockBuf: Bytes, firstKey: Bytes, cur: seq<Entry>, e: Entry)
    requires Filling(blockBuf, firstKey, cur)
    ensures Closes(cur, e) <==> blockBuf != [] && |blockBuf| >= BLOCK_TARGET && e.key != firstKey
  {
    hide BlockBytes, BlockSize;
    BlockEmptyIff(cur);
    BlockBytesSize(cur);
  }

  lemma FillingSnoc(blockBuf: Bytes, firstKey: Bytes, cur: seq<Entry>, e: Entry)
    requires Filling(blockBuf, firstKey, cur)
    ensures Filling(blockBuf + EntryBody(e), if blockBuf == [] then e.key else firstKey, cur + [e])
  {
    hide BlockBytes, EntryBody;
    BlockEmptyIff(cur);
    BlockSnoc(cur, e);
  }

  lemma CutSnoc(es: seq<Entry>, done: seq<seq<Entry>>, cur: seq<Entry>, e: Entry)
    requires CutInto(es, done, cur)
    ensures Closes(cur, e) ==> cur != [] && CutInto(es + [e], done + [cur], [] + [e])
    ensures !Closes(cur, e) ==> CutInto(es + [e], done, cur + [e])
  {
    hide BlocksOf;
    BlocksGrow(es, done, cur, e);
    assert [] + [e] == [e];
  }

  lemma CountedSnoc(es: seq<Entry>, keys: seq<Bytes>, count: nat, maxSeq: nat, smallest: Bytes, largest: Bytes,
                    e: Entry)
    requires Counted(es, keys, count, maxSeq, smallest, largest)
    ensures Counted(es + [e], keys + [e.key], count + 1, if e.seqno > maxSeq then e.seqno else maxSeq,
                    if count == 0 then e.key else smallest, e.key)
  {
    hide MaxSeq;
    MaxSeqSnoc(es, e);
    assert KeysOf(es + [e]) == keys + [e.key];
  }

  /** How one more entry changes the blocks. */
  lemma BlocksGrow(es: seq<Entry>, done: seq<seq<Entry>>, cur: seq<Entry>, e: Entry)
    requires BlocksOf(es) == done + (if cur == [] then [] else [cur])
    requires es == [] <==> cur == []
    requires es == [] ==> done == []
    ensures BlocksOf(es + [e]) == if Closes(cur, e) then done + [cur] + [[e]] else done + [cur + [e]]
  {
    hide BlocksFrom, Closes;
    BlocksSnoc(es, [], e);
    NotClosedEmpty(e);
    if cur != [] {
      var all := BlocksOf(es);
      assert all[|all| - 1] == cur && all[..|all| - 1] == done;
      assert all + [[e]] == done + [cur] + [[e]];
    } else {
      assert [] + [e] == [e];
    }
  }

  lemma MaxSeqSnoc(es: seq<Entry>, e: Entry)
    ensures MaxSeq(es + [e]) == if e.seqno > MaxSeq(es) then e.seqno else MaxSeq(es)
  {
    assert (es + [e])[..|es|] == es;
  }

  lemma NoIndexBytes()
    ensures IndexBytes([]) == []
  {
  }

  lemma {:induction false} IndexBytesSnoc(index: seq<IndexEntry>, ie: IndexEntry)
    ensures IndexBytes(index + [ie]) == IndexBytes(index) + IndexEntryBytes(ie)
    decreases |index|
  {
    hide IndexEntryBytes;
    if index == [] {
      assert index + [ie] == [ie];
      assert IndexBytes([ie]) == IndexEntryBytes(ie) + IndexBytes([]);
    } else {
      assert (index + [ie])[1..] == index[1..] + [ie];
      IndexBytesSnoc(index[1..], ie);
    }
  }

  // ------------------------------------------------------------------ open

  method ReadIndex(b: Bytes) returns (index: seq<IndexEntry>)
    ensures index == ParseIndex(b)
  {
    hide DecodeLen, DecodeSeq;
    index := [];
    var pos := 0;
    assert b[0..] == b;
    while pos + 4 <= |b|
      invariant pos <= |b|
      invariant ParseIndex(b) == index + ParseIndex(b[pos..])
      decreases |b| - pos
    {
      var k := DecodeLen(b[pos..pos + 4]);
      assert b[pos..][..4] == b[pos..pos + 4];
      pos := pos + 4;
      if pos + k + 16 > |b| { break; }
      ghost var at := b[pos - 4..];
      var key := b[pos..pos + k];
      assert at[4..4 + k] == key;
      pos := pos + k;
      var offset := DecodeSeq(b[pos..pos + 8]);
      assert at[4 + k..12 + k] == b[pos..pos + 8];
      pos := pos + 8;
      var length := DecodeSeq(b[pos..pos + 8]);
      assert at[12 + k..20 + k] == b[pos..pos + 8];
      pos := pos + 8;
      assert at[20 + k..] == b[pos..];
      index := index + [IndexEntry(key, offset, length)];
    }
  }

  method OpenFile(file: Bytes) returns (r: Result<Table>)
    ensures r == OpenBytes(file)
  {
    hide ParseIndex, Load, DecodeLen, DecodeSeq;
    if |file| < FOOTER { return Failed; }
    var body := |file| - FOOTER;
    var footer := file[body..];
    var indexOffset, bloomOffset := SeqField(footer, 0), SeqField(footer, 8);
    var count, maxSeq := SeqField(footer, 16), SeqField(footer, 24);
    var version, magic := LenField(footer, 32), LenField(footer, 36);
    if magic != MAGIC { return Failed; }
    var indexEnd := if bloomOffset != 0 then bloomOffset else body;
    if indexOffset > indexEnd || indexEnd > |file| { return Failed; }
    var index := ReadIndex(file[indexOffset..indexEnd]);
    if bloomOffset == 0 { return Ok(Table(index, None, count, maxSeq, version)); }
    if bloomOffset > body { return Failed; }
    var filter := Load(file[bloomOffset..body]);
    if filter.None? { return Failed; }
    return Ok(Table(index, filter, count, maxSeq, version));
  }
}
