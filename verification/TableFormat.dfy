// The bytes of a table file: data blocks with their checksums, the index, the bloom
// filter and the footer; what opening such a file recovers.
module TableFormat {
  import opened Keys
  import opened Entries
  import opened Coding
  import opened Crc
  import opened Records
  import opened Bloom
  import opened Gc
  import opened TableIndex

  const MAGIC: nat := 0x4B53_5442
  const VERSION: nat := 3
  const FOOTER: nat := 40

  /** What a table keeps of an entry: a tombstone loses its value. */
  function Kept(e: Entry): Entry {
    if e.tombstone then e.(value := []) else e
  }

  ghost predicate EntryFits(e: Entry) {
    e.seqno < U64 && |e.key| < U32 && |e.value| < U32 && Kept(e) == e
  }

  ghost predicate AllFit(es: seq<Entry>) {
    forall i :: 0 <= i < |es| ==> EntryFits(es[i])
  }

  function EntryRecord(e: Entry): Record {
    Record(if e.tombstone then 1 else 0, e.seqno, e.key, e.value)
  }

  function EntryOfRecord(r: Record): Entry {
    Entry(r.key, r.value, r.tag == 1, r.seqno)
  }

  function EntryBody(e: Entry): (b: Bytes)
    ensures |b| == EntryBytes(e)
  {
    Body(EntryRecord(e))
  }

  ghost function BlockBytes(es: seq<Entry>): Bytes {
    if es == [] then [] else EntryBody(es[0]) + BlockBytes(es[1..])
  }

  ghost function Sealed(b: Bytes): (r: Bytes)
    ensures |r| == |b| + 4
  {
    b + PutU32(Checksum(b))
  }

  ghost function DataBytes(blocks: seq<seq<Entry>>): Bytes {
    if blocks == [] then [] else Sealed(BlockBytes(blocks[0])) + DataBytes(blocks[1..])
  }

  datatype IndexEntry = IndexEntry(firstKey: Bytes, offset: nat, length: nat)

  ghost function IndexOf(blocks: seq<seq<Entry>>, offset: nat): (index: seq<IndexEntry>)
    requires NoneEmpty(blocks)
    ensures |index| == |blocks|
    ensures forall i :: 0 <= i < |blocks| ==> index[i].firstKey == blocks[i][0].key
  {
    if blocks == [] then []
    else
      var length := |BlockBytes(blocks[0])| + 4;
      [IndexEntry(blocks[0][0].key, offset, length)] + IndexOf(blocks[1..], offset + length)
  }

  ghost predicate IndexEntryFits(ie: IndexEntry) {
    |ie.firstKey| < U32 && ie.offset < U64 && ie.length < U64
  }

  function IndexEntryBytes(ie: IndexEntry): (b: Bytes)
    ensures |b| == 20 + |ie.firstKey|
  {
    EncodeLen(|ie.firstKey| % U32) + ie.firstKey + EncodeSeq(ie.offset % U64) + EncodeSeq(ie.length % U64)
  }

  ghost function IndexBytes(index: seq<IndexEntry>): Bytes {
    if index == [] then [] else IndexEntryBytes(index[0]) + IndexBytes(index[1..])
  }

  function KeysOf(es: seq<Entry>): (ks: seq<Bytes>)
    ensures |ks| == |es| && forall i :: 0 <= i < |es| ==> ks[i] == es[i].key
  {
    seq(|es|, i requires 0 <= i < |es| => es[i].key)
  }

  function FilterOf(es: seq<Entry>): (f: Filter)
    ensures f.k == PROBES && f.size == 8 * |f.bits| && f.size == New(|es|).size && f.size >= 8
  {
    AddAll(New(|es|), KeysOf(es))
  }

  function MaxSeq(es: seq<Entry>): (m: nat)
    ensures forall i :: 0 <= i < |es| ==> es[i].seqno <= m
    ensures m == 0 || exists i :: 0 <= i < |es| && es[i].seqno == m
  {
    if es == [] then 0
    else
      var m := MaxSeq(es[..|es| - 1]);
      assert forall i :: 0 <= i < |es| - 1 ==> es[i] == es[..|es| - 1][i];
      if es[|es| - 1].seqno > m then es[|es| - 1].seqno else m
  }

  function FooterBytes(indexOffset: nat, bloomOffset: nat, count: nat, maxSeq: nat): (b: Bytes)
    ensures |b| == FOOTER
  {
    EncodeSeq(indexOffset % U64) + EncodeSeq(bloomOffset % U64) + EncodeSeq(count % U64) + EncodeSeq(maxSeq % U64)
    + EncodeLen(VERSION) + EncodeLen(MAGIC)
  }

  ghost function Assemble(data: Bytes, index: Bytes, filter: Filter, count: nat, maxSeq: nat): (file: Bytes)
    ensures |file| == |data| + |index| + 12 + |filter.bits| + FOOTER
  {
    data + index + Serialize(filter) + FooterBytes(|data|, |data| + |index|, count, maxSeq)
  }

  /** The whole file of a finished table. */
  ghost function FileBytes(es: seq<Entry>): Bytes {
    var blocks := BlocksOf(es);
    Assemble(DataBytes(blocks), IndexBytes(IndexOf(blocks, 0)), FilterOf(es), |es|, MaxSeq(es))
  }

  // ---------------------------------------------------------------- blocks

  lemma EntryReads(e: Entry, rest: Bytes)
    requires EntryFits(e)
    ensures var b := EntryBody(e) + rest;
            && SizeAt(b) == EntryBytes(e) && EntryOfRecord(RecordAt(b)) == e && b[SizeAt(b)..] == rest
            && KeyLenAt(b) == |e.key| && ValueLenAt(b) == |e.value|
  {
    hide Body, KeyLenAt, ValueLenAt, SizeAt, RecordAt;
    BodyReads(EntryRecord(e), rest);
  }

  lemma {:induction false} BlockSnoc(es: seq<Entry>, e: Entry)
    ensures BlockBytes(es + [e]) == BlockBytes(es) + EntryBody(e)
    decreases |es|
  {
    hide EntryBody;
    if es == [] {
      assert es + [e] == [e];
      assert BlockBytes([e]) == EntryBody(e) + BlockBytes([]);
    } else {
      assert (es + [e])[1..] == es[1..] + [e];
      BlockSnoc(es[1..], e);
    }
  }

  lemma {:induction false} BlockBytesSize(es: seq<Entry>)
    ensures |BlockBytes(es)| == BlockSize(es)
    decreases |es|
  {
    hide EntryBody, EntryBytes;
    if es != [] {
      var front := es[..|es| - 1];
      BlockBytesSize(front);
      BlockSnoc(front, es[|es| - 1]);
      assert front + [es[|es| - 1]] == es;
    }
  }

  // ------------------------------------------------------------ data blocks

  lemma {:induction false} DataSnoc(blocks: seq<seq<Entry>>, b: seq<Entry>)
    ensures DataBytes(blocks + [b]) == DataBytes(blocks) + Sealed(BlockBytes(b))
    decreases |blocks|
  {
    hide Sealed, BlockBytes;
    if blocks == [] {
      assert blocks + [b] == [b];
      assert DataBytes([b]) == Sealed(BlockBytes(b)) + DataBytes([]);
    } else {
      assert (blocks + [b])[1..] == blocks[1..] + [b];
      DataSnoc(blocks[1..], b);
    }
  }

  lemma IndexStep(blocks: seq<seq<Entry>>, offset: nat)
    requires NoneEmpty(blocks) && blocks != []
    ensures var length := |BlockBytes(blocks[0])| + 4;
            IndexOf(blocks, offset) ==
                [IndexEntry(blocks[0][0].key, offset, length)] + IndexOf(blocks[1..], offset + length)
  {
    hide BlockBytes;
  }

  lemma IndexNone(offset: nat)
    ensures IndexOf([], offset) == []
  {
  }

  lemma NoData()
    ensures DataBytes([]) == []
  {
  }

  lemma DataStep(blocks: seq<seq<Entry>>)
    requires blocks != []
    ensures |DataBytes(blocks)| == |BlockBytes(blocks[0])| + 4 + |DataBytes(blocks[1..])|
  {
    hide Sealed, BlockBytes;
  }

  lemma {:induction false} IndexSnoc(blocks: seq<seq<Entry>>, b: seq<Entry>, offset: nat)
    requires NoneEmpty(blocks) && b != []
    ensures IndexOf(blocks + [b], offset)
         == IndexOf(blocks, offset) + [IndexEntry(b[0].key, offset + |DataBytes(blocks)|, |BlockBytes(b)| + 4)]
    decreases |blocks|
  {
    hide Sealed, BlockBytes, DataBytes, IndexOf;
    NoData();
    IndexStep(blocks + [b], offset);
    if blocks == [] {
      assert (blocks + [b])[1..] == [];
      IndexNone(offset);
      IndexNone(offset + |BlockBytes(b)| + 4);
    } else {
      var next := offset + |BlockBytes(blocks[0])| + 4;
      assert (blocks + [b])[1..] == blocks[1..] + [b];
      IndexSnoc(blocks[1..], b, next);
      IndexStep(blocks, offset);
      DataStep(blocks);
    }
  }

  ghost predicate Slice(file: Bytes, offset: nat, b: Bytes) {
    offset + |b| <= |file| && file[offset..offset + |b|] == b
  }

  lemma SliceParts(file: Bytes, offset: nat, a: Bytes, b: Bytes)
    requires Slice(file, offset, a + b)
    ensures Slice(file, offset, a) && Slice(file, offset + |a|, b)
  {
    var s := file[offset..offset + |a + b|];
    assert file[offset..offset + |a|] == s[..|a|] && file[offset + |a|..offset + |a| + |b|] == s[|a|..];
  }

  /** Every index entry points at its sealed block. */
  lemma {:induction false} IndexPoints(blocks: seq<seq<Entry>>, file: Bytes, offset: nat, i: nat)
    requires NoneEmpty(blocks) && i < |blocks| && Slice(file, offset, DataBytes(blocks))
    ensures var ie := IndexOf(blocks, offset)[i];
            && ie.length == |BlockBytes(blocks[i])| + 4
            && Slice(file, ie.offset, Sealed(BlockBytes(blocks[i])))
    decreases i
  {
    hide Sealed, BlockBytes, IndexOf, Slice;
    var first := Sealed(BlockBytes(blocks[0]));
    IndexStep(blocks, offset);
    SliceParts(file, offset, first, DataBytes(blocks[1..]));
    if i > 0 {
      IndexPoints(blocks[1..], file, offset + |first|, i - 1);
    }
  }

  // -------------------------------------------------------- reading blocks

  datatype Result<T> = Ok(value: T) | Failed

  /** read_block: a short read gives an empty block, a bad checksum is an error. */
  function ReadBlock(file: Bytes, ie: IndexEntry): Result<Bytes> {
    if ie.offset + ie.length > |file| then Ok([])
    else
      var buf := file[ie.offset..ie.offset + ie.length];
      if |buf| < 4 then Ok(buf)
      else if GetU32(buf[|buf| - 4..]) != Checksum(buf[..|buf| - 4]) then Failed
      else Ok(buf[..|buf| - 4])
  }

  lemma SealedReads(b: Bytes)
    ensures var buf := Sealed(b);
            && GetU32(buf[|buf| - 4..]) == Checksum(buf[..|buf| - 4]) && buf[..|buf| - 4] == b
  {
    hide Checksum, PutU32, GetU32;
    var buf := Sealed(b);
    assert buf[|buf| - 4..] == PutU32(Checksum(b)) && buf[..|buf| - 4] == b;
    RoundTrip32(Checksum(b));
  }

  // ------------------------------------------------------------- the index

  /** The index loop of open: it stops at the first entry that does not fit. */
  function ParseIndex(b: Bytes): seq<IndexEntry>
    decreases |b|
  {
    if |b| < 4 then []
    else
      var k := DecodeLen(b[..4]);
      if 4 + k + 16 > |b| then []
      else
        [IndexEntry(b[4..4 + k], DecodeSeq(b[4 + k..12 + k]), DecodeSeq(b[12 + k..20 + k]))] + ParseIndex(b[20 + k..])
  }

  lemma IndexEntryReads(ie: IndexEntry, rest: Bytes)
    requires IndexEntryFits(ie)
    ensures ParseIndex(IndexEntryBytes(ie) + rest) == [ie] + ParseIndex(rest)
  {
    hide EncodeLen, DecodeLen, EncodeSeq, DecodeSeq;
    var b := IndexEntryBytes(ie) + rest;
    var k := |ie.firstKey|;
    LenRoundTrip(k);
    SeqRoundTrip(ie.offset);
    SeqRoundTrip(ie.length);
    assert b[..4] == EncodeLen(k) && b[4..4 + k] == ie.firstKey;
    assert b[4 + k..12 + k] == EncodeSeq(ie.offset) && b[12 + k..20 + k] == EncodeSeq(ie.length);
    assert b[20 + k..] == rest;
  }

  lemma {:induction false} IndexReads(index: seq<IndexEntry>)
    requires forall i :: 0 <= i < |index| ==> IndexEntryFits(index[i])
    ensures ParseIndex(IndexBytes(index)) == index
    decreases |index|
  {
    hide IndexEntryBytes, ParseIndex, IndexEntryFits;
    if index == [] {
      NoIndex();
    } else {
      IndexReads(index[1..]);
      IndexEntryReads(index[0], IndexBytes(index[1..]));
    }
  }

  lemma NoIndex()
    ensures ParseIndex([]) == []
  {
  }

  // ------------------------------------------------------------------ open

  /** An open table. Reading blocks and entries, here and below, is as for version 3 and later. */
  datatype Table = Table(index: seq<IndexEntry>, filter: Option<Filter>, count: nat, maxSeq: nat, version: nat)

  function SeqField(b: Bytes, at: nat): nat
    requires at + 8 <= |b|
  {
    DecodeSeq(b[at..at + 8])
  }

  function LenField(b: Bytes, at: nat): nat
    requires at + 4 <= |b|
  {
    DecodeLen(b[at..at + 4])
  }

  /** SSTable::open: it takes any format version, and a file without a filter. */
  function OpenBytes(file: Bytes): Result<Table> {
    if |file| < FOOTER then Failed
    else
      var body := |file| - FOOTER;
      var footer := file[body..];
      var indexOffset, bloomOffset := SeqField(footer, 0), SeqField(footer, 8);
      if LenField(footer, 36) != MAGIC then Failed
      else
        var indexEnd := if bloomOffset != 0 then bloomOffset else body;
        if !(indexOffset <= indexEnd <= |file|) then Failed
        else
          var index := ParseIndex(file[indexOffset..indexEnd]);
          var count, maxSeq, version := SeqField(footer, 16), SeqField(footer, 24), LenField(footer, 32);
          if bloomOffset == 0 then Ok(Table(index, None, count, maxSeq, version))
          else if bloomOffset > body then Failed
          else
            var filter := Load(file[bloomOffset..body]);
            if filter.None? then Failed else Ok(Table(index, filter, count, maxSeq, version))
  }

  lemma FooterReads(indexOffset: nat, bloomOffset: nat, count: nat, maxSeq: nat)
    requires indexOffset < U64 && bloomOffset < U64 && count < U64 && maxSeq < U64
    ensures var f := FooterBytes(indexOffset, bloomOffset, count, maxSeq);
            && SeqField(f, 0) == indexOffset && SeqField(f, 8) == bloomOffset
            && SeqField(f, 16) == count && SeqField(f, 24) == maxSeq
            && LenField(f, 32) == VERSION && LenField(f, 36) == MAGIC
  {
    hide EncodeLen, DecodeLen, EncodeSeq, DecodeSeq;
    var f := FooterBytes(indexOffset, bloomOffset, count, maxSeq);
    assert f[0..8] == EncodeSeq(indexOffset) && f[8..16] == EncodeSeq(bloomOffset);
    assert f[16..24] == EncodeSeq(count) && f[24..32] == EncodeSeq(maxSeq);
    assert f[32..36] == EncodeLen(VERSION) && f[36..40] == EncodeLen(MAGIC);
    SeqRoundTrip(indexOffset);
    SeqRoundTrip(bloomOffset);
    SeqRoundTrip(count);
    SeqRoundTrip(maxSeq);
    LenRoundTrip(VERSION);
    LenRoundTrip(MAGIC);
  }

  /** A table without entries has its filter at offset 0, which open takes for no filter. */
  ghost function TableOf(es: seq<Entry>): Table {
    Table(IndexOf(BlocksOf(es), 0), if es == [] then None else Some(FilterOf(es)), |es|, MaxSeq(es), VERSION)
  }

  /** The sizes a table of these entries needs fit its 64-bit and 32-bit fields. */
  ghost predicate TableFits(es: seq<Entry>) {
    && AllFit(es)
    && FilterOf(es).size < U64
    && |FileBytes(es)| < U64
  }

  lemma OpenParts(data: Bytes, index: seq<IndexEntry>, filter: Filter, count: nat, maxSeq: nat)
    requires data != [] && WellFormed(filter) && count < U64 && maxSeq < U64
    requires |data| + |IndexBytes(index)| < U64
    requires forall i :: 0 <= i < |index| ==> IndexEntryFits(index[i])
    ensures OpenBytes(Assemble(data, IndexBytes(index), filter, count, maxSeq)) ==
              Ok(Table(index, Some(filter), count, maxSeq, VERSION))
  {
    hide IndexBytes, Serialize, FooterBytes, ParseIndex, Load, SeqField, LenField, IndexEntryFits;
    var ib := IndexBytes(index);
    var bloom := Serialize(filter);
    var footer := FooterBytes(|data|, |data| + |ib|, count, maxSeq);
    var file := data + ib + bloom + footer;
    var body := |file| - FOOTER;
    assert file[body..] == footer;
    FooterReads(|data|, |data| + |ib|, count, maxSeq);
    assert file[|data|..|data| + |ib|] == ib;
    assert file[|data| + |ib|..body] == bloom;
    IndexReads(index);
    LoadRestores(filter);
  }

  lemma {:induction false} IndexFits(blocks: seq<seq<Entry>>, offset: nat, limit: nat)
    requires NoneEmpty(blocks) && offset + |DataBytes(blocks)| < limit <= U64
    requires forall i :: 0 <= i < |blocks| ==> |blocks[i][0].key| < U32
    ensures forall i :: 0 <= i < |blocks| ==> IndexEntryFits(IndexOf(blocks, offset)[i])
    decreases |blocks|
  {
    hide Sealed, BlockBytes;
    if blocks != [] {
      IndexFits(blocks[1..], offset + |BlockBytes(blocks[0])| + 4, limit);
    }
  }

  lemma {:induction false} DataNotEmpty(blocks: seq<seq<Entry>>)
    requires blocks != []
    ensures DataBytes(blocks) != []
  {
    hide Sealed, BlockBytes;
  }

  lemma {:induction false} FirstKeysFit(blocks: seq<seq<Entry>>)
    requires NoneEmpty(blocks) && AllFit(Concat(blocks))
    ensures forall i :: 0 <= i < |blocks| ==> |blocks[i][0].key| < U32
  {
    hide Concat;
    forall i | 0 <= i < |blocks| ensures |blocks[i][0].key| < U32 {
      var e := blocks[i][0];
      assert e in blocks[i];
      ConcatMembers(blocks, e);
      var j :| 0 <= j < |Concat(blocks)| && Concat(blocks)[j] == e;
      assert EntryFits(Concat(blocks)[j]);
    }
  }

  lemma BlocksWhole(es: seq<Entry>)
    ensures Concat(BlocksOf(es)) == es
    ensures es != [] ==> BlocksOf(es) != []
  {
    hide BlocksFrom, Concat;
    BlocksHold(es, []);
    assert [] + es == es;
    ConcatNone();
  }

  lemma IndexOfFits(es: seq<Entry>)
    requires TableFits(es)
    ensures forall i :: 0 <= i < |BlocksOf(es)| ==> IndexEntryFits(IndexOf(BlocksOf(es), 0)[i])
  {
    hide BlocksFrom, DataBytes, IndexBytes, IndexOf, Assemble, FilterOf, MaxSeq, Concat, EntryFits, IndexEntryFits;
    BlocksWhole(es);
    FirstKeysFit(BlocksOf(es));
    IndexFits(BlocksOf(es), 0, U64);
  }

  /** The filter of no keys takes 14 bytes, which hold no index entry. */
  lemma OpenEmpty()
    ensures OpenBytes(FileBytes([])) == Ok(TableOf([]))
  {
    hide SeqField, LenField, FooterBytes, Load, EncodeLen, DecodeLen, EncodeSeq;
    var filter := FilterOf([]);
    var bloom, footer := Serialize(filter), FooterBytes(0, 0, 0, 0);
    var file := FileBytes([]);
    assert file == bloom + footer;
    assert |filter.bits| == 2 && |bloom| == 14;
    assert file[|file| - FOOTER..] == footer && file[0..|file| - FOOTER] == bloom;
    FooterReads(0, 0, 0, 0);
    assert bloom[..4] == EncodeLen(PROBES);
    LenRoundTrip(PROBES);
  }

  /** Opening the file of any table recovers its index, filter, count and largest sequence number. */
  lemma OpenRestores(es: seq<Entry>)
    requires TableFits(es)
    ensures OpenBytes(FileBytes(es)) == Ok(TableOf(es))
  {
    hide BlocksFrom, BlocksOf, DataBytes, IndexBytes, IndexOf, Assemble, OpenBytes, FilterOf, MaxSeq, EntryFits,
         IndexEntryFits;
    if es == [] {
      OpenEmpty();
      return;
    }
    var blocks := BlocksOf(es);
    BlocksWhole(es);
    DataNotEmpty(blocks);
    IndexOfFits(es);
    MaxSeqFits(es);
    CountFits(es);
    OpenParts(DataBytes(blocks), IndexOf(blocks, 0), FilterOf(es), |es|, MaxSeq(es));
  }

  lemma ConcatNone()
    ensures Concat([]) == []
  {
  }

  lemma MaxSeqFits(es: seq<Entry>)
    requires AllFit(es)
    ensures MaxSeq(es) < U64
  {
  }

  /** The filter has ten bits a key, so a filter that fits counts a number that fits. */
  lemma CountFits(es: seq<Entry>)
    requires FilterOf(es).size < U64
    ensures |es| < U64
  {
    hide AddAll, KeysOf;
    hide Halves;
    assert New(|es|).size >= |es|;
  }

  /** ... and every block reads back as the entries it was filled with. */
  lemma BlocksRead(es: seq<Entry>, i: nat)
    requires TableFits(es) && i < |BlocksOf(es)|
    ensures ReadBlock(FileBytes(es), TableOf(es).index[i]) == Ok(BlockBytes(BlocksOf(es)[i]))
  {
    hide BlocksFrom, BlockBytes, DataBytes, IndexBytes, IndexOf, Serialize, FooterBytes, Sealed, AddAll, New, MaxSeq;
    hide Checksum, GetU32, EntryFits;
    var blocks := BlocksOf(es);
    var data := DataBytes(blocks);
    var index := IndexBytes(IndexOf(blocks, 0));
    var after := index + Serialize(FilterOf(es)) + FooterBytes(|data|, |data| + |index|, |es|, MaxSeq(es));
    assert FileBytes(es) == data + after;
    IndexPoints(blocks, FileBytes(es), 0, i);
    SealedReads(BlockBytes(blocks[i]));
  }

  // ------------------------------------------------------------ damaged files

  /** A block with at most four adjacent bytes damaged is refused. */
  lemma DamagedBlock(file: Bytes, ie: IndexEntry, p: Bytes, a: Bytes, b: Bytes, s: Bytes)
    requires |a| == |b| <= 4 && a != b && ie.length == |p + b + s| + 4
    requires Slice(file, ie.offset, p + b + s + PutU32(Checksum(p + a + s)))
    ensures ReadBlock(file, ie) == Failed
  {
    hide Checksum, PutU32, GetU32;
    var buf := p + b + s + PutU32(Checksum(p + a + s));
    BurstDetected(p, a, b, s);
    RoundTrip32(Checksum(p + a + s));
    assert buf[|buf| - 4..] == PutU32(Checksum(p + a + s)) && buf[..|buf| - 4] == p + b + s;
  }

  /** So is one with any other checksum behind it. */
  lemma DamagedTrailer(file: Bytes, ie: IndexEntry, block: Bytes, crc: Bytes)
    requires |crc| == 4 && crc != PutU32(Checksum(block)) && ie.length == |block| + 4
    requires Slice(file, ie.offset, block + crc)
    ensures ReadBlock(file, ie) == Failed
  {
    hide Checksum, PutU32, GetU32;
    var buf := block + crc;
    GetThenPut32(crc);
    assert buf[|buf| - 4..] == crc && buf[..|buf| - 4] == block;
  }

  /** Where block i of the file lies, its checksum included. */
  ghost function BlockStart(blocks: seq<seq<Entry>>, i: nat): nat
    requires i <= |blocks|
  {
    |DataBytes(blocks[..i])|
  }

  lemma {:induction false} DataConcat(a: seq<seq<Entry>>, b: seq<seq<Entry>>)
    ensures DataBytes(a + b) == DataBytes(a) + DataBytes(b)
    decreases |a|
  {
    hide Sealed, BlockBytes;
    if a == [] {
      assert a + b == b;
    } else {
      DataConcat(a[1..], b);
      assert (a + b)[1..] == a[1..] + b;
    }
  }

  lemma BlockEnds(blocks: seq<seq<Entry>>, i: nat)
    requires i < |blocks|
    ensures BlockStart(blocks, i + 1) == BlockStart(blocks, i) + |BlockBytes(blocks[i])| + 4
  {
    hide Sealed, BlockBytes, DataBytes;
    assert blocks[..i + 1] == blocks[..i] + [blocks[i]];
    DataConcat(blocks[..i], [blocks[i]]);
    OneBlock(blocks[i]);
  }

  lemma OneBlock(block: seq<Entry>)
    ensures DataBytes([block]) == Sealed(BlockBytes(block))
  {
    hide Sealed, BlockBytes;
    assert [block][1..] == [] && DataBytes([]) == [];
  }

  lemma {:induction false} IndexPlaces(blocks: seq<seq<Entry>>, offset: nat, i: nat)
    requires NoneEmpty(blocks) && i < |blocks|
    ensures var ie := IndexOf(blocks, offset)[i];
            ie.offset == offset + BlockStart(blocks, i) && ie.length == |BlockBytes(blocks[i])| + 4
    decreases i
  {
    hide Sealed, BlockBytes, DataBytes, IndexOf;
    IndexStep(blocks, offset);
    if i == 0 {
      FirstStarts(blocks);
    } else {
      IndexPlaces(blocks[1..], offset + |BlockBytes(blocks[0])| + 4, i - 1);
      assert blocks[..i] == [blocks[0]] + blocks[1..][..i - 1];
      DataConcat([blocks[0]], blocks[1..][..i - 1]);
      OneBlock(blocks[0]);
    }
  }

  lemma FirstStarts(blocks: seq<seq<Entry>>)
    ensures BlockStart(blocks, 0) == 0
  {
    assert blocks[..0] == [];
  }

  lemma BlocksInOrder(blocks: seq<seq<Entry>>, i: nat, j: nat)
    requires i <= j <= |blocks|
    ensures BlockStart(blocks, i) <= BlockStart(blocks, j)
  {
    hide DataBytes;
    assert blocks[..j] == blocks[..i] + blocks[i..j];
    DataConcat(blocks[..i], blocks[i..j]);
  }

  /** The file is that of a table except in block r. */
  ghost predicate ChangedIn(file: Bytes, es: seq<Entry>, r: nat)
    requires r < |BlocksOf(es)|
  {
    var was, lo, hi := FileBytes(es), BlockStart(BlocksOf(es), r), BlockStart(BlocksOf(es), r + 1);
    && |file| == |was| && lo <= hi <= |file|
    && file[..lo] == was[..lo] && file[hi..] == was[hi..]
  }

  /** Opening reads no data block, so the table is the same. */
  lemma ChangedOpens(file: Bytes, es: seq<Entry>, r: nat)
    requires TableFits(es) && r < |BlocksOf(es)| && ChangedIn(file, es, r)
    ensures OpenBytes(file) == Ok(TableOf(es))
  {
    hide BlocksFrom, BlocksOf, DataBytes, IndexBytes, IndexOf, OpenBytes, FilterOf, MaxSeq, EntryFits, IndexEntryFits;
    hide Serialize, FooterBytes, WellFormed;
    var blocks := BlocksOf(es);
    var d := |DataBytes(blocks)|;
    BlocksInOrder(blocks, r + 1, |blocks|);
    assert blocks[..|blocks|] == blocks;
    var data, hi := file[..d], BlockStart(blocks, r + 1);
    var rest := IndexBytes(IndexOf(blocks, 0)) + Serialize(FilterOf(es))
      + FooterBytes(d, d + |IndexBytes(IndexOf(blocks, 0))|, |es|, MaxSeq(es));
    assert FileBytes(es)[d..] == rest;
    assert file[d..] == file[hi..][d - hi..] == rest;
    assert file == Assemble(data, IndexBytes(IndexOf(blocks, 0)), FilterOf(es), |es|, MaxSeq(es));
    SomeData(es);
    IndexOfFits(es);
    MaxSeqFits(es);
    CountFits(es);
    FilterWell(es);
    OpenParts(data, IndexOf(blocks, 0), FilterOf(es), |es|, MaxSeq(es));
  }

  lemma FilterWell(es: seq<Entry>)
    requires FilterOf(es).size < U64
    ensures WellFormed(FilterOf(es))
  {
    hide FilterOf;
  }

  lemma SomeData(es: seq<Entry>)
    requires BlocksOf(es) != []
    ensures es != [] && DataBytes(BlocksOf(es)) != []
  {
    hide DataBytes;
    DataNotEmpty(BlocksOf(es));
  }

  /** Every other block reads as before. */
  lemma ChangedReads(file: Bytes, es: seq<Entry>, r: nat, i: nat)
    requires r < |BlocksOf(es)| && i < |BlocksOf(es)| && i != r && ChangedIn(file, es, r)
    ensures ReadBlock(file, TableOf(es).index[i]) == ReadBlock(FileBytes(es), TableOf(es).index[i])
  {
    hide BlocksFrom, BlocksOf, BlockStart, FileBytes, Checksum, GetU32, FilterOf, MaxSeq, IndexOf, BlockBytes;
    var blocks, was := BlocksOf(es), FileBytes(es);
    var lo, hi := BlockStart(blocks, r), BlockStart(blocks, r + 1);
    IndexPlaces(blocks, 0, i);
    BlockEnds(blocks, i);
    var x, y := BlockStart(blocks, i), BlockStart(blocks, i + 1);
    if i < r {
      BlocksInOrder(blocks, i + 1, r);
      assert file[x..y] == file[..lo][x..y] && was[x..y] == was[..lo][x..y];
    } else {
      BlocksInOrder(blocks, r + 1, i);
      if y <= |file| {
        assert file[x..y] == file[hi..][x - hi..y - hi] && was[x..y] == was[hi..][x - hi..y - hi];
      }
    }
  }

  // ------------------------------------------------------- files open refuses

  /** Anything that does not end in the four bytes "BTSK", the magic number, is refused. */
  lemma NoMagicNoTable(file: Bytes)
    requires |file| < 40 || file[|file| - 4..] != [0x42, 0x54, 0x53, 0x4B]
    ensures OpenBytes(file) == Failed
  {
    hide ParseIndex, Load, DecodeSeq, DecodeLen;
    if |file| >= 40 {
      var footer := file[|file| - 40..];
      assert footer[36..40] == file[|file| - 4..];
      if DecodeLen(footer[36..40]) == MAGIC { MagicBytes(footer[36..40]); }
    }
  }

  lemma MagicBytes(b: Bytes)
    requires |b| == 4 && DecodeLen(b) == MAGIC
    ensures b == [0x42, 0x54, 0x53, 0x4B]
  {
    hide DecodeLen, EncodeLen;
    LenFromBytes(b);
    MagicIs();
  }

  lemma MagicIs()
    ensures EncodeLen(MAGIC) == [0x42, 0x54, 0x53, 0x4B]
  {
    hide ByteValue, Digit;
    ByteBits(0x42);
    ByteBits(0x54);
    ByteBits(0x53);
    ByteBits(0x4B);
    DigitIs(MAGIC, 0x42);
    DigitIs(MAGIC / 0x100, 0x54);
    DigitIs(MAGIC / 0x100 / 0x100, 0x53);
    DigitIs(MAGIC / 0x100 / 0x100 / 0x100, 0x4B);
  }

  /** Of the files that end in a footer, exactly those are refused whose parts are not where it says. */
  lemma RefusedIff(x: Bytes, indexOffset: nat, bloomOffset: nat, count: nat, maxSeq: nat)
    requires indexOffset < U64 && bloomOffset < U64 && count < U64 && maxSeq < U64
    ensures OpenBytes(x + FooterBytes(indexOffset, bloomOffset, count, maxSeq)) == Failed <==>
            if bloomOffset == 0 then indexOffset > |x|
            else indexOffset > bloomOffset || bloomOffset > |x| || Load(x[bloomOffset..]) == None
  {
    hide FooterBytes, ParseIndex, Load, SeqField, LenField;
    var file := x + FooterBytes(indexOffset, bloomOffset, count, maxSeq);
    FooterReads(indexOffset, bloomOffset, count, maxSeq);
    assert file[|file| - FOOTER..] == FooterBytes(indexOffset, bloomOffset, count, maxSeq);
    if bloomOffset <= |x| { assert file[bloomOffset..|x|] == x[bloomOffset..]; }
  }
}
