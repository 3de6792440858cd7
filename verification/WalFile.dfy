// The log file: buffers filled in place, one write and one sync per batch, the replay
// loop, and the truncation that open performs.
module WalFile {
  import opened Keys
  import opened Coding
  import opened Buffers
  import opened Crc
  import opened Records
  import opened Wal

  /** One record: the body first, then the checksum of the bytes just written in front of it. */
  method WriteFrame(buf: array<bv8>, off: nat, r: Record, table: array<bv32>)
    requires off + 4 + |Body(r)| <= buf.Length
    requires table.Length == 256 && forall i: bv8 :: table[ByteValue(i)] == TableEntry(i)
    modifies buf
    ensures buf[..off] == old(buf[..off])
    ensures buf[off..off + |Frame(r)|] == Frame(r)
  {
    hide Body, Checksum, PutU32, TableEntry, ByteValue;
    WriteBody(buf, off + 4, r);
    ghost var end := off + 4 + |Body(r)|;
    assert buf[off + 4..end] == Body(r);
    label filled:
    var crc := Crc32(table, buf[off + 4..off + 4 + HEADER + |r.key| + |r.value|]);
    CopyInto(buf, off, PutU32(crc));
    assert buf[..off] == old@filled(buf[..off]) == old(buf[..off + 4])[..off];
    assert buf[off + 4..end] == buf[off + 4..][..|Body(r)|];
    assert old@filled(buf[off + 4..end]) == old@filled(buf[off + 4..])[..|Body(r)|];
    assert buf[off..end] == buf[off..off + 4] + buf[off + 4..end];
  }

  method WriteBody(buf: array<bv8>, off: nat, r: Record)
    requires off + |Body(r)| <= buf.Length
    modifies buf
    ensures buf[..off] == old(buf[..off])
    ensures buf[off..off + |Body(r)|] == Body(r)
  {
    hide EncodeSeq, EncodeLen;
    WriteHeader(buf, off, r);
    CopyPrefix(buf, off, HEADER, r.key);
    CopyPrefix(buf, off, HEADER + |r.key|, r.value);
  }

  method WriteHeader(buf: array<bv8>, off: nat, r: Record)
    requires off + HEADER <= buf.Length
    modifies buf
    ensures buf[..off] == old(buf[..off])
    ensures buf[off..off + HEADER]
         == [r.tag] + EncodeSeq(r.seqno % U64) + EncodeLen(|r.key| % U32) + EncodeLen(|r.value| % U32)
  {
    hide EncodeSeq, EncodeLen;
    CopyPrefix(buf, off, 0, [r.tag]);
    CopyPrefix(buf, off, 1, EncodeSeq(r.seqno % U64));
    CopyPrefix(buf, off, 9, EncodeLen(|r.key| % U32));
    CopyPrefix(buf, off, 13, EncodeLen(|r.value| % U32));
  }

  lemma LogSnoc(rs: seq<Record>, i: nat)
    requires i < |rs|
    ensures Log(rs[..i + 1]) == Log(rs[..i]) + Frame(rs[i])
    ensures |Log(rs[..i + 1])| == |Log(rs[..i])| + 4 + HEADER + |rs[i].key| + |rs[i].value|
    ensures |Log(rs[..i + 1])| <= |Log(rs)|
  {
    hide Frame, Log, Body;
    assert rs[..i + 1] == rs[..i] + [rs[i]];
    LogConcat(rs[..i], [rs[i]]);
    LogOne(rs[i]);
    assert rs == rs[..i + 1] + rs[i + 1..];
    LogConcat(rs[..i + 1], rs[i + 1..]);
  }

  /** The bytes one batch is written as: the size is summed first, then every record filled in. */
  method EncodeBatch(records: seq<Record>, table: array<bv32>) returns (out: Bytes)
    requires table.Length == 256 && forall i: bv8 :: table[ByteValue(i)] == TableEntry(i)
    ensures out == Log(records)
  {
    hide Log, Frame, Body, TableEntry, ByteValue;
    var total := 0;
    LogNothing();
    for i := 0 to |records|
      invariant total == |Log(records[..i])|
    {
      LogSnoc(records, i);
      total := total + 4 + 1 + 8 + 4 + 4 + |records[i].key| + |records[i].value|;
    }
    assert records[..|records|] == records;
    var buf := new bv8[total];
    var off := 0;
    for i := 0 to |records|
      invariant off == |Log(records[..i])| <= total == buf.Length
      invariant buf[..off] == Log(records[..i])
    {
      LogSnoc(records, i);
      ghost var was := buf[..off];
      WriteFrame(buf, off, records[i], table);
      var next := off + 4 + HEADER + |records[i].key| + |records[i].value|;
      assert buf[..next] == buf[..off] + buf[off..next];
      off := next;
    }
    out := buf[..];
    assert out == buf[..off];
  }

  lemma LogNothing()
    ensures Log([]) == []
  {
  }

  /** One turn of replay: short reads, the length limit and a bad checksum all end it. */
  method ReadRecord(file: Bytes, pos: nat, table: array<bv32>) returns (ok: bool, record: Record, next: nat)
    requires pos <= |file|
    requires table.Length == 256 && forall i: bv8 :: table[ByteValue(i)] == TableEntry(i)
    ensures ok <==> Complete(file[pos..])
    ensures ok ==> record == RecordAt(file[pos..][4..]) && next == pos + 4 + SizeAt(file[pos..][4..])
  {
    hide Checksum, GetU32, KeyLenAt, ValueLenAt, SeqAt, TableEntry, ByteValue, Complete, RecordAt, SizeAt;
    ok, record, next := false, Record(0, 0, [], []), pos;
    TooShort(file[pos..]);
    if |file| - pos < 4 { return; }
    var stored := GetU32(file[pos..pos + 4]);
    next := pos + 4;
    if |file| - next < HEADER { return; }
    var header := file[next..next + HEADER];
    next := next + HEADER;
    var keyLen := KeyLenAt(header);
    var valueLen := ValueLenAt(header);
    FieldsAt(file, pos);
    if keyLen > MAX_FIELD || valueLen > MAX_FIELD { return; }
    if |file| - next < keyLen { return; }
    var key := file[next..next + keyLen];
    next := next + keyLen;
    if |file| - next < valueLen { return; }
    var value := file[next..next + valueLen];
    next := next + valueLen;
    BodyAt(file, pos);
    var crc := Crc32(table, header + key + value);
    if crc != stored { return; }
    ok, record := true, Record(header[0], SeqAt(header), key, value);
  }

  lemma TooShort(b: Bytes)
    ensures |b| < 4 + HEADER ==> !Complete(b)
  {
    hide Checksum, GetU32, KeyLenAt, ValueLenAt;
  }

  /** The lengths read from the header decide whether the record can be complete. */
  lemma FieldsAt(file: Bytes, pos: nat)
    requires pos + 4 + HEADER <= |file|
    ensures var header := file[pos + 4..pos + 4 + HEADER];
            var k, v := KeyLenAt(header), ValueLenAt(header);
            k > MAX_FIELD || v > MAX_FIELD || pos + 4 + HEADER + k + v > |file| ==> !Complete(file[pos..])
  {
    hide Checksum, GetU32, KeyLenAt, ValueLenAt, SeqAt;
    HeaderReads(file[pos..][4..]);
    assert file[pos..][4..][..HEADER] == file[pos + 4..pos + 4 + HEADER];
  }

  lemma BodyAt(file: Bytes, pos: nat)
    requires pos + 4 + HEADER <= |file|
    requires var header := file[pos + 4..pos + 4 + HEADER];
             var k, v := KeyLenAt(header), ValueLenAt(header);
             k <= MAX_FIELD && v <= MAX_FIELD && pos + 4 + HEADER + k + v <= |file|
    ensures var header, at := file[pos + 4..pos + 4 + HEADER], pos + 4 + HEADER;
            var k, v := KeyLenAt(header), ValueLenAt(header);
            var key, value := file[at..at + k], file[at + k..at + k + v];
            && SizeAt(file[pos..][4..]) == HEADER + k + v
            && RecordAt(file[pos..][4..]) == Record(header[0], SeqAt(header), key, value)
            && (Complete(file[pos..]) <==> Checksum(header + key + value) == GetU32(file[pos..pos + 4]))
  {
    hide Checksum, GetU32, KeyLenAt, ValueLenAt, SeqAt;
    var b, at := file[pos..], pos + 4 + HEADER;
    var header := file[pos + 4..at];
    var k, v := KeyLenAt(header), ValueLenAt(header);
    HeaderReads(b[4..]);
    assert b[4..][..HEADER] == header;
    assert b[..4] == file[pos..pos + 4];
    assert b[4..4 + HEADER + k + v] == header + file[at..at + k] + file[at + k..at + k + v];
  }

  method ReplayFile(file: Bytes, table: array<bv32>) returns (records: seq<Record>)
    requires table.Length == 256 && forall i: bv8 :: table[ByteValue(i)] == TableEntry(i)
    ensures records == Replay(file)
  {
    hide Complete, RecordAt, SizeAt, Replay, TableEntry, ByteValue;
    records := [];
    var pos := 0;
    assert file[0..] == file;
    while true
      invariant pos <= |file|
      invariant Replay(file) == records + Replay(file[pos..])
      decreases |file| - pos
    {
      var ok, record, next := ReadRecord(file, pos, table);
      ReplayFrom(file, pos);
      if !ok { break; }
      records := records + [record];
      pos := next;
    }
  }

  lemma ReplayFrom(file: Bytes, pos: nat)
    requires pos <= |file|
    ensures !Complete(file[pos..]) ==> Replay(file[pos..]) == []
    ensures Complete(file[pos..]) ==>
              var next := pos + 4 + SizeAt(file[pos..][4..]);
              && pos < next <= |file|
              && Replay(file[pos..]) == [RecordAt(file[pos..][4..])] + Replay(file[next..])
  {
    hide Checksum, GetU32, KeyLenAt, ValueLenAt, RecordAt;
    if Complete(file[pos..]) {
      var next := pos + 4 + SizeAt(file[pos..][4..]);
      assert file[pos..][next - pos..] == file[next..];
    }
  }

  /** Where the good records end: 21 bytes and the two fields for each of them. */
  method ValidEnd(records: seq<Record>) returns (end: nat)
    ensures end == |Log(records)|
  {
    hide Log, Frame, Body;
    end := 0;
    LogNothing();
    for i := 0 to |records|
      invariant end == |Log(records[..i])|
    {
      LogSnoc(records, i);
      end := end + 21 + |records[i].key| + |records[i].value|;
    }
    assert records[..|records|] == records;
  }

  /** After recovery the log takes new batches as if it had never been damaged. */
  lemma AppendAfterRecovery(file: Bytes, batch: seq<Record>)
    requires AllInLimit(batch)
    ensures Replay(Log(Replay(file)) + Log(batch)) == Replay(file) + batch
  {
    hide Log, Replay, InLimit;
    ReplayInLimit(file);
    LogConcat(Replay(file), batch);
    RoundTripIff(Replay(file) + batch);
  }

  lemma HeaderReads(b: Bytes)
    requires |b| >= HEADER
    ensures var h := b[..HEADER]; KeyLenAt(h) == KeyLenAt(b) && ValueLenAt(h) == ValueLenAt(b) && SeqAt(h) == SeqAt(b)
  {
    var h := b[..HEADER];
    assert h[1..9] == b[1..9] && h[9..13] == b[9..13] && h[13..17] == b[13..17];
  }

  class LogFile {
    var bytes: Bytes
    /** How many bytes are known to have reached the disk. */
    var durable: nat
    var fsyncs: nat
    const everyWrite: bool
    const table: array<bv32>

    ghost predicate Valid()
      reads this, table
    {
      && durable <= |bytes|
      && table.Length == 256
      && forall i: bv8 :: table[ByteValue(i)] == TableEntry(i)
    }

    constructor (contents: Bytes, everyWrite: bool)
      ensures Valid() && fresh(table) && bytes == contents && durable == |contents| && this.everyWrite == everyWrite
      ensures fsyncs == 0
    {
      var t := BuildTable();
      bytes, durable, fsyncs, table := contents, |contents|, 0, t;
      this.everyWrite := everyWrite;
    }

    method Sync()
      requires Valid()
      modifies this`durable
      ensures Valid() && durable == |bytes|
    {
      durable := |bytes|;
    }

    /** One write and at most one sync for the whole batch, and none for an empty one. */
    method AppendBatch(records: seq<Record>)
      requires Valid()
      modifies this
      ensures Valid() && bytes == old(bytes) + Log(records)
      ensures durable == if everyWrite && records != [] then |bytes| else old(durable)
      ensures fsyncs == old(fsyncs) + if everyWrite && records != [] then 1 else 0
    {
      hide TableEntry, ByteValue, Log;
      if records == [] {
        LogNothing();
        return;
      }
      var out := EncodeBatch(records, table);
      bytes := bytes + out;
      if everyWrite {
        Sync();
        fsyncs := fsyncs + 1;
      }
    }

    /** A batch of one, as append writes it. */
    method Append(r: Record)
      requires Valid()
      modifies this
      ensures Valid() && bytes == old(bytes) + Frame(r)
      ensures durable == if everyWrite then |bytes| else old(durable)
      ensures fsyncs == old(fsyncs) + if everyWrite then 1 else 0
    {
      hide TableEntry, ByteValue, Log, Frame, Body;
      LogOne(r);
      AppendBatch([r]);
    }

    /**
     * What open does to the log: replay it and cut it behind the last good record. Nothing
     * replayed is lost, and the file is again exactly a log.
     */
    method Recover() returns (records: seq<Record>)
      requires Valid()
      modifies this
      ensures Valid() && records == Replay(old(bytes))
      ensures bytes == Log(records) && bytes <= old(bytes) && AllInLimit(records)
      ensures fsyncs == old(fsyncs)
    {
      hide TableEntry, ByteValue, Log, Replay, InLimit;
      records := ReplayFile(bytes, table);
      var end := ValidEnd(records);
      ReplayInLimit(bytes);
      bytes := bytes[..end];
      durable := if durable <= end then durable else end;
    }
  }
}
