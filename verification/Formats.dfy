// The on-disk formats field by field, read with a plain base-256 reading of bytes, so that the
// encoders are tied to the format and not only to the decoders.
module Formats {
  import opened Keys
  import opened Entries
  import opened Coding
  import opened Crc
  import opened Records
  import opened Recovery
  import opened Bloom
  import opened TableFormat
  import DiskBytes
  import Manifest
  import Wal

  /** The number bytes stand for, the lowest one first. */
  function Base256(b: Bytes): nat {
    if b == [] then 0 else ByteValue(b[0]) + 256 * Base256(b[1..])
  }

  lemma FourBytesRead(b: Bytes)
    requires |b| == 4
    ensures Base256(b) == DecodeLen(b)
  {
    hide ByteValue;
    assert b[1..] == [b[1], b[2], b[3]] && b[1..][1..] == [b[2], b[3]] && b[1..][1..][1..] == [b[3]];
    assert Base256([b[3]]) == ByteValue(b[3]);
    assert Base256([b[2], b[3]]) == ByteValue(b[2]) + 256 * ByteValue(b[3]);
  }

  lemma EightBytesRead(b: Bytes)
    requires |b| == 8
    ensures Base256(b) == DecodeSeq(b)
  {
    hide ByteValue, DecodeLen, Base256;
    FourBytesRead(b[..4]);
    FourBytesRead(b[4..]);
    SplitRead(b);
  }

  lemma SplitRead(b: Bytes)
    requires |b| == 8
    ensures Base256(b) == Base256(b[..4]) + U32 * Base256(b[4..])
  {
    hide ByteValue, Base256;
    Unread(b, 0);
    Unread(b, 1);
    Unread(b, 2);
    Unread(b, 3);
    assert b[0..] == b && b[..4][0..] == b[..4];
    PartRead(b);
  }

  lemma Unread(b: Bytes, i: nat)
    requires i < |b|
    ensures Base256(b[i..]) == ByteValue(b[i]) + 256 * Base256(b[i + 1..])
  {
    hide ByteValue;
    assert b[i..][1..] == b[i + 1..];
  }

  lemma PartRead(b: Bytes)
    requires |b| == 8
    ensures Base256(b[..4])
         == ByteValue(b[0]) + 256 * ByteValue(b[1]) + 65536 * ByteValue(b[2]) + 16777216 * ByteValue(b[3])
  {
    hide ByteValue, Base256;
    FourBytesRead(b[..4]);
  }

  lemma LenReads(n: nat)
    requires n < U32
    ensures Base256(EncodeLen(n)) == n
  {
    hide EncodeLen, DecodeLen, Base256;
    FourBytesRead(EncodeLen(n));
    LenRoundTrip(n);
  }

  lemma SeqReads(n: nat)
    requires n < U64
    ensures Base256(EncodeSeq(n)) == n
  {
    hide EncodeSeq, DecodeSeq, Base256;
    EightBytesRead(EncodeSeq(n));
    SeqRoundTrip(n);
  }

  /** A checksum is stored with its lowest byte first. */
  lemma ChecksumBytes(a: bv8, b: bv8, c: bv8, d: bv8)
    ensures PutU32((d as bv32 << 24) | (c as bv32 << 16) | (b as bv32 << 8) | a as bv32) == [a, b, c, d]
  {
  }

  // ------------------------------------------------------------------- records

  /** tag, sequence number, the two lengths, key, value. */
  ghost predicate RecordLayout(b: Bytes, tag: bv8, seqno: nat, key: Bytes, value: Bytes) {
    && |b| == 17 + |key| + |value| && b[0] == tag && Base256(b[1..9]) == seqno
    && Base256(b[9..13]) == |key| && Base256(b[13..17]) == |value|
    && b[17..17 + |key|] == key && b[17 + |key|..] == value
  }

  lemma BodyLayout(r: Record)
    requires r.seqno < U64 && |r.key| < U32 && |r.value| < U32
    ensures RecordLayout(Body(r), r.tag, r.seqno, r.key, r.value)
  {
    hide EncodeSeq, EncodeLen, Base256, Body;
    BodyParts(r, []);
    assert Body(r) + [] == Body(r);
    SeqReads(r.seqno);
    LenReads(|r.key|);
    LenReads(|r.value|);
  }

  /** A log record: the checksum of the rest, then the record with tag 1 for a put and 2 for a delete. */
  lemma LogLayout(e: Entry)
    requires e.seqno < U64 && |e.key| < U32 && |e.value| < U32
    ensures var b := Wal.Frame(Wal.ToRecord(e));
            && |b| >= 4 && b[..4] == PutU32(Checksum(b[4..]))
            && RecordLayout(b[4..], if e.tombstone then 2 else 1, e.seqno, e.key, e.value)
  {
    hide PutU32, Checksum, Body, RecordLayout;
    BodyLayout(Wal.ToRecord(e));
    assert Wal.Frame(Wal.ToRecord(e))[4..] == Body(Wal.ToRecord(e));
  }

  /** The fifth byte of a logged entry is 1 for a put and 2 for a delete. */
  lemma LoggedTag(e: Entry)
    ensures var b := DiskBytes.LogOf([e]); |b| > 4 && b[4] == if e.tombstone then 2 else 1
  {
    hide PutU32, Checksum, EncodeSeq, EncodeLen;
    assert Wal.ToRecords([e]) == [Wal.ToRecord(e)];
    Wal.LogOne(Wal.ToRecord(e));
  }

  /** What open makes of a record: tag 1 is a put, every other tag a delete. */
  lemma TagsRead(tag: bv8, seqno: nat, key: Bytes, value: Bytes)
    ensures Wal.ToEntry(Record(1, seqno, key, value)) == Entry(key, value, false, seqno)
    ensures tag != 1 ==> Wal.ToEntry(Record(tag, seqno, key, value)) == Entry(key, [], true, seqno)
  {
  }

  /** An entry of a table: tag 0 for a value and 1 for a tombstone, both ways. */
  lemma EntryLayout(e: Entry)
    requires EntryFits(e)
    ensures RecordLayout(EntryBody(e), if e.tombstone then 1 else 0, e.seqno, e.key, e.value)
    ensures EntryOfRecord(Record(if e.tombstone then 1 else 0, e.seqno, e.key, e.value)) == e
  {
    hide Body, RecordLayout;
    BodyLayout(EntryRecord(e));
  }

  // --------------------------------------------------------------- table files

  /** Key length, first key, offset and length of the block, the checksum included. */
  lemma IndexLayout(ie: IndexEntry)
    requires IndexEntryFits(ie)
    ensures var b, k := IndexEntryBytes(ie), |ie.firstKey|;
            && |b| == 20 + k && Base256(b[..4]) == k && b[4..4 + k] == ie.firstKey
            && Base256(b[4 + k..12 + k]) == ie.offset && Base256(b[12 + k..]) == ie.length
  {
    hide EncodeSeq, EncodeLen, Base256;
    var b, k := IndexEntryBytes(ie), |ie.firstKey|;
    LenReads(k);
    SeqReads(ie.offset);
    SeqReads(ie.length);
    assert b[..4] == EncodeLen(k) && b[4 + k..12 + k] == EncodeSeq(ie.offset) && b[12 + k..] == EncodeSeq(ie.length);
  }

  /** Forty bytes: two offsets, the count, the largest sequence number, version 3, and "BTSK". */
  lemma FooterLayout(indexOffset: nat, bloomOffset: nat, count: nat, maxSeq: nat)
    requires indexOffset < U64 && bloomOffset < U64 && count < U64 && maxSeq < U64
    ensures var b := FooterBytes(indexOffset, bloomOffset, count, maxSeq);
            && |b| == 40 && Base256(b[..8]) == indexOffset && Base256(b[8..16]) == bloomOffset
            && Base256(b[16..24]) == count && Base256(b[24..32]) == maxSeq
            && Base256(b[32..36]) == 3 && b[36..] == [0x42, 0x54, 0x53, 0x4B]
  {
    hide EncodeSeq, EncodeLen, Base256;
    var b := FooterBytes(indexOffset, bloomOffset, count, maxSeq);
    SeqReads(indexOffset);
    SeqReads(bloomOffset);
    SeqReads(count);
    SeqReads(maxSeq);
    LenReads(VERSION);
    MagicIs();
    assert b[..8] == EncodeSeq(indexOffset) && b[8..16] == EncodeSeq(bloomOffset);
    assert b[16..24] == EncodeSeq(count) && b[24..32] == EncodeSeq(maxSeq);
    assert b[32..36] == EncodeLen(VERSION) && b[36..] == EncodeLen(MAGIC);
  }

  /** A filter: the number of probes, the number of bits, the bits. */
  lemma FilterLayout(f: Filter)
    requires WellFormed(f)
    ensures var b := Serialize(f);
            |b| == 12 + |f.bits| && Base256(b[..4]) == f.k && Base256(b[4..12]) == f.size && b[12..] == f.bits
  {
    hide EncodeSeq, EncodeLen, Base256;
    var b := Serialize(f);
    LenReads(f.k);
    SeqReads(f.size);
    assert b[..4] == EncodeLen(f.k) && b[4..12] == EncodeSeq(f.size) && b[12..] == f.bits;
  }

  // ------------------------------------------------------------- the MANIFEST

  /** Number, level, and the two keys, each with its length in front. */
  lemma FileLayout(e: ManifestEntry)
    requires Manifest.Fits(e)
    ensures var b, sk, lk := Manifest.EncodeEntry(e), |e.smallest|, |e.largest|;
            && |b| == 16 + sk + lk && Base256(b[..4]) == e.number && Base256(b[4..8]) == e.level
            && Base256(b[8..12]) == sk && b[12..12 + sk] == e.smallest
            && Base256(b[12 + sk..16 + sk]) == lk && b[16 + sk..] == e.largest
  {
    hide EncodeLen, Base256;
    var b, sk, lk := Manifest.EncodeEntry(e), |e.smallest|, |e.largest|;
    LenReads(e.number);
    LenReads(e.level);
    LenReads(sk);
    LenReads(lk);
    assert b[..4] == EncodeLen(e.number) && b[4..8] == EncodeLen(e.level) && b[8..12] == EncodeLen(sk);
    assert b[12 + sk..16 + sk] == EncodeLen(lk);
  }

  /** A snapshot: the checksum of the rest, the number of files, the files one after the other. */
  lemma SnapshotLayout(es: seq<ManifestEntry>)
    requires Manifest.Encodable(es)
    ensures var b := Manifest.Snapshot(es);
            && |b| >= 8 && b[..4] == PutU32(Checksum(b[4..])) && Base256(b[4..8]) == |es|
            && b[8..] == Manifest.EncodeEntries(es)
  {
    hide EncodeLen, Base256, PutU32, Checksum, Manifest.EncodeEntries;
    var b := Manifest.Snapshot(es);
    LenReads(|es|);
    assert b[4..] == Manifest.SnapshotBody(es) && b[4..8] == EncodeLen(|es|);
  }
}
