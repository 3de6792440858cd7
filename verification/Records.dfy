// The byte layout shared by log records and table entries: a tag, the sequence number,
// the two lengths, the key and the value.
module Records {
  import opened Keys
  import opened Coding

  datatype Record = Record(tag: bv8, seqno: nat, key: Bytes, value: Bytes)

  const HEADER: nat := 17

  /** The sequence number fills 64 bits; the lengths are cast to 32, whatever the sizes are. */
  function Body(r: Record): (b: Bytes)
    ensures |b| == HEADER + |r.key| + |r.value|
  {
    [r.tag] + EncodeSeq(r.seqno % U64) + EncodeLen(|r.key| % U32) + EncodeLen(|r.value| % U32) + r.key + r.value
  }

  function SeqAt(b: Bytes): nat
    requires |b| >= HEADER
  {
    DecodeSeq(b[1..9])
  }

  function KeyLenAt(b: Bytes): nat
    requires |b| >= HEADER
  {
    DecodeLen(b[9..13])
  }

  function ValueLenAt(b: Bytes): nat
    requires |b| >= HEADER
  {
    DecodeLen(b[13..17])
  }

  function SizeAt(b: Bytes): (n: nat)
    requires |b| >= HEADER
    ensures n >= HEADER
  {
    HEADER + KeyLenAt(b) + ValueLenAt(b)
  }

  function RecordAt(b: Bytes): Record
    requires |b| >= HEADER && |b| >= SizeAt(b)
  {
    Record(b[0], SeqAt(b), b[HEADER..HEADER + KeyLenAt(b)], b[HEADER + KeyLenAt(b)..SizeAt(b)])
  }

  lemma BodyParts(r: Record, rest: Bytes)
    ensures var b := Body(r) + rest;
            && b[0] == r.tag
            && b[1..9] == EncodeSeq(r.seqno % U64)
            && b[9..13] == EncodeLen(|r.key| % U32)
            && b[13..17] == EncodeLen(|r.value| % U32)
            && b[HEADER..HEADER + |r.key|] == r.key
            && b[HEADER + |r.key|..HEADER + |r.key| + |r.value|] == r.value
  {
    hide EncodeSeq, EncodeLen;
  }

  /** Reading at a record gives its fields, as long as its lengths fit 32 bits. */
  lemma BodyReads(r: Record, rest: Bytes)
    requires r.seqno < U64 && |r.key| < U32 && |r.value| < U32
    ensures var b := Body(r) + rest;
            && KeyLenAt(b) == |r.key| && ValueLenAt(b) == |r.value|
            && SizeAt(b) == |Body(r)| && RecordAt(b) == r
  {
    hide EncodeSeq, DecodeSeq, EncodeLen, DecodeLen, Body;
    BodyParts(r, rest);
    SeqRoundTrip(r.seqno);
    LenRoundTrip(|r.key|);
    LenRoundTrip(|r.value|);
  }

  /** What is read at a position is written there: nothing is lost by decoding. */
  lemma BodyOfBytes(b: Bytes)
    requires |b| >= HEADER && |b| >= SizeAt(b)
    ensures RecordAt(b).seqno < U64 && |RecordAt(b).key| < U32 && |RecordAt(b).value| < U32
    ensures Body(RecordAt(b)) == b[..SizeAt(b)]
  {
    hide EncodeSeq, DecodeSeq, EncodeLen, DecodeLen;
    SeqFromBytes(b[1..9]);
    LenFromBytes(b[9..13]);
    LenFromBytes(b[13..17]);
    var r := RecordAt(b);
    Reassemble(b, |r.key|, |r.value|);
  }

  lemma Reassemble(b: Bytes, k: nat, v: nat)
    requires |b| >= HEADER + k + v
    ensures [b[0]] + b[1..9] + b[9..13] + b[13..17] + b[HEADER..HEADER + k] + b[HEADER + k..HEADER + k + v]
         == b[..HEADER + k + v]
  {
  }
}
