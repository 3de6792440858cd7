// The write-ahead log: appending, replay, and what replay makes of a torn or damaged file.
module Wal {
  import opened Keys
  import opened Entries
  import opened Coding
  import opened Crc
  import opened Records

  /** The largest key or value length replay believes: 64 MiB. */
  const MAX_FIELD: nat := 64 * 1024 * 1024

  const PUT: bv8 := 1
  const DELETE: bv8 := 2

  predicate InLimit(r: Record) {
    r.seqno < U64 && |r.key| <= MAX_FIELD && |r.value| <= MAX_FIELD
  }

  ghost predicate AllInLimit(rs: seq<Record>) {
    forall i :: 0 <= i < |rs| ==> InLimit(rs[i])
  }

  function Frame(r: Record): (b: Bytes)
    ensures |b| == 4 + |Body(r)|
  {
    PutU32(Checksum(Body(r))) + Body(r)
  }

  ghost function Log(rs: seq<Record>): Bytes
  {
    if rs == [] then [] else Frame(rs[0]) + Log(rs[1..])
  }

  /** One turn of the replay loop succeeds at the start of b. */
  predicate Complete(b: Bytes) {
    && |b| >= 4 + HEADER
    && KeyLenAt(b[4..]) <= MAX_FIELD
    && ValueLenAt(b[4..]) <= MAX_FIELD
    && |b| >= 4 + SizeAt(b[4..])
    && Checksum(b[4..4 + SizeAt(b[4..])]) == GetU32(b[..4])
  }

  function Replay(b: Bytes): seq<Record>
    decreases |b|
  {
    if !Complete(b) then [] else [RecordAt(b[4..])] + Replay(b[4 + SizeAt(b[4..])..])
  }

  // ------------------------------------------------------------ round trip

  lemma FrameReads(r: Record, rest: Bytes)
    requires InLimit(r)
    ensures var b := Frame(r) + rest;
            && Complete(b) && RecordAt(b[4..]) == r && b[4 + SizeAt(b[4..])..] == rest
  {
    hide Body, Checksum, PutU32, GetU32, KeyLenAt, ValueLenAt, SizeAt, RecordAt;
    var b := Frame(r) + rest;
    assert b[4..] == Body(r) + rest;
    BodyReads(r, rest);
    RoundTrip32(Checksum(Body(r)));
    assert b[..4] == PutU32(Checksum(Body(r)));
    assert b[4..4 + |Body(r)|] == Body(r);
  }

  lemma ReplayStep(r: Record, rest: Bytes)
    requires InLimit(r)
    ensures Replay(Frame(r) + rest) == [r] + Replay(rest)
  {
    hide Frame, Body, Complete, RecordAt, SizeAt;
    FrameReads(r, rest);
  }

  /** Replay reads back every record that was appended, then goes on with what follows. */
  lemma {:induction false} ReplayLog(rs: seq<Record>, tail: Bytes)
    requires AllInLimit(rs)
    ensures Replay(Log(rs) + tail) == rs + Replay(tail)
    decreases |rs|
  {
    hide Frame, Body, Replay, InLimit;
    if rs == [] {
      assert Log(rs) + tail == tail;
    } else {
      var rest := Log(rs[1..]) + tail;
      assert Log(rs) + tail == Frame(rs[0]) + rest;
      ReplayStep(rs[0], rest);
      ReplayLog(rs[1..], tail);
    }
  }

  lemma {:induction false} ReplayInLimit(b: Bytes)
    ensures AllInLimit(Replay(b))
    ensures Log(Replay(b)) <= b
    decreases |b|
  {
    hide KeyLenAt, ValueLenAt, SizeAt, RecordAt, Frame, Body, Checksum, GetU32;
    if Complete(b) {
      CompleteIsFrame(b);
      ReplayInLimit(b[4 + SizeAt(b[4..])..]);
    }
  }

  lemma CompleteIsFrame(b: Bytes)
    requires Complete(b)
    ensures var r := RecordAt(b[4..]);
            && InLimit(r) && Frame(r) == b[..4 + SizeAt(b[4..])]
  {
    hide Body, Checksum, PutU32, GetU32, KeyLenAt, ValueLenAt;
    BodyOfBytes(b[4..]);
    GetThenPut32(b[..4]);
    assert b[4..][..SizeAt(b[4..])] == b[4..4 + SizeAt(b[4..])];
  }

  lemma ReplayNothing()
    ensures Replay([]) == []
  {
  }

  /** Appended records come back exactly when no key or value is over the replay limit. */
  lemma RoundTripIff(rs: seq<Record>)
    ensures Replay(Log(rs)) == rs <==> AllInLimit(rs)
    ensures AllInLimit(rs) <==>
              forall i :: 0 <= i < |rs| ==> rs[i].seqno < U64 && |rs[i].key| <= 67108864 && |rs[i].value| <= 67108864
  {
    hide Replay, Log;
    if AllInLimit(rs) {
      ReplayLog(rs, []);
      ReplayNothing();
      assert Log(rs) + [] == Log(rs);
    }
    ReplayInLimit(Log(rs));
  }

  lemma {:induction false} LogConcat(a: seq<Record>, b: seq<Record>)
    ensures Log(a + b) == Log(a) + Log(b)
    decreases |a|
  {
    hide Frame, Body;
    if a == [] {
      assert a + b == b;
    } else {
      LogConcat(a[1..], b);
      assert (a + b)[1..] == a[1..] + b;
    }
  }

  lemma LongFrame(r: Record, tail: Bytes)
    requires r.seqno < U64 && |r.key| < U32 && |r.value| < U32 && !InLimit(r)
    ensures !Complete(Frame(r) + tail)
  {
    hide Body, Checksum, PutU32, GetU32, KeyLenAt, ValueLenAt, SizeAt, RecordAt;
    var b := Frame(r) + tail;
    assert b[4..] == Body(r) + tail;
    BodyReads(r, tail);
  }

  /** A record over the limit ends replay, and takes every record behind it along. */
  lemma LongRecordStops(before: seq<Record>, r: Record, after: seq<Record>)
    requires AllInLimit(before) && r.seqno < U64 && |r.key| < U32 && |r.value| < U32 && !InLimit(r)
    ensures Replay(Log(before + [r] + after)) == before
  {
    hide Frame, Complete, InLimit, RecordAt, SizeAt, Log;
    LogConcat(before + [r], after);
    LogConcat(before, [r]);
    LogOne(r);
    LongFrame(r, Log(after));
    ReplayLog(before, Frame(r) + Log(after));
    assert Log(before + [r] + after) == Log(before) + (Frame(r) + Log(after));
    assert Replay(Frame(r) + Log(after)) == [];
  }

  // ------------------------------------------------------------- torn tails

  /** A frame cut anywhere is not complete. */
  lemma CutFrame(r: Record, n: nat)
    requires InLimit(r) && n < |Frame(r)|
    ensures !Complete(Frame(r)[..n])
  {
    hide Body, Checksum, PutU32, GetU32, RecordAt, DecodeLen;
    if n >= 4 + HEADER {
      var cut := Frame(r)[..n][4..];
      assert cut == Body(r)[..n - 4];
      assert Body(r) + [] == Body(r);
      BodyReads(r, []);
      assert cut[9..13] == Body(r)[9..13] && cut[13..17] == Body(r)[13..17];
    }
  }

  /**
   * However many bytes of the log survive, replay returns exactly the records that
   * survive whole: the longest prefix of the appended records that fits.
   */
  lemma {:induction false} ReplayCut(rs: seq<Record>, n: nat)
    requires AllInLimit(rs) && n <= |Log(rs)|
    ensures Survivors(rs, n, Replay(Log(rs)[..n]))
    decreases |rs|
  {
    hide Frame, Body, Replay, InLimit, Survivors;
    if rs == [] {
      ReplayNothing();
      NoSurvivors(rs, n);
    } else if n < |Frame(rs[0])| {
      assert Log(rs)[..n] == Frame(rs[0])[..n];
      ReplayTorn(rs[0], n);
      NoSurvivors(rs, n);
    } else {
      var m := n - |Frame(rs[0])|;
      assert Log(rs)[..n] == Frame(rs[0]) + Log(rs[1..])[..m];
      ReplayStep(rs[0], Log(rs[1..])[..m]);
      ReplayCut(rs[1..], m);
      MoreSurvivors(rs, n, Replay(Log(rs[1..])[..m]));
    }
  }

  /** The records of rs that lie whole within the first n bytes of its log. */
  ghost predicate Survivors(rs: seq<Record>, n: nat, got: seq<Record>) {
    var j := |got|;
    j <= |rs| && got == rs[..j] && |Log(rs[..j])| <= n && (j < |rs| ==> n < |Log(rs[..j + 1])|)
  }

  lemma ReplayTorn(r: Record, n: nat)
    requires InLimit(r) && n < |Frame(r)|
    ensures Replay(Frame(r)[..n]) == []
  {
    hide Frame, Body, Complete, InLimit;
    CutFrame(r, n);
  }

  lemma NoSurvivors(rs: seq<Record>, n: nat)
    requires rs == [] || n < |Frame(rs[0])|
    ensures Survivors(rs, n, [])
  {
    hide Frame, Body;
    if rs != [] {
      assert rs[..1] == [rs[0]];
      LogOne(rs[0]);
    }
  }

  lemma MoreSurvivors(rs: seq<Record>, n: nat, got: seq<Record>)
    requires rs != [] && |Frame(rs[0])| <= n && Survivors(rs[1..], n - |Frame(rs[0])|, got)
    ensures Survivors(rs, n, [rs[0]] + got)
  {
    hide Frame, Body, Log;
    var j := |got|;
    assert rs[..j + 1] == [rs[0]] + rs[1..][..j];
    LogOne(rs[0]);
    LogConcat([rs[0]], rs[1..][..j]);
    if j < |rs| - 1 {
      assert rs[..j + 2] == [rs[0]] + rs[1..][..j + 1];
      LogConcat([rs[0]], rs[1..][..j + 1]);
    }
  }

  lemma LogOne(r: Record)
    ensures Log([r]) == Frame(r)
  {
    hide Frame, Body;
    assert Log([]) == [];
  }

  // ------------------------------------------------------------ damaged bytes

  lemma DamagedBody(r: Record, p: Bytes, a: Bytes, b: Bytes, s: Bytes, tail: Bytes)
    requires InLimit(r)
    requires Body(r) == p + a + s && |a| == |b| <= 4 && a != b
    requires |p| + |a| <= 9 || |p| >= HEADER
    ensures !Complete(PutU32(Checksum(Body(r))) + (p + b + s) + tail)
  {
    hide Body, Checksum, PutU32, GetU32, RecordAt, DecodeLen;
    var file := PutU32(Checksum(Body(r))) + (p + b + s) + tail;
    var body := file[4..];
    assert body == p + b + s + tail;
    assert file[..4] == PutU32(Checksum(Body(r)));
    RoundTrip32(Checksum(Body(r)));
    BodyReads(r, []);
    assert Body(r) + [] == Body(r);
    assert body[9..13] == Body(r)[9..13] && body[13..17] == Body(r)[13..17];
    assert SizeAt(body) == |p + b + s|;
    assert file[4..4 + SizeAt(body)] == p + b + s;
    BurstDetected(p, a, b, s);
  }

  /**
   * Damage to at most four adjacent bytes of a record, outside its two length fields,
   * ends replay just before that record, whatever follows it in the file.
   */
  lemma DamageStopsReplay(before: seq<Record>, r: Record, p: Bytes, a: Bytes, b: Bytes, s: Bytes, tail: Bytes)
    requires AllInLimit(before) && InLimit(r)
    requires Body(r) == p + a + s && |a| == |b| <= 4 && a != b
    requires |p| + |a| <= 9 || |p| >= HEADER
    ensures Replay(Log(before) + (PutU32(Checksum(Body(r))) + (p + b + s) + tail)) == before
  {
    hide Body, Checksum, PutU32, Complete, RecordAt, SizeAt, Log;
    var damaged := PutU32(Checksum(Body(r))) + (p + b + s) + tail;
    DamagedBody(r, p, a, b, s, tail);
    ReplayLog(before, damaged);
    assert Replay(damaged) == [];
  }

  /** Damage to a stored checksum ends replay there too. */
  lemma DamagedChecksum(before: seq<Record>, r: Record, crc: Bytes, tail: Bytes)
    requires AllInLimit(before) && InLimit(r)
    requires |crc| == 4 && crc != PutU32(Checksum(Body(r)))
    ensures Replay(Log(before) + (crc + Body(r) + tail)) == before
  {
    hide Body, Checksum, PutU32, GetU32, RecordAt, SizeAt, KeyLenAt, ValueLenAt, Log;
    var file := crc + Body(r) + tail;
    assert file[4..] == Body(r) + tail && file[..4] == crc;
    BodyReads(r, tail);
    assert file[4..4 + |Body(r)|] == Body(r);
    GetThenPut32(crc);
    assert Replay(file) == [];
    ReplayLog(before, file);
  }

  // --------------------------------------------------- entries of the store

  function ToRecord(e: Entry): Record {
    Record(if e.tombstone then DELETE else PUT, e.seqno, e.key, e.value)
  }

  /** What open puts into the memtable for a record: anything but a put is a tombstone. */
  function ToEntry(r: Record): Entry {
    if r.tag == PUT then Entry(r.key, r.value, false, r.seqno) else Entry(r.key, [], true, r.seqno)
  }

  function ToRecords(es: seq<Entry>): (rs: seq<Record>)
    ensures |rs| == |es| && forall i :: 0 <= i < |es| ==> rs[i] == ToRecord(es[i])
  {
    seq(|es|, i requires 0 <= i < |es| => ToRecord(es[i]))
  }

  function ToEntries(rs: seq<Record>): (es: seq<Entry>)
    ensures |es| == |rs| && forall i :: 0 <= i < |rs| ==> es[i] == ToEntry(rs[i])
  {
    seq(|rs|, i requires 0 <= i < |rs| => ToEntry(rs[i]))
  }

  /** What the store writes: bounded fields, and a tombstone carries no value. */
  ghost predicate Storable(es: seq<Entry>) {
    forall e :: e in es ==>
      e.seqno < U64 && |e.key| <= MAX_FIELD && |e.value| <= MAX_FIELD && (e.tombstone ==> e.value == [])
  }

  /**
   * A crash that loses any part of the bytes written after the last sync leaves a log
   * whose replay is the synced entries followed by a prefix of the unsynced ones.
   */
  lemma CrashKeepsPrefix(synced: seq<Entry>, unsynced: seq<Entry>, n: nat)
    requires Storable(synced + unsynced)
    requires |Log(ToRecords(synced))| <= n <= |Log(ToRecords(synced + unsynced))|
    ensures var es := ToEntries(Replay(Log(ToRecords(synced + unsynced))[..n]));
            && |synced| <= |es| <= |synced| + |unsynced|
            && es == synced + unsynced[..|es| - |synced|]
  {
    hide Replay, Log;
    var kept := ToRecords(synced);
    var lost := ToRecords(unsynced);
    var rs := ToRecords(synced + unsynced);
    assert rs == kept + lost;
    ReplayCut(rs, n);
    var j := |Replay(Log(rs)[..n])|;
    LogMonotone(rs, j, |synced|);
    assert rs[..|synced|] == kept;
    var es := ToEntries(rs[..j]);
    forall i | 0 <= i < j ensures es[i] == (synced + unsynced)[i] {
      var e := (synced + unsynced)[i];
      assert e in synced + unsynced;
    }
    assert es == (synced + unsynced)[..j];
  }

  /** A prefix too short to hold record j+1 holds at most j records. */
  lemma LogMonotone(rs: seq<Record>, j: nat, k: nat)
    requires j <= |rs| && k <= |rs|
    ensures j < k ==> |Log(rs[..j + 1])| <= |Log(rs[..k])|
  {
    hide Log;
    if j < k {
      LogConcat(rs[..j + 1], rs[j + 1..k]);
      assert rs[..k] == rs[..j + 1] + rs[j + 1..k];
    }
  }
}
