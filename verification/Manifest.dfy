// The MANIFEST: a log of whole snapshots, each with a checksum, of which the last
// complete one counts.
module Manifest {
  import opened Keys
  import opened Coding
  import opened Crc
  import opened Recovery

  /** The most files a snapshot may list, and the spare room of the reader's buffer. */
  const MAX_FILES: nat := 64 * 1024
  const SPARE: nat := 256 * 1024

  const I32: nat := 0x8000_0000

  predicate Encodable(es: seq<ManifestEntry>) {
    && |es| < U32
    && forall i :: 0 <= i < |es| ==> Fits(es[i])
  }

  /** Numbers are ints and lengths are stored in 32 bits. */
  predicate Fits(e: ManifestEntry) {
    e.number < I32 && e.level < I32 && |e.smallest| < U32 && |e.largest| < U32
  }

  function EncodeEntry(e: ManifestEntry): (b: Bytes)
    requires Fits(e)
    ensures |b| == 16 + |e.smallest| + |e.largest|
  {
    EncodeLen(e.number) + EncodeLen(e.level) + EncodeLen(|e.smallest|) + e.smallest
    + EncodeLen(|e.largest|) + e.largest
  }

  ghost function EncodeEntries(es: seq<ManifestEntry>): Bytes
    requires forall i :: 0 <= i < |es| ==> Fits(es[i])
  {
    if es == [] then [] else EncodeEntry(es[0]) + EncodeEntries(es[1..])
  }

  ghost function SnapshotBody(es: seq<ManifestEntry>): Bytes
    requires Encodable(es)
  {
    EncodeLen(|es|) + EncodeEntries(es)
  }

  ghost function Snapshot(es: seq<ManifestEntry>): Bytes
    requires Encodable(es)
  {
    PutU32(Checksum(SnapshotBody(es))) + SnapshotBody(es)
  }

  // -------------------------------------------------------------- reading

  datatype ReadEntry = NoEntry | AnEntry(entry: ManifestEntry, size: nat)
  datatype ReadEntries = NoEntries | SomeEntries(entries: seq<ManifestEntry>, size: nat)

  /**
   * One entry at the start of b. `used` bytes of this snapshot have been read; a number
   * is read only while it ends within `limit`, a key is read wherever it ends.
   */
  function EntryAt(b: Bytes, used: nat, limit: nat): (r: ReadEntry)
    ensures r.AnEntry? ==> 16 <= r.size <= |b|
  {
    if |b| < 12 || used + 12 > limit then NoEntry
    else
      var sk := DecodeLen(b[8..12]);
      if |b| < 16 + sk || used + 16 + sk > limit then NoEntry
      else
        var lk := DecodeLen(b[12 + sk..16 + sk]);
        if |b| < 16 + sk + lk then NoEntry
        else AnEntry(
          ManifestEntry(DecodeLen(b[..4]), DecodeLen(b[4..8]), b[12..12 + sk], b[16 + sk..16 + sk + lk]),
          16 + sk + lk)
  }

  function EntriesAt(b: Bytes, count: nat, used: nat, limit: nat): (r: ReadEntries)
    ensures r.SomeEntries? ==> r.size <= |b|
    decreases count
  {
    if count == 0 then SomeEntries([], 0)
    else
      var first := EntryAt(b, used, limit);
      if first.NoEntry? then NoEntries
      else
        var rest := EntriesAt(b[first.size..], count - 1, used + first.size, limit);
        if rest.NoEntries? then NoEntries else SomeEntries([first.entry] + rest.entries, first.size + rest.size)
  }

  /** One turn of load_latest. */
  function SnapshotAt(b: Bytes): (r: ReadEntries)
    ensures r.SomeEntries? ==> 8 <= r.size <= |b|
  {
    if |b| < 8 then NoEntries
    else
      var count := DecodeLen(b[4..8]);
      if count > MAX_FILES then NoEntries
      else
        var es := EntriesAt(b[8..], count, 0, 16 * count + SPARE);
        if es.NoEntries? then NoEntries
        else if Checksum(b[4..8 + es.size]) != GetU32(b[..4]) then NoEntries
        else SomeEntries(es.entries, 8 + es.size)
  }

  /** load_latest from here on, when `latest` is the last complete snapshot so far. */
  function LatestFrom(b: Bytes, latest: seq<ManifestEntry>): seq<ManifestEntry>
    decreases |b|
  {
    var s := SnapshotAt(b);
    if s.NoEntries? then latest else LatestFrom(b[s.size..], s.entries)
  }

  function LoadLatest(b: Bytes): seq<ManifestEntry> {
    LatestFrom(b, [])
  }

  // ---------------------------------------------- when a snapshot loads

  function KeyBytes(es: seq<ManifestEntry>): nat {
    if es == [] then 0 else |es[0].smallest| + |es[0].largest| + KeyBytes(es[1..])
  }

  /** The bytes of the keys a reader passes before the last number it must read: all but the last key. */
  function KeyBytesBeforeLast(es: seq<ManifestEntry>): nat {
    if es == [] then 0
    else if |es| == 1 then |es[0].smallest|
    else |es[0].smallest| + |es[0].largest| + KeyBytesBeforeLast(es[1..])
  }

  /** The files and the keys a reader can take. */
  predicate Loads(es: seq<ManifestEntry>) {
    |es| <= MAX_FILES && KeyBytesBeforeLast(es) <= SPARE
  }

  lemma EntryParts(e: ManifestEntry, rest: Bytes)
    requires Fits(e)
    ensures var b := EncodeEntry(e) + rest;
            var sk, lk := |e.smallest|, |e.largest|;
            && DecodeLen(b[..4]) == e.number && DecodeLen(b[4..8]) == e.level
            && DecodeLen(b[8..12]) == sk && b[12..12 + sk] == e.smallest
            && DecodeLen(b[12 + sk..16 + sk]) == lk && b[16 + sk..16 + sk + lk] == e.largest
            && b[16 + sk + lk..] == rest
  {
    hide EncodeLen, DecodeLen;
    var b := EncodeEntry(e) + rest;
    var sk, lk := |e.smallest|, |e.largest|;
    LenRoundTrip(e.number);
    LenRoundTrip(e.level);
    LenRoundTrip(sk);
    LenRoundTrip(lk);
    assert b[..4] == EncodeLen(e.number) && b[4..8] == EncodeLen(e.level) && b[8..12] == EncodeLen(sk);
    assert b[12 + sk..16 + sk] == EncodeLen(lk);
  }

  lemma EntryReads(e: ManifestEntry, rest: Bytes, used: nat, limit: nat)
    requires Fits(e)
    ensures EntryAt(EncodeEntry(e) + rest, used, limit)
         == if used + 16 + |e.smallest| <= limit then AnEntry(e, |EncodeEntry(e)|) else NoEntry
  {
    hide EncodeEntry, DecodeLen;
    EntryParts(e, rest);
  }

  lemma EntryCut(e: ManifestEntry, n: nat, used: nat, limit: nat)
    requires Fits(e) && n < |EncodeEntry(e)|
    ensures EntryAt(EncodeEntry(e)[..n], used, limit) == NoEntry
  {
    hide EncodeEntry, DecodeLen;
    EntryParts(e, []);
    var b := EncodeEntry(e) + [];
    var cut := EncodeEntry(e)[..n];
    if n >= 12 {
      assert cut[8..12] == b[8..12];
      var sk := |e.smallest|;
      if n >= 16 + sk {
        assert cut[12 + sk..16 + sk] == b[12 + sk..16 + sk];
      }
    }
  }

  lemma {:induction false} EntriesRead(es: seq<ManifestEntry>, rest: Bytes, used: nat, limit: nat)
    requires forall i :: 0 <= i < |es| ==> Fits(es[i])
    ensures EntriesAt(EncodeEntries(es) + rest, |es|, used, limit)
         == if es == [] || used + 16 * |es| + KeyBytesBeforeLast(es) <= limit
            then SomeEntries(es, |EncodeEntries(es)|) else NoEntries
    decreases |es|
  {
    hide EncodeEntry, EntryAt, Fits;
    if es != [] {
      var e := es[0];
      var tail := EncodeEntries(es[1..]) + rest;
      assert EncodeEntries(es) + rest == EncodeEntry(e) + tail;
      EntryReads(e, tail, used, limit);
      if used + 16 + |e.smallest| <= limit {
        assert (EncodeEntry(e) + tail)[|EncodeEntry(e)|..] == tail;
        EntriesRead(es[1..], rest, used + |EncodeEntry(e)|, limit);
      }
    }
  }

  lemma {:induction false} EntriesCut(es: seq<ManifestEntry>, n: nat, used: nat, limit: nat)
    requires forall i :: 0 <= i < |es| ==> Fits(es[i])
    requires n < |EncodeEntries(es)|
    ensures EntriesAt(EncodeEntries(es)[..n], |es|, used, limit) == NoEntries
    decreases |es|
  {
    hide EncodeEntry, EntryAt, Fits;
    var e := es[0];
    var size := |EncodeEntry(e)|;
    if n < size {
      assert EncodeEntries(es)[..n] == EncodeEntry(e)[..n];
      EntryCut(e, n, used, limit);
    } else {
      var cut := EncodeEntries(es[1..])[..n - size];
      assert EncodeEntries(es)[..n] == EncodeEntry(e) + cut;
      EntryReads(e, cut, used, limit);
      assert (EncodeEntry(e) + cut)[size..] == cut;
      EntriesCut(es[1..], n - size, used + size, limit);
    }
  }

  /** A snapshot reads back exactly when it loads; otherwise the reader stops at it. */
  lemma SnapshotReads(es: seq<ManifestEntry>, rest: Bytes)
    requires Encodable(es)
    ensures SnapshotAt(Snapshot(es) + rest)
         == if Loads(es) then SomeEntries(es, |Snapshot(es)|) else NoEntries
  {
    hide EncodeEntries, EntriesAt, Checksum, PutU32, GetU32, EncodeLen, DecodeLen, Fits, KeyBytesBeforeLast;
    var b := Snapshot(es) + rest;
    var body := SnapshotBody(es);
    assert b[4..8] == EncodeLen(|es|) && b[..4] == PutU32(Checksum(body));
    assert b[8..] == EncodeEntries(es) + rest;
    assert b[4..8 + |EncodeEntries(es)|] == body;
    LenRoundTrip(|es|);
    RoundTrip32(Checksum(body));
    EntriesRead(es, rest, 0, 16 * |es| + SPARE);
    NoKeys();
  }

  lemma NoKeys()
    ensures KeyBytesBeforeLast([]) == 0
  {
  }

  /** A snapshot cut anywhere is not read. */
  lemma SnapshotCut(es: seq<ManifestEntry>, n: nat)
    requires Encodable(es) && n < |Snapshot(es)|
    ensures SnapshotAt(Snapshot(es)[..n]) == NoEntries
  {
    hide EncodeEntries, EntriesAt, Checksum, PutU32, GetU32, EncodeLen, DecodeLen, Fits;
    if n >= 8 {
      var b := Snapshot(es)[..n];
      assert b[4..8] == EncodeLen(|es|);
      LenRoundTrip(|es|);
      assert b[8..] == EncodeEntries(es)[..n - 8];
      EntriesCut(es, n - 8, 0, 16 * |es| + SPARE);
    }
  }

  // ----------------------------------------------------- the whole file

  ghost predicate AllEncodable(ss: seq<seq<ManifestEntry>>) {
    forall i :: 0 <= i < |ss| ==> Encodable(ss[i])
  }

  ghost function ManifestFile(ss: seq<seq<ManifestEntry>>): Bytes
    requires AllEncodable(ss)
  {
    if ss == [] then [] else Snapshot(ss[0]) + ManifestFile(ss[1..])
  }

  /** The last snapshot before the first one that does not load; `latest` if there is none. */
  function LastLoaded(ss: seq<seq<ManifestEntry>>, latest: seq<ManifestEntry>): seq<ManifestEntry> {
    if ss == [] || !Loads(ss[0]) then latest else LastLoaded(ss[1..], ss[0])
  }

  lemma {:induction false} LatestAfter(ss: seq<seq<ManifestEntry>>, tail: Bytes, latest: seq<ManifestEntry>)
    requires AllEncodable(ss) && SnapshotAt(tail).NoEntries?
    ensures LatestFrom(ManifestFile(ss) + tail, latest) == LastLoaded(ss, latest)
    decreases |ss|
  {
    hide Snapshot, SnapshotAt, Encodable, Loads;
    if ss == [] {
      assert ManifestFile(ss) + tail == tail;
    } else {
      var rest := ManifestFile(ss[1..]) + tail;
      assert ManifestFile(ss) + tail == Snapshot(ss[0]) + rest;
      SnapshotReads(ss[0], rest);
      assert (Snapshot(ss[0]) + rest)[|Snapshot(ss[0])|..] == rest;
      LatestAfter(ss[1..], tail, ss[0]);
    }
  }

  lemma NothingThere()
    ensures SnapshotAt([]) == NoEntries
  {
  }

  lemma {:induction false} AllButLastKey(es: seq<ManifestEntry>)
    requires es != []
    ensures KeyBytesBeforeLast(es) == KeyBytes(es) - |es[|es| - 1].largest|
    ensures Loads(es) <==> |es| <= 65536 && KeyBytes(es) - |es[|es| - 1].largest| <= 262144
    decreases |es|
  {
    if |es| > 1 {
      AllButLastKey(es[1..]);
      assert es[1..][|es| - 2] == es[|es| - 1];
    } else {
      assert KeyBytes(es[1..]) == 0;
    }
  }

  /**
   * Not every snapshot the store can write is one it can read: one file whose first key is
   * longer than the spare room is enough for its snapshot to be passed over, and the older
   * one stays in force.
   */
  lemma LongKeysGoStale(older: seq<ManifestEntry>, number: nat, key: Bytes)
    requires Encodable(older) && Loads(older) && number < I32 && 262144 < |key| < U32
    ensures var newer := [ManifestEntry(number, 0, key, key)];
            Encodable(newer) && !Loads(newer) && LoadLatest(ManifestFile([older, newer])) == older
  {
    hide Snapshot, SnapshotAt, LatestFrom;
    var newer := [ManifestEntry(number, 0, key, key)];
    NothingThere();
    assert ManifestFile([older, newer]) + [] == ManifestFile([older, newer]);
    LatestAfter([older, newer], [], []);
    assert [older, newer][1..] == [newer];
    assert LastLoaded([newer], older) == older;
  }

  // ------------------------------------------------------- appending behind what

  /** The reader gets to the very end of the file: every snapshot in it is whole. */
  predicate Clean(b: Bytes)
    decreases |b|
  {
    b == [] || (var s := SnapshotAt(b); s.SomeEntries? && Clean(b[s.size..]))
  }

  lemma EntryExtends(b: Bytes, more: Bytes, used: nat, limit: nat)
    requires EntryAt(b, used, limit).AnEntry?
    ensures EntryAt(b + more, used, limit) == EntryAt(b, used, limit)
  {
    hide DecodeLen;
    var c := b + more;
    assert c[8..12] == b[8..12];
    var sk := DecodeLen(b[8..12]);
    assert c[12 + sk..16 + sk] == b[12 + sk..16 + sk];
    var lk := DecodeLen(b[12 + sk..16 + sk]);
    assert c[..4] == b[..4] && c[4..8] == b[4..8] && c[12..12 + sk] == b[12..12 + sk];
    assert c[16 + sk..16 + sk + lk] == b[16 + sk..16 + sk + lk];
  }

  lemma {:induction false} EntriesExtend(b: Bytes, more: Bytes, count: nat, used: nat, limit: nat)
    requires EntriesAt(b, count, used, limit).SomeEntries?
    ensures EntriesAt(b + more, count, used, limit) == EntriesAt(b, count, used, limit)
    decreases count
  {
    hide EntryAt;
    if count > 0 {
      var first := EntryAt(b, used, limit);
      EntryExtends(b, more, used, limit);
      assert (b + more)[first.size..] == b[first.size..] + more;
      EntriesExtend(b[first.size..], more, count - 1, used + first.size, limit);
    }
  }

  lemma SnapshotExtends(b: Bytes, more: Bytes)
    requires SnapshotAt(b).SomeEntries?
    ensures SnapshotAt(b + more) == SnapshotAt(b)
  {
    hide EntriesAt, Checksum, GetU32, DecodeLen;
    var c := b + more;
    assert c[4..8] == b[4..8] && c[..4] == b[..4] && c[8..] == b[8..] + more;
    var count := DecodeLen(b[4..8]);
    EntriesExtend(b[8..], more, count, 0, 16 * count + SPARE);
    var es := EntriesAt(b[8..], count, 0, 16 * count + SPARE);
    assert c[4..8 + es.size] == b[4..8 + es.size];
  }

  /** Behind whole snapshots the reader goes on with whatever follows. */
  lemma {:induction false} LatestPast(b: Bytes, more: Bytes, latest: seq<ManifestEntry>)
    requires Clean(b)
    ensures LatestFrom(b + more, latest) == LatestFrom(more, LatestFrom(b, latest))
    ensures Clean(b + more) <==> Clean(more)
    decreases |b|
  {
    hide SnapshotAt;
    if b == [] {
      NothingThere();
      assert b + more == more;
    } else {
      var s := SnapshotAt(b);
      SnapshotExtends(b, more);
      assert (b + more)[s.size..] == b[s.size..] + more;
      LatestPast(b[s.size..], more, s.entries);
    }
  }

  /** Appended to a file without a torn tail, a snapshot that loads is in force, and the file stays so. */
  lemma AppendToClean(b: Bytes, next: seq<ManifestEntry>)
    requires Clean(b) && Encodable(next) && Loads(next)
    ensures LoadLatest(b + Snapshot(next)) == next && Clean(b + Snapshot(next))
  {
    hide Snapshot, SnapshotAt, Encodable, Loads;
    var x := Snapshot(next);
    SnapshotReads(next, []);
    assert x + [] == x && x[|x|..] == [];
    NothingThere();
    assert Clean(x);
    LatestPast(b, x, []);
  }

  /** One that does not load leaves the last one in force and the file as if it were torn. */
  lemma AppendUnloaded(b: Bytes, next: seq<ManifestEntry>)
    requires Clean(b) && Encodable(next) && !Loads(next)
    ensures LoadLatest(b + Snapshot(next)) == LoadLatest(b) && !Clean(b + Snapshot(next))
  {
    hide Snapshot, SnapshotAt, Encodable, Loads;
    var x := Snapshot(next);
    SnapshotReads(next, []);
    SnapshotLong(next);
    assert x + [] == x;
    LatestPast(b, x, []);
  }

  /**
   * A crash while a snapshot is appended to a file without a torn tail leaves the last whole
   * snapshot or the new one in force, and the new one only when it was written in full. The
   * tail is torn if and only if the append was cut.
   */
  lemma AppendIsAtomic(b: Bytes, next: seq<ManifestEntry>, n: nat)
    requires Clean(b) && Encodable(next) && n <= |Snapshot(next)| && (n == |Snapshot(next)| ==> Loads(next))
    ensures LoadLatest(b + Snapshot(next)[..n]) == if n == |Snapshot(next)| then next else LoadLatest(b)
    ensures Clean(b + Snapshot(next)[..n]) <==> n == 0 || n == |Snapshot(next)|
  {
    hide Snapshot, SnapshotAt, Encodable, Loads;
    if n < |Snapshot(next)| {
      SnapshotCut(next, n);
      LatestPast(b, Snapshot(next)[..n], []);
    } else {
      assert Snapshot(next)[..n] == Snapshot(next);
      SnapshotLong(next);
      AppendToClean(b, next);
    }
  }

  /** The file a store writes is without a torn tail as long as no append was cut. */
  lemma {:induction false} AppendedIsClean(ss: seq<seq<ManifestEntry>>)
    requires AllEncodable(ss) && forall i :: 0 <= i < |ss| ==> Loads(ss[i])
    ensures Clean(ManifestFile(ss))
    decreases |ss|
  {
    hide Snapshot, SnapshotAt, Encodable, Loads;
    if ss != [] {
      var rest := ManifestFile(ss[1..]);
      SnapshotReads(ss[0], rest);
      assert (Snapshot(ss[0]) + rest)[|Snapshot(ss[0])|..] == rest;
      AppendedIsClean(ss[1..]);
    }
  }

  // --------------------------------------------- exactly what an append reaches

  /** Reading from the start, the reader comes to stand at byte n. */
  predicate Reaches(b: Bytes, n: nat)
    decreases |b|
  {
    n == 0 || (var s := SnapshotAt(b); s.SomeEntries? && s.size <= n && Reaches(b[s.size..], n - s.size))
  }

  lemma EntryShrinks(b: Bytes, more: Bytes, used: nat, limit: nat)
    requires var r := EntryAt(b + more, used, limit); r.AnEntry? && r.size <= |b|
    ensures EntryAt(b, used, limit) == EntryAt(b + more, used, limit)
  {
    hide DecodeLen;
    var c := b + more;
    assert c[8..12] == b[8..12];
    var sk := DecodeLen(b[8..12]);
    assert c[12 + sk..16 + sk] == b[12 + sk..16 + sk];
    var lk := DecodeLen(b[12 + sk..16 + sk]);
    assert c[..4] == b[..4] && c[4..8] == b[4..8] && c[12..12 + sk] == b[12..12 + sk];
    assert c[16 + sk..16 + sk + lk] == b[16 + sk..16 + sk + lk];
  }

  lemma {:induction false} EntriesShrink(b: Bytes, more: Bytes, count: nat, used: nat, limit: nat)
    requires var r := EntriesAt(b + more, count, used, limit); r.SomeEntries? && r.size <= |b|
    ensures EntriesAt(b, count, used, limit) == EntriesAt(b + more, count, used, limit)
    decreases count
  {
    hide EntryAt;
    if count > 0 {
      var first := EntryAt(b + more, used, limit);
      EntryShrinks(b, more, used, limit);
      assert (b + more)[first.size..] == b[first.size..] + more;
      EntriesShrink(b[first.size..], more, count - 1, used + first.size, limit);
    }
  }

  /** A snapshot that ends within b was there before anything was appended to b. */
  lemma SnapshotShrinks(b: Bytes, more: Bytes)
    requires var r := SnapshotAt(b + more); r.SomeEntries? && r.size <= |b|
    ensures SnapshotAt(b) == SnapshotAt(b + more)
  {
    hide EntriesAt, Checksum, GetU32, DecodeLen;
    var c := b + more;
    assert c[4..8] == b[4..8] && c[..4] == b[..4] && c[8..] == b[8..] + more;
    var count := DecodeLen(b[4..8]);
    var es := EntriesAt(c[8..], count, 0, 16 * count + SPARE);
    EntriesShrink(b[8..], more, count, 0, 16 * count + SPARE);
    assert c[4..8 + es.size] == b[4..8 + es.size];
  }

  /** Whatever is appended to a file, the reader gets to it if and only if the file had no torn tail. */
  lemma {:induction false} AppendReachedIff(b: Bytes, more: Bytes)
    ensures Reaches(b + more, |b|) <==> Clean(b)
    decreases |b|
  {
    hide SnapshotAt;
    if b != [] {
      var s := SnapshotAt(b + more);
      if s.SomeEntries? && s.size <= |b| {
        SnapshotShrinks(b, more);
        assert (b + more)[s.size..] == b[s.size..] + more;
        AppendReachedIff(b[s.size..], more);
      } else if SnapshotAt(b).SomeEntries? {
        SnapshotExtends(b, more);
      }
    }
  }

  /**
   * The exact condition for an appended snapshot to be read: the file had no torn tail and
   * the snapshot is one the reader can load.
   */
  lemma AppendReadIff(b: Bytes, next: seq<ManifestEntry>)
    requires Encodable(next)
    ensures var c := b + Snapshot(next);
            Reaches(c, |b|) && SnapshotAt(c[|b|..]) == SomeEntries(next, |Snapshot(next)|) <==> Clean(b) && Loads(next)
  {
    hide Snapshot, SnapshotAt, Encodable, Loads, Clean, Reaches;
    AppendReachedIff(b, Snapshot(next));
    assert (b + Snapshot(next))[|b|..] == Snapshot(next) + [];
    SnapshotReads(next, []);
  }

  // ------------------------------------------------------------ damaged bytes

  /** The bytes c have the length fields of the entries es where those have them. */
  ghost predicate SameLengths(es: seq<ManifestEntry>, c: Bytes)
    requires forall i :: 0 <= i < |es| ==> Fits(es[i])
    decreases |es|
  {
    if es == [] then c == []
    else
      assert Fits(es[0]);
      var sk, lk := |es[0].smallest|, |es[0].largest|;
      && |c| >= 16 + sk + lk
      && c[8..12] == EncodeLen(sk) && c[12 + sk..16 + sk] == EncodeLen(lk)
      && SameLengths(es[1..], c[16 + sk + lk..])
  }

  lemma EntryOfSize(e: ManifestEntry, c: Bytes, used: nat, limit: nat)
    requires Fits(e) && |c| >= 16 + |e.smallest| + |e.largest|
    requires var sk := |e.smallest|; c[8..12] == EncodeLen(sk) && c[12 + sk..16 + sk] == EncodeLen(|e.largest|)
    ensures var r := EntryAt(c, used, limit); r.AnEntry? ==> r.size == 16 + |e.smallest| + |e.largest|
  {
    hide EncodeLen, DecodeLen;
    LenRoundTrip(|e.smallest|);
    LenRoundTrip(|e.largest|);
  }

  lemma {:induction false} EntriesOfSize(es: seq<ManifestEntry>, c: Bytes, rest: Bytes, used: nat, limit: nat)
    requires (forall i :: 0 <= i < |es| ==> Fits(es[i])) && SameLengths(es, c)
    ensures var r := EntriesAt(c + rest, |es|, used, limit); r.SomeEntries? ==> r.size == |c|
    decreases |es|
  {
    hide EntryAt, EncodeLen, Fits;
    if es != [] {
      var sk, lk := |es[0].smallest|, |es[0].largest|;
      var b, n := c + rest, 16 + sk + lk;
      assert b[8..12] == c[8..12] && b[12 + sk..16 + sk] == c[12 + sk..16 + sk];
      EntryOfSize(es[0], b, used, limit);
      assert b[n..] == c[n..] + rest;
      EntriesOfSize(es[1..], c[n..], rest, used + n, limit);
    }
  }

  /** Bytes with the count and the lengths of a snapshot are read only under their own checksum. */
  lemma WrongChecksum(es: seq<ManifestEntry>, crc: Bytes, body: Bytes, tail: Bytes)
    requires Encodable(es) && |crc| == 4 && |body| >= 4
    requires body[..4] == EncodeLen(|es|) && SameLengths(es, body[4..])
    requires crc != PutU32(Checksum(body))
    ensures SnapshotAt(crc + body + tail) == NoEntries
  {
    hide EncodeEntries, EntriesAt, Checksum, PutU32, GetU32, EncodeLen, DecodeLen, Fits, SameLengths;
    var b := crc + body + tail;
    assert b[..4] == crc && b[4..8] == EncodeLen(|es|) && b[8..] == body[4..] + tail;
    LenRoundTrip(|es|);
    EntriesOfSize(es, body[4..], tail, 0, 16 * |es| + SPARE);
    assert b[4..4 + |body|] == body;
    GetThenPut32(crc);
  }

  lemma {:induction false} OwnLengths(es: seq<ManifestEntry>)
    requires forall i :: 0 <= i < |es| ==> Fits(es[i])
    ensures SameLengths(es, EncodeEntries(es))
    decreases |es|
  {
    hide EncodeLen;
    if es != [] {
      assert Fits(es[0]);
      var sk := |es[0].smallest|;
      var b := EncodeEntries(es);
      assert b[8..12] == EncodeLen(sk) && b[12 + sk..16 + sk] == EncodeLen(|es[0].largest|);
      assert b[|EncodeEntry(es[0])|..] == EncodeEntries(es[1..]);
      OwnLengths(es[1..]);
    }
  }

  lemma BodyLengths(es: seq<ManifestEntry>)
    requires Encodable(es)
    ensures var body := SnapshotBody(es); body[..4] == EncodeLen(|es|) && SameLengths(es, body[4..])
  {
    hide EncodeLen, EncodeEntries, Fits, SameLengths;
    OwnLengths(es);
    assert SnapshotBody(es)[4..] == EncodeEntries(es);
  }

  /** A snapshot with any other checksum in front of it is not read: the last one stays in force. */
  lemma DamagedChecksum(b: Bytes, next: seq<ManifestEntry>, crc: Bytes, tail: Bytes)
    requires Clean(b) && Encodable(next) && |crc| == 4 && crc != PutU32(Checksum(SnapshotBody(next)))
    ensures LoadLatest(b + (crc + SnapshotBody(next) + tail)) == LoadLatest(b)
  {
    hide SnapshotAt, Clean, Checksum, PutU32, EncodeLen, EncodeEntries, Fits, SameLengths;
    BodyLengths(next);
    WrongChecksum(next, crc, SnapshotBody(next), tail);
    LatestPast(b, crc + SnapshotBody(next) + tail, []);
  }

  /**
   * Nor is one with at most four adjacent bytes damaged, anywhere in it, as long as its count
   * and its lengths are as they were, and whatever follows it.
   */
  lemma DamagedSnapshot(f: Bytes, next: seq<ManifestEntry>, p: Bytes, a: Bytes, b: Bytes, s: Bytes, tail: Bytes)
    requires Clean(f) && Encodable(next)
    requires SnapshotBody(next) == p + a + s && |a| == |b| <= 4 && a != b
    requires (p + b + s)[..4] == EncodeLen(|next|) && SameLengths(next, (p + b + s)[4..])
    ensures LoadLatest(f + (PutU32(Checksum(SnapshotBody(next))) + (p + b + s) + tail)) == LoadLatest(f)
  {
    hide SnapshotAt, Clean, Checksum, PutU32, EncodeLen, EncodeEntries, Fits, SameLengths;
    BurstDetected(p, a, b, s);
    var crc := Checksum(p + a + s);
    RoundTrip32(crc);
    RoundTrip32(Checksum(p + b + s));
    WrongChecksum(next, PutU32(crc), p + b + s, tail);
    LatestPast(f, PutU32(crc) + (p + b + s) + tail, []);
  }

  /** A file padded with zeros, as some file systems leave it after a crash, loads as without them. */
  lemma ZeroTail(b: Bytes, n: nat)
    requires Clean(b)
    ensures LoadLatest(b + seq(n, i => 0)) == LoadLatest(b)
  {
    hide SnapshotAt, Clean;
    var zeros: Bytes := seq(n, i => 0);
    ZerosUnread(zeros);
    LatestPast(b, zeros, []);
  }

  lemma ZerosUnread(z: Bytes)
    requires forall i :: 0 <= i < |z| ==> z[i] == 0
    ensures SnapshotAt(z) == NoEntries
  {
    hide Checksum, GetU32, DecodeLen;
    if |z| >= 8 {
      assert z[4..8] == [0, 0, 0, 0] && z[..4] == [0, 0, 0, 0];
      FourZeros();
      assert EntriesAt(z[8..], 0, 0, SPARE) == SomeEntries([], 0);
    }
  }

  lemma FourZeros()
    ensures DecodeLen([0, 0, 0, 0]) == 0 && GetU32([0, 0, 0, 0]) == 0 && Checksum([0, 0, 0, 0]) == 0x2144_DF1C
  {
    ZeroChecksum();
  }

  // ------------------------------------------------------------ a torn file

  /** The snapshot of a file of level 0, byte by byte up to its first key. */
  lemma FirstBytes(number: nat, k: Bytes)
    requires number < 256 && 0 < |k| < 0x8000
    ensures var b := Snapshot([ManifestEntry(number, 0, k, k)]);
            && |b| == 24 + 2 * |k|
            && b[4..8] == EncodeLen(1) && b[8..12] == EncodeLen(number) && b[12..16] == EncodeLen(0)
            && b[16..20] == EncodeLen(|k|)
  {
    hide Checksum, PutU32, EncodeLen;
    var e := ManifestEntry(number, 0, k, k);
    assert EncodeEntries([e]) == EncodeEntry(e) + EncodeEntries([]);
    var b := Snapshot([e]);
    assert b[4..] == SnapshotBody([e]);
    assert b[8..] == EncodeEntry(e);
  }

  /** Two zero bytes and the low half of a length below 2^15 are a length beyond any short file. */
  lemma ShiftedLength(n: nat)
    requires n < 0x8000
    ensures DecodeLen([EncodeLen(0)[2], EncodeLen(0)[3], EncodeLen(n)[0], EncodeLen(n)[1]]) == 0x1_0000 * n
  {
    hide ByteValue, Digit;
    DigitValue(0);
    DigitValue(n);
    DigitValue(n / 0x100);
    assert n == n % 0x100 + 0x100 * (n / 0x100);
  }

  lemma MiddleBytes(b: Bytes, x: Bytes, y: Bytes)
    requires |b| >= 20 && |x| == |y| == 4 && b[12..16] == x && b[16..20] == y
    ensures b[14..18] == [x[2], x[3], y[0], y[1]]
  {
    assert b[12..16][2] == b[14] && b[12..16][3] == b[15] && b[16..20][0] == b[16] && b[16..20][1] == b[17];
  }

  lemma TornHead(k: Bytes)
    requires 0 < |k| < 0x8000
    ensures var b := Snapshot([ManifestEntry(1, 0, k, k)])[..8] + Snapshot([ManifestEntry(2, 0, k, k)]);
            SnapshotAt(b) == NoEntries
  {
    hide Checksum, PutU32, GetU32, EncodeLen, DecodeLen, Snapshot;
    FirstBytes(1, k);
    FirstBytes(2, k);
    var first, body := Snapshot([ManifestEntry(1, 0, k, k)]), Snapshot([ManifestEntry(2, 0, k, k)]);
    var b := first[..8] + body;
    assert b[4..8] == EncodeLen(1) && b[8..] == body;
    LenRoundTrip(1);
    LenRoundTrip(2);
    MiddleBytes(body, EncodeLen(0), EncodeLen(|k|));
    ShiftedLength(|k|);
    assert EntryAt(body, 0, 16 + SPARE) == NoEntry;
  }

  /**
   * The flush of a key is torn after eight bytes; the flush after the next open is appended
   * behind them and never read. The reader takes its checksum and count for a number and a
   * level, its file number for the length of a key, and runs past the end of the file.
   */
  lemma TornFlushHides(b: Bytes, k: Bytes)
    requires Clean(b) && 0 < |k| < 0x8000
    ensures |Snapshot([ManifestEntry(1, 0, k, k)])| >= 8
    ensures var torn := Snapshot([ManifestEntry(1, 0, k, k)])[..8];
            LoadLatest(b + (torn + Snapshot([ManifestEntry(2, 0, k, k)]))) == LoadLatest(b)
  {
    hide Snapshot, SnapshotAt;
    FirstBytes(1, k);
    TornHead(k);
    LatestPast(b, Snapshot([ManifestEntry(1, 0, k, k)])[..8] + Snapshot([ManifestEntry(2, 0, k, k)]), []);
  }

  lemma LongHead(next: seq<ManifestEntry>, later: seq<ManifestEntry>)
    requires Encodable(next) && Encodable(later) && 1 <= |next| <= MAX_FILES
    requires later != [] && later[0].number >= |Snapshot(later)|
    ensures |Snapshot(next)| >= 8 && SnapshotAt(Snapshot(next)[..8] + Snapshot(later)) == NoEntries
  {
    hide Checksum, PutU32, GetU32, EncodeLen, DecodeLen;
    var head, body := Snapshot(next)[..8], Snapshot(later);
    var b := head + body;
    assert b[4..8] == EncodeLen(|next|) && b[8..] == body;
    LenRoundTrip(|next|);
    LenRoundTrip(later[0].number);
    assert body[8..12] == EncodeLen(later[0].number);
    assert EntryAt(body, 0, 16 * |next| + SPARE) == NoEntry;
  }

  /** So is any snapshot whose first file number is at least its length, behind any torn one. */
  lemma TornTailHides(b: Bytes, next: seq<ManifestEntry>, later: seq<ManifestEntry>)
    requires Clean(b) && Encodable(next) && Encodable(later) && 1 <= |next| <= MAX_FILES
    requires later != [] && later[0].number >= |Snapshot(later)|
    ensures |Snapshot(next)| >= 8
    ensures LoadLatest(b + (Snapshot(next)[..8] + Snapshot(later))) == LoadLatest(b)
  {
    hide Snapshot, SnapshotAt, Encodable;
    SnapshotLong(next);
    LongHead(next, later);
    LatestPast(b, Snapshot(next)[..8] + Snapshot(later), []);
  }

  lemma SnapshotLong(es: seq<ManifestEntry>)
    requires Encodable(es)
    ensures |Snapshot(es)| >= 8
  {
  }
}
