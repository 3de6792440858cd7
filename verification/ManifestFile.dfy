// Appending and loading MANIFEST snapshots as the source does, over a byte buffer and a
// reader that moves through the file.
module ManifestFile {
  import opened Keys
  import opened Coding
  import opened Buffers
  import opened Crc
  import opened Recovery
  import opened Manifest

  lemma {:induction false} EntriesSnoc(es: seq<ManifestEntry>, e: ManifestEntry)
    requires Fits(e) && forall i :: 0 <= i < |es| ==> Fits(es[i])
    ensures EncodeEntries(es + [e]) == EncodeEntries(es) + EncodeEntry(e)
    decreases |es|
  {
    hide EncodeEntry, Fits;
    if es == [] {
      assert es + [e] == [e];
      assert EncodeEntries([e]) == EncodeEntry(e) + EncodeEntries([]);
    } else {
      assert (es + [e])[1..] == es[1..] + [e];
      EntriesSnoc(es[1..], e);
    }
  }

  lemma {:induction false} EntriesConcat(es: seq<ManifestEntry>, fs: seq<ManifestEntry>)
    requires (forall i :: 0 <= i < |es| ==> Fits(es[i])) && forall i :: 0 <= i < |fs| ==> Fits(fs[i])
    ensures EncodeEntries(es + fs) == EncodeEntries(es) + EncodeEntries(fs)
    decreases |es|
  {
    hide EncodeEntry, Fits;
    if es == [] {
      assert es + fs == fs;
    } else {
      assert (es + fs)[1..] == es[1..] + fs;
      EntriesConcat(es[1..], fs);
    }
  }

  lemma EntriesUpTo(es: seq<ManifestEntry>, i: nat)
    requires i < |es| && forall i :: 0 <= i < |es| ==> Fits(es[i])
    ensures EncodeEntries(es[..i + 1]) == EncodeEntries(es[..i]) + EncodeEntry(es[i])
    ensures |EncodeEntries(es[..i + 1])| <= |EncodeEntries(es)|
  {
    hide EncodeEntry, EncodeEntries, Fits;
    var front, back := es[..i + 1], es[i + 1..];
    assert front == es[..i] + [es[i]];
    EntriesSnoc(es[..i], es[i]);
    assert es == front + back;
    EntriesConcat(front, back);
  }

  lemma EntriesNone()
    ensures EncodeEntries([]) == []
  {
  }

  method WriteEntry(buf: array<bv8>, off: nat, at: nat, e: ManifestEntry)
    requires Fits(e) && off + at + |EncodeEntry(e)| <= buf.Length
    modifies buf
    ensures buf[..off] == old(buf[..off])
    ensures buf[off..off + at + |EncodeEntry(e)|] == old(buf[off..off + at]) + EncodeEntry(e)
  {
    hide EncodeLen;
    var sk := |e.smallest|;
    ghost var done := buf[off..off + at];
    WriteNumbers(buf, off, at, e);
    CopyPrefix(buf, off, at + 12, e.smallest);
    CopyPrefix(buf, off, at + 12 + sk, EncodeLen(|e.largest|));
    CopyPrefix(buf, off, at + 16 + sk, e.largest);
    assert buf[off..off + at + |EncodeEntry(e)|] == done + EncodeEntry(e);
  }

  method WriteNumbers(buf: array<bv8>, off: nat, at: nat, e: ManifestEntry)
    requires Fits(e) && off + at + 12 <= buf.Length
    modifies buf
    ensures buf[..off] == old(buf[..off])
    ensures buf[off..off + at + 12]
         == old(buf[off..off + at]) + (EncodeLen(e.number) + EncodeLen(e.level) + EncodeLen(|e.smallest|))
  {
    hide EncodeLen;
    CopyPrefix(buf, off, at, EncodeLen(e.number));
    CopyPrefix(buf, off, at + 4, EncodeLen(e.level));
    CopyPrefix(buf, off, at + 8, EncodeLen(|e.smallest|));
  }

  method EncodeSnapshot(files: seq<ManifestEntry>, table: array<bv32>) returns (out: Bytes)
    requires Encodable(files)
    requires table.Length == 256 && forall i: bv8 :: table[ByteValue(i)] == TableEntry(i)
    ensures out == Snapshot(files)
  {
    hide EncodeEntries, EncodeEntry, EncodeLen, Fits, Checksum, PutU32, TableEntry, ByteValue;
    var bodyLen := 4;
    EntriesNone();
    for i := 0 to |files|
      invariant bodyLen == 4 + |EncodeEntries(files[..i])|
    {
      EntriesUpTo(files, i);
      bodyLen := bodyLen + 4 + 4 + 4 + |files[i].smallest| + 4 + |files[i].largest|;
    }
    assert files[..|files|] == files;
    var buf := new bv8[4 + bodyLen];
    CopyPrefix(buf, 4, 0, EncodeLen(|files|));
    var pos := 4;
    for i := 0 to |files|
      invariant pos == 4 + |EncodeEntries(files[..i])| <= bodyLen
      invariant buf[4..4 + pos] == EncodeLen(|files|) + EncodeEntries(files[..i])
    {
      EntriesUpTo(files, i);
      WriteEntry(buf, 4, pos, files[i]);
      pos := pos + 16 + |files[i].smallest| + |files[i].largest|;
    }
    assert buf[4..4 + bodyLen] == SnapshotBody(files);
    var crc := Crc32(table, buf[4..4 + bodyLen]);
    label filled:
    CopyInto(buf, 0, PutU32(crc));
    assert buf[4..] == old@filled(buf[4..]) == SnapshotBody(files);
    out := buf[..];
    assert out == buf[0..4] + buf[4..];
  }

  /** The two reading closures of load_latest, and the buffer they share. */
  class SnapshotReader {
    const file: Bytes
    const start: nat
    const limit: nat
    var rest: Bytes
    /** rest.size(): the room of the buffer, of which |rest| bytes are filled. */
    var room: nat

    ghost predicate Valid()
      reads this
    {
      && start + |rest| <= |file|
      && rest == file[start..start + |rest|]
      && room == if |rest| <= limit then limit else |rest|
    }

    constructor (file: Bytes, start: nat, limit: nat)
      requires start <= |file|
      ensures Valid() && this.file == file && this.start == start && this.limit == limit && rest == []
    {
      this.file, this.start, this.limit, rest, room := file, start, limit, [], limit;
    }

    method ReadU32() returns (ok: bool, v: nat)
      requires Valid()
      modifies this
      ensures ok <==> old(|rest|) + 4 <= limit && start + old(|rest|) + 4 <= |file|
      ensures ok ==> Valid() && |rest| == old(|rest|) + 4
      ensures ok ==> v == DecodeLen(file[start + old(|rest|)..start + old(|rest|) + 4])
    {
      hide DecodeLen;
      ok, v := false, 0;
      if |rest| + 4 > room { return; }
      var at := start + |rest|;
      if |file| - at < 4 { return; }
      var tmp := file[at..at + 4];
      rest := rest + tmp;
      ok, v := true, DecodeLen(tmp);
    }

    method ReadBytes(n: nat) returns (ok: bool, out: Bytes)
      requires Valid()
      modifies this
      ensures ok <==> start + old(|rest|) + n <= |file|
      ensures ok ==> Valid() && |rest| == old(|rest|) + n
      ensures ok ==> out == file[start + old(|rest|)..start + old(|rest|) + n]
    {
      ok, out := true, [];
      if n == 0 { return; }
      if |rest| + n > room { room := |rest| + n; }
      var at := start + |rest|;
      if |file| - at < n { ok := false; return; }
      out := file[at..at + n];
      rest := rest + out;
    }

    method ReadFile() returns (ok: bool, e: ManifestEntry)
      requires Valid()
      modifies this
      ensures var r := EntryAt(file[start + old(|rest|)..], old(|rest|), limit);
              && (ok <==> r.AnEntry?)
              && (ok ==> Valid() && e == r.entry && |rest| == old(|rest|) + r.size)
    {
      hide DecodeLen, EntryAt;
      ok, e := false, ManifestEntry(0, 0, [], []);
      ghost var u := |rest|;
      EntryHead(file, start + u, u, limit);
      var number, level, skLen, lkLen;
      ok, number := ReadU32();
      if !ok { return; }
      ok, level := ReadU32();
      if !ok { return; }
      ok, skLen := ReadU32();
      if !ok { return; }
      var smallest, largest;
      ok, smallest := ReadBytes(skLen);
      if !ok { return; }
      ok, lkLen := ReadU32();
      if !ok { return; }
      EntryTail(file, start + u, u, limit);
      ok, largest := ReadBytes(lkLen);
      if !ok { return; }
      e := ManifestEntry(number, level, smallest, largest);
    }
  }

  /** An entry whose numbers cannot all be read is no entry. */
  lemma EntryHead(file: Bytes, at: nat, used: nat, limit: nat)
    requires at <= |file|
    ensures used + 12 > limit || at + 12 > |file| ==> EntryAt(file[at..], used, limit) == NoEntry
    ensures used + 12 <= limit && at + 12 <= |file| ==>
              var sk := DecodeLen(file[at + 8..at + 12]);
              used + 16 + sk > limit || at + 16 + sk > |file| ==> EntryAt(file[at..], used, limit) == NoEntry
  {
    hide DecodeLen;
    var b := file[at..];
    if |b| >= 12 { assert b[8..12] == file[at + 8..at + 12]; }
  }

  lemma EntryTail(file: Bytes, at: nat, used: nat, limit: nat)
    requires at + 12 <= |file|
    requires var sk := DecodeLen(file[at + 8..at + 12]); used + 16 + sk <= limit && at + 16 + sk <= |file|
    ensures var sk := DecodeLen(file[at + 8..at + 12]);
            var lk := DecodeLen(file[at + 12 + sk..at + 16 + sk]);
            EntryAt(file[at..], used, limit) ==
              if at + 16 + sk + lk > |file| then NoEntry
              else AnEntry(
                ManifestEntry(DecodeLen(file[at..at + 4]), DecodeLen(file[at + 4..at + 8]),
                              file[at + 12..at + 12 + sk], file[at + 16 + sk..at + 16 + sk + lk]),
                16 + sk + lk)
  {
    hide DecodeLen;
    var b := file[at..];
    var sk := DecodeLen(file[at + 8..at + 12]);
    var lk := DecodeLen(file[at + 12 + sk..at + 16 + sk]);
    assert b[..4] == file[at..at + 4] && b[4..8] == file[at + 4..at + 8] && b[8..12] == file[at + 8..at + 12];
    assert b[12..12 + sk] == file[at + 12..at + 12 + sk];
    assert b[12 + sk..16 + sk] == file[at + 12 + sk..at + 16 + sk];
    if at + 16 + sk + lk <= |file| {
      assert b[16 + sk..16 + sk + lk] == file[at + 16 + sk..at + 16 + sk + lk];
    }
  }

  lemma EntriesStep(b: Bytes, count: nat, used: nat, limit: nat)
    requires count > 0
    ensures var first := EntryAt(b, used, limit);
            EntriesAt(b, count, used, limit) ==
              if first.NoEntry? then NoEntries
              else
                var rest := EntriesAt(b[first.size..], count - 1, used + first.size, limit);
                if rest.NoEntries? then NoEntries
                else SomeEntries([first.entry] + rest.entries, first.size + rest.size)
  {
  }

  /** What the entries still to read add to those already read. */
  ghost function Joined(got: seq<ManifestEntry>, used: nat, more: ReadEntries): ReadEntries {
    if more.NoEntries? then NoEntries else SomeEntries(got + more.entries, used + more.size)
  }

  lemma JoinOne(got: seq<ManifestEntry>, b: Bytes, count: nat, used: nat, limit: nat)
    requires count > 0
    ensures var first := EntryAt(b, used, limit);
            first.AnEntry? ==>
              Joined(got, used, EntriesAt(b, count, used, limit))
              == Joined(got + [first.entry], used + first.size,
                        EntriesAt(b[first.size..], count - 1, used + first.size, limit))
  {
    hide EntryAt;
    EntriesStep(b, count, used, limit);
    var first := EntryAt(b, used, limit);
    if first.AnEntry? {
      var rest := EntriesAt(b[first.size..], count - 1, used + first.size, limit);
      if rest.SomeEntries? {
        assert got + ([first.entry] + rest.entries) == got + [first.entry] + rest.entries;
      }
    }
  }

  method ReadFiles(file: Bytes, start: nat, count: nat, limit: nat)
    returns (ok: bool, files: seq<ManifestEntry>, used: nat)
    requires start <= |file|
    ensures var r := EntriesAt(file[start..], count, 0, limit);
            && (ok <==> r.SomeEntries?)
            && (ok ==> files == r.entries && used == r.size && start + used <= |file|)
  {
    hide EntryAt, EntriesAt;
    var reader := new SnapshotReader(file, start, limit);
    ghost var want := EntriesAt(file[start..], count, 0, limit);
    files := [];
    assert want == Joined([], 0, want);
    var i := 0;
    while i < count
      invariant i <= count && reader.Valid()
      invariant want == Joined(files, |reader.rest|,
                               EntriesAt(file[start + |reader.rest|..], count - i, |reader.rest|, limit))
      invariant reader.file == file && reader.start == start && reader.limit == limit && fresh(reader)
    {
      ghost var u := |reader.rest|;
      JoinOne(files, file[start + u..], count - i, u, limit);
      EntriesStep(file[start + u..], count - i, u, limit);
      var e;
      ok, e := reader.ReadFile();
      if !ok { used := 0; return; }
      assert file[start + u..][|reader.rest| - u..] == file[start + |reader.rest|..];
      files := files + [e];
      i := i + 1;
    }
    ReadNone(file[start + |reader.rest|..], |reader.rest|, limit);
    ok, used := true, |reader.rest|;
  }

  lemma ReadNone(b: Bytes, used: nat, limit: nat)
    ensures EntriesAt(b, 0, used, limit) == SomeEntries([], 0)
  {
  }

  method ReadSnapshot(file: Bytes, pos: nat, table: array<bv32>)
    returns (ok: bool, files: seq<ManifestEntry>, next: nat)
    requires pos <= |file|
    requires table.Length == 256 && forall i: bv8 :: table[ByteValue(i)] == TableEntry(i)
    ensures var r := SnapshotAt(file[pos..]);
            && (ok <==> r.SomeEntries?)
            && (ok ==> files == r.entries && next == pos + r.size)
  {
    hide EntriesAt, Checksum, GetU32, DecodeLen, TableEntry, ByteValue;
    ok, files, next := false, [], pos;
    ghost var b := file[pos..];
    if |file| - pos < 4 { return; }
    var stored := GetU32(file[pos..pos + 4]);
    if |file| - (pos + 4) < 4 { return; }
    var countBuf := file[pos + 4..pos + 8];
    assert b[..4] == file[pos..pos + 4] && b[4..8] == countBuf && b[8..] == file[pos + 8..];
    var count := DecodeLen(countBuf);
    if count > MAX_FILES { return; }
    var used;
    ok, files, used := ReadFiles(file, pos + 8, count, count * (4 + 4 + 4 + 4) + SPARE);
    if !ok { return; }
    var body := countBuf + file[pos + 8..pos + 8 + used];
    assert body == b[4..8 + used];
    var crc := Crc32(table, body);
    ok := crc == stored;
    next := pos + 8 + used;
  }

  method LoadLatestFile(file: Bytes, table: array<bv32>) returns (latest: seq<ManifestEntry>)
    requires table.Length == 256 && forall i: bv8 :: table[ByteValue(i)] == TableEntry(i)
    ensures latest == LoadLatest(file)
  {
    hide SnapshotAt, TableEntry, ByteValue;
    latest := [];
    var pos := 0;
    assert file[0..] == file;
    while true
      invariant pos <= |file|
      invariant LoadLatest(file) == LatestFrom(file[pos..], latest)
      decreases |file| - pos
    {
      var ok, files, next := ReadSnapshot(file, pos, table);
      if !ok { break; }
      assert file[pos..][next - pos..] == file[next..];
      latest, pos := files, next;
    }
  }
}
