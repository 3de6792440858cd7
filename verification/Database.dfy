// The DB object: its fields, and its operations as methods that change them. Each
// method is a sequence of machine steps.
module Database {
  import opened Keys
  import opened Entries
  import opened Versions
  import opened Gc
  import opened Picking
  import opened Recovery
  import opened Machine
  import opened Safety
  import opened Runs
  import opened Manifest
  import opened DiskBytes
  import opened Operations
  import Coding
  import Compactor
  import Crc
  import Layout
  import ManifestFile
  import Merging
  import Scanning
  import Wal
  import WalFile

  // ------------------------------------------------------------- point lookup

  /** std::upper_bound on a level: halve until one position is left. */
  method FindUpperBound(fs: seq<FileMeta>, k: Bytes) returns (i: nat)
    requires BySmallest(fs)
    ensures i == UpperBound(fs, k)
  {
    var lo, hi := 0, |fs|;
    while lo < hi
      invariant 0 <= lo <= hi <= |fs|
      invariant lo <= UpperBound(fs, k) <= hi
    {
      var mid := lo + (hi - lo) / 2;
      BoundSide(fs, k, mid);
      if Less(k, fs[mid].smallest) {
        hi := mid;
      } else {
        lo := mid + 1;
      }
    }
    i := lo;
  }

  lemma BoundSide(fs: seq<FileMeta>, k: Bytes, m: nat)
    requires BySmallest(fs) && m < |fs|
    ensures Less(k, fs[m].smallest) <==> UpperBound(fs, k) <= m
  {
    hide UpperBound, Less;
    var u := UpperBound(fs, k);
    if u < m { LessTransitive(k, fs[u].smallest, fs[m].smallest); }
  }

  lemma HitHead(f: FileMeta, fs: seq<FileMeta>, k: Bytes, s: nat)
    ensures FirstHit(Tables([f] + fs), k, s) ==
            if Lookup(f.table, k, s).Some? then Lookup(f.table, k, s) else FirstHit(Tables(fs), k, s)
  {
    assert Tables([f] + fs)[1..] == Tables(fs);
  }

  lemma ReversedPush(fs: seq<FileMeta>, i: nat)
    requires i < |fs|
    ensures Reversed(fs[..i + 1]) == [fs[i]] + Reversed(fs[..i])
  {
  }

  /** get_impl, loop by loop. */
  method GetImpl(mem: seq<Entry>, v: Version, k: Bytes, s: nat) returns (r: Option<Bytes>)
    requires Arranged(v)
    ensures r == Get(mem, v, k, s)
  {
    hide FirstHit, Lookup, Candidates, Reversed, Tables;
    assert Get(mem, v, k, s)
           == Answer(if Lookup(mem, k, s).Some? then Lookup(mem, k, s)
                     else FirstHit(Tables(SearchFiles(v, k)), k, s)) by {
      MemFirst(mem, v, k, s);
    }
    var m := Lookup(mem, k, s);
    if m.Some? {
      return Answer(m);
    }
    WholeL0(v, k);
    for i := |v[0]| downto 0
      invariant FirstHit(Tables(SearchFiles(v, k)), k, s) ==
                  FirstHit(Tables(Reversed(v[0][..i]) + Candidates(v, 1, k)), k, s)
    {
      ReversedPush(v[0], i);
      assert Reversed(v[0][..i + 1]) + Candidates(v, 1, k) == [v[0][i]] + (Reversed(v[0][..i]) + Candidates(v, 1, k));
      HitHead(v[0][i], Reversed(v[0][..i]) + Candidates(v, 1, k), k, s);
      var hit := Lookup(v[0][i].table, k, s);
      if hit.Some? {
        return Answer(hit);
      }
    }
    NoL0(v, k);
    for l := 1 to MAX_LEVELS
      invariant FirstHit(Tables(SearchFiles(v, k)), k, s) == FirstHit(Tables(Candidates(v, l, k)), k, s)
    {
      CandidatesStep(v, l, k);
      var i := FindUpperBound(v[l], k);
      if i > 0 && !Less(v[l][i - 1].largest, k) {
        HitHead(v[l][i - 1], Candidates(v, l + 1, k), k, s);
        var hit := Lookup(v[l][i - 1].table, k, s);
        if hit.Some? {
          return Answer(hit);
        }
      }
    }
    NoCandidatesLeft(v, k, s);
    r := None;
  }

  lemma MemFirst(mem: seq<Entry>, v: Version, k: Bytes, s: nat)
    ensures FirstHit([mem] + Tables(SearchFiles(v, k)), k, s) ==
            if Lookup(mem, k, s).Some? then Lookup(mem, k, s) else FirstHit(Tables(SearchFiles(v, k)), k, s)
  {
    assert ([mem] + Tables(SearchFiles(v, k)))[1..] == Tables(SearchFiles(v, k));
  }

  lemma WholeL0(v: Version, k: Bytes)
    ensures SearchFiles(v, k) == Reversed(v[0][..|v[0]|]) + Candidates(v, 1, k)
  {
    assert v[0][..|v[0]|] == v[0];
  }

  lemma NoL0(v: Version, k: Bytes)
    ensures Reversed(v[0][..0]) + Candidates(v, 1, k) == Candidates(v, 1, k)
  {
  }

  lemma CandidatesStep(v: Version, l: nat, k: Bytes)
    requires 1 <= l < MAX_LEVELS
    ensures var i := UpperBound(v[l], k);
            Candidates(v, l, k) ==
              if i > 0 && !Less(v[l][i - 1].largest, k) then [v[l][i - 1]] + Candidates(v, l + 1, k)
              else Candidates(v, l + 1, k)
  {
  }

  lemma NoCandidatesLeft(v: Version, k: Bytes, s: nat)
    ensures FirstHit(Tables(Candidates(v, MAX_LEVELS, k)), k, s) == None
  {
  }

  // ------------------------------------------------------------------ the DB

  method LargestOf(S: set<nat>) returns (m: nat)
    ensures m == MaxOf(S)
  {
    m := 0;
    var rest := S;
    while rest != {}
      invariant rest <= S
      invariant forall n :: n in S - rest ==> n <= m
      invariant m == 0 || m in S
    {
      var n: nat :| n in rest;
      assert S - (rest - {n}) == (S - rest) + {n};
      if n > m { m := n; }
      rest := rest - {n};
    }
    assert S - rest == S;
    MaxIsMember(S);
  }

  lemma {:induction false} MaxIsMember(S: set<nat>)
    ensures MaxOf(S) == 0 || MaxOf(S) in S
    decreases S
  {
    if S != {} {
      forall n: nat | n in S ensures MaxOf(S - {n}) == 0 || MaxOf(S - {n}) in S - {n} { MaxIsMember(S - {n}); }
    }
  }

  method OldestLive(snapshots: multiset<nat>) returns (m: nat)
    ensures m == OldestSnapshot(snapshots)
  {
    if snapshots == multiset{} {
      return MAX_SEQ;
    }
    m :| m in snapshots;
    var rest := snapshots;
    while rest != multiset{}
      invariant m in snapshots && rest <= snapshots
      invariant forall t :: t in snapshots ==> t in rest || m <= t
    {
      var t: nat :| t in rest;
      if t < m { m := t; }
      rest := rest[t := 0];
    }
  }

  /** The leader's numbering loop. */
  method NumberBatch(ws: seq<Write>, first: nat) returns (batch: seq<Entry>)
    ensures batch == Stamp(ws, first)
  {
    batch := [];
    for i := 0 to |ws|
      invariant batch == Stamp(ws, first)[..i]
    {
      batch := batch + [EntryOf(ws[i], first + i)];
    }
  }

  /** Apply records to the memtable one after the other. */
  method ApplyRecords(mem: seq<Entry>, records: seq<Entry>) returns (m: seq<Entry>)
    ensures m == InsertAll(mem, records)
  {
    m := mem;
    for i := 0 to |records|
      invariant m == InsertAll(mem, records[..i])
    {
      assert records[..i + 1][..i] == records[..i];
      m := Insert(m, records[i]);
    }
    assert records[..|records|] == records;
  }

  ghost predicate CrcReady(table: array<bv32>)
    reads table
  {
    table.Length == 256 && forall i: bv8 :: table[Coding.ByteValue(i)] == Crc.TableEntry(i)
  }

  class DB {
    var opts: Options
    var mem: seq<Entry>
    var walFile: Bytes
    var manifestFile: Bytes
    var files: FileStore
    var version: Version
    var nextSst: nat
    var nextSeq: nat
    var liveSnapshots: multiset<nat>
    const crc: array<bv32>
    ghost var log: seq<Write>
    ghost var acked: nat

    ghost function Value(): Store
      reads this
    {
      Store(opts, mem, Raw(walFile, manifestFile), files, version, nextSst, nextSeq, liveSnapshots, log, acked)
    }

    ghost predicate Valid()
      reads this, crc
    {
      CrcReady(crc) && Sound(Value())
    }

    /** open: replay and cut the log, load the MANIFEST, rebuild the version, drop orphans, renumber. */
    constructor Open(walFile: Bytes, manifestFile: Bytes, files: FileStore, opts: Options,
                     ghost log: seq<Write>, ghost acked: nat)
      requires var down := Down(Loaded(Raw(walFile, manifestFile), files), log, acked);
               Inv(down) && OnBytes(down, Raw(walFile, manifestFile))
      ensures Valid() && fresh(crc)
      ensures Value() == Opened(Raw(walFile, manifestFile), files, opts, log, acked)
    {
      hide Inv, InsertAll, Rebuild, Files, Stored, MaxOf, LiveFiles, OnBytes, LoadLatest, Clean, Wal.Replay, Wal.Log;
      hide Crc.TableEntry, Coding.ByteValue, Wal.ToEntries, Wal.InLimit, Sound;
      OpenedSound(Raw(walFile, manifestFile), files, opts, log, acked);
      var t := Crc.BuildTable();
      var records := WalFile.ReplayFile(walFile, t);
      var end := WalFile.ValidEnd(records);
      Wal.ReplayInLimit(walFile);
      var manifest := ManifestFile.LoadLatestFile(manifestFile, t);
      var mem := ApplyRecords([], Wal.ToEntries(records));
      var v := Rebuild(manifest, files);
      var seqs := (set e | e in mem :: e.seqno)
        + (set l, i, e | 0 <= l < MAX_LEVELS && 0 <= i < |v[l]| && e in v[l][i].table :: e.seqno);
      assert seqs == set e | e in Stored(mem, Files(v)) :: e.seqno by { StoredSeqs(mem, v); }
      var top := LargestOf(seqs);
      var num := LargestOf(files.Keys + set e | e in manifest :: e.number);
      this.opts := opts;
      this.mem := mem;
      this.walFile := walFile[..end];
      this.manifestFile := manifestFile;
      this.files := LiveFiles(manifest, files);
      this.version := v;
      this.nextSst := 1 + num;
      this.nextSeq := 1 + top;
      this.liveSnapshots := multiset{};
      this.crc := t;
      this.log := log;
      this.acked := acked;
      new;
      assert Value() == Opened(Raw(walFile, manifestFile), files, opts, log, acked);
    }

    /**
     * The leader's part of write: number the batch, log it, apply it, acknowledge it. The
     * store is sound again if replay can read the batch.
     */
    method WriteBatch(ws: seq<Write>)
      requires Valid() && Assigning(StateOf(Value()), ws)
      modifies this
      ensures Value() == Written(old(Value()), ws)
      ensures AllReplayable(ws) ==> Valid()
    {
      hide Inv, InsertAll, Stamp, OnBytes, Loaded, Wal.Log, AllReplayable, Sound, Wal.ToRecords;
      hide Crc.TableEntry, Coding.ByteValue;
      ghost var st := Value();
      if AllReplayable(ws) { WrittenSound(st, ws); }
      var batch := NumberBatch(ws, nextSeq);
      var out := WalFile.EncodeBatch(Wal.ToRecords(batch), crc);
      nextSeq := nextSeq + |ws|;
      walFile := walFile + out;
      mem := ApplyRecords(mem, batch);
      log := log + ws;
      acked := |log|;
    }

    /**
     * flush: file on disk, MANIFEST, new version, then an empty log and memtable. The store is
     * sound again if the MANIFEST had no torn tail and the new snapshot is one it can load.
     */
    method Flush()
      requires Valid() && (mem != [] ==> Encodable(FlushManifest(Value())))
      modifies this
      ensures Value() == if old(mem) == [] then old(Value()) else Flushed(old(Value()))
      ensures old(mem) == [] || old(Flushable(Value())) ==> Valid()
    {
      hide VersionToManifest, FlushedVersion, Snapshot, Encodable, Sound, Flushable, Crc.TableEntry, Coding.ByteValue;
      hide Inv, OnBytes, Loaded, Flushed, FlushManifest, StateOf;
      if mem == [] {
        return;
      }
      ghost var st := Value();
      FlushedIs(st);
      if Flushable(st) { FlushedSound(st); }
      var number := nextSst;
      nextSst := nextSst + 1;
      files := files[number := mem];
      var v := FlushedVersion(version, number, mem);
      var out := ManifestFile.EncodeSnapshot(VersionToManifest(v), crc);
      manifestFile := manifestFile + out;
      version := v;
      walFile := [];
      mem := [];
    }

    method GetSnapshot() returns (t: nat)
      requires Valid()
      modifies `liveSnapshots
      ensures Valid() && t == nextSeq - 1 && t in liveSnapshots
      ensures old(nextSeq) >= 1 && Value() == Snapped(old(Value()))
      ensures liveSnapshots == old(liveSnapshots)[t := old(liveSnapshots)[t] + 1]
    {
      hide Sound;
      SnappedSound(Value());
      t := nextSeq - 1;
      liveSnapshots := liveSnapshots + multiset{t};
    }

    method ReleaseSnapshot(t: nat)
      requires Valid()
      modifies `liveSnapshots
      ensures Valid() && Value() == Released(old(Value()), t)
      ensures forall u: nat ::
                liveSnapshots[u] == old(liveSnapshots)[u] - if u == t && t in old(liveSnapshots) then 1 else 0
    {
      hide Sound;
      ReleasedSound(Value(), t);
      if t in liveSnapshots {
        liveSnapshots := liveSnapshots - multiset{t};
      } else {
        assert liveSnapshots - multiset{t} == liveSnapshots;
      }
    }

    /** get answers what the newest durable write of the key says. */
    method GetNewest(k: Bytes) returns (r: Option<Bytes>)
      requires Valid()
      ensures r == Last(log, k)
    {
      hide Inv, Last, Get, OnBytes;
      InvArranged(StateOf(Value()));
      r := GetImpl(mem, version, k, MAX_SEQ);
      InvReadsLog(StateOf(Value()), k);
    }

    method GetAt(k: Bytes, t: nat) returns (r: Option<Bytes>)
      requires Valid()
      ensures r == Read(Held(StateOf(Value()).db), k, t)
    {
      hide Inv, Read, Get, OnBytes;
      InvArranged(StateOf(Value()));
      r := GetImpl(mem, version, k, t);
      GetMeansRead(StateOf(Value()), k, t);
    }

    /** A scan lists exactly the keys in range that hold a value, with that value. */
    method ScanNewest(start: Bytes, end: Bytes) returns (out: seq<(Bytes, Bytes)>)
      requires Valid()
      ensures forall i, j :: 0 <= i < j < |out| ==> Less(out[i].0, out[j].0)
      ensures forall k, val :: (k, val) in out <==> !Less(k, start) && !Less(end, k) && Last(log, k) == Some(val)
    {
      hide Inv, Last, Get, Healthy, OnBytes;
      InvHealthy(StateOf(Value()));
      out := Scanning.Scan(mem, version, start, end, MAX_SEQ);
      forall k ensures Get(mem, version, k, MAX_SEQ) == Last(log, k) { InvReadsLog(StateOf(Value()), k); }
    }

    /** Number and install the output files, one after the other. */
    method InstallOutputs(parts: seq<seq<Entry>>) returns (numbers: seq<nat>)
      modifies `files, `nextSst
      ensures numbers == Numbers(old(nextSst), |parts|) && nextSst == old(nextSst) + |parts|
      ensures files == WithOutputs(old(files), old(nextSst), parts)
    {
      hide WithOutputs;
      numbers := [];
      NoOutputs(files, nextSst, parts);
      for i := 0 to |parts|
        invariant numbers == Numbers(old(nextSst), i) && nextSst == old(nextSst) + i
        invariant files == WithOutputs(old(files), old(nextSst), parts[..i])
      {
        MoreOutputs(old(files), old(nextSst), parts, i);
        numbers := numbers + [nextSst];
        files := files[nextSst := parts[i]];
        nextSst := nextSst + 1;
      }
    }

    /** Append the MANIFEST snapshot and swap the version in. */
    method CommitOutputs(r: Running)
      requires CrcReady(crc) && |r.numbers| == |r.parts| && r.job.out < MAX_LEVELS
      requires forall i :: 0 <= i < |r.parts| ==> r.parts[i] != []
      requires Encodable(VersionToManifest(CommittedVersion(version, r)))
      modifies `version, `manifestFile
      ensures version == CommittedVersion(old(version), r)
      ensures manifestFile == old(manifestFile) + Snapshot(VersionToManifest(version))
    {
      hide VersionToManifest, CommittedVersion, Snapshot, Encodable, Crc.TableEntry, Coding.ByteValue;
      var v := CommittedVersion(version, r);
      var out := ManifestFile.EncodeSnapshot(VersionToManifest(v), crc);
      manifestFile := manifestFile + out;
      version := v;
    }

    /** Pick, merge and cut, before anything is installed. */
    method PlanTurn(force: bool, ghost merged: seq<Entry>) returns (r: Running)
      requires Valid()
      requires var r := Finished(Value(), force, merged); r.job.inputs != [] ==> IsMerge(r.job.inputs, merged)
      ensures r.job == Finished(Value(), force, merged).job
      ensures r.job.inputs != [] ==> r.(numbers := Numbers(nextSst, |r.parts|), written := |r.parts|)
                                     == Finished(Value(), force, merged)
    {
      hide Pick, IsMerge, OldestSnapshot, Split, Collect, Sound, Finished;
      FinishedIs(Value(), force, merged);
      var job := Compactor.PickCompaction(version, opts, force);
      var oldest := OldestLive(liveSnapshots);
      r := Running(job, oldest, [], [], [], 0);
      if job.inputs == [] {
        return;
      }
      JobTablesSorted(Value(), force);
      var stream := Merging.MergeVersions(Tables(job.inputs));
      MergeIsUnique(Value(), force, merged, stream);
      var parts := Compactor.WriteOutputs(stream, oldest, job.bottom, opts.targetFileSize);
      r := Running(job, oldest, stream, parts, [], 0);
    }

    /**
     * One turn of the compaction loop: pick, merge, write the outputs, commit. When the picked
     * range misses nothing, the outputs are cut between keys, and the MANIFEST takes the new
     * snapshot, the store is sound again and no read a live or later snapshot can make changes.
     */
    method Compact(force: bool, ghost merged: seq<Entry>) returns (committed: bool)
      requires Valid()
      requires var r := Finished(Value(), force, merged);
               r.job.inputs != [] ==> IsMerge(r.job.inputs, merged) && (r.parts != [] ==> Ready(Value(), force, merged))
      modifies `files, `nextSst, `version, `manifestFile
      ensures committed <==> old(var r := Finished(Value(), force, merged); r.job.inputs != [] && r.parts != [])
      ensures committed ==> old(Ready(Value(), force, merged)) && Value() == Compacted(old(Value()), force, merged)
      ensures !committed ==> Value() == old(Value()) && Valid()
      ensures committed && old(Compactable(Value(), force, merged)) ==>
                && Valid()
                && SameReads(Held(StateOf(Value()).db), old(Held(StateOf(Value()).db)), liveSnapshots, nextSeq)
    {
      hide SameReads, Held, IsMerge, CommittedVersion, StateOf, VersionToManifest, Encodable, Snapshot, WithOutputs;
      hide Finished, Ready, Compacted, Compactable, Sound, Crc.TableEntry, Coding.ByteValue;
      ghost var st := Value();
      var r := PlanTurn(force, merged);
      if r.job.inputs == [] || r.parts == [] {
        return false;
      }
      CompactedIs(st, force, merged);
      var numbers := InstallOutputs(r.parts);
      CommitOutputs(r.(numbers := numbers, written := |r.parts|));
      if Compactable(st, force, merged) { CompactedSound(st, force, merged); }
      committed := true;
    }
  }

  lemma FlushedIs(st: Store)
    requires st.mem != [] && Encodable(FlushManifest(st))
    ensures var v := FlushedVersion(st.version, st.nextSst, st.mem);
            && FlushManifest(st) == VersionToManifest(v)
            && Flushed(st) == st.(raw := Raw([], st.raw.manifest + Snapshot(VersionToManifest(v))), version := v,
                                  files := st.files[st.nextSst := st.mem], nextSst := st.nextSst + 1, mem := [])
  {
    hide FlushedVersion, VersionToManifest, Snapshot, Encodable;
  }

  lemma FinishedIs(st: Store, force: bool, merged: seq<Entry>)
    ensures var job, oldest := Pick(st.version, st.opts, force), OldestSnapshot(st.snapshots);
            var parts := Split(Collect(merged, oldest, job.bottom, [], false), st.opts.targetFileSize, [], 0);
            Finished(st, force, merged)
            == Running(job, oldest, merged, parts, Numbers(st.nextSst, |parts|), |parts|)
  {
    hide Pick, OldestSnapshot, Split, Collect;
  }

  lemma CompactedIs(st: Store, force: bool, merged: seq<Entry>)
    requires Ready(st, force, merged)
    ensures var r := Finished(st, force, merged);
            && |r.numbers| == |r.parts| && r.job.out < MAX_LEVELS
            && (forall i :: 0 <= i < |r.parts| ==> r.parts[i] != [])
            && var v := CommittedVersion(st.version, r);
               && Encodable(VersionToManifest(v))
               && Compacted(st, force, merged)
                  == st.(raw := st.raw.(manifest := st.raw.manifest + Snapshot(VersionToManifest(v))), version := v,
                         files := WithOutputs(st.files, st.nextSst, r.parts), nextSst := st.nextSst + |r.parts|)
  {
    hide PickRunning, IsMerge, CommittedVersion, VersionToManifest, Snapshot, Encodable, WithOutputs;
  }

  /** Equal sequence numbers mean equal entries, so the sorted merge is one sequence. */
  lemma MergeIsUnique(st: Store, force: bool, a: seq<Entry>, b: seq<Entry>)
    requires Sound(st)
    requires var fs := Pick(st.version, st.opts, force).inputs;
             IsMerge(fs, a) && Sorted(b) && multiset(b) == Merging.Bag(Tables(fs))
    ensures a == b
  {
    hide DiskInv, BelowNext, LogInv, FlushInv, RunningInv, SeqInv, Files, StoredIn, FilesOk, Arranged, OnBytes, Pick;
    PickLevelBound(st.version, st.opts, force);
    assert Functional(Elements(a)) by { InputsFunctional(StateOf(st), Pick(st.version, st.opts, force), a); }
    SortedUnique(a, b);
  }

  lemma InputsFunctional(s: State, job: Job, a: seq<Entry>)
    requires s.Up? && LayersOk(s.db.mem, Files(s.db.version)) && SetOf(job.inputs) <= Files(s.db.version)
    requires IsMerge(job.inputs, a)
    ensures Functional(Elements(a))
  {
    hide Files, FilesOk;
    MergeElements(job.inputs, a);
    InputsStored(s.db.mem, Files(s.db.version), SetOf(job.inputs));
  }

  lemma SameHead(a: seq<Entry>, b: seq<Entry>)
    requires a != [] && b != [] && Sorted(a) && Sorted(b) && multiset(a) == multiset(b) && Functional(Elements(a))
    ensures a[0] == b[0]
  {
    assert a[0] in multiset(b) && b[0] in multiset(a);
    var i :| 0 <= i < |b| && b[i] == a[0];
    var j :| 0 <= j < |a| && a[j] == b[0];
    assert i > 0 ==> !Before(a[0], b[0]);
    assert j > 0 ==> !Before(b[0], a[0]);
    LessTotal(a[0].key, b[0].key);
  }

  lemma {:induction false} SortedUnique(a: seq<Entry>, b: seq<Entry>)
    requires Sorted(a) && Sorted(b) && multiset(a) == multiset(b) && Functional(Elements(a))
    ensures a == b
  {
    assert |a| == |multiset(a)| && |b| == |multiset(b)|;
    if a != [] {
      SameHead(a, b);
      assert a == [a[0]] + a[1..] && b == [b[0]] + b[1..];
      assert multiset(a[1..]) == multiset(a) - multiset{a[0]};
      assert multiset(b[1..]) == multiset(b) - multiset{b[0]};
      SortedUnique(a[1..], b[1..]);
    }
  }

  lemma {:induction false} OverfullBound(v: Version, opts: Options, level: nat)
    requires 1 <= level < MAX_LEVELS
    ensures PickOverfull(v, opts, level).out < MAX_LEVELS
    ensures forall f :: f in PickOverfull(v, opts, level).inputs ==> f in Files(v)
    decreases MAX_LEVELS - level
  {
    if level < MAX_LEVELS - 1 {
      OverfullBound(v, opts, level + 1);
      if v[level] != [] {
        forall f | f in PickLevel(v, level).inputs ensures f in Files(v) {
          Layout.FileInLevel(v, if f in v[level] then level else level + 1, f);
        }
      }
    }
  }

  /** The inputs of a job are files of the version it was picked from. */
  lemma PickLevelBound(v: Version, opts: Options, force: bool)
    ensures Pick(v, opts, force).out < MAX_LEVELS
    ensures forall f :: f in Pick(v, opts, force).inputs ==> f in Files(v)
  {
    OverfullBound(v, opts, 1);
    forall f | f in Flatten(v) ensures f in Files(v) { FlattenMembers(v, f); }
    forall f | f in PickL0(v).inputs ensures f in Files(v) {
      Layout.FileInLevel(v, if f in v[0] then 0 else 1, f);
    }
  }

  lemma JobTablesSorted(st: Store, force: bool)
    requires Sound(st)
    ensures Merging.AllSorted(Tables(Pick(st.version, st.opts, force).inputs))
  {
    hide Arranged, LayersOk, DiskInv, BelowNext, LogInv, FlushInv, RunningInv, SeqInv, Files, Stored, Pick, OnBytes;
    LayersParts(st.mem, Files(st.version));
    PickLevelBound(st.version, st.opts, force);
    var fs := Pick(st.version, st.opts, force).inputs;
    forall i | 0 <= i < |fs| ensures Sorted(Tables(fs)[i]) { assert fs[i] in fs; }
  }

  lemma StoredSeqs(mem: seq<Entry>, v: Version)
    ensures (set e | e in mem :: e.seqno)
            + (set l, i, e | 0 <= l < MAX_LEVELS && 0 <= i < |v[l]| && e in v[l][i].table :: e.seqno)
         == set e | e in Stored(mem, Files(v)) :: e.seqno
  {
    var a := set e | e in mem :: e.seqno;
    var b := set l, i, e | 0 <= l < MAX_LEVELS && 0 <= i < |v[l]| && e in v[l][i].table :: e.seqno;
    var c := set e | e in Stored(mem, Files(v)) :: e.seqno;
    forall n | n in b ensures n in c {
      var l, i, e :| 0 <= l < MAX_LEVELS && 0 <= i < |v[l]| && e in v[l][i].table && e.seqno == n;
      assert v[l][i] in Files(v);
      assert e in StoredIn(Files(v));
    }
    forall n | n in a ensures n in c {
      var e :| e in mem && e.seqno == n;
      assert e in Elements(mem);
    }
    forall n | n in c ensures n in a + b {
      var e :| e in Stored(mem, Files(v)) && e.seqno == n;
      if e !in mem {
        var f :| f in Files(v) && e in f.table;
        var l, i :| 0 <= l < MAX_LEVELS && 0 <= i < |v[l]| && v[l][i] == f;
        assert e in v[l][i].table;
      }
    }
  }

  lemma InvHealthy(s: State)
    requires Inv(s) && s.Up?
    ensures Healthy(s.db.mem, s.db.version)
  {
    hide Healthy, DiskInv, BelowNext, LogInv, SeqInv, FlushInv, RunningInv, Files, Stored;
  }

  lemma InvArranged(s: State)
    requires Inv(s) && s.Up?
    ensures Arranged(s.db.version)
  {
    hide Arranged, LayersOk, DiskInv, BelowNext, LogInv, SeqInv, FlushInv, RunningInv, Files, Stored;
  }
}
