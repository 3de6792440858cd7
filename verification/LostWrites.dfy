// Where acknowledged writes are lost, on the bytes of the disk: a flush whose snapshot is not
// read back, because it is over the limits of the reader or lies behind a torn one, and a log
// record over the limit of replay.
module LostWrites {
  import opened Keys
  import opened Entries
  import opened Versions
  import opened Picking
  import opened Recovery
  import opened Machine
  import opened Safety
  import opened Runs
  import opened Manifest
  import opened Coding
  import opened DiskBytes
  import Layout
  import SnapshotTiming
  import Wal

  // ------------------------------------------------------- a flush on the bytes

  function FlushManifest(s: State): seq<ManifestEntry>
    requires s.Up? && s.db.mem != []
  {
    VersionToManifest(FlushedVersion(s.db.version, s.db.nextSst, s.db.mem))
  }

  /** The store after a flush, whatever becomes of its snapshot, a crash and an open. */
  ghost function Reopened(s: State, raw: Raw, opts: Options): State
    requires s.Up? && s.db.mem != [] && Encodable(FlushManifest(s))
  {
    var raw' := Raw([], raw.manifest + Snapshot(FlushManifest(s)));
    DoOpen(Down(Loaded(raw', s.disk.files[s.db.nextSst := s.db.mem]), s.log, s.acked), opts)
  }

  /** The snapshot of the flush is not the one in force afterwards. */
  ghost predicate Unread(s: State, raw: Raw)
    requires s.Up? && s.db.mem != [] && Encodable(FlushManifest(s))
  {
    LoadLatest(raw.manifest + Snapshot(FlushManifest(s))) == s.disk.manifest
  }

  lemma FilesAlone(mem: seq<Entry>, v: Version)
    requires Healthy(mem, v)
    ensures Healthy([], v) && Stored([], Files(v)) == StoredIn(Files(v))
  {
    hide Files, FilesOk, Arranged;
    assert Stored([], Files(v)) == StoredIn(Files(v));
    assert Sorted([]);
  }

  lemma FlushLeavesFiles(s: State)
    requires Inv(s) && s.Up?
    ensures OnDisk(Files(s.db.version), s.disk.files[s.db.nextSst := s.db.mem])
  {
    hide Healthy, SeqInv, SnapInv, LogInv, FlushInv, RunningInv, Files, Stored, VersionToManifest;
  }

  /** The reopened store has the old version and an empty memtable; the flushed table is gone as an orphan. */
  lemma UnreadFlushReopens(s: State, raw: Raw, opts: Options)
    requires Inv(s) && s.Up? && s.db.mem != [] && Encodable(FlushManifest(s)) && Unread(s, raw)
    ensures var r := Reopened(s, raw, opts);
            r.db.mem == [] && r.db.version == s.db.version && s.db.nextSst !in r.disk.files
  {
    hide Arranged, LayersOk, LogInv, Files, StoredIn, Rebuild, VersionToManifest, OnDisk, MaxOf, Stored, Snapshot;
    hide Encodable, LoadLatest, Clean;
    LayersParts(s.db.mem, Files(s.db.version));
    FlushLeavesFiles(s);
    RebuildRestores(s.db.version, s.disk.files[s.db.nextSst := s.db.mem]);
    NotInManifest(s);
    NothingReplayed();
  }

  lemma NothingReplayed()
    ensures Wal.ToEntries(Wal.Replay([])) == [] && InsertAll([], []) == []
  {
    Wal.ReplayNothing();
  }

  lemma {:induction false} DescribedIsListed(fs: seq<FileMeta>, e: ManifestEntry)
    requires e in Describe(fs)
    ensures exists f :: f in fs && f.number == e.number
  {
    var i :| 0 <= i < |Describe(fs)| && Describe(fs)[i] == e;
    assert fs[i] in fs;
  }

  lemma NotInManifest(s: State)
    requires Inv(s) && s.Up?
    ensures forall e :: e in s.disk.manifest ==> e.number != s.db.nextSst
  {
    hide Healthy, SeqInv, SnapInv, LogInv, FlushInv, RunningInv, Stored, Flatten, OnDisk, Describe;
    forall e | e in s.disk.manifest ensures e.number != s.db.nextSst {
      DescribedIsListed(Flatten(s.db.version), e);
      var f :| f in Flatten(s.db.version) && f.number == e.number;
      FlattenMembers(s.db.version, f);
    }
  }

  /**
   * After a flush whose snapshot is not read back, a crash and an open, get answers from the
   * old files alone: right for exactly the keys on which they agree with the memtable.
   */
  lemma UnreadFlushLoses(s: State, raw: Raw, opts: Options, k: Bytes)
    requires Inv(s) && s.Up? && s.db.mem != [] && Encodable(FlushManifest(s)) && Unread(s, raw)
    ensures var r := Reopened(s, raw, opts);
            && Get(r.db.mem, r.db.version, k, MAX_SEQ) == Read(StoredIn(Files(s.db.version)), k, MAX_SEQ)
            && (Get(r.db.mem, r.db.version, k, MAX_SEQ) == Last(s.log, k) <==>
                Read(StoredIn(Files(s.db.version)), k, MAX_SEQ) == Read(Held(s.db), k, MAX_SEQ))
  {
    hide Get, Read, Arranged, LayersOk, Files, StoredIn, Stored, Last, Reopened, FlushManifest, Unread, Encodable;
    UnreadFlushReopens(s, raw, opts);
    FilesAlone(s.db.mem, s.db.version);
    GetReadsNewest([], s.db.version, k, MAX_SEQ);
    InvReadsLog(s, k);
    GetMeansRead(s, k, MAX_SEQ);
  }

  // ----------------------------------------- exactly when a flush is read back

  /** The steps of a flush, one after the other, and a crash. */
  function CrashedFlush(s: State): (t: State)
    requires CanFlushInstall(s)
    ensures t.Down?
  {
    DoCrash(DoFlushClear(DoFlushPublish(DoFlushInstall(s))), 0)
  }

  lemma FlushRuns(s: State, opts: Options)
    requires Inv(s) && CanFlushInstall(s) && CanAppend(s.disk, FlushManifest(s))
    ensures Inv(CrashedFlush(s)) && CrashedFlush(s).log == s.log
    ensures DoOpen(CrashedFlush(s), opts).db.version == FlushedVersion(s.db.version, s.db.nextSst, s.db.mem)
  {
    hide Inv, Encodable, Loads, FlushedVersion, VersionToManifest, Recover;
    FlushInstallKeepsInv(s);
    FlushPublishKeepsInv(DoFlushInstall(s));
    var t := DoFlushClear(DoFlushPublish(DoFlushInstall(s)));
    FlushClearKeepsInv(DoFlushPublish(DoFlushInstall(s)));
    CrashKeepsInv(t, 0);
    CrashKeepsVersion(t, 0);
    assert t.db.pending[..0] == [] && t.log + [] == t.log;
    CrashThenOpen(t, 0, opts);
  }

  lemma ReadFlushReopens(s: State, raw: Raw, opts: Options)
    requires OnBytes(s, raw) && CanFlushInstall(s) && CanAppend(s.disk, FlushManifest(s))
    ensures Reopened(s, raw, opts) == DoOpen(CrashedFlush(s), opts)
  {
    hide Recover, LiveFiles, Snapshot, LoadLatest, Clean, Encodable, Loads, VersionToManifest, FlushedVersion;
    hide Wal.Storable, LogOf, Wal.Replay, Wal.ToEntries;
    AppendToClean(raw.manifest, FlushManifest(s));
    NothingReplayed();
    var t := DoFlushClear(DoFlushPublish(DoFlushInstall(s)));
    assert t.db.pending[..0] == [] && Writes([]) == [];
    assert t.disk.wal + [] == t.disk.wal && t.log + [] == t.log;
  }

  lemma ReadFlushKeeps(s: State, raw: Raw, opts: Options, k: Bytes)
    requires Inv(s) && OnBytes(s, raw) && CanFlushInstall(s) && CanAppend(s.disk, FlushManifest(s))
    ensures var r := Reopened(s, raw, opts);
            && r.db.version == FlushedVersion(s.db.version, s.db.nextSst, s.db.mem)
            && Get(r.db.mem, r.db.version, k, MAX_SEQ) == Last(s.log, k)
  {
    hide Inv, Get, Last, Reopened, CrashedFlush, Encodable, Loads, FlushedVersion, VersionToManifest, OnBytes, Recover;
    FlushRuns(s, opts);
    ReadFlushReopens(s, raw, opts);
    OpenKeepsInv(CrashedFlush(s), opts);
    InvReadsLog(DoOpen(CrashedFlush(s), opts), k);
  }

  lemma Grown(v: Version, number: nat, mem: seq<Entry>)
    requires mem != []
    ensures FlushedVersion(v, number, mem) != v
  {
    assert |FlushedVersion(v, number, mem)[0]| == |v[0]| + 1;
  }

  /**
   * A flush onto a MANIFEST without a torn tail is in force after a crash and an open if and
   * only if its snapshot is one the reader can load; then nothing is lost, and otherwise
   * everything that was only in the memtable is.
   */
  lemma FlushSurvivesIff(s: State, raw: Raw, opts: Options, k: Bytes)
    requires Inv(s) && OnBytes(s, raw) && CanFlushInstall(s) && !s.disk.torn && Encodable(FlushManifest(s))
    ensures var r := Reopened(s, raw, opts);
            && (r.db.version == FlushedVersion(s.db.version, s.db.nextSst, s.db.mem) <==> Loads(FlushManifest(s)))
            && Get(r.db.mem, r.db.version, k, MAX_SEQ)
               == if Loads(FlushManifest(s)) then Last(s.log, k)
                  else Read(StoredIn(Files(s.db.version)), k, MAX_SEQ)
  {
    hide Inv, Get, Last, Read, StoredIn, Files, Reopened, FlushManifest, Encodable, Loads, FlushedVersion, Snapshot;
    if Loads(FlushManifest(s)) {
      ReadFlushKeeps(s, raw, opts, k);
    } else {
      AppendUnloaded(raw.manifest, FlushManifest(s));
      UnreadFlushReopens(s, raw, opts);
      UnreadFlushLoses(s, raw, opts, k);
      Grown(s.db.version, s.db.nextSst, s.db.mem);
    }
  }

  /** A value that was only in the memtable is lost, acknowledged or not. */
  lemma AcknowledgedWriteLost(s: State, raw: Raw, opts: Options, e: Entry)
    requires Inv(s) && s.Up? && s.db.mem != [] && Encodable(FlushManifest(s)) && Unread(s, raw)
    requires e in s.db.mem && !e.tombstone && IsNewest(Held(s.db), e.key, MAX_SEQ, Some(e))
    requires forall d :: d in StoredIn(Files(s.db.version)) ==> d.key != e.key
    ensures var r := Reopened(s, raw, opts);
            Last(s.log, e.key) == Some(e.value) && Get(r.db.mem, r.db.version, e.key, MAX_SEQ) == None
  {
    hide Reopened, Encodable, Unread, FlushManifest;
    var F := Files(s.db.version);
    UnreadFlushLoses(s, raw, opts, e.key);
    InvReadsLog(s, e.key);
    GetMeansRead(s, e.key, MAX_SEQ);
    NewestOf(s, e);
    assert IsNewest(StoredIn(F), e.key, MAX_SEQ, None);
    FunctionalFiles(s.db.mem, s.db.version);
    NewestUnique(StoredIn(F), e.key, MAX_SEQ, None);
  }

  lemma NewestOf(s: State, e: Entry)
    requires Inv(s) && s.Up? && IsNewest(Held(s.db), e.key, MAX_SEQ, Some(e)) && !e.tombstone
    ensures Read(Held(s.db), e.key, MAX_SEQ) == Some(e.value)
  {
    hide Arranged, FilesOk, Files, Stored, Over, IsNewest;
    HealthyIsFunctional(s.db.mem, Files(s.db.version));
    NewestUnique(Held(s.db), e.key, MAX_SEQ, Some(e));
  }

  lemma FunctionalFiles(mem: seq<Entry>, v: Version)
    requires Healthy(mem, v)
    ensures Functional(StoredIn(Files(v)))
  {
    hide Files, FilesOk, Arranged, Over;
    assert StoredIn(Files(v)) <= Stored(mem, Files(v));
  }

  // ------------------------------------------------------------ runs that lose

  /** The store after one acknowledged put of w, with its log and an empty MANIFEST. */
  ghost predicate OnePut(s: State, w: Write) {
    && s.Up? && Inv(s) && s.db.flush == NoFlush && s.db.mem == [EntryOf(w, 1)]
    && s.db.version == NoFiles() && s.disk.manifest == [] && s.log == [w] && s.acked == 1
  }

  lemma FreshStore(s: State, opts: Options)
    requires Init(s)
    ensures var up := DoOpen(s, opts);
            && Inv(up) && up.db.nextSeq == 1 && up.db.nextSst == 1 && up.db.mem == [] && up.db.version == NoFiles()
            && up.db.opts == opts && up.db.snapshots == multiset{}
            && up.db.pending == [] && up.db.flush == NoFlush && up.disk.wal == [] && up.disk.manifest == []
            && up.disk.files == map[] && !up.disk.torn && up.log == [] && up.acked == 0
  {
    hide Inv, Rebuild;
    InitInv(s);
    OpenKeepsInv(s, opts);
    SnapshotTiming.EmptyOpens(s, opts);
    NothingRebuilt();
  }

  lemma StampOne(w: Write)
    ensures Stamp([w], 1) == [EntryOf(w, 1)] && Writes([EntryOf(w, 1)]) == [w]
    ensures InsertAll([], [EntryOf(w, 1)]) == [EntryOf(w, 1)]
  {
    var es := [EntryOf(w, 1)];
    assert es[..0] == [] && InsertAll([], es[..0]) == [];
  }

  lemma RawStep(s: State, step: Step, raw: Raw, raw': Raw)
    requires Enabled(s, step) && Effect(s, step, raw, raw')
    ensures RawNext(s, raw, Do(s, step), raw')
  {
  }

  /** Open, put, acknowledge. */
  lemma PutRun(s: State, opts: Options, w: Write) returns (ss: seq<State>, raws: seq<Raw>)
    requires Init(s) && Replayable(w)
    ensures RawRun(ss, raws) && ss[0] == s
    ensures var t := ss[|ss| - 1];
            && OnePut(t, w) && t.db.nextSst == 1 && t.disk == Disk([EntryOf(w, 1)], [], map[], false)
            && raws[|raws| - 1] == Raw(LogOf([EntryOf(w, 1)]), [])
  {
    hide Inv, RawNext, Recover, InsertAll, Stamp, Writes, Replayable, LogOf, Wal.Replay, Wal.Log, Enabled, Do, Effect;
    FreshStore(s, opts);
    StampOne(w);
    Wal.ReplayNothing();
    NothingLogged();
    var s1 := DoOpen(s, opts);
    var s2 := DoAssign(s1, [w]);
    var s3 := DoApply(s2);
    var s4 := DoAck(s3);
    var empty, full := Raw([], []), Raw(LogOf([EntryOf(w, 1)]), []);
    OpenStep(s, opts);
    PutSteps(s1, w);
    ss, raws := [s, s1, s2, s3, s4], [empty, empty, empty, full, full];
    RunOnBytes(ss, raws, 4);
  }

  lemma OpenStep(s: State, opts: Options)
    requires Init(s)
    ensures RawNext(s, Raw([], []), DoOpen(s, opts), Raw([], []))
  {
    hide Recover, Wal.Replay, Wal.Log;
    Wal.ReplayNothing();
    NoRecords();
    RawStep(s, Open(opts), Raw([], []), Raw([], []));
  }

  lemma NoRecords()
    ensures Wal.Log([]) == []
  {
  }

  lemma PutSteps(s: State, w: Write)
    requires s.Up? && s.db.pending == [] && s.db.nextSeq == 1 && s.db.flush == NoFlush && Replayable(w)
    ensures var s2 := DoAssign(s, [w]);
            var s3 := DoApply(s2);
            var empty, full := Raw([], []), Raw(LogOf([EntryOf(w, 1)]), []);
            && RawNext(s, empty, s2, empty) && RawNext(s2, empty, s3, full) && RawNext(s3, full, DoAck(s3), full)
  {
    hide InsertAll, Stamp, Writes, LogOf, RawNext, CanPickJob, CanCommitJob, CanUnlink, CanAllocOutput, Replayable;
    hide CanWriteOutput, CanDropJob, CommittedVersion, VersionToManifest;
    StampOne(w);
    var s2 := DoAssign(s, [w]);
    var s3 := DoApply(s2);
    var empty, full := Raw([], []), Raw(LogOf([EntryOf(w, 1)]), []);
    RawStep(s, Assign([w]), empty, empty);
    RawStep(s2, Apply, empty, full);
    RawStep(s3, Ack, full, full);
  }

  lemma OneFileManifest(number: nat, e: Entry)
    ensures VersionToManifest(FlushedVersion(NoFiles(), number, [e])) == [ManifestEntry(number, 0, e.key, e.key)]
  {
    var f := Layout.MakeFile(number, 0, [e]);
    var v := FlushedVersion(NoFiles(), number, [e]);
    assert v[0] == [f];
    FlattenEmpty(v[1..]);
    assert Flatten(v) == [f];
  }

  lemma OnePutHolds(s: State, w: Write)
    requires OnePut(s, w) && w.value.Some?
    ensures var e := EntryOf(w, 1);
            && e in s.db.mem && !e.tombstone && IsNewest(Held(s.db), e.key, MAX_SEQ, Some(e))
            && StoredIn(Files(s.db.version)) == {}
  {
    hide Inv;
    assert Files(NoFiles()) == {};
    assert Held(s.db) == {EntryOf(w, 1)};
  }

  lemma OnePutLost(s: State, raw: Raw, opts: Options, w: Write)
    requires OnePut(s, w) && w.value.Some? && Encodable(FlushManifest(s)) && Unread(s, raw)
    ensures Get(s.db.mem, s.db.version, w.key, MAX_SEQ) == w.value
    ensures var r := Reopened(s, raw, opts); Get(r.db.mem, r.db.version, w.key, MAX_SEQ) == None
  {
    hide Inv, Get, Reopened, Encodable, Unread, FlushManifest, IsNewest, Held;
    OnePutHolds(s, w);
    AcknowledgedWriteLost(s, raw, opts, EntryOf(w, 1));
    InvReadsLog(s, w.key);
  }

  /**
   * A run that loses an acknowledged put to a long key: the log takes it, the flush appends a
   * snapshot the reader cannot load and empties the log, and the next open has neither.
   */
  lemma LongKeyRunLoses(s: State, opts: Options, key: Bytes, value: Bytes) returns (ss: seq<State>, raws: seq<Raw>)
    requires Init(s) && SPARE < |key| && Replayable(Write(key, Some(value)))
    ensures RawRun(ss, raws) && ss[0] == s
    ensures var t, raw := ss[|ss| - 1], raws[|raws| - 1];
            && OnePut(t, Write(key, Some(value))) && Clean(raw.manifest) && Encodable(FlushManifest(t))
            && Get(t.db.mem, t.db.version, key, MAX_SEQ) == Some(value)
            && var r := Reopened(t, raw, opts); Get(r.db.mem, r.db.version, key, MAX_SEQ) == None
  {
    hide RawNext, OnePut, Get, Reopened, LogOf, Snapshot, LoadLatest, FlushManifest, Clean;
    var w := Write(key, Some(value));
    ss, raws := PutRun(s, opts, w);
    var t, raw := ss[|ss| - 1], raws[|raws| - 1];
    OnePutManifest(t, w);
    EmptyLoads();
    AppendUnloaded([], FlushManifest(t));
    OnePutLost(t, raw, opts, w);
  }

  lemma EmptyLoads()
    ensures LoadLatest([]) == [] && Clean([])
  {
    NothingThere();
  }

  lemma OnePutManifest(s: State, w: Write)
    requires OnePut(s, w)
    ensures s.Up? && s.db.mem == [EntryOf(w, 1)] && s.disk.manifest == [] && s.db.flush == NoFlush
    ensures s.log == [w] && s.acked == 1
    ensures FlushManifest(s) == [ManifestEntry(s.db.nextSst, 0, w.key, w.key)]
  {
    hide Inv, FlushedVersion, VersionToManifest;
    OneFileManifest(s.db.nextSst, EntryOf(w, 1));
  }

  /** The first eight bytes of the snapshot of a put of k. */
  ghost function TornBytes(k: Bytes): Bytes {
    if 0 < |k| < 0x8000 then FirstBytes(1, k); Snapshot([ManifestEntry(1, 0, k, k)])[..8] else []
  }

  /** The crash inside the append of the flush, eight bytes in. */
  lemma TearFlush(s: State, w: Write, raw: Raw) returns (t: State, u: State, raw': Raw)
    requires CanFlushInstall(s) && s.db.nextSst == 1 && raw.manifest == [] && !s.disk.torn && 0 < |w.key| < 0x8000
    requires FlushManifest(s) == [ManifestEntry(1, 0, w.key, w.key)]
    ensures RawNext(s, raw, t, raw) && RawNext(t, raw, u, raw')
    ensures raw' == raw.(manifest := TornBytes(w.key))
    ensures u == Down(s.disk.(torn := true, files := s.disk.files[1 := s.db.mem]), s.log, s.acked)
  {
    hide Snapshot, VersionToManifest, FlushedVersion, Effect, RawNext, Torn, Committing;
    FirstBytes(1, w.key);
    t := DoFlushInstall(s);
    u := DoTornCrash(t);
    raw' := raw.(manifest := TornBytes(w.key));
    TornHere(t, FlushManifest(s), raw, raw');
    TearSteps(s, t, raw, raw', FlushManifest(s), 8);
  }

  lemma TornHere(t: State, m: seq<ManifestEntry>, raw: Raw, raw': Raw)
    requires Publishing(t) && m == VersionToManifest(FlushedVersion(t.db.version, t.db.flush.number, t.db.mem))
    requires Encodable(m) && |Snapshot(m)| > 8 && raw.manifest == [] && raw' == raw.(manifest := Snapshot(m)[..8])
    ensures Torn(t, m, 8, raw, raw')
  {
    hide VersionToManifest, FlushedVersion, Encodable, Snapshot;
    assert raw.manifest + Snapshot(m)[..8] == Snapshot(m)[..8];
  }

  lemma TearSteps(s: State, t: State, raw: Raw, raw': Raw, m: seq<ManifestEntry>, n: nat)
    requires CanFlushInstall(s) && t == DoFlushInstall(s) && CanTornCrash(t) && Torn(t, m, n, raw, raw')
    ensures RawNext(s, raw, t, raw) && RawNext(t, raw, DoTornCrash(t), raw')
  {
    hide Torn, RawNext, VersionToManifest, FlushedVersion, CommittedVersion, Snapshot;
    RawStep(s, FlushInstall, raw, raw);
    RawStep(t, TornCrash, raw, raw');
  }

  /** Opening the torn store brings the put back; the next file number is 2. */
  lemma TornOpens(u: State, opts: Options, w: Write, raw: Raw)
    requires u.Down? && Inv(u) && OnBytes(u, raw) && u.log == [w] && u.acked == 1
    requires u.disk == Disk([EntryOf(w, 1)], [], map[1 := [EntryOf(w, 1)]], true)
    ensures var t := DoOpen(u, opts);
            && OnePut(t, w) && t.db.nextSst == 2 && t.disk.torn
            && RawNext(u, raw, t, raw.(log := Wal.Log(Wal.Replay(raw.log))))
  {
    hide Inv, MaxOf, OnBytes, RawNext, Wal.Log, Wal.Replay;
    OpenKeepsInv(u, opts);
    assert LoadAll([], u.disk.files, NoFiles()) == NoFiles();
    assert SortLevels(NoFiles()) == NoFiles();
    StampOne(w);
    OneNumber();
    assert u.disk.files.Keys + (set e | e in u.disk.manifest :: e.number) == {1};
    RawStep(u, Open(opts), raw, raw.(log := Wal.Log(Wal.Replay(raw.log))));
  }

  lemma OneNumber()
    ensures MaxOf({1}) == 1
  {
    assert {1} - {1} == {};
    assert MaxOf({}) == 0;
  }

  /**
   * A run that loses an acknowledged put to a torn MANIFEST: the append of its flush is cut,
   * the store opens and still has it, flushes behind the torn bytes, and after the next crash
   * has it no more.
   */
  lemma TornRunLoses(s: State, opts: Options, key: Bytes, value: Bytes) returns (ss: seq<State>, raws: seq<Raw>)
    requires Init(s) && 0 < |key| < 0x8000 && |value| <= Wal.MAX_FIELD
    ensures RawRun(ss, raws) && ss[0] == s
    ensures var t, raw := ss[|ss| - 1], raws[|raws| - 1];
            && OnePut(t, Write(key, Some(value))) && !Clean(raw.manifest) && Encodable(FlushManifest(t))
            && Get(t.db.mem, t.db.version, key, MAX_SEQ) == Some(value)
            && var r := Reopened(t, raw, opts); Get(r.db.mem, r.db.version, key, MAX_SEQ) == None
  {
    hide RawNext, OnePut, Get, Reopened, LogOf, Snapshot, LoadLatest, FlushManifest, Clean, Inv, Init, Wal.Log,
         Wal.Replay;
    var w := Write(key, Some(value));
    ss, raws := PutRun(s, opts, w);
    RunOnBytes(ss, raws, |ss| - 1);
    var put, raw := ss[|ss| - 1], raws[|raws| - 1];
    OnePutManifest(put, w);
    var t, u, raw' := TearFlush(put, w, raw);
    ss, raws := ss + [t, u], raws + [raw, raw'];
    RunOnBytes(ss, raws, |ss| - 1);
    TornOpens(u, opts, w, raw');
    var end := DoOpen(u, opts);
    var raw'' := raw'.(log := Wal.Log(Wal.Replay(raw'.log)));
    ss, raws := ss + [end], raws + [raw''];
    RunOnBytes(ss, raws, |ss| - 1);
    OnePutManifest(end, w);
    TornFlushHides([], key);
    EmptyLoads();
    assert [] + (raw''.manifest + Snapshot(FlushManifest(end))) == raw''.manifest + Snapshot(FlushManifest(end));
    OnePutLost(end, raw'', opts, w);
  }

  // -------------------------------------------------------------- long records

  lemma LogMore(a: seq<Entry>, b: seq<Entry>)
    ensures LogOf(a + b) == LogOf(a) + LogOf(b) && Wal.ToRecords(a + b) == Wal.ToRecords(a) + Wal.ToRecords(b)
  {
    hide Wal.Log;
    assert Wal.ToRecords(a + b) == Wal.ToRecords(a) + Wal.ToRecords(b);
    Wal.LogConcat(Wal.ToRecords(a), Wal.ToRecords(b));
  }

  lemma ReplayedIsReplayable(ws: seq<Write>, first: nat, wal: seq<Entry>, rs: seq<Wal.Records.Record>)
    requires Wal.AllInLimit(rs) && Wal.ToEntries(rs) == wal + Stamp(ws, first)
    ensures AllReplayable(ws)
  {
    forall i | 0 <= i < |ws| ensures Replayable(ws[i]) {
      var e := Stamp(ws, first)[i];
      assert Wal.ToEntries(rs)[|wal| + i] == e;
      assert Wal.InLimit(rs[|wal| + i]);
    }
  }

  /** A batch that is logged is there after a crash if and only if every write of it is within the limit. */
  lemma LoggedIff(s: State, raw: Raw, ws: seq<Write>)
    requires OnBytes(s, raw) && Assigning(s, ws)
    ensures var batch := Stamp(ws, s.db.nextSeq);
            Loaded(raw.(log := raw.log + LogOf(batch)), s.disk.files).wal == s.disk.wal + batch <==> AllReplayable(ws)
  {
    hide Wal.Replay, Wal.Log, LogOf, Wal.InLimit, Stamp, AllReplayable, LoadLatest, Clean, Wal.Storable;
    var batch := Stamp(ws, s.db.nextSeq);
    LogMore(s.disk.wal, batch);
    var log := raw.log + LogOf(batch);
    if AllReplayable(ws) {
      StampStorable(ws, s.db.nextSeq);
      LogGrows(s.disk.wal, batch);
      LogLoads(s.disk.wal + batch);
    }
    Wal.ReplayInLimit(log);
    if Wal.ToEntries(Wal.Replay(log)) == s.disk.wal + batch {
      ReplayedIsReplayable(ws, s.db.nextSeq, s.disk.wal, Wal.Replay(log));
    }
  }

  /** A write over the limit, of a size that its length field still holds. */
  predicate TooLong(w: Write) {
    !Replayable(w) && |w.key| < U32 && (w.value.Some? ==> |w.value.value| < U32)
  }

  lemma LongStops(wal: seq<Entry>, long: Write, after: seq<Write>, first: nat)
    requires Wal.Storable(wal) && TooLong(long) && first <= MAX_SEQ
    ensures Wal.Replay(LogOf(wal) + LogOf(Stamp([long] + after, first))) == Wal.ToRecords(wal)
  {
    hide Wal.Replay, Wal.Log, Wal.InLimit, LogOf, Wal.Storable;
    var e, rest := EntryOf(long, first), Stamp(after, first + 1);
    assert Stamp([long] + after, first) == [e] + rest;
    LogMore(wal, [e] + rest);
    LogLoads(wal);
    LongIsOver(long, first);
    Wal.LongRecordStops(Wal.ToRecords(wal), Wal.ToRecord(e), Wal.ToRecords(rest));
    LogIs(wal, e, rest);
  }

  lemma LongIsOver(long: Write, first: nat)
    requires TooLong(long) && first <= MAX_SEQ
    ensures var r := Wal.ToRecord(EntryOf(long, first));
            r.seqno < U64 && |r.key| < U32 && |r.value| < U32 && !Wal.InLimit(r)
  {
  }

  lemma LogIs(wal: seq<Entry>, e: Entry, rest: seq<Entry>)
    ensures LogOf(wal + ([e] + rest)) == Wal.Log(Wal.ToRecords(wal) + [Wal.ToRecord(e)] + Wal.ToRecords(rest))
  {
    hide Wal.Log;
    assert Wal.ToRecords(wal + ([e] + rest)) == Wal.ToRecords(wal) + [Wal.ToRecord(e)] + Wal.ToRecords(rest);
  }

  /**
   * A write over the limit takes with it everything logged behind it, acknowledged or not:
   * after a crash and an open every get answers as if neither had been made.
   */
  lemma LongRecordLoses(s: State, raw: Raw, long: Write, after: seq<Write>, opts: Options, k: Bytes)
    requires Inv(s) && s.Up? && OnBytes(s, raw) && TooLong(long)
    ensures var log := raw.log + LogOf(Stamp([long] + after, s.db.nextSeq));
            var db := Recover(Loaded(raw.(log := log), s.disk.files), opts);
            Get(db.mem, db.version, k, MAX_SEQ) == Last(s.log, k)
  {
    hide Inv, Get, Last, Recover, Wal.Replay, LogOf, Stamp, TooLong, LoadLatest, Clean, Wal.Storable;
    CounterBound(s);
    LongStops(s.disk.wal, long, after, s.db.nextSeq);
    CrashKeepsInv(s, 0);
    var down := DoCrash(s, 0);
    assert s.db.pending[..0] == [] && s.disk.wal + [] == s.disk.wal && s.log + [] == s.log;
    OpenKeepsInv(down, opts);
    InvReadsLog(DoOpen(down, opts), k);
  }

  lemma CounterBound(s: State)
    requires Inv(s) && s.Up?
    ensures s.db.nextSeq <= MAX_SEQ
  {
  }

  /** One put as the leader does it, whatever its size. */
  function Acked(s: State, w: Write): State
    requires Assigning(s, [w]) && s.db.flush == NoFlush
  {
    DoAck(DoApply(DoAssign(s, [w])))
  }

  lemma AckedKeepsInv(s: State, w: Write)
    requires Inv(s) && Assigning(s, [w]) && s.db.flush == NoFlush
    ensures var t := Acked(s, w);
            && Inv(t) && t.Up? && t.log == s.log + [w] && t.acked == |t.log| && t.db.pending == []
            && t.db.flush == NoFlush && t.db.nextSeq == s.db.nextSeq + 1
  {
    hide Inv, InsertAll;
    AssignKeepsInv(s, [w]);
    ApplyKeepsInv(DoAssign(s, [w]));
    AckKeepsInv(DoApply(DoAssign(s, [w])));
    assert Writes(Stamp([w], s.db.nextSeq)) == [w];
  }

  /**
   * A put over the limit and a short one after it, both acknowledged: the short one is read
   * before the crash and gone after it.
   */
  lemma LongRecordRunLoses(s: State, opts: Options, long: Write, w: Write)
    requires Init(s) && TooLong(long) && w.value.Some?
    ensures var up := DoOpen(s, opts);
            && Assigning(up, [long]) && up.db.flush == NoFlush
            && var first := Acked(up, long);
               && Assigning(first, [w]) && first.db.flush == NoFlush
               && var both := Acked(first, w);
                  && both.acked == 2 && both.log == [long, w]
                  && Get(both.db.mem, both.db.version, w.key, MAX_SEQ) == w.value
                  && var db := Recover(Loaded(Raw(LogOf(Stamp([long, w], 1)), []), map[]), opts);
                     Get(db.mem, db.version, w.key, MAX_SEQ) == None
  {
    hide Inv, Get, Recover, LogOf, Stamp, Loaded, Acked, TooLong;
    FreshStore(s, opts);
    var up := DoOpen(s, opts);
    AckedKeepsInv(up, long);
    var first := Acked(up, long);
    AckedKeepsInv(first, w);
    var both := Acked(first, w);
    assert both.log == [long, w];
    InvReadsLog(both, w.key);
    FreshOnBytes(s, opts);
    LongRecordLoses(up, Raw([], []), long, [w], opts, w.key);
    assert [long] + [w] == [long, w];
    assert [] + LogOf(Stamp([long, w], 1)) == LogOf(Stamp([long, w], 1));
  }

  lemma FreshOnBytes(s: State, opts: Options)
    requires Init(s)
    ensures OnBytes(DoOpen(s, opts), Raw([], []))
  {
    hide OnBytes, Wal.Replay, Wal.Log, Recover, LiveFiles;
    InitOnBytes(s);
    Wal.ReplayNothing();
    NoRecords();
    OpenOnBytes(s, opts, Raw([], []));
  }
}
