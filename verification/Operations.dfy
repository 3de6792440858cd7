// The store as one value, memory and bytes together, and what each operation of the DB object
// makes of it: always the same change, and a sound store again under the operation's condition.
module Operations {
  import opened Keys
  import opened Entries
  import opened Versions
  import opened Gc
  import opened Picking
  import opened Recovery
  import opened Machine
  import opened Safety
  import opened Runs
  import opened Manifest
  import opened DiskBytes
  import Wal

  /** raw holds the bytes of wal.log and MANIFEST; the tables are kept as their entries. */
  datatype Store = Store(
    opts: Options,
    mem: seq<Entry>,
    raw: Raw,
    files: FileStore,
    version: Version,
    nextSst: nat,
    nextSeq: nat,
    snapshots: multiset<nat>,
    log: seq<Write>,
    acked: nat)

  function DbOf(st: Store, running: Option<Running>): Db {
    Db(st.opts, st.mem, st.version, st.nextSst, st.nextSeq, st.snapshots, [], NoFlush, running)
  }

  /** The state of the machine a store is in between operations. */
  function StateOf(st: Store): State {
    Up(Loaded(st.raw, st.files), DbOf(st, None), st.log, st.acked)
  }

  ghost predicate Sound(st: Store) {
    Inv(StateOf(st)) && OnBytes(StateOf(st), st.raw)
  }

  lemma DiskIs(t: State, raw: Raw)
    requires OnBytes(t, raw)
    ensures t.disk == Loaded(raw, t.disk.files)
  {
    hide LoadLatest, Clean, Wal.Replay, LogOf, Wal.Storable;
  }

  /** Changes of memory and of tables leave the bytes as they are. */
  lemma SameBytes(s: State, s': State, raw: Raw)
    requires OnBytes(s, raw) && s.Up? && s'.Up? && s'.db.pending == s.db.pending
    requires s'.disk == s.disk.(files := s'.disk.files)
    ensures OnBytes(s', raw)
  {
    hide Wal.Replay, LoadLatest, Clean, LogOf, Wal.Storable;
  }

  // ------------------------------------------------------------------- opening

  /** What open makes of the files on disk. */
  ghost function Opened(raw: Raw, files: FileStore, opts: Options, log: seq<Write>, acked: nat): Store {
    var disk := Loaded(raw, files);
    var db := Recover(disk, opts);
    Store(opts, db.mem, raw.(log := Wal.Log(Wal.Replay(raw.log))), LiveFiles(disk.manifest, files), db.version,
          db.nextSst, db.nextSeq, db.snapshots, log, acked)
  }

  lemma OpenedSound(raw: Raw, files: FileStore, opts: Options, log: seq<Write>, acked: nat)
    requires var down := Down(Loaded(raw, files), log, acked); Inv(down) && OnBytes(down, raw)
    ensures Sound(Opened(raw, files, opts, log, acked))
    ensures StateOf(Opened(raw, files, opts, log, acked)) == DoOpen(Down(Loaded(raw, files), log, acked), opts)
  {
    hide Inv, OnBytes, Loaded, MaxOf, RecoveredMem, RecoveredVersion, LiveFiles, Wal.Replay, Wal.Log;
    var down := Down(Loaded(raw, files), log, acked);
    OpenKeepsInv(down, opts);
    OpenOnBytes(down, opts, raw);
    DiskIs(DoOpen(down, opts), raw.(log := Wal.Log(Wal.Replay(raw.log))));
  }

  // ------------------------------------------------------------------- writing

  ghost function Written(st: Store, ws: seq<Write>): Store {
    var batch := Stamp(ws, st.nextSeq);
    st.(raw := st.raw.(log := st.raw.log + LogOf(batch)), mem := InsertAll(st.mem, batch),
        nextSeq := st.nextSeq + |ws|, log := st.log + ws, acked := |st.log| + |ws|)
  }

  lemma WritesStamped(ws: seq<Write>, first: nat)
    ensures Writes(Stamp(ws, first)) == ws
  {
    forall i | 0 <= i < |ws| ensures WriteOf(EntryOf(ws[i], first + i)) == ws[i] { }
  }

  /** The leader's steps for one batch. */
  function WriteSteps(s: State, ws: seq<Write>): State
    requires Assigning(s, ws) && s.db.flush == NoFlush
  {
    DoAck(DoApply(DoAssign(s, ws)))
  }

  lemma WriteStepsSound(s: State, ws: seq<Write>, raw: Raw)
    requires Inv(s) && OnBytes(s, raw) && CanAssign(s, ws) && s.db.flush == NoFlush
    ensures Inv(WriteSteps(s, ws))
    ensures OnBytes(WriteSteps(s, ws), raw.(log := raw.log + LogOf(Stamp(ws, s.db.nextSeq))))
  {
    hide Inv, OnBytes, InsertAll, Stamp, Writes, LogOf, AllReplayable;
    AssignKeepsInv(s, ws);
    AssignOnBytes(s, ws, raw);
    var s1 := DoAssign(s, ws);
    ApplyKeepsInv(s1);
    ApplyOnBytes(s1, raw);
    AckKeepsInv(DoApply(s1));
    SameBytes(DoApply(s1), WriteSteps(s, ws), raw.(log := raw.log + LogOf(s1.db.pending)));
  }

  /** A batch within the limit of replay is logged, applied and acknowledged. */
  lemma WrittenSound(st: Store, ws: seq<Write>)
    requires Sound(st) && CanAssign(StateOf(st), ws)
    ensures Sound(Written(st, ws)) && StateOf(Written(st, ws)) == WriteSteps(StateOf(st), ws)
  {
    hide Inv, OnBytes, InsertAll, Stamp, Writes, LogOf, AllReplayable, Loaded;
    WriteStepsSound(StateOf(st), ws, st.raw);
    WritesStamped(ws, st.nextSeq);
    DiskIs(WriteSteps(StateOf(st), ws), Written(st, ws).raw);
  }

  // ------------------------------------------------------------------ flushing

  function FlushManifest(st: Store): seq<ManifestEntry>
    requires st.mem != []
  {
    VersionToManifest(FlushedVersion(st.version, st.nextSst, st.mem))
  }

  ghost function Flushed(st: Store): Store
    requires st.mem != [] && Encodable(FlushManifest(st))
  {
    st.(raw := Raw([], st.raw.manifest + Snapshot(FlushManifest(st))), files := st.files[st.nextSst := st.mem],
        version := FlushedVersion(st.version, st.nextSst, st.mem), nextSst := st.nextSst + 1, mem := [])
  }

  /** When a flush is safe: the MANIFEST has no torn tail, and the new snapshot loads. */
  predicate Flushable(st: Store) {
    st.mem != [] && CanAppend(StateOf(st).disk, FlushManifest(st))
  }

  /** The steps of a flush, one after the other under mu_. */
  function FlushSteps(s: State): State
    requires CanFlushInstall(s)
  {
    DoFlushClear(DoFlushPublish(DoFlushInstall(s)))
  }

  lemma FlushStepsSound(s: State, raw: Raw, m: seq<ManifestEntry>)
    requires Inv(s) && OnBytes(s, raw) && CanFlushInstall(s) && CanAppend(s.disk, m)
    requires m == VersionToManifest(FlushedVersion(s.db.version, s.db.nextSst, s.db.mem))
    ensures Inv(FlushSteps(s)) && OnBytes(FlushSteps(s), Raw([], raw.manifest + Snapshot(m)))
  {
    hide Inv, OnBytes, VersionToManifest, FlushedVersion, Snapshot, Encodable, Loads;
    FlushInstallKeepsInv(s);
    var s1 := DoFlushInstall(s);
    SameBytes(s, s1, raw);
    FlushPublishKeepsInv(s1);
    PublishOnBytes(s1, raw);
    FlushClearKeepsInv(DoFlushPublish(s1));
    ClearOnBytes(DoFlushPublish(s1), raw.(manifest := raw.manifest + Snapshot(m)));
  }

  /** Onto a MANIFEST without a torn tail, and with a snapshot that loads, a flush changes no read. */
  lemma FlushedSound(st: Store)
    requires Sound(st) && Flushable(st)
    ensures Sound(Flushed(st)) && StateOf(Flushed(st)) == FlushSteps(StateOf(st))
  {
    hide Inv, OnBytes, Loaded, VersionToManifest, FlushedVersion, Snapshot, Encodable, Loads;
    FlushStepsSound(StateOf(st), st.raw, FlushManifest(st));
    DiskIs(FlushSteps(StateOf(st)), Flushed(st).raw);
  }

  // ---------------------------------------------------------------- snapshots

  ghost function Snapped(st: Store): Store
    requires st.nextSeq >= 1
  {
    st.(snapshots := st.snapshots + multiset{st.nextSeq - 1})
  }

  lemma SnappedSound(st: Store)
    requires Sound(st)
    ensures st.nextSeq >= 1 && Sound(Snapped(st)) && StateOf(Snapped(st)) == DoTakeSnapshot(StateOf(st))
  {
    hide Inv, OnBytes, Loaded;
    var s := StateOf(st);
    PositiveSeq(s);
    TakeSnapshotKeepsInv(s);
    SameBytes(s, DoTakeSnapshot(s), st.raw);
  }

  lemma PositiveSeq(s: State)
    requires Inv(s) && s.Up?
    ensures s.db.nextSeq >= 1
  {
    hide Healthy, DiskInv, BelowNext, LogInv, FlushInv, RunningInv, Files, Stored;
  }

  ghost function Released(st: Store, t: nat): Store {
    st.(snapshots := st.snapshots - multiset{t})
  }

  lemma ReleasedSound(st: Store, t: nat)
    requires Sound(st)
    ensures Sound(Released(st, t)) && StateOf(Released(st, t)) == DoReleaseSnapshot(StateOf(st), t)
  {
    hide Inv, OnBytes, Loaded;
    var s := StateOf(st);
    ReleaseSnapshotKeepsInv(s, t);
    SameBytes(s, DoReleaseSnapshot(s, t), st.raw);
  }

  // --------------------------------------------------------------- compacting

  /** The files after the outputs have been installed under consecutive numbers. */
  function WithOutputs(files: FileStore, first: nat, parts: seq<seq<Entry>>): FileStore {
    if parts == [] then files
    else
      var n := |parts| - 1;
      WithOutputs(files, first, parts[..n])[first + n := parts[n]]
  }

  function Numbers(first: nat, n: nat): (numbers: seq<nat>)
    ensures |numbers| == n && forall i :: 0 <= i < n ==> numbers[i] == first + i
  {
    seq(n, i => first + i)
  }

  /** The job a turn picks, with its outputs installed under the next numbers. */
  ghost function Finished(st: Store, force: bool, merged: seq<Entry>): Running {
    var r := PickRunning(DbOf(st, None), force, merged);
    r.(numbers := Numbers(st.nextSst, |r.parts|), written := |r.parts|)
  }

  ghost predicate Ready(st: Store, force: bool, merged: seq<Entry>) {
    var r := Finished(st, force, merged);
    && r.job.inputs != [] && IsMerge(r.job.inputs, merged) && r.parts != [] && 1 <= r.job.out < MAX_LEVELS
    && (forall i :: 0 <= i < |r.parts| ==> r.parts[i] != [])
    && Encodable(VersionToManifest(CommittedVersion(st.version, r)))
  }

  ghost function Compacted(st: Store, force: bool, merged: seq<Entry>): Store
    requires Ready(st, force, merged)
  {
    var r := Finished(st, force, merged);
    var v := CommittedVersion(st.version, r);
    st.(raw := st.raw.(manifest := st.raw.manifest + Snapshot(VersionToManifest(v))), version := v,
        files := WithOutputs(st.files, st.nextSst, r.parts), nextSst := st.nextSst + |r.parts|)
  }

  /** The store while outputs are being installed: i of them are. */
  ghost function Installing(st: Store, r: Running, i: nat): State
    requires i <= |r.parts|
  {
    Up(Loaded(st.raw, WithOutputs(st.files, st.nextSst, r.parts[..i])),
       DbOf(st.(nextSst := st.nextSst + i), Some(r.(numbers := Numbers(st.nextSst, i), written := i))),
       st.log, st.acked)
  }

  lemma MoreOutputs(files: FileStore, first: nat, parts: seq<seq<Entry>>, i: nat)
    requires i < |parts|
    ensures WithOutputs(files, first, parts[..i + 1]) == WithOutputs(files, first, parts[..i])[first + i := parts[i]]
    ensures Numbers(first, i + 1) == Numbers(first, i) + [first + i]
  {
    assert parts[..i + 1][..i] == parts[..i];
  }

  lemma LoadedFiles(raw: Raw, f: FileStore, g: FileStore)
    ensures Loaded(raw, f) == Loaded(raw, g).(files := f)
  {
    hide LoadLatest, Clean, Wal.Replay;
  }

  lemma {:induction false} InstallingKeepsInv(st: Store, r: Running, i: nat)
    requires r.numbers == [] && r.written == 0 && i <= |r.parts| && Inv(Installing(st, r, 0))
    ensures Inv(Installing(st, r, i))
    decreases i
  {
    hide Inv, Loaded, WithOutputs;
    if i > 0 {
      InstallingKeepsInv(st, r, i - 1);
      var s := Installing(st, r, i - 1);
      AllocOutputKeepsInv(s);
      WriteOutputKeepsInv(DoAllocOutput(s));
      MoreOutputs(st.files, st.nextSst, r.parts, i - 1);
      LoadedFiles(st.raw, WithOutputs(st.files, st.nextSst, r.parts[..i]),
                  WithOutputs(st.files, st.nextSst, r.parts[..i - 1]));
    }
  }

  /** Every read a live or a later snapshot can make has the same answer over both sets. */
  ghost predicate SameReads(S: set<Entry>, S': set<Entry>, snapshots: multiset<nat>, nextSeq: nat) {
    forall k: Bytes, t: nat :: t in snapshots || t >= nextSeq - 1 ==> Read(S, k, t) == Read(S', k, t)
  }

  lemma CommitKeepsReads(s: State)
    requires Inv(s) && CanCommitJob(s)
    ensures SameReads(Held(DoCommitJob(s).db), Held(s.db), s.db.snapshots, s.db.nextSeq)
  {
    hide Inv, Read, Files, Stored, CanAppend, CommittedVersion, VersionToManifest;
    forall k: Bytes, t: nat | t in s.db.snapshots || t >= s.db.nextSeq - 1
      ensures Read(Held(DoCommitJob(s).db), k, t) == Read(Held(s.db), k, t)
    {
      CommitKeepsRead(s, k, t);
    }
  }

  lemma FinishedKeepsInv(st: Store, force: bool, merged: seq<Entry>)
    requires Sound(st) && Ready(st, force, merged)
    requires PickOk(st.version, st.opts, force) && SplitsBetweenKeys(Finished(st, force, merged).parts)
    ensures var r := Finished(st, force, merged); Inv(Installing(st, r.(numbers := [], written := 0), |r.parts|))
  {
    hide Inv, OnBytes, Loaded, Pick, IsMerge, PickOk, SplitsBetweenKeys, OldestSnapshot, CommittedVersion,
         VersionToManifest, Encodable, Split, Collect, WithOutputs;
    PickJobKeepsInv(StateOf(st), force, merged);
    var r := PickRunning(DbOf(st, None), force, merged);
    NoOutputs(st.files, st.nextSst, r.parts);
    InstallingKeepsInv(st, r, |r.parts|);
  }

  lemma NoOutputs(files: FileStore, first: nat, parts: seq<seq<Entry>>)
    ensures WithOutputs(files, first, parts[..0]) == files && WithOutputs(files, first, parts[..|parts|])
         == WithOutputs(files, first, parts)
  {
    assert parts[..0] == [] && parts[..|parts|] == parts;
  }

  /** When a turn is safe. */
  ghost predicate Compactable(st: Store, force: bool, merged: seq<Entry>)
    requires Ready(st, force, merged)
  {
    var r := Finished(st, force, merged);
    && PickOk(st.version, st.opts, force) && SplitsBetweenKeys(r.parts)
    && CanAppend(StateOf(st).disk, VersionToManifest(CommittedVersion(st.version, r)))
  }

  /**
   * A turn whose range misses nothing, whose outputs are cut between keys, and whose snapshot
   * the MANIFEST takes leaves the store sound and changes no read of a live or later snapshot.
   */
  lemma CompactedSound(st: Store, force: bool, merged: seq<Entry>)
    requires Sound(st) && Ready(st, force, merged) && Compactable(st, force, merged)
    ensures Sound(Compacted(st, force, merged))
    ensures SameReads(Held(StateOf(Compacted(st, force, merged)).db), Held(StateOf(st).db), st.snapshots, st.nextSeq)
  {
    hide Inv, OnBytes, Loaded, Pick, IsMerge, PickOk, SplitsBetweenKeys, OldestSnapshot, CommittedVersion, Loads,
         VersionToManifest, Encodable, Split, Collect, WithOutputs, Held, SameReads, Snapshot, PickRunning;
    var r := Finished(st, force, merged);
    FinishedKeepsInv(st, force, merged);
    NoOutputs(st.files, st.nextSst, r.parts);
    var s := Installing(st, r.(numbers := [], written := 0), |r.parts|);
    LoadedFiles(st.raw, s.disk.files, st.files);
    SameBytes(StateOf(st), s, st.raw);
    CommitJobKeepsInv(s);
    CommitOnBytes(s, st.raw);
    CommitKeepsReads(s);
    DiskIs(DoCommitJob(s), Compacted(st, force, merged).raw);
    HeldAlike(DbOf(st, None), s.db);
    HeldAlike(StateOf(Compacted(st, force, merged)).db, DoCommitJob(s).db);
  }

  lemma HeldAlike(a: Db, b: Db)
    requires a.mem == b.mem && a.version == b.version
    ensures Held(a) == Held(b)
  {
  }
}
