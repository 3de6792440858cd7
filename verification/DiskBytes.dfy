// The disk of the machine as bytes: what every step writes to the log and the MANIFEST, and
// that open loads from those bytes exactly the disk the machine speaks of.
module DiskBytes {
  import opened Keys
  import opened Entries
  import opened Versions
  import opened Picking
  import opened Recovery
  import opened Machine
  import opened Safety
  import opened Manifest
  import Runs
  import Wal

  /** The two files the store appends to. */
  datatype Raw = Raw(log: Bytes, manifest: Bytes)

  /** What open loads from them. */
  function Loaded(raw: Raw, files: FileStore): (d: Disk)
    ensures d.files == files
  {
    Disk(Wal.ToEntries(Wal.Replay(raw.log)), LoadLatest(raw.manifest), files, !Clean(raw.manifest))
  }

  ghost function LogOf(es: seq<Entry>): Bytes {
    Wal.Log(Wal.ToRecords(es))
  }

  /**
   * The disk of s is what open would load, record by record; everything logged or about to
   * be is within the limit of replay, and while the store is up its log has no torn tail.
   */
  ghost predicate OnBytes(s: State, raw: Raw) {
    && s.disk == Loaded(raw, s.disk.files)
    && Wal.Replay(raw.log) == Wal.ToRecords(s.disk.wal) && Wal.Storable(s.disk.wal)
    && (s.Up? ==> raw.log == LogOf(s.disk.wal) && Wal.Storable(s.db.pending))
  }

  // ------------------------------------------------------------------- the log

  lemma LogLoads(es: seq<Entry>)
    requires Wal.Storable(es)
    ensures Wal.AllInLimit(Wal.ToRecords(es)) && Wal.Replay(LogOf(es)) == Wal.ToRecords(es)
    ensures Wal.ToEntries(Wal.ToRecords(es)) == es
  {
    hide Wal.Replay, Wal.Log;
    var rs := Wal.ToRecords(es);
    forall i | 0 <= i < |es| ensures Wal.InLimit(rs[i]) && Wal.ToEntry(rs[i]) == es[i] { assert es[i] in es; }
    Wal.RoundTripIff(rs);
  }

  lemma LogGrows(a: seq<Entry>, b: seq<Entry>)
    requires Wal.Storable(a) && Wal.Storable(b)
    ensures Wal.Storable(a + b) && LogOf(a + b) == LogOf(a) + LogOf(b)
  {
    hide Wal.Log;
    assert Wal.ToRecords(a + b) == Wal.ToRecords(a) + Wal.ToRecords(b);
    Wal.LogConcat(Wal.ToRecords(a), Wal.ToRecords(b));
  }

  lemma NothingLogged()
    ensures LogOf([]) == []
  {
  }

  lemma StampStorable(ws: seq<Write>, first: nat)
    requires AllReplayable(ws) && first + |ws| <= MAX_SEQ
    ensures Wal.Storable(Stamp(ws, first))
  {
    forall e | e in Stamp(ws, first)
      ensures e.seqno < Wal.Coding.U64 && |e.key| <= Wal.MAX_FIELD && |e.value| <= Wal.MAX_FIELD
      ensures e.tombstone ==> e.value == []
    {
      var i :| 0 <= i < |ws| && Stamp(ws, first)[i] == e;
      assert Replayable(ws[i]);
    }
  }

  /** The first n bytes of the batch hold j whole records. */
  ghost predicate Holds(batch: seq<Entry>, n: nat, j: nat) {
    && n <= |LogOf(batch)| && j <= |batch|
    && Wal.Survivors(Wal.ToRecords(batch), n, Wal.ToRecords(batch)[..j])
  }

  /** However many bytes of a batch reach the disk, some number of its records does. */
  lemma SomeHold(batch: seq<Entry>, n: nat) returns (j: nat)
    requires Wal.Storable(batch) && n <= |LogOf(batch)|
    ensures Holds(batch, n, j)
  {
    hide Wal.Replay, Wal.Log;
    LogLoads(batch);
    var rs := Wal.ToRecords(batch);
    Wal.ReplayCut(rs, n);
    j := |Wal.Replay(Wal.Log(rs)[..n])|;
  }

  lemma CutLoads(wal: seq<Entry>, batch: seq<Entry>, n: nat, j: nat)
    requires Wal.Storable(wal) && Wal.Storable(batch) && Holds(batch, n, j)
    ensures Wal.Replay(LogOf(wal) + LogOf(batch)[..n]) == Wal.ToRecords(wal + batch[..j])
    ensures Wal.Storable(wal + batch[..j])
  {
    hide Wal.Replay, Wal.Log, Wal.Survivors;
    LogLoads(wal);
    LogLoads(batch);
    var rs, tail := Wal.ToRecords(batch), LogOf(batch)[..n];
    Wal.ReplayCut(rs, n);
    SurvivorsUnique(rs, n, Wal.Replay(tail), rs[..j]);
    Wal.ReplayLog(Wal.ToRecords(wal), tail);
    assert Wal.ToRecords(wal + batch[..j]) == Wal.ToRecords(wal) + rs[..j];
  }

  lemma SurvivorsUnique(rs: seq<Wal.Records.Record>, n: nat, a: seq<Wal.Records.Record>, b: seq<Wal.Records.Record>)
    requires Wal.Survivors(rs, n, a) && Wal.Survivors(rs, n, b)
    ensures a == b
  {
    hide Wal.Log;
    Wal.LogMonotone(rs, |a|, |b|);
    Wal.LogMonotone(rs, |b|, |a|);
  }

  // ------------------------------------------------------------------ the steps

  /** The snapshots an append in flight may be of. */
  ghost predicate InAppend(s: State, m: seq<ManifestEntry>) {
    || (Publishing(s) && m == VersionToManifest(FlushedVersion(s.db.version, s.db.flush.number, s.db.mem)))
    || (Committing(s) && m == VersionToManifest(CommittedVersion(s.db.version, s.db.running.value)))
  }

  ghost predicate Torn(s: State, m: seq<ManifestEntry>, n: nat, raw: Raw, raw': Raw) {
    && InAppend(s, m) && Encodable(m) && 0 < n < |Snapshot(m)|
    && raw' == raw.(manifest := raw.manifest + Snapshot(m)[..n])
  }

  ghost predicate Lost(s: State, j: nat, n: nat, raw: Raw, raw': Raw)
    requires s.Up?
  {
    Holds(s.db.pending, n, j) && raw' == raw.(log := raw.log + LogOf(s.db.pending)[..n])
  }

  /** What a step does to the two files. */
  ghost predicate Effect(s: State, step: Step, raw: Raw, raw': Raw)
    requires Enabled(s, step)
  {
    match step
    case Apply => raw' == raw.(log := raw.log + LogOf(s.db.pending))
    case FlushPublish =>
      raw' == raw.(manifest := raw.manifest
                               + Snapshot(VersionToManifest(FlushedVersion(s.db.version, s.db.flush.number, s.db.mem))))
    case CommitJob =>
      raw' == raw.(manifest := raw.manifest
                               + Snapshot(VersionToManifest(CommittedVersion(s.db.version, s.db.running.value))))
    case FlushClear => raw' == raw.(log := [])
    case Crash(j) => exists n: nat :: Lost(s, j, n, raw, raw')
    case TornCrash => exists m: seq<ManifestEntry>, n: nat :: Torn(s, m, n, raw, raw')
    case Open(_) => raw' == raw.(log := Wal.Log(Wal.Replay(raw.log)))
    case _ => raw' == raw
  }

  lemma ApplyOnBytes(s: State, raw: Raw)
    requires OnBytes(s, raw) && CanApply(s)
    ensures OnBytes(DoApply(s), raw.(log := raw.log + LogOf(s.db.pending)))
  {
    hide Wal.Replay, Wal.Log, Wal.Storable, LoadLatest, Clean, InsertAll;
    LogGrows(s.disk.wal, s.db.pending);
    LogLoads(s.disk.wal + s.db.pending);
    NothingStorable();
  }

  lemma NothingStorable()
    ensures Wal.Storable([])
  {
  }

  /** An append to a file without a torn tail makes the snapshot the one that open loads. */
  lemma AppendOnBytes(raw: Raw, m: seq<ManifestEntry>, files: FileStore)
    requires CanAppend(Loaded(raw, files), m)
    ensures var raw' := raw.(manifest := raw.manifest + Snapshot(m));
            Loaded(raw', files) == Loaded(raw, files).(manifest := m)
  {
    hide Wal.Replay, LoadLatest, Clean, Encodable, Loads, Snapshot;
    AppendToClean(raw.manifest, m);
  }

  lemma PublishOnBytes(s: State, raw: Raw)
    requires OnBytes(s, raw) && CanFlushPublish(s)
    ensures var m := VersionToManifest(FlushedVersion(s.db.version, s.db.flush.number, s.db.mem));
            OnBytes(DoFlushPublish(s), raw.(manifest := raw.manifest + Snapshot(m)))
  {
    hide Loaded, Snapshot, Encodable, Loads, LogOf, Wal.Storable, VersionToManifest, FlushedVersion;
    AppendOnBytes(raw, VersionToManifest(FlushedVersion(s.db.version, s.db.flush.number, s.db.mem)), s.disk.files);
  }

  lemma CommitOnBytes(s: State, raw: Raw)
    requires OnBytes(s, raw) && CanCommitJob(s)
    ensures var m := VersionToManifest(CommittedVersion(s.db.version, s.db.running.value));
            OnBytes(DoCommitJob(s), raw.(manifest := raw.manifest + Snapshot(m)))
  {
    hide Loaded, Snapshot, Encodable, Loads, LogOf, Wal.Storable, VersionToManifest, CommittedVersion;
    AppendOnBytes(raw, VersionToManifest(CommittedVersion(s.db.version, s.db.running.value)), s.disk.files);
  }

  lemma ClearOnBytes(s: State, raw: Raw)
    requires OnBytes(s, raw) && CanFlushClear(s)
    ensures OnBytes(DoFlushClear(s), raw.(log := []))
  {
    hide LoadLatest, Clean, Wal.Replay, LogOf;
    NothingLogged();
    NothingStorable();
    LogLoads([]);
  }

  lemma CrashOnBytes(s: State, j: nat, n: nat, raw: Raw, raw': Raw)
    requires OnBytes(s, raw) && CanCrash(s, j) && Lost(s, j, n, raw, raw')
    ensures OnBytes(DoCrash(s, j), raw')
  {
    hide LoadLatest, Clean, Wal.Replay, LogOf, Holds, Wal.Storable;
    CutLoads(s.disk.wal, s.db.pending, n, j);
    LogLoads(s.disk.wal + s.db.pending[..j]);
  }

  /** A cut append leaves the snapshot in force and a torn tail. */
  lemma TornOnBytes(s: State, m: seq<ManifestEntry>, n: nat, raw: Raw, raw': Raw)
    requires OnBytes(s, raw) && CanTornCrash(s) && Torn(s, m, n, raw, raw')
    ensures OnBytes(DoTornCrash(s), raw')
  {
    hide LoadLatest, Clean, Wal.Replay, LogOf, Encodable, Loads, Snapshot, InAppend, Publishing, Committing;
    AppendIsAtomic(raw.manifest, m, n);
  }

  /** open cuts the log behind the last good record. */
  lemma OpenOnBytes(s: State, opts: Options, raw: Raw)
    requires OnBytes(s, raw) && s.Down?
    ensures OnBytes(DoOpen(s, opts), raw.(log := Wal.Log(Wal.Replay(raw.log))))
  {
    hide LoadLatest, Clean, Wal.Replay, Wal.Log, Wal.InLimit, RecoveredMem, RecoveredVersion, MaxOf, LiveFiles;
    LogLoads(s.disk.wal);
    NothingStorable();
  }

  lemma AssignOnBytes(s: State, ws: seq<Write>, raw: Raw)
    requires OnBytes(s, raw) && CanAssign(s, ws)
    ensures OnBytes(DoAssign(s, ws), raw)
  {
    hide Loaded, Wal.Replay, LogOf, Wal.Storable, Stamp, AllReplayable;
    StampStorable(ws, s.db.nextSeq);
  }

  /** Steps that write to neither file. */
  predicate Silent(step: Step) {
    match step
    case Assign(_) | Apply | FlushPublish | FlushClear | CommitJob | Crash(_) | TornCrash | Open(_) => false
    case _ => true
  }

  lemma SilentOnBytes(s: State, step: Step, raw: Raw)
    requires OnBytes(s, raw) && Enabled(s, step) && Silent(step)
    ensures OnBytes(Do(s, step), raw)
  {
    hide Wal.Replay, LoadLatest, Clean, LogOf, Wal.Storable, PickRunning, IsMerge, PickOk, InUse;
    var s2 := Do(s, step);
    assert s2.disk == s.disk.(files := s2.disk.files);
    assert s2.Up? ==> s.Up? && s2.db.pending == s.db.pending;
  }

  /** Every step of the machine, and what it writes, keeps the correspondence. */
  lemma StepOnBytes(s: State, step: Step, raw: Raw, raw': Raw)
    requires OnBytes(s, raw) && Enabled(s, step) && Effect(s, step, raw, raw')
    ensures OnBytes(Do(s, step), raw')
  {
    hide OnBytes, Snapshot, LogOf, Lost, Torn, VersionToManifest, CommittedVersion, FlushedVersion, Wal.Log, Wal.Replay;
    match step {
      case Assign(ws) => AssignOnBytes(s, ws, raw);
      case Apply => ApplyOnBytes(s, raw);
      case FlushPublish => PublishOnBytes(s, raw);
      case CommitJob => CommitOnBytes(s, raw);
      case FlushClear => ClearOnBytes(s, raw);
      case Crash(j) =>
        var n: nat :| Lost(s, j, n, raw, raw');
        CrashOnBytes(s, j, n, raw, raw');
      case TornCrash =>
        var m: seq<ManifestEntry>, n: nat :| Torn(s, m, n, raw, raw');
        TornOnBytes(s, m, n, raw, raw');
      case Open(opts) => OpenOnBytes(s, opts, raw);
      case _ => SilentOnBytes(s, step, raw);
    }
  }

  // ------------------------------------------------------------------ whole runs

  ghost predicate RawNext(s: State, raw: Raw, s': State, raw': Raw) {
    exists step :: Enabled(s, step) && s' == Do(s, step) && Effect(s, step, raw, raw')
  }

  /** A run of the store with the bytes it leaves behind. */
  ghost predicate RawRun(ss: seq<State>, raws: seq<Raw>) {
    && |ss| == |raws| > 0
    && Init(ss[0]) && raws[0] == Raw([], [])
    && forall i :: 0 <= i < |ss| - 1 ==> RawNext(ss[i], raws[i], ss[i + 1], raws[i + 1])
  }

  lemma InitOnBytes(s: State)
    requires Init(s)
    ensures OnBytes(s, Raw([], []))
  {
    Wal.ReplayNothing();
    NothingThere();
  }

  lemma RawNextKeeps(s: State, raw: Raw, s': State, raw': Raw)
    requires OnBytes(s, raw) && Inv(s) && RawNext(s, raw, s', raw')
    ensures OnBytes(s', raw') && Inv(s')
  {
    hide OnBytes, Inv, Effect;
    var step :| Enabled(s, step) && s' == Do(s, step) && Effect(s, step, raw, raw');
    StepOnBytes(s, step, raw, raw');
    StepKeepsInv(s, step);
  }

  /** In every run, with crashes at any byte of an append, the disk is what open loads from the bytes. */
  lemma {:induction false} RunOnBytes(ss: seq<State>, raws: seq<Raw>, i: nat)
    requires RawRun(ss, raws) && i < |ss|
    ensures OnBytes(ss[i], raws[i]) && Inv(ss[i])
    decreases i
  {
    hide OnBytes, Inv, RawNext, Init;
    if i == 0 {
      InitOnBytes(ss[0]);
      InitInv(ss[0]);
    } else {
      RunOnBytes(ss, raws, i - 1);
      assert RawNext(ss[i - 1], raws[i - 1], ss[i - 1 + 1], raws[i - 1 + 1]);
      RawNextKeeps(ss[i - 1], raws[i - 1], ss[i], raws[i]);
    }
  }

  /**
   * Recovery from bytes: after any run that ends in a crash, opening the files as they are
   * gives a store whose gets answer from every durable write, the acknowledged ones included.
   */
  lemma BytesReadLog(ss: seq<State>, raws: seq<Raw>, i: nat, opts: Options, k: Bytes)
    requires RawRun(ss, raws) && i < |ss| && ss[i].Down?
    ensures var r := DoOpen(Down(Loaded(raws[i], ss[i].disk.files), ss[i].log, ss[i].acked), opts);
            Get(r.db.mem, r.db.version, k, MAX_SEQ) == Last(ss[i].log, k) && ss[i].acked <= |ss[i].log|
  {
    hide RawRun, Inv, Get, Last, Recover, Loaded;
    RunOnBytes(ss, raws, i);
    OpenKeepsInv(ss[i], opts);
    Runs.InvReadsLog(DoOpen(ss[i], opts), k);
    Runs.InvAcked(ss[i]);
  }
}
