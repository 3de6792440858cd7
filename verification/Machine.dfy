// The database as a state machine: volatile state, disk, and the client's log of
// writes; one step per locked section or disk action of db.cpp, with a crash
// possible between any two of them.
module Machine {
  import opened Keys
  import opened Entries
  import opened Versions
  import opened Gc
  import opened Compaction
  import opened Picking
  import opened Recovery
  import Layout
  import Manifest
  import Merging
  import Wal

  // --------------------------------------------------- the client's view

  /** A put, or a delete when value is None. */
  datatype Write = Write(key: Bytes, value: Option<Bytes>)

  /** What k holds after the writes of the log, in order. */
  function Last(log: seq<Write>, k: Bytes): Option<Bytes> {
    if log == [] then None
    else if log[|log| - 1].key == k then log[|log| - 1].value
    else Last(log[..|log| - 1], k)
  }

  function EntryOf(w: Write, seqno: nat): Entry {
    Entry(w.key, if w.value.Some? then w.value.value else [], w.value.None?, seqno)
  }

  /** The leader numbers its batch consecutively, in queue order. */
  function Stamp(ws: seq<Write>, seqno: nat): (es: seq<Entry>)
    ensures |es| == |ws|
    ensures forall i :: 0 <= i < |ws| ==> es[i] == EntryOf(ws[i], seqno + i)
  {
    seq(|ws|, i requires 0 <= i < |ws| => EntryOf(ws[i], seqno + i))
  }

  function WriteOf(e: Entry): Write {
    Write(e.key, Answer(Some(e)))
  }

  function Writes(es: seq<Entry>): (ws: seq<Write>)
    ensures |ws| == |es|
    ensures forall i :: 0 <= i < |es| ==> ws[i] == WriteOf(es[i])
  {
    seq(|es|, i requires 0 <= i < |es| => WriteOf(es[i]))
  }

  // ------------------------------------------------------------- the state

  /** manifest is what load_latest returns; torn says that the reader does not get to the end of the file. */
  datatype Disk = Disk(wal: seq<Entry>, manifest: seq<ManifestEntry>, files: FileStore, torn: bool)

  /** Where a flush stands; mu_ is held from Installed until NoFlush again. */
  datatype FlushPhase = NoFlush | Installed(number: nat) | Published

  /** A compaction in flight: the stream being written and the files written so far. */
  datatype Running = Running(job: Job, oldest: nat, merged: seq<Entry>, parts: seq<seq<Entry>>, numbers: seq<nat>,
                             written: nat)

  datatype Db = Db(
    opts: Options,
    mem: seq<Entry>,
    version: Version,
    nextSst: nat,
    nextSeq: nat,
    snapshots: multiset<nat>,
    pending: seq<Entry>,
    flush: FlushPhase,
    running: Option<Running>)

  /** log holds every write that has reached the WAL; acked counts those acknowledged. */
  datatype State =
    | Up(disk: Disk, db: Db, log: seq<Write>, acked: nat)
    | Down(disk: Disk, log: seq<Write>, acked: nat)

  /** What the merging iterator delivers in all-versions mode. */
  predicate IsMerge(fs: seq<FileMeta>, merged: seq<Entry>) {
    Sorted(merged) && multiset(merged) == Merging.Bag(Tables(fs))
  }

  /** oldest_live_snapshot */
  ghost function OldestSnapshot(snapshots: multiset<nat>): (m: nat)
    ensures snapshots == multiset{} ==> m == MAX_SEQ
    ensures snapshots != multiset{} ==> m in snapshots && forall t :: t in snapshots ==> m <= t
    decreases |snapshots|
  {
    if snapshots == multiset{} then MAX_SEQ
    else
      var t: nat :| t in snapshots;
      var rest := snapshots - multiset{t};
      assert forall u :: u in snapshots ==> u == t || u in rest;
      if rest == multiset{} then t
      else
        var m := OldestSnapshot(rest);
        if t <= m then t else m
  }

  // ------------------------------------------------------------- the steps

  datatype Step =
    | Assign(writes: seq<Write>)          // leader numbers its batch, under write_mu_
    | Apply                               // WAL append and sync, then memtable, under mu_
    | Ack                                 // done = true
    | FlushInstall | FlushPublish | FlushClear
    | TakeSnapshot | ReleaseSnapshot(snap: nat)
    | PickJob(force: bool, merged: seq<Entry>)
    | AllocOutput | WriteOutput
    | CommitJob | DropJob
    | Unlink(number: nat)
    | Crash(durable: nat)                 // how many records of a batch in flight reached the log
    | TornCrash                           // inside a MANIFEST append, which leaves part of a snapshot
    | CleanUp(number: nat)                // open removes an orphan, then crashes
    | Open(options: Options)

  function PlanParts(db: Db, job: Job, oldest: nat, merged: seq<Entry>): seq<seq<Entry>> {
    Split(Collect(merged, oldest, job.bottom, [], false), db.opts.targetFileSize, [], 0)
  }

  ghost function PickRunning(db: Db, force: bool, merged: seq<Entry>): Running {
    var job := Pick(db.version, db.opts, force);
    var oldest := OldestSnapshot(db.snapshots);
    Running(job, oldest, merged, PlanParts(db, job, oldest, merged), [], 0)
  }

  ghost predicate InUse(s: State, n: nat)
    requires s.Up?
  {
    || (exists f :: f in Files(s.db.version) && f.number == n)
    || (s.db.running.Some? && n in s.db.running.value.numbers)
    || s.db.flush == Installed(n)
  }

  // Each step as a guard and an effect.

  // A record over the limit of replay would end it, and every record behind it would be lost.

  predicate Replayable(w: Write) {
    |w.key| <= Wal.MAX_FIELD && (w.value.Some? ==> |w.value.value| <= Wal.MAX_FIELD)
  }

  predicate AllReplayable(ws: seq<Write>) {
    forall i :: 0 <= i < |ws| ==> Replayable(ws[i])
  }

  predicate Assigning(s: State, ws: seq<Write>) {
    && s.Up? && s.db.pending == [] && ws != []
    && s.db.nextSeq + |ws| <= MAX_SEQ
  }

  predicate CanAssign(s: State, ws: seq<Write>) {
    Assigning(s, ws) && AllReplayable(ws)
  }

  function DoAssign(s: State, ws: seq<Write>): State
    requires Assigning(s, ws)
  {
    s.(db := s.db.(pending := Stamp(ws, s.db.nextSeq), nextSeq := s.db.nextSeq + |ws|))
  }

  predicate CanApply(s: State) {
    s.Up? && s.db.pending != [] && s.db.flush == NoFlush
  }

  function DoApply(s: State): State
    requires CanApply(s)
  {
    s.(disk := s.disk.(wal := s.disk.wal + s.db.pending),
       db := s.db.(mem := InsertAll(s.db.mem, s.db.pending), pending := []),
       log := s.log + Writes(s.db.pending))
  }

  predicate CanAck(s: State) {
    s.Up? && s.db.pending == []
  }

  function DoAck(s: State): State
    requires CanAck(s)
  {
    s.(acked := |s.log|)
  }

  predicate CanFlushInstall(s: State) {
    s.Up? && s.db.flush == NoFlush && s.db.mem != []
  }

  function DoFlushInstall(s: State): State
    requires CanFlushInstall(s)
  {
    s.(disk := s.disk.(files := s.disk.files[s.db.nextSst := s.db.mem]),
       db := s.db.(flush := Installed(s.db.nextSst), nextSst := s.db.nextSst + 1))
  }

  // A snapshot appended behind a torn one, or one over the limits of the reader, is never read.

  predicate CanAppend(disk: Disk, m: seq<ManifestEntry>) {
    !disk.torn && Manifest.Encodable(m) && Manifest.Loads(m)
  }

  predicate Publishing(s: State) {
    s.Up? && s.db.flush.Installed? && s.db.mem != []
  }

  function FlushedVersion(v: Version, number: nat, mem: seq<Entry>): Version
    requires mem != []
  {
    v[0 := v[0] + [Layout.MakeFile(number, 0, mem)]]
  }

  predicate CanFlushPublish(s: State) {
    && Publishing(s)
    && CanAppend(s.disk, VersionToManifest(FlushedVersion(s.db.version, s.db.flush.number, s.db.mem)))
  }

  function DoFlushPublish(s: State): State
    requires Publishing(s)
  {
    var v := FlushedVersion(s.db.version, s.db.flush.number, s.db.mem);
    s.(disk := s.disk.(manifest := VersionToManifest(v)), db := s.db.(version := v, flush := Published))
  }

  predicate CanFlushClear(s: State) {
    s.Up? && s.db.flush == Published
  }

  function DoFlushClear(s: State): State
    requires CanFlushClear(s)
  {
    s.(disk := s.disk.(wal := []), db := s.db.(mem := [], flush := NoFlush))
  }

  predicate CanTakeSnapshot(s: State) {
    s.Up? && s.db.flush == NoFlush && s.db.nextSeq >= 1
  }

  function DoTakeSnapshot(s: State): State
    requires CanTakeSnapshot(s)
  {
    s.(db := s.db.(snapshots := s.db.snapshots + multiset{s.db.nextSeq - 1}))
  }

  predicate CanReleaseSnapshot(s: State) {
    s.Up? && s.db.flush == NoFlush
  }

  function DoReleaseSnapshot(s: State, t: nat): State
    requires CanReleaseSnapshot(s)
  {
    s.(db := s.db.(snapshots := s.db.snapshots - multiset{t}))
  }

  ghost predicate CanPickJob(s: State, force: bool, merged: seq<Entry>) {
    && s.Up? && s.db.flush == NoFlush && s.db.running.None?
    && var r := PickRunning(s.db, force, merged);
       && r.job.inputs != [] && r.job.out >= 1 && IsMerge(r.job.inputs, merged)
       && PickOk(s.db.version, s.db.opts, force) && SplitsBetweenKeys(r.parts)
  }

  ghost function DoPickJob(s: State, force: bool, merged: seq<Entry>): State
    requires CanPickJob(s, force, merged)
  {
    s.(db := s.db.(running := Some(PickRunning(s.db, force, merged))))
  }

  predicate CanAllocOutput(s: State) {
    && s.Up? && s.db.flush == NoFlush && s.db.running.Some?
    && var r := s.db.running.value; |r.numbers| == r.written < |r.parts|
  }

  function DoAllocOutput(s: State): State
    requires CanAllocOutput(s)
  {
    var r := s.db.running.value;
    s.(db := s.db.(running := Some(r.(numbers := r.numbers + [s.db.nextSst])), nextSst := s.db.nextSst + 1))
  }

  predicate CanWriteOutput(s: State) {
    && s.Up? && s.db.running.Some?
    && var r := s.db.running.value; r.written < |r.numbers| && r.written < |r.parts|
  }

  function DoWriteOutput(s: State): State
    requires CanWriteOutput(s)
  {
    var r := s.db.running.value;
    s.(disk := s.disk.(files := s.disk.files[r.numbers[r.written] := r.parts[r.written]]),
       db := s.db.(running := Some(r.(written := r.written + 1))))
  }

  predicate Committing(s: State) {
    && s.Up? && s.db.flush == NoFlush && s.db.running.Some?
    && var r := s.db.running.value;
       |r.parts| > 0 && r.written == |r.numbers| == |r.parts| && 1 <= r.job.out < MAX_LEVELS
       && forall i :: 0 <= i < |r.parts| ==> r.parts[i] != []
  }

  function CommittedVersion(v: Version, r: Running): Version
    requires |r.numbers| == |r.parts| && r.job.out < MAX_LEVELS && forall i :: 0 <= i < |r.parts| ==> r.parts[i] != []
  {
    Layout.Committed(v, Layout.Numbers(r.job.inputs), Layout.MakeOutputs(r.parts, r.numbers, r.job.out), r.job.out)
  }

  predicate CanCommitJob(s: State) {
    Committing(s) && CanAppend(s.disk, VersionToManifest(CommittedVersion(s.db.version, s.db.running.value)))
  }

  function DoCommitJob(s: State): State
    requires Committing(s)
  {
    var v := CommittedVersion(s.db.version, s.db.running.value);
    s.(disk := s.disk.(manifest := VersionToManifest(v)), db := s.db.(version := v, running := None))
  }

  predicate CanDropJob(s: State) {
    s.Up? && s.db.flush == NoFlush && s.db.running.Some? && s.db.running.value.parts == []
  }

  function DoDropJob(s: State): State
    requires CanDropJob(s)
  {
    s.(db := s.db.(running := None))
  }

  ghost predicate CanUnlink(s: State, n: nat) {
    s.Up? && !InUse(s, n)
  }

  function DoUnlink(s: State, n: nat): State {
    s.(disk := s.disk.(files := s.disk.files - {n}))
  }

  predicate CanCrash(s: State, j: nat) {
    s.Up? && j <= |s.db.pending| && (j > 0 ==> s.db.flush == NoFlush)
  }

  function DoCrash(s: State, j: nat): State
    requires CanCrash(s, j)
  {
    Down(s.disk.(wal := s.disk.wal + s.db.pending[..j]), s.log + Writes(s.db.pending[..j]), s.acked)
  }

  predicate CanTornCrash(s: State) {
    (Publishing(s) || Committing(s)) && !s.disk.torn
  }

  function DoTornCrash(s: State): State
    requires CanTornCrash(s)
  {
    Down(s.disk.(torn := true), s.log, s.acked)
  }

  predicate CanCleanUp(s: State, n: nat) {
    s.Down? && forall e :: e in s.disk.manifest ==> e.number != n
  }

  ghost function MaxOf(S: set<nat>): (m: nat)
    ensures forall n :: n in S ==> n <= m
  {
    if S == {} then 0
    else
      var n: nat :| n in S;
      var m := MaxOf(S - {n});
      assert forall i :: i in S ==> i == n || i in S - {n};
      if n > m then n else m
  }

  ghost function RecoveredMem(disk: Disk): seq<Entry> {
    InsertAll([], disk.wal)
  }

  ghost function RecoveredVersion(disk: Disk): Version {
    Rebuild(disk.manifest, disk.files)
  }

  ghost function Recover(disk: Disk, opts: Options): Db {
    var mem, v := RecoveredMem(disk), RecoveredVersion(disk);
    var top := MaxOf(set e | e in Stored(mem, Files(v)) :: e.seqno);
    var num := MaxOf(disk.files.Keys + set e | e in disk.manifest :: e.number);
    Db(opts, mem, v, 1 + num, 1 + top, multiset{}, [], NoFlush, None)
  }

  function LiveFiles(manifest: seq<ManifestEntry>, files: FileStore): FileStore {
    map n | n in files && n in (set e | e in manifest :: e.number) :: files[n]
  }

  ghost function DoOpen(s: State, opts: Options): State
    requires s.Down?
  {
    Up(s.disk.(files := LiveFiles(s.disk.manifest, s.disk.files)), Recover(s.disk, opts), s.log, s.acked)
  }

  ghost predicate Enabled(s: State, step: Step) {
    match step
    case Assign(ws) => CanAssign(s, ws)
    case Apply => CanApply(s)
    case Ack => CanAck(s)
    case FlushInstall => CanFlushInstall(s)
    case FlushPublish => CanFlushPublish(s)
    case FlushClear => CanFlushClear(s)
    case TakeSnapshot => CanTakeSnapshot(s)
    case ReleaseSnapshot(_) => CanReleaseSnapshot(s)
    case PickJob(force, merged) => CanPickJob(s, force, merged)
    case AllocOutput => CanAllocOutput(s)
    case WriteOutput => CanWriteOutput(s)
    case CommitJob => CanCommitJob(s)
    case DropJob => CanDropJob(s)
    case Unlink(n) => CanUnlink(s, n)
    case Crash(j) => CanCrash(s, j)
    case TornCrash => CanTornCrash(s)
    case CleanUp(n) => CanCleanUp(s, n)
    case Open(_) => s.Down?
  }

  ghost function Do(s: State, step: Step): State
    requires Enabled(s, step)
  {
    match step
    case Assign(ws) => DoAssign(s, ws)
    case Apply => DoApply(s)
    case Ack => DoAck(s)
    case FlushInstall => DoFlushInstall(s)
    case FlushPublish => DoFlushPublish(s)
    case FlushClear => DoFlushClear(s)
    case TakeSnapshot => DoTakeSnapshot(s)
    case ReleaseSnapshot(t) => DoReleaseSnapshot(s, t)
    case PickJob(force, merged) => DoPickJob(s, force, merged)
    case AllocOutput => DoAllocOutput(s)
    case WriteOutput => DoWriteOutput(s)
    case CommitJob => DoCommitJob(s)
    case DropJob => DoDropJob(s)
    case Unlink(n) => DoUnlink(s, n)
    case Crash(j) => DoCrash(s, j)
    case TornCrash => DoTornCrash(s)
    case CleanUp(n) => DoUnlink(s, n)
    case Open(opts) => DoOpen(s, opts)
  }

  ghost predicate Next(s: State, s': State) {
    exists step :: Enabled(s, step) && s' == Do(s, step)
  }

  // --------------------------------------------------------- the invariant

  ghost function Held(db: Db): set<Entry> {
    Stored(db.mem, Files(db.version))
  }

  ghost predicate DiskInv(disk: Disk, mem: seq<Entry>, v: Version) {
    && Elements(disk.wal) == Elements(mem)
    && OnDisk(Files(v), disk.files)
    && disk.manifest == VersionToManifest(v)
  }

  ghost predicate BelowNext(files: FileStore, F: set<FileMeta>, nextSst: nat) {
    && (forall n :: n in files ==> n < nextSst)
    && (forall f :: f in F ==> f.number < nextSst)
  }

  /** The lowest sequence number not yet applied. */
  function Base(db: Db): int {
    db.nextSeq - |db.pending|
  }

  ghost predicate SeqInv(S: set<Entry>, pending: seq<Entry>, nextSeq: nat) {
    var b := nextSeq - |pending|;
    && 1 <= b && nextSeq <= MAX_SEQ
    && (forall e :: e in S ==> e.seqno < b)
    && (forall i :: 0 <= i < |pending| ==> pending[i].seqno == b + i)
  }

  ghost predicate SnapInv(snapshots: multiset<nat>, nextSeq: nat) {
    forall t :: t in snapshots ==> t < nextSeq
  }

  ghost predicate LogInv(S: set<Entry>, log: seq<Write>, acked: nat) {
    && (forall k :: Read(S, k, MAX_SEQ) == Last(log, k))
    && acked <= |log|
  }

  function Allocated(running: Option<Running>): seq<nat> {
    if running.Some? then running.value.numbers else []
  }

  ghost predicate FlushInv(flush: FlushPhase, mem: seq<Entry>, F: set<FileMeta>, files: FileStore, nextSst: nat,
                           taken: seq<nat>) {
    match flush
    case NoFlush => true
    case Installed(n) =>
      && mem != [] && n < nextSst
      && n in files && files[n] == mem
      && (forall f :: f in F ==> f.number < n)
      && n !in taken
    case Published => Elements(mem) <= StoredIn(F)
  }

  ghost predicate NumbersInv(numbers: seq<nat>, F: set<FileMeta>, nextSst: nat) {
    && (forall i, j :: 0 <= i < j < |numbers| ==> numbers[i] != numbers[j])
    && (forall i :: 0 <= i < |numbers| ==> numbers[i] < nextSst)
    && (forall i, f :: 0 <= i < |numbers| && f in F ==> numbers[i] != f.number)
  }

  ghost predicate WrittenInv(r: Running, files: FileStore) {
    && r.written <= |r.numbers| <= |r.parts|
    && (forall i :: 0 <= i < r.written ==> r.numbers[i] in files && files[r.numbers[i]] == r.parts[i])
  }

  ghost predicate PlanInv(job: Job, oldest: nat, merged: seq<Entry>, parts: seq<seq<Entry>>, target: nat) {
    && Sorted(merged) && Elements(merged) == StoredIn(SetOf(job.inputs))
    && parts == Split(Collect(merged, oldest, job.bottom, [], false), target, [], 0)
    && SplitsBetweenKeys(parts)
    && oldest <= MAX_SEQ
  }

  ghost predicate ProtectInv(job: Job, oldest: nat, snapshots: multiset<nat>) {
    forall t :: t in snapshots ==> Protected(SetOf(job.inputs), oldest, t)
  }

  ghost predicate JobInv(job: Job, F: set<FileMeta>) {
    JobOk(F, SetOf(job.inputs), job.out, job.bottom)
  }

  ghost predicate RunningInv(r: Running, disk: Disk, db: Db) {
    && NumbersInv(r.numbers, Files(db.version), db.nextSst)
    && WrittenInv(r, disk.files)
    && PlanInv(r.job, r.oldest, r.merged, r.parts, db.opts.targetFileSize)
    && ProtectInv(r.job, r.oldest, db.snapshots)
    && JobInv(r.job, Files(db.version))
  }

  ghost predicate UpInv(disk: Disk, db: Db, log: seq<Write>, acked: nat) {
    && Healthy(db.mem, db.version)
    && DiskInv(disk, db.mem, db.version)
    && BelowNext(disk.files, Files(db.version), db.nextSst)
    && SeqInv(Held(db), db.pending, db.nextSeq)
    && SnapInv(db.snapshots, db.nextSeq)
    && LogInv(Held(db), log, acked)
    && FlushInv(db.flush, db.mem, Files(db.version), disk.files, db.nextSst, Allocated(db.running))
    && (db.running.Some? ==> RunningInv(db.running.value, disk, db))
  }

  ghost predicate DownInv(disk: Disk, log: seq<Write>, acked: nat) {
    var mem, v := RecoveredMem(disk), RecoveredVersion(disk);
    && Healthy(mem, v)
    && OnDisk(Files(v), disk.files)
    && disk.manifest == VersionToManifest(v)
    && (forall e :: e in Stored(mem, Files(v)) ==> e.seqno < MAX_SEQ)
    && LogInv(Stored(mem, Files(v)), log, acked)
  }

  ghost predicate Inv(s: State) {
    match s
    case Up(disk, db, log, acked) => UpInv(disk, db, log, acked)
    case Down(disk, log, acked) => DownInv(disk, log, acked)
  }

  ghost predicate Init(s: State) {
    s.Down? && s.disk == Disk([], [], map[], false) && s.log == [] && s.acked == 0
  }
}
