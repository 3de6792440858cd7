// What the invariant means over whole runs: reads, durability across crashes,
// snapshot stability, and the level structure of every reachable version.
module Runs {
  import opened Keys
  import opened Entries
  import opened Versions
  import opened Gc
  import opened Compaction
  import opened Picking
  import opened Recovery
  import opened Machine
  import opened Safety

  ghost predicate IsRun(ss: seq<State>) {
    ss != [] && forall i :: 0 <= i < |ss| - 1 ==> Next(ss[i], ss[i + 1])
  }

  lemma NextKeepsInv(s: State, s': State)
    requires Inv(s) && Next(s, s')
    ensures Inv(s')
  {
    hide Inv;
    var step :| Enabled(s, step) && s' == Do(s, step);
    StepKeepsInv(s, step);
  }

  lemma {:induction false} RunKeepsInv(ss: seq<State>, i: nat)
    requires IsRun(ss) && Inv(ss[0]) && i < |ss|
    ensures Inv(ss[i])
  {
    hide Inv, Next;
    if i > 0 {
      RunKeepsInv(ss, i - 1);
      NextKeepsInv(ss[i - 1], ss[i]);
    }
  }

  // -------------------------------------------------------------------- reads

  /** A read at any bound answers with the newest stored version at or below it. */
  lemma GetMeansRead(s: State, k: Bytes, t: nat)
    requires Inv(s) && s.Up?
    ensures Get(s.db.mem, s.db.version, k, t) == Read(Held(s.db), k, t)
  {
    hide Get, Read, Stored, Files, Arranged, LayersOk;
    GetReadsNewest(s.db.mem, s.db.version, k, t);
  }

  lemma ReachableHealthy(ss: seq<State>, i: nat)
    requires IsRun(ss) && Init(ss[0]) && i < |ss| && ss[i].Up?
    ensures Healthy(ss[i].db.mem, ss[i].db.version)
  {
    hide Healthy, DiskInv, BelowNext, LogInv, SeqInv, FlushInv, RunningInv, Files, Stored, Next;
    InitInv(ss[0]);
    RunKeepsInv(ss, i);
  }

  /** In every reachable state a plain get answers what the log of durable writes says. */
  lemma GetReadsLog(ss: seq<State>, i: nat, k: Bytes)
    requires IsRun(ss) && Init(ss[0]) && i < |ss| && ss[i].Up?
    ensures Get(ss[i].db.mem, ss[i].db.version, k, MAX_SEQ) == Last(ss[i].log, k)
  {
    hide Inv, Next, Get, Last;
    InitInv(ss[0]);
    RunKeepsInv(ss, i);
    InvReadsLog(ss[i], k);
  }

  lemma InvReadsLog(s: State, k: Bytes)
    requires Inv(s) && s.Up?
    ensures Get(s.db.mem, s.db.version, k, MAX_SEQ) == Last(s.log, k)
  {
    hide Get, Read, Stored, Files, Arranged, LayersOk, Last;
    GetMeansRead(s, k, MAX_SEQ);
  }

  /** Every level below L0 of every reachable version is a sorted run of disjoint files. */
  lemma LevelsStaySorted(ss: seq<State>, i: nat, l: nat)
    requires IsRun(ss) && Init(ss[0]) && i < |ss| && ss[i].Up? && 1 <= l < MAX_LEVELS
    ensures SortedRun(ss[i].db.version[l])
  {
    hide SortedRun, Arranged, LayersOk, Files, Next;
    InitInv(ss[0]);
    RunKeepsInv(ss, i);
    LayersParts(ss[i].db.mem, Files(ss[i].db.version));
    LevelIsSortedRun(ss[i].db.version, l);
  }

  /** next_seq_ is above every stored sequence number, after every recovery too. */
  lemma NextSeqAboveStored(ss: seq<State>, i: nat, e: Entry)
    requires IsRun(ss) && Init(ss[0]) && i < |ss| && ss[i].Up? && e in Held(ss[i].db)
    ensures e.seqno < ss[i].db.nextSeq
  {
    hide Inv, Next, Stored, Files;
    InitInv(ss[0]);
    RunKeepsInv(ss, i);
    InvNextSeq(ss[i], e);
  }

  lemma InvNextSeq(s: State, e: Entry)
    requires Inv(s) && s.Up? && e in Held(s.db)
    ensures e.seqno < s.db.nextSeq
  {
    hide Healthy, Stored, Files;
  }

  // --------------------------------------------------------------- durability

  /** No step, and in particular no crash, takes a logged write back. */
  lemma StepExtendsLog(s: State, step: Step)
    requires Enabled(s, step)
    ensures s.log <= Do(s, step).log
    ensures s.acked <= |s.log| ==> s.acked <= Do(s, step).acked
  {
  }

  /** The log of writes is history: it says what reads must answer, and grows by definition. */
  lemma {:induction false} LogOnlyGrows(ss: seq<State>, i: nat, j: nat)
    requires IsRun(ss) && i <= j < |ss|
    ensures ss[i].log <= ss[j].log
  {
    hide Next;
    if i < j {
      LogOnlyGrows(ss, i, j - 1);
      NextExtendsLog(ss[j - 1], ss[j]);
    }
  }

  lemma NextExtendsLog(s: State, s': State)
    requires Next(s, s')
    ensures s.log <= s'.log
  {
    var step :| Enabled(s, step) && s' == Do(s, step);
    StepExtendsLog(s, step);
  }

  /**
   * Durability over runs with any number of crashes, at any point of a write, a flush, a
   * compaction or a MANIFEST append: whatever was acknowledged by state i is a prefix of the
   * log that every later get answers from. The hypotheses are guards of the steps: Assign has
   * writes that replay can read, FlushPublish and CommitJob append a snapshot that can be
   * loaded to a MANIFEST without a torn tail. Without any one of them the result is false
   * (LostWrites.LongRecordRunLoses, LongKeyRunLoses, TornRunLoses).
   */
  lemma AcknowledgedWritesSurvive(ss: seq<State>, i: nat, j: nat, k: Bytes)
    requires IsRun(ss) && Init(ss[0]) && i <= j < |ss| && ss[j].Up?
    ensures ss[i].acked <= |ss[i].log|
    ensures ss[i].log[..ss[i].acked] <= ss[j].log
    ensures Get(ss[j].db.mem, ss[j].db.version, k, MAX_SEQ) == Last(ss[j].log, k)
  {
    hide Inv, Next, Get, Last;
    InitInv(ss[0]);
    RunKeepsInv(ss, i);
    InvAcked(ss[i]);
    LogOnlyGrows(ss, i, j);
    GetReadsLog(ss, j, k);
  }

  lemma InvAcked(s: State)
    requires Inv(s)
    ensures s.acked <= |s.log|
  {
    hide Healthy, Stored, Files, Read, Last;
  }

  /**
   * What recovery yields: the writes in the log before the crash followed by a prefix of
   * the batch in flight, the exact version that was last published, a consistent state,
   * and fresh sequence and file numbers.
   */
  lemma CrashThenOpen(s: State, j: nat, opts: Options)
    requires Inv(s) && CanCrash(s, j)
    ensures var r := DoOpen(DoCrash(s, j), opts);
            && Inv(r)
            && r.log == s.log + Writes(s.db.pending[..j])
            && r.db.version == s.db.version
            && (forall k :: Get(r.db.mem, r.db.version, k, MAX_SEQ) == Last(r.log, k))
            && (forall e :: e in Held(r.db) ==> e.seqno < r.db.nextSeq)
            && (forall f :: f in Files(r.db.version) ==> f.number < r.db.nextSst)
  {
    var d := DoCrash(s, j);
    CrashKeepsInv(s, j);
    OpenKeepsInv(d, opts);
    var r := DoOpen(d, opts);
    forall k ensures Get(r.db.mem, r.db.version, k, MAX_SEQ) == Last(r.log, k) { InvReadsLog(r, k); }
    forall e | e in Held(r.db) ensures e.seqno < r.db.nextSeq { InvNextSeq(r, e); }
    InvNumbers(r);
    CrashKeepsVersion(s, j);
  }

  lemma InvNumbers(s: State)
    requires Inv(s) && s.Up?
    ensures forall f :: f in Files(s.db.version) ==> f.number < s.db.nextSst
  {
    hide Healthy, Stored, Files, Read, Last;
  }

  lemma CrashKeepsVersion(s: State, j: nat)
    requires Inv(s) && CanCrash(s, j)
    ensures RecoveredVersion(DoCrash(s, j).disk) == s.db.version
  {
    hide Arranged, LayersOk, Files, Rebuild, VersionToManifest, OnDisk;
    LayersParts(s.db.mem, Files(s.db.version));
    RebuildRestores(s.db.version, s.disk.files);
  }

  // --------------------------------------------------------------- snapshots

  /** Every sequence number up to t has been applied. */
  predicate Settled(db: Db, t: nat) {
    t < Base(db)
  }

  lemma CommitKeepsRead(s: State, k: Bytes, t: nat)
    requires Inv(s) && CanCommitJob(s) && (t in s.db.snapshots || t >= s.db.nextSeq - 1)
    ensures Read(Held(DoCommitJob(s).db), k, t) == Read(Held(s.db), k, t)
  {
    hide Arranged, LayersOk, LogInv, WrittenInv, PlanInv, NumbersInv, JobInv, Files, Stored, StoredIn,
         VersionToManifest, OutputsOf, FreshNumbers, SetOf, Read, Protected;
    var db := s.db;
    var r := db.running.value;
    var F, I, O := Files(db.version), SetOf(r.job.inputs), SetOf(Outputs(r));
    LayersParts(db.mem, F);
    FinishedJob(r, db.mem, F, db.opts.targetFileSize, db.nextSst);
    CommitArranged(db.version, r.job, Outputs(r), r.oldest);
    JobParts(r, F, db.opts.targetFileSize);
    if t !in db.snapshots { LateSnapshotProtected(db, r.job, r.oldest, t); }
    CommitPreservesReads(db.mem, F, I, O, r.job.out, r.job.bottom, r.oldest, k, t);
  }

  lemma LateSnapshotProtected(db: Db, job: Job, oldest: nat, t: nat)
    requires SeqInv(Held(db), db.pending, db.nextSeq) && SetOf(job.inputs) <= Files(db.version) && t >= db.nextSeq - 1
    ensures Protected(SetOf(job.inputs), oldest, t)
  {
    hide Files;
    forall e | e in StoredIn(SetOf(job.inputs)) ensures e.seqno <= t {
      assert e in Held(db);
    }
  }

  lemma ApplyKeepsRead(s: State, k: Bytes, t: nat)
    requires Inv(s) && CanApply(s) && Settled(s.db, t)
    ensures Read(Held(DoApply(s).db), k, t) == Read(Held(s.db), k, t)
  {
    hide LayersOk, Arranged, LogInv, Files, Stored, Read;
    PendingFollows(s);
    InsertBatch(s.db.mem, Files(s.db.version), s.db.pending, Base(s.db));
    HealthyIsFunctional(s.db.mem, Files(s.db.version));
    BatchHidden(Held(s.db), s.db.pending, Base(s.db), k, t);
  }

  lemma PublishKeepsHeld(s: State)
    requires Inv(s) && CanFlushPublish(s)
    ensures Held(DoFlushPublish(s).db) == Held(s.db)
  {
    hide Arranged, LayersOk, Files, Stored, VersionToManifest;
    var f := Layout.MakeFile(s.db.flush.number, 0, s.db.mem);
    PushedFiles(s.db.version, f);
    StoredWithMem(s.db.mem, Files(s.db.version), f);
  }

  lemma ClearKeepsHeld(s: State)
    requires Inv(s) && CanFlushClear(s)
    ensures Held(DoFlushClear(s).db) == Held(s.db)
  {
    hide Arranged, LayersOk, Files, StoredIn, VersionToManifest;
  }

  predicate Quiet(step: Step) {
    !step.Crash? && !step.TornCrash? && !step.CleanUp? && !step.Open?
  }

  /** One step of a running database leaves a live, settled snapshot's reads alone. */
  lemma StepKeepsSnapshot(s: State, step: Step, k: Bytes, t: nat)
    requires Inv(s) && s.Up? && Enabled(s, step) && Quiet(step)
    requires t in s.db.snapshots && Settled(s.db, t)
    ensures Read(Held(Do(s, step).db), k, t) == Read(Held(s.db), k, t)
    ensures Settled(Do(s, step).db, t)
  {
    hide Inv, Read, Files, Stored;
    match step
    case Apply => ApplyKeepsRead(s, k, t);
    case CommitJob => CommitKeepsRead(s, k, t);
    case FlushPublish => PublishKeepsHeld(s);
    case FlushClear => ClearKeepsHeld(s);
    case _ =>
  }

  ghost predicate StaysLive(ss: seq<State>, i: nat, j: nat, t: nat)
    requires i <= j < |ss|
  {
    forall m :: i <= m <= j ==> ss[m].Up? && t in ss[m].db.snapshots
  }

  lemma NextKeepsSnapshot(s: State, s': State, k: Bytes, t: nat)
    requires Inv(s) && s.Up? && s'.Up? && Next(s, s') && t in s.db.snapshots && Settled(s.db, t)
    ensures Read(Held(s'.db), k, t) == Read(Held(s.db), k, t) && Settled(s'.db, t)
  {
    hide Inv, Read, Files, Stored;
    var step :| Enabled(s, step) && s' == Do(s, step);
    StepKeepsSnapshot(s, step, k, t);
  }

  lemma {:induction false} SnapshotReadsStable(ss: seq<State>, i: nat, j: nat, k: Bytes, t: nat)
    requires IsRun(ss) && Inv(ss[0]) && i <= j < |ss| && StaysLive(ss, i, j, t) && Settled(ss[i].db, t)
    ensures Settled(ss[j].db, t)
    ensures Read(Held(ss[j].db), k, t) == Read(Held(ss[i].db), k, t)
  {
    hide Inv, Read, Files, Stored, Next, Settled;
    if i < j {
      SnapshotReadsStable(ss, i, j - 1, k, t);
      RunKeepsInv(ss, j - 1);
      assert Next(ss[j - 1], ss[j - 1 + 1]);
      NextKeepsSnapshot(ss[j - 1], ss[j], k, t);
    }
  }

  /**
   * Snapshot stability: taken with no batch in flight and kept until state j, a snapshot
   * answers every get at j as it did when it was taken, which is what a plain get
   * answered then.
   */
  lemma SnapshotStable(ss: seq<State>, i: nat, j: nat, k: Bytes)
    requires IsRun(ss) && Init(ss[0]) && i < j < |ss|
    requires CanTakeSnapshot(ss[i]) && ss[i].db.pending == [] && ss[i + 1] == DoTakeSnapshot(ss[i])
    requires StaysLive(ss, i + 1, j, ss[i].db.nextSeq - 1)
    ensures var t := ss[i].db.nextSeq - 1;
            Get(ss[j].db.mem, ss[j].db.version, k, t) == Last(ss[i].log, k)
  {
    hide Inv, Read, Files, Stored, Next, Last, Get;
    var t := ss[i].db.nextSeq - 1;
    InitInv(ss[0]);
    RunKeepsInv(ss, i);
    RunKeepsInv(ss, i + 1);
    RunKeepsInv(ss, j);
    SnapshotReadsStable(ss, i + 1, j, k, t);
    GetMeansRead(ss[j], k, t);
    InvReadsLog(ss[i], k);
    GetMeansRead(ss[i], k, MAX_SEQ);
    NewestBoundIrrelevant(ss[i], k, t);
  }

  /** With nothing in flight, reading at next_seq_ - 1 is reading at the newest bound. */
  lemma NewestBoundIrrelevant(s: State, k: Bytes, t: nat)
    requires Inv(s) && s.Up? && t >= s.db.nextSeq - 1
    ensures Read(Held(s.db), k, t) == Read(Held(s.db), k, MAX_SEQ)
  {
    hide Arranged, FilesOk, LogInv, Files, Stored, Over;
    var S := Held(s.db);
    assert forall e :: e in S ==> (Visible(e, k, MAX_SEQ) <==> Visible(e, k, t));
    NewestUnique(S, k, t, Newest(S, k, MAX_SEQ));
  }

  /** With no snapshot live at pick, no output boundary can split a key's versions. */
  lemma NoSnapshotNoStraddle(s: State, force: bool, merged: seq<Entry>)
    requires Inv(s) && s.Up? && s.db.snapshots == multiset{}
    requires var job := Pick(s.db.version, s.db.opts, force);
             SetOf(job.inputs) <= Files(s.db.version) && IsMerge(job.inputs, merged)
    ensures SplitsBetweenKeys(PickRunning(s.db, force, merged).parts)
  {
    hide Healthy, DiskInv, BelowNext, LogInv, FlushInv, RunningInv, Files, Pick, StoredIn, Split, Collect,
         SplitsBetweenKeys;
    var r := PickRunning(s.db, force, merged);
    MergeElements(r.job.inputs, merged);
    OneVersionPerKey(s.db, r, merged);
    var kept := Collect(merged, r.oldest, r.job.bottom, [], false);
    SplitConcat(kept, s.db.opts.targetFileSize, [], 0);
    assert [] + kept == kept;
    StrictKeysSplit(kept, r.parts);
  }

  lemma OneVersionPerKey(db: Db, r: Running, merged: seq<Entry>)
    requires SeqInv(Held(db), db.pending, db.nextSeq) && SetOf(r.job.inputs) <= Files(db.version)
    requires Sorted(merged) && Elements(merged) == StoredIn(SetOf(r.job.inputs)) && r.oldest == MAX_SEQ
    ensures StrictKeys(Collect(merged, r.oldest, r.job.bottom, [], false))
  {
    forall e | e in merged ensures e.seqno <= r.oldest && !Less(e.key, []) {
      assert e in Elements(merged);
      assert e in StoredIn(Files(db.version));
      assert e in Held(db);
      EmptyIsLeast(e.key);
    }
    CollectOnePerKey(merged, r.oldest, r.job.bottom, [], false);
  }
}
