// The invariant of the machine is kept by every step, crashes and recovery
// included.
module Safety {
  import opened Keys
  import opened Entries
  import opened Versions
  import opened Gc
  import opened Compaction
  import opened Picking
  import opened Recovery
  import opened Machine
  import Layout
  import Merging

  // ------------------------------------------------------------------- writes

  lemma InsertOne(mem: seq<Entry>, F: set<FileMeta>, e: Entry)
    requires LayersOk(mem, F) && forall x :: x in Stored(mem, F) ==> x.seqno < e.seqno
    ensures LayersOk(Insert(mem, e), F)
    ensures Stored(Insert(mem, e), F) == Stored(mem, F) + {e}
  {
    var mem' := Insert(mem, e);
    InsertSorted(mem, e);
    assert Elements(mem') == Elements(mem) + {e};
    assert Stored(mem', F) == Stored(mem, F) + {e};
    forall f | f in F ensures Over(mem', f.table) {
      forall x, y | x in mem' && y in f.table && x.key == y.key && x.seqno <= y.seqno ensures y in mem' {
        assert y in StoredIn(F);
        assert Over(mem, f.table);
      }
    }
  }

  ghost predicate Follows(S: set<Entry>, es: seq<Entry>, b: nat) {
    && (forall x :: x in S ==> x.seqno < b)
    && (forall i :: 0 <= i < |es| ==> es[i].seqno == b + i)
  }

  lemma LastElement(es: seq<Entry>)
    requires es != []
    ensures Elements(es) == Elements(es[..|es| - 1]) + {es[|es| - 1]}
  {
    assert es == es[..|es| - 1] + [es[|es| - 1]];
  }

  /** Applying a numbered batch keeps the layers and adds exactly the batch. */
  lemma {:induction false} InsertBatch(mem: seq<Entry>, F: set<FileMeta>, es: seq<Entry>, b: nat)
    requires LayersOk(mem, F) && Follows(Stored(mem, F), es, b)
    ensures LayersOk(InsertAll(mem, es), F)
    ensures Stored(InsertAll(mem, es), F) == Stored(mem, F) + Elements(es)
    ensures forall x :: x in Stored(InsertAll(mem, es), F) ==> x.seqno < b + |es|
    decreases |es|
  {
    hide LayersOk, StoredIn;
    if es != [] {
      InsertBatch(mem, F, es[..|es| - 1], b);
      InsertOne(InsertAll(mem, es[..|es| - 1]), F, es[|es| - 1]);
      LastElement(es);
    }
  }

  lemma {:induction false} BatchReads(S: set<Entry>, es: seq<Entry>, b: nat, log: seq<Write>, k: Bytes)
    requires Functional(S) && Follows(S, es, b) && b + |es| <= MAX_SEQ + 1
    requires Read(S, k, MAX_SEQ) == Last(log, k)
    ensures Functional(S + Elements(es))
    ensures forall x :: x in S + Elements(es) ==> x.seqno < b + |es|
    ensures Read(S + Elements(es), k, MAX_SEQ) == Last(log + Writes(es), k)
    decreases |es|
  {
    hide Functional, Read, Last;
    if es == [] {
      assert S + Elements(es) == S && log + Writes(es) == log;
    } else {
      var init, e := es[..|es| - 1], es[|es| - 1];
      BatchReads(S, init, b, log, k);
      ReadAfterWrite(S + Elements(init), e, k, MAX_SEQ);
      LastElement(es);
      assert S + Elements(es) == S + Elements(init) + {e};
      LastAppended(log, es, k);
    }
  }

  lemma LastAppended(log: seq<Write>, es: seq<Entry>, k: Bytes)
    requires es != []
    ensures var e := es[|es| - 1];
            Last(log + Writes(es), k) == if e.key == k then Answer(Some(e)) else Last(log + Writes(es[..|es| - 1]), k)
  {
    var l := log + Writes(es);
    assert l[..|l| - 1] == log + Writes(es[..|es| - 1]);
  }

  lemma {:induction false} BatchHidden(S: set<Entry>, es: seq<Entry>, b: nat, k: Bytes, t: nat)
    requires Functional(S) && Follows(S, es, b) && t < b
    ensures Functional(S + Elements(es))
    ensures forall x :: x in S + Elements(es) ==> x.seqno < b + |es|
    ensures Read(S + Elements(es), k, t) == Read(S, k, t)
    decreases |es|
  {
    hide Functional, Read;
    if es == [] {
      assert S + Elements(es) == S;
    } else {
      var init, e := es[..|es| - 1], es[|es| - 1];
      BatchHidden(S, init, b, k, t);
      ReadBelowWrite(S + Elements(init), e, k, t);
      LastElement(es);
      assert S + Elements(es) == S + Elements(init) + {e};
    }
  }

  lemma ApplyLog(S: set<Entry>, es: seq<Entry>, b: nat, log: seq<Write>, acked: nat)
    requires Functional(S) && Follows(S, es, b) && b + |es| <= MAX_SEQ + 1 && LogInv(S, log, acked)
    ensures LogInv(S + Elements(es), log + Writes(es), acked)
  {
    forall k ensures Read(S + Elements(es), k, MAX_SEQ) == Last(log + Writes(es), k) { BatchReads(S, es, b, log, k); }
  }

  lemma AssignKeepsInv(s: State, ws: seq<Write>)
    requires Inv(s) && Assigning(s, ws)
    ensures Inv(DoAssign(s, ws))
  {
    hide Healthy, DiskInv, BelowNext, LogInv, FlushInv, RunningInv, NumbersInv, WrittenInv, PlanInv, ProtectInv,
         JobInv, Files, Stored;
    if s.db.running.Some? { RunningFrame(s, DoAssign(s, ws)); }
  }

  /** A compaction in flight only looks at a few parts of the state. */
  lemma RunningFrame(s: State, s': State)
    requires s.Up? && s'.Up? && s.db.running.Some? && s'.db.running == s.db.running
    requires RunningInv(s.db.running.value, s.disk, s.db)
    requires s'.db.version == s.db.version && s'.db.nextSst == s.db.nextSst && s'.db.opts == s.db.opts
    requires s'.db.snapshots == s.db.snapshots && s'.disk.files == s.disk.files
    ensures RunningInv(s'.db.running.value, s'.disk, s'.db)
  {
    hide NumbersInv, WrittenInv, PlanInv, ProtectInv, JobInv, Files;
  }

  lemma PendingFollows(s: State)
    requires s.Up? && SeqInv(Held(s.db), s.db.pending, s.db.nextSeq)
    ensures Base(s.db) >= 1 && Follows(Held(s.db), s.db.pending, Base(s.db)) && s.db.nextSeq <= MAX_SEQ
  {
    hide Files, Stored;
  }

  lemma ApplyNumbers(S: set<Entry>, pending: seq<Entry>, nextSeq: nat)
    requires SeqInv(S, pending, nextSeq)
    ensures SeqInv(S + Elements(pending), [], nextSeq)
  {
  }

  lemma SameElements(wal: seq<Entry>, mem: seq<Entry>, es: seq<Entry>)
    requires Elements(wal) == Elements(mem)
    ensures Elements(wal + es) == Elements(InsertAll(mem, es))
  {
    forall e ensures e in wal + es <==> e in InsertAll(mem, es) {
      assert e in wal <==> e in Elements(wal);
      assert e in mem <==> e in Elements(mem);
    }
  }

  lemma ApplyKeepsInv(s: State)
    requires Inv(s) && CanApply(s)
    ensures Inv(DoApply(s))
  {
    hide LayersOk, Arranged, OnDisk, BelowNext, LogInv, SeqInv, RunningInv, Files, Stored, Elements,
         VersionToManifest, InsertAll;
    var db, s' := s.db, DoApply(s);
    var F := Files(db.version);
    PendingFollows(s);
    InsertBatch(db.mem, F, db.pending, Base(db));
    HealthyIsFunctional(db.mem, F);
    ApplyLog(Held(db), db.pending, Base(db), s.log, s.acked);
    ApplyNumbers(Held(db), db.pending, db.nextSeq);
    SameElements(s.disk.wal, db.mem, db.pending);
    if db.running.Some? { RunningFrame(s, s'); }
  }

  lemma AckKeepsInv(s: State)
    requires Inv(s) && CanAck(s)
    ensures Inv(DoAck(s))
  {
    hide Healthy, DiskInv, BelowNext, SeqInv, SnapInv, FlushInv, RunningInv, Files, Stored, Read, Last;
  }

  lemma HealthyIsFunctional(mem: seq<Entry>, F: set<FileMeta>)
    requires LayersOk(mem, F)
    ensures Functional(Stored(mem, F))
  {
  }

  // ------------------------------------------------------------------- flush

  lemma FlushInstallKeepsInv(s: State)
    requires Inv(s) && CanFlushInstall(s)
    ensures Inv(DoFlushInstall(s))
  {
    hide Healthy, LogInv, SeqInv, PlanInv, ProtectInv, JobInv, Files, Stored, VersionToManifest;
    if s.db.running.Some? {
      var r := s.db.running.value;
      assert forall i :: 0 <= i < |r.numbers| ==> r.numbers[i] < s.db.nextSst;
    }
  }

  lemma PushedFiles(v: Version, f: FileMeta)
    ensures Files(v[0 := v[0] + [f]]) == Files(v) + {f}
  {
    var v' := v[0 := v[0] + [f]];
    forall g | g in Files(v') ensures g in Files(v) + {f} {
      var l := Layout.LevelFiles(v', g);
      if g != f { Layout.FileInLevel(v, l, g); }
    }
    forall g | g in Files(v) ensures g in Files(v') {
      var l := Layout.LevelFiles(v, g);
      Layout.FileInLevel(v', l, g);
    }
    Layout.FileInLevel(v', 0, f);
  }

  lemma StoredWithMem(mem: seq<Entry>, F: set<FileMeta>, f: FileMeta)
    requires f.table == mem
    ensures Stored(mem, F + {f}) == Stored(mem, F)
    ensures Elements(mem) <= StoredIn(F + {f})
  {
    forall e | e in StoredIn(F + {f}) ensures e in Stored(mem, F) {
      var g :| g in F + {f} && e in g.table;
    }
    assert f in F + {f};
  }

  lemma PublishFilesOk(mem: seq<Entry>, F: set<FileMeta>, f: FileMeta)
    requires FilesOk(F) && FileOk(f) && f.level == 0 && f.table == mem
    requires forall g :: g in F ==> Over(mem, g.table) && g.number < f.number
    ensures FilesOk(F + {f})
  {
    hide Over, LeftOf, FileOk;
  }

  lemma PublishLayers(mem: seq<Entry>, F: set<FileMeta>, f: FileMeta)
    requires LayersOk(mem, F) && mem != [] && f == Layout.MakeFile(f.number, 0, mem)
    requires forall g :: g in F ==> g.number < f.number
    ensures LayersOk(mem, F + {f})
  {
    hide FilesOk, Stored, Functional, Sorted;
    StoredWithMem(mem, F, f);
    PublishFilesOk(mem, F, f);
    assert Over(mem, f.table);
  }

  lemma PublishArranged(v: Version, f: FileMeta)
    requires Arranged(v) && f.level == 0 && forall g :: g in Files(v) ==> g.number < f.number
    ensures Arranged(v[0 := v[0] + [f]])
  {
    forall i | 0 <= i < |v[0]| ensures v[0][i].number < f.number {
      Layout.FileInLevel(v, 0, v[0][i]);
    }
  }

  lemma FlushPublishKeepsInv(s: State)
    requires Inv(s) && CanFlushPublish(s)
    ensures Inv(DoFlushPublish(s))
  {
    hide Arranged, LayersOk, LogInv, SeqInv, SnapInv, PlanInv, ProtectInv, JobOk, WrittenInv, Files, Stored,
         VersionToManifest;
    var db, s' := s.db, DoFlushPublish(s);
    var f := Layout.MakeFile(db.flush.number, 0, db.mem);
    var F := Files(db.version);
    PushedFiles(db.version, f);
    PublishLayers(db.mem, F, f);
    StoredWithMem(db.mem, F, f);
    PublishArranged(db.version, f);
    if db.running.Some? {
      var r := db.running.value;
      assert f !in F;
      JobOkAfterFlush(F, SetOf(r.job.inputs), r.job.out, r.job.bottom, f);
    }
  }

  lemma FlushClearKeepsInv(s: State)
    requires Inv(s) && CanFlushClear(s)
    ensures Inv(DoFlushClear(s))
  {
    hide Arranged, LogInv, SeqInv, SnapInv, RunningInv, BelowNext, FilesOk, OnDisk, Files, VersionToManifest;
    var s' := DoFlushClear(s);
    assert Held(s'.db) == Held(s.db);
    if s.db.running.Some? { RunningFrame(s, s'); }
  }

  // --------------------------------------------------------------- snapshots

  /** A snapshot taken now is above everything a job in flight may collect. */
  lemma SnapshotProtected(db: Db, job: Job, t: nat)
    requires SeqInv(Held(db), db.pending, db.nextSeq) && SetOf(job.inputs) <= Files(db.version) && t == db.nextSeq - 1
    ensures Protected(SetOf(job.inputs), MAX_SEQ, t)
  {
    hide Files;
    forall e | e in StoredIn(SetOf(job.inputs)) ensures e.seqno <= t {
      assert e in Held(db);
    }
  }

  lemma TakeSnapshotKeepsInv(s: State)
    requires Inv(s) && CanTakeSnapshot(s)
    ensures Inv(DoTakeSnapshot(s))
  {
    hide Healthy, DiskInv, BelowNext, LogInv, NumbersInv, WrittenInv, SplitsBetweenKeys, Files, Stored, StoredIn;
    var db, s' := s.db, DoTakeSnapshot(s);
    if db.running.Some? {
      var r := db.running.value;
      SnapshotProtected(db, r.job, db.nextSeq - 1);
      assert Protected(SetOf(r.job.inputs), r.oldest, db.nextSeq - 1);
    }
  }

  lemma ReleaseSnapshotKeepsInv(s: State, t: nat)
    requires Inv(s) && CanReleaseSnapshot(s)
    ensures Inv(DoReleaseSnapshot(s, t))
  {
    hide Healthy, DiskInv, BelowNext, LogInv, SeqInv, NumbersInv, WrittenInv, PlanInv, JobInv, Files, Stored,
         StoredIn, Protected;
  }

  // -------------------------------------------------------------- compaction

  lemma MergeElements(fs: seq<FileMeta>, merged: seq<Entry>)
    requires IsMerge(fs, merged)
    ensures Elements(merged) == StoredIn(SetOf(fs))
  {
    var ts := Tables(fs);
    forall e ensures e in merged <==> e in StoredIn(SetOf(fs)) {
      Merging.BagMembers(ts, e);
      assert e in merged <==> e in multiset(merged);
      if e in Union(ts) {
        var i :| 0 <= i < |ts| && e in ts[i];
        assert fs[i] in SetOf(fs);
      }
      if e in StoredIn(SetOf(fs)) {
        var f :| f in SetOf(fs) && e in f.table;
        var i :| 0 <= i < |fs| && fs[i] == f;
        assert e in ts[i];
      }
    }
  }

  lemma PickProtects(db: Db, job: Job)
    requires SnapInv(db.snapshots, db.nextSeq) && db.nextSeq <= MAX_SEQ
    ensures ProtectInv(job, OldestSnapshot(db.snapshots), db.snapshots)
    ensures OldestSnapshot(db.snapshots) <= MAX_SEQ
  {
  }

  lemma PickJobKeepsInv(s: State, force: bool, merged: seq<Entry>)
    requires Inv(s) && CanPickJob(s, force, merged)
    ensures Inv(DoPickJob(s, force, merged))
  {
    hide Arranged, FilesOk, DiskInv, BelowNext, LogInv, NumbersInv, SplitsBetweenKeys, Files, Stored, Pick, JobOk,
         Functional, OldestSnapshot;
    var db := s.db;
    PickSafe(db.version, db.opts, force);
    var job := Pick(db.version, db.opts, force);
    MergeElements(job.inputs, merged);
    PickProtects(db, job);
    assert NumbersInv([], Files(db.version), db.nextSst) by { NoNumbers(Files(db.version), db.nextSst); }
  }

  lemma NoNumbers(F: set<FileMeta>, nextSst: nat)
    ensures NumbersInv([], F, nextSst)
  {
  }

  lemma AllocOutputKeepsInv(s: State)
    requires Inv(s) && CanAllocOutput(s)
    ensures Inv(DoAllocOutput(s))
  {
    hide Healthy, DiskInv, LogInv, SeqInv, SnapInv, PlanInv, ProtectInv, JobInv, Files, Stored;
  }

  lemma WriteOutputKeepsInv(s: State)
    requires Inv(s) && CanWriteOutput(s)
    ensures Inv(DoWriteOutput(s))
  {
    hide Healthy, VersionToManifest, LogInv, SeqInv, SnapInv, PlanInv, ProtectInv, JobInv, Files, Stored;
    var r := s.db.running.value;
    assert r.numbers[r.written] in r.numbers;
    assert forall f :: f in Files(s.db.version) ==> f.number != r.numbers[r.written];
  }

  lemma DropJobKeepsInv(s: State)
    requires Inv(s) && CanDropJob(s)
    ensures Inv(DoDropJob(s))
  {
    hide Healthy, DiskInv, BelowNext, LogInv, SeqInv, SnapInv, RunningInv, Files, Stored;
  }

  ghost function Outputs(r: Running): seq<FileMeta>
    requires |r.numbers| == |r.parts| && forall i :: 0 <= i < |r.parts| ==> r.parts[i] != []
  {
    Layout.MakeOutputs(r.parts, r.numbers, r.job.out)
  }

  /** The files a finished job has written are the outputs the commit argument needs. */
  lemma FinishedJob(r: Running, mem: seq<Entry>, F: set<FileMeta>, target: nat, nextSst: nat)
    requires PlanInv(r.job, r.oldest, r.merged, r.parts, target) && NumbersInv(r.numbers, F, nextSst)
             && JobInv(r.job, F)
    requires Functional(Stored(mem, F))
    requires |r.numbers| == |r.parts| && forall i :: 0 <= i < |r.parts| ==> r.parts[i] != []
    ensures OutputsOf(SetOf(Outputs(r)), SetOf(r.job.inputs), r.job.out, r.job.bottom, r.oldest)
    ensures FreshNumbers(SetOf(Outputs(r)), F)
    ensures forall i, j :: 0 <= i < j < |Outputs(r)| ==> Outputs(r)[i].number != Outputs(r)[j].number
  {
    hide SplitsBetweenKeys, Split, Collect, Sorted, OneSide, LeftOf, Above, OutputsOf;
    var I, outs := SetOf(r.job.inputs), Outputs(r);
    InputsStored(mem, F, I);
    Layout.PlannedOutputs(I, r.merged, r.parts, r.oldest, r.job.bottom, target, r.numbers, r.job.out);
    forall o, f | o in SetOf(outs) && f in F ensures o.number != f.number {
      var i :| 0 <= i < |outs| && outs[i] == o;
    }
  }

  lemma InputsStored(mem: seq<Entry>, F: set<FileMeta>, I: set<FileMeta>)
    requires I <= F && Functional(Stored(mem, F))
    ensures Functional(StoredIn(I))
  {
    forall e | e in StoredIn(I) ensures e in Stored(mem, F) {
      var f :| f in I && e in f.table;
    }
  }

  /** The committed version lists its files as every version does. */
  lemma CommitArranged(v: Version, job: Job, outs: seq<FileMeta>, oldest: nat)
    requires Arranged(v) && FilesOk(Files(v)) && JobInv(job, Files(v))
    requires OutputsOf(SetOf(outs), SetOf(job.inputs), job.out, job.bottom, oldest)
    requires forall i, j :: 0 <= i < j < |outs| ==> outs[i].number != outs[j].number
    ensures var v' := Layout.Committed(v, Layout.Numbers(job.inputs), outs, job.out);
            Arranged(v') && Files(v') == Replace(Files(v), SetOf(job.inputs), SetOf(outs))
  {
    hide Arranged, Files, OneSide, Over, FileOk, LeftOf, Survives, StoredIn, Layout.Committed, Above;
    Layout.CommittedFiles(v, job.inputs, outs, job.out);
    LeftBehind(v, job.inputs, job.out);
    OutputsApart(outs, SetOf(job.inputs), job.out, job.bottom, oldest);
    var left := Layout.Without(v[job.out], Layout.Numbers(job.inputs));
    forall f, o | f in left && o in outs ensures LeftOf(f, o) || LeftOf(o, f) {
      OutputApart(SetOf(job.inputs), SetOf(outs), job.out, job.bottom, oldest, f, o);
    }
    assert forall o :: o in outs ==> o in SetOf(outs);
    Layout.OutputLevelComparable(left, outs);
    Layout.CommittedArranged(v, Layout.Numbers(job.inputs), outs, job.out);
  }

  lemma LeftBehind(v: Version, inputs: seq<FileMeta>, out: nat)
    requires Arranged(v) && FilesOk(Files(v)) && SetOf(inputs) <= Files(v) && 1 <= out < MAX_LEVELS
    ensures var left := Layout.Without(v[out], Layout.Numbers(inputs));
            && Layout.Strict(Layout.BySmallestKey, left)
            && forall f :: f in left ==> f in Files(v) - SetOf(inputs) && FileOk(f) && f.level == out
  {
    var nums := Layout.Numbers(inputs);
    var left := Layout.Without(v[out], nums);
    Layout.PlainOrders(v[out]);
    Layout.WithoutKeepsOrder(Layout.BySmallestKey, v[out], nums);
    forall f | f in left ensures f in Files(v) - SetOf(inputs) && FileOk(f) && f.level == out {
      Layout.FileInLevel(v, out, f);
      Layout.InputsByNumber(Files(v), inputs, f);
    }
  }

  lemma OutputsApart(outs: seq<FileMeta>, I: set<FileMeta>, out: nat, bottom: bool, oldest: nat)
    requires OutputsOf(SetOf(outs), I, out, bottom, oldest)
    requires forall i, j :: 0 <= i < j < |outs| ==> outs[i].number != outs[j].number
    ensures forall i, j :: 0 <= i < j < |outs| ==> LeftOf(outs[i], outs[j]) || LeftOf(outs[j], outs[i])
  {
    forall i, j | 0 <= i < j < |outs| ensures LeftOf(outs[i], outs[j]) || LeftOf(outs[j], outs[i]) {
      assert outs[i] in SetOf(outs) && outs[j] in SetOf(outs);
    }
  }

  lemma CommitLog(mem: seq<Entry>, F: set<FileMeta>, r: Running, log: seq<Write>, acked: nat)
    requires LayersOk(mem, F) && JobInv(r.job, F) && r.oldest <= MAX_SEQ && LogInv(Stored(mem, F), log, acked)
    requires |r.numbers| == |r.parts| && forall i :: 0 <= i < |r.parts| ==> r.parts[i] != []
    requires OutputsOf(SetOf(Outputs(r)), SetOf(r.job.inputs), r.job.out, r.job.bottom, r.oldest)
    ensures LogInv(Stored(mem, Replace(F, SetOf(r.job.inputs), SetOf(Outputs(r)))), log, acked)
  {
    hide LayersOk, JobOk, OutputsOf, Stored, StoredIn, Last, Read;
    forall k ensures Read(Stored(mem, Replace(F, SetOf(r.job.inputs), SetOf(Outputs(r)))), k, MAX_SEQ) == Last(log, k) {
      CommitPreservesReads(mem, F, SetOf(r.job.inputs), SetOf(Outputs(r)), r.job.out, r.job.bottom, r.oldest,
                           k, MAX_SEQ);
    }
  }

  lemma CommitJobKeepsInv(s: State)
    requires Inv(s) && CanCommitJob(s)
    ensures Inv(DoCommitJob(s))
  {
    hide Arranged, LayersOk, LogInv, WrittenInv, PlanInv, NumbersInv, JobInv, Files, StoredIn, VersionToManifest,
         OutputsOf, FreshNumbers, SetOf;
    var db, s' := s.db, DoCommitJob(s);
    var r := db.running.value;
    var F, I, O := Files(db.version), SetOf(r.job.inputs), SetOf(Outputs(r));
    LayersParts(db.mem, F);
    FinishedJob(r, db.mem, F, db.opts.targetFileSize, db.nextSst);
    CommitArranged(db.version, r.job, Outputs(r), r.oldest);
    JobParts(r, F, db.opts.targetFileSize);
    CommitKeepsLayers(db.mem, F, I, O, r.job.out, r.job.bottom, r.oldest);
    StoredShrinks(F, I, O, r.job.out, r.job.bottom, r.oldest);
    CommitLog(db.mem, F, r, s.log, s.acked);
    OutputsOnDisk(r, s.disk.files, F, db.nextSst);
  }

  lemma LayersParts(mem: seq<Entry>, F: set<FileMeta>)
    requires LayersOk(mem, F)
    ensures Functional(Stored(mem, F)) && FilesOk(F)
  {
  }

  lemma JobParts(r: Running, F: set<FileMeta>, target: nat)
    requires PlanInv(r.job, r.oldest, r.merged, r.parts, target) && JobInv(r.job, F)
    ensures r.oldest <= MAX_SEQ && SetOf(r.job.inputs) <= F && JobOk(F, SetOf(r.job.inputs), r.job.out, r.job.bottom)
  {
  }

  lemma OutputsOnDisk(r: Running, files: FileStore, F: set<FileMeta>, nextSst: nat)
    requires WrittenInv(r, files) && NumbersInv(r.numbers, F, nextSst)
    requires r.written == |r.numbers| == |r.parts| && forall i :: 0 <= i < |r.parts| ==> r.parts[i] != []
    ensures OnDisk(SetOf(Outputs(r)), files)
    ensures forall o :: o in SetOf(Outputs(r)) ==> o.number < nextSst
  {
    var outs := Outputs(r);
    forall o | o in SetOf(outs) ensures o.number in files && files[o.number] == o.table && o.number < nextSst {
      var i :| 0 <= i < |outs| && outs[i] == o;
    }
  }

  lemma UnlinkKeepsInv(s: State, n: nat)
    requires Inv(s) && CanUnlink(s, n)
    ensures Inv(DoUnlink(s, n))
  {
    hide Healthy, VersionToManifest, LogInv, SeqInv, SnapInv, NumbersInv, PlanInv, ProtectInv, JobInv, Files, Stored;
    if s.db.running.Some? {
      var r := s.db.running.value;
      forall i | 0 <= i < r.written ensures r.numbers[i] != n { assert r.numbers[i] in r.numbers; }
    }
  }

  // ------------------------------------------------------- crash and recovery

  /** A crash between two disk actions; one inside a MANIFEST append is TornCrashKeepsInv. */
  lemma CrashKeepsInv(s: State, j: nat)
    requires Inv(s) && CanCrash(s, j)
    ensures Inv(DoCrash(s, j))
  {
    hide Arranged, LayersOk, LogInv, Files, StoredIn, FlushInv, RunningInv, BelowNext, Rebuild, VersionToManifest,
         OnDisk;
    var db, s' := s.db, DoCrash(s, j);
    var F, es := Files(db.version), db.pending[..j];
    LayersParts(db.mem, F);
    PendingFollows(s);
    RebuildRestores(db.version, s.disk.files);
    assert RecoveredVersion(s'.disk) == db.version;
    InsertBatch(db.mem, F, es, Base(db));
    ApplyLog(Held(db), es, Base(db), s.log, s.acked);
    InsertAllSorted([], s'.disk.wal);
    SameMembers(InsertAll(db.mem, es), RecoveredMem(s'.disk), F);
  }

  /** A crash inside an append leaves what a crash just before it leaves, and part of a snapshot. */
  lemma TornCrashKeepsInv(s: State)
    requires Inv(s) && CanTornCrash(s)
    ensures Inv(DoTornCrash(s))
  {
    CrashKeepsInv(s, 0);
    hide Arranged, LayersOk, LogInv, Files, StoredIn, Rebuild, VersionToManifest, OnDisk;
    var d := DoCrash(s, 0);
    assert d.disk.wal == s.disk.wal && d.log == s.log;
    assert d.disk.(torn := true) == DoTornCrash(s).disk;
  }

  lemma SameMembers(a: seq<Entry>, b: seq<Entry>, F: set<FileMeta>)
    requires LayersOk(a, F) && Sorted(b) && forall e :: e in a <==> e in b
    ensures LayersOk(b, F) && Stored(b, F) == Stored(a, F)
  {
    assert Elements(a) == Elements(b);
    forall f | f in F ensures Over(b, f.table) { assert Over(a, f.table); }
  }

  lemma {:induction false} DescribeMembers(fs: seq<FileMeta>, f: FileMeta)
    requires f in fs
    ensures exists e :: e in Describe(fs) && e.number == f.number
  {
    var i :| 0 <= i < |fs| && fs[i] == f;
    assert Describe(fs)[i] in Describe(fs);
  }

  lemma ManifestNames(v: Version, f: FileMeta)
    requires f in Files(v)
    ensures exists e :: e in VersionToManifest(v) && e.number == f.number
  {
    FlattenMembers(v, f);
    DescribeMembers(Flatten(v), f);
  }

  lemma CleanUpKeepsInv(s: State, n: nat)
    requires Inv(s) && CanCleanUp(s, n)
    ensures Inv(DoUnlink(s, n))
  {
    hide Arranged, LayersOk, LogInv, Files, StoredIn, Rebuild, VersionToManifest;
    var s' := DoUnlink(s, n);
    var v := RecoveredVersion(s.disk);
    forall f | f in Files(v) ensures f.number != n { ManifestNames(v, f); }
    LayersParts(RecoveredMem(s.disk), Files(v));
    RebuildRestores(v, s'.disk.files);
  }

  lemma OpenKeepsInv(s: State, opts: Options)
    requires Inv(s) && s.Down?
    ensures Inv(DoOpen(s, opts))
  {
    hide Arranged, LayersOk, LogInv, Files, StoredIn, Rebuild, VersionToManifest, MaxOf;
    var s' := DoOpen(s, opts);
    var v := RecoveredVersion(s.disk);
    forall f | f in Files(v)
      ensures f.number in s'.disk.files && s'.disk.files[f.number] == f.table && f.number < s'.db.nextSst
    {
      ManifestNames(v, f);
    }
    var top := set e | e in Stored(RecoveredMem(s.disk), Files(v)) :: e.seqno;
    forall e | e in Held(s'.db) ensures e.seqno < s'.db.nextSeq { assert e.seqno in top; }
    MaxBelow(top);
    assert Elements(s'.disk.wal) == Elements(s'.db.mem);
  }

  lemma MaxBelow(S: set<nat>)
    requires forall n :: n in S ==> n < MAX_SEQ
    ensures MaxOf(S) < MAX_SEQ
  {
    if S != {} {
      forall n: nat | n in S ensures MaxOf(S - {n}) < MAX_SEQ { MaxBelow(S - {n}); }
    }
  }

  /** The invariant is inductive. */
  lemma StepKeepsInv(s: State, step: Step)
    requires Inv(s) && Enabled(s, step)
    ensures Inv(Do(s, step))
  {
    hide Inv;
    match step
    case Assign(ws) => AssignKeepsInv(s, ws);
    case Apply => ApplyKeepsInv(s);
    case Ack => AckKeepsInv(s);
    case FlushInstall => FlushInstallKeepsInv(s);
    case FlushPublish => FlushPublishKeepsInv(s);
    case FlushClear => FlushClearKeepsInv(s);
    case TakeSnapshot => TakeSnapshotKeepsInv(s);
    case ReleaseSnapshot(t) => ReleaseSnapshotKeepsInv(s, t);
    case PickJob(force, merged) => PickJobKeepsInv(s, force, merged);
    case AllocOutput => AllocOutputKeepsInv(s);
    case WriteOutput => WriteOutputKeepsInv(s);
    case CommitJob => CommitJobKeepsInv(s);
    case DropJob => DropJobKeepsInv(s);
    case Unlink(n) => UnlinkKeepsInv(s, n);
    case Crash(j) => CrashKeepsInv(s, j);
    case TornCrash => TornCrashKeepsInv(s);
    case CleanUp(n) => CleanUpKeepsInv(s, n);
    case Open(opts) => OpenKeepsInv(s, opts);
  }

  lemma InitInv(s: State)
    requires Init(s)
    ensures Inv(s)
  {
    hide Read, Rebuild, Flatten, Healthy;
    var v := NoFiles();
    NothingRebuilt();
    NothingHealthy();
    FlattenEmpty(v);
    forall k ensures Read({}, k, MAX_SEQ) == None { NothingRead(k); }
    assert Files(v) == {};
    assert Stored([], {}) == {};
  }

  lemma NothingRebuilt()
    ensures Rebuild([], map[]) == NoFiles()
  {
    assert LoadAll([], map[], NoFiles()) == NoFiles();
  }

  lemma NothingHealthy()
    ensures Healthy([], NoFiles())
  {
    assert Files(NoFiles()) == {};
  }

  lemma NothingRead(k: Bytes)
    ensures Read({}, k, MAX_SEQ) == None
  {
    NewestUnique({}, k, MAX_SEQ, None);
  }

  lemma {:induction false} FlattenEmpty(v: seq<seq<FileMeta>>)
    requires forall l :: 0 <= l < |v| ==> v[l] == []
    ensures Flatten(v) == []
  {
    if v != [] { FlattenEmpty(v[1..]); }
  }
}
