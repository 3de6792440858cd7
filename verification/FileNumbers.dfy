// While the store is open a file number is given out once: what a number names never
// changes, which is what lets blocks be cached under it.
module FileNumbers {
  import opened Entries
  import opened Versions
  import opened Gc
  import opened Picking
  import opened Recovery
  import opened Machine
  import opened Safety
  import opened Runs

  /** n has been given out and is not waiting to be written. */
  ghost predicate Spent(running: Option<Running>, nextSst: nat, n: nat) {
    && n < nextSst
    && (running.Some? ==>
          forall i :: running.value.written <= i < |running.value.numbers| ==> running.value.numbers[i] != n)
  }

  ghost predicate SpentIn(files: FileStore, running: Option<Running>, nextSst: nat) {
    forall n :: n in files ==> Spent(running, nextSst, n)
  }

  ghost predicate AllSpent(s: State)
    requires s.Up?
  {
    SpentIn(s.disk.files, s.db.running, s.db.nextSst)
  }

  ghost predicate Shrinks(files: FileStore, running: Option<Running>, nextSst: nat,
                          files': FileStore, running': Option<Running>, nextSst': nat) {
    forall n :: Spent(running, nextSst, n) ==>
      Spent(running', nextSst', n) && (n in files' ==> n in files && files'[n] == files[n])
  }

  /** A spent number is never written again: its file stays as it is or goes for good. */
  ghost predicate OnlyShrinks(s: State, t: State)
    requires s.Up? && t.Up?
  {
    Shrinks(s.disk.files, s.db.running, s.db.nextSst, t.disk.files, t.db.running, t.db.nextSst)
  }

  ghost predicate Sane(r: Running, nextSst: nat) {
    && r.written <= |r.numbers| <= |r.parts|
    && (forall i :: 0 <= i < |r.numbers| ==> r.numbers[i] < nextSst)
    && (forall i, j :: 0 <= i < j < |r.numbers| ==> r.numbers[i] != r.numbers[j])
  }

  lemma NumberFacts(s: State)
    requires Inv(s) && s.Up?
    ensures forall n :: n in s.disk.files ==> n < s.db.nextSst
    ensures s.db.running.Some? ==> Sane(s.db.running.value, s.db.nextSst)
  {
    hide Healthy, DiskInv, SeqInv, SnapInv, LogInv, FlushInv, PlanInv, ProtectInv, JobInv;
  }

  // What each step does to files, numbers in flight and the counter.

  lemma Same(files: FileStore, running: Option<Running>, next: nat)
    ensures Shrinks(files, running, next, files, running, next)
  {
  }

  lemma Install(files: FileStore, running: Option<Running>, next: nat, table: seq<Entry>)
    requires SpentIn(files, running, next) && (running.Some? ==> Sane(running.value, next))
    ensures Shrinks(files, running, next, files[next := table], running, next + 1)
    ensures SpentIn(files[next := table], running, next + 1)
  {
  }

  lemma Allot(files: FileStore, r: Running, next: nat)
    requires SpentIn(files, Some(r), next)
    ensures var r' := r.(numbers := r.numbers + [next]);
            Shrinks(files, Some(r), next, files, Some(r'), next + 1) && SpentIn(files, Some(r'), next + 1)
  {
    var r' := r.(numbers := r.numbers + [next]);
    forall n | Spent(Some(r), next, n) ensures Spent(Some(r'), next + 1, n) { }
  }

  lemma WriteOne(files: FileStore, r: Running, next: nat)
    requires SpentIn(files, Some(r), next) && Sane(r, next) && r.written < |r.numbers| && r.written < |r.parts|
    ensures var files', r' := files[r.numbers[r.written] := r.parts[r.written]], r.(written := r.written + 1);
            Shrinks(files, Some(r), next, files', Some(r'), next) && SpentIn(files', Some(r'), next)
  {
    var files', r' := files[r.numbers[r.written] := r.parts[r.written]], r.(written := r.written + 1);
    forall n | Spent(Some(r), next, n) ensures Spent(Some(r'), next, n) && n != r.numbers[r.written] { }
  }

  lemma Finished(files: FileStore, running: Option<Running>, next: nat, running': Option<Running>)
    requires SpentIn(files, running, next) && (running'.Some? ==> running'.value.numbers == [])
    ensures Shrinks(files, running, next, files, running', next) && SpentIn(files, running', next)
  {
  }

  lemma Removed(files: FileStore, running: Option<Running>, next: nat, n: nat)
    requires SpentIn(files, running, next)
    ensures Shrinks(files, running, next, files - {n}, running, next) && SpentIn(files - {n}, running, next)
  {
  }

  lemma StepShrinks(s: State, step: Step)
    requires Inv(s) && s.Up? && Enabled(s, step) && !step.Crash? && !step.TornCrash? && AllSpent(s)
    ensures Do(s, step).Up? && OnlyShrinks(s, Do(s, step)) && AllSpent(Do(s, step))
  {
    hide Inv, InsertAll, Writes, Stamp, PickRunning, CommittedVersion, VersionToManifest, SplitsBetweenKeys, InUse,
         IsMerge;
    hide SpentIn, Shrinks, Spent, Sane;
    NumberFacts(s);
    var files, running, next := s.disk.files, s.db.running, s.db.nextSst;
    Same(files, running, next);
    match step {
      case FlushInstall => Install(files, running, next, s.db.mem);
      case PickJob(force, merged) =>
        FreshJob(s.db, force, merged);
        Finished(files, running, next, Some(PickRunning(s.db, force, merged)));
      case AllocOutput => Allot(files, running.value, next);
      case WriteOutput => WriteOne(files, running.value, next);
      case CommitJob => Finished(files, running, next, None);
      case DropJob => Finished(files, running, next, None);
      case Unlink(n) => Removed(files, running, next, n);
      case _ =>
    }
  }

  lemma FreshJob(db: Db, force: bool, merged: seq<Entry>)
    ensures PickRunning(db, force, merged).numbers == []
  {
  }

  lemma OpenIsSpent(s: State, opts: Options)
    requires Inv(s) && s.Down?
    ensures AllSpent(DoOpen(s, opts))
  {
    OpenKeepsInv(s, opts);
    NumberFacts(DoOpen(s, opts));
    hide Inv;
  }

  lemma NextShrinks(s: State, t: State)
    requires Inv(s) && Next(s, t) && s.Up? && t.Up? && AllSpent(s)
    ensures OnlyShrinks(s, t) && AllSpent(t)
  {
    hide Inv, AllSpent, OnlyShrinks;
    var step :| Enabled(s, step) && t == Do(s, step);
    StepShrinks(s, step);
  }

  lemma NextSpent(s: State, t: State)
    requires Inv(s) && Next(s, t) && t.Up? && (s.Up? ==> AllSpent(s))
    ensures AllSpent(t)
  {
    hide Inv, AllSpent;
    if s.Up? {
      NextShrinks(s, t);
    } else {
      var step :| Enabled(s, step) && t == Do(s, step);
      assert step.Open?;
      OpenIsSpent(s, step.options);
    }
  }

  lemma {:induction false} RunSpent(ss: seq<State>, i: nat)
    requires IsRun(ss) && Init(ss[0]) && i < |ss| && ss[i].Up?
    ensures AllSpent(ss[i])
    decreases i
  {
    hide Inv, AllSpent, Next;
    InitInv(ss[0]);
    if i > 0 {
      RunKeepsInv(ss, i - 1);
      if ss[i - 1].Up? { RunSpent(ss, i - 1); }
      NextSpent(ss[i - 1], ss[i]);
    }
  }

  /** The store stays open from i to j. */
  ghost predicate StaysUp(ss: seq<State>, i: nat, j: nat)
    requires j < |ss|
  {
    forall m :: i <= m <= j ==> ss[m].Up?
  }

  lemma {:induction false} RunShrinks(ss: seq<State>, i: nat, j: nat)
    requires IsRun(ss) && Init(ss[0]) && i <= j < |ss| && StaysUp(ss, i, j)
    ensures OnlyShrinks(ss[i], ss[j])
    decreases j - i
  {
    hide Inv, AllSpent, Next;
    Same(ss[i].disk.files, ss[i].db.running, ss[i].db.nextSst);
    if i < j {
      RunShrinks(ss, i, j - 1);
      InitInv(ss[0]);
      RunKeepsInv(ss, j - 1);
      RunSpent(ss, j - 1);
      NextShrinks(ss[j - 1], ss[j]);
    }
  }

  /**
   * In every run, while the store stays open: a file number never names two different
   * contents, and a number whose file has been unlinked never comes back.
   */
  lemma NumbersNeverReused(ss: seq<State>, i: nat, j: nat, n: nat)
    requires IsRun(ss) && Init(ss[0]) && i <= j < |ss| && StaysUp(ss, i, j)
    requires n in ss[i].disk.files
    ensures n in ss[j].disk.files ==> ss[j].disk.files[n] == ss[i].disk.files[n]
    ensures n !in ss[j].disk.files ==>
              forall k :: j <= k < |ss| && StaysUp(ss, i, k) ==> n !in ss[k].disk.files
  {
    hide Inv, Next;
    RunSpent(ss, i);
    RunShrinks(ss, i, j);
    assert Spent(ss[i].db.running, ss[i].db.nextSst, n);
    forall k | j <= k < |ss| && StaysUp(ss, i, k) ensures n !in ss[j].disk.files ==> n !in ss[k].disk.files {
      RunShrinks(ss, j, k);
    }
  }
}
