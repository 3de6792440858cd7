// A snapshot taken while a batch has been numbered but not yet applied: when its
// reads stay put, and a run on which they do not.
module SnapshotTiming {
  import opened Keys
  import opened Entries
  import opened Versions
  import opened Picking
  import opened Recovery
  import opened Machine
  import opened Safety
  import opened Runs

  /** Every write in flight stores what its key already holds. */
  ghost predicate InFlightIsNoop(s: State)
    requires s.Up?
  {
    forall k :: Last(s.log + Writes(s.db.pending), k) == Last(s.log, k)
  }

  /** On every continuation that keeps the snapshot t live, its reads never change. */
  ghost predicate StableFrom(s: State, t: nat)
    requires s.Up?
  {
    forall ss: seq<State>, j: nat, k: Bytes :: IsRun(ss) && ss[0] == s && 0 <= j < |ss| && StaysLive(ss, 0, j, t) ==>
      Read(Held(ss[j].db), k, t) == Read(Held(s.db), k, t)
  }

  /** Reads at a bound at or above next_seq_ - 1 follow the log. */
  lemma ReadTopIsLog(s: State, k: Bytes, t: nat)
    requires Inv(s) && s.Up? && t >= s.db.nextSeq - 1
    ensures Read(Held(s.db), k, t) == Last(s.log, k)
  {
    hide Read, Stored, Files, Arranged, LayersOk, Last;
    NewestBoundIrrelevant(s, k, t);
  }

  /**
   * Either the batch that was in flight is still in flight, or t has settled; the reads are the old
   * log's either way.
   */
  ghost predicate Waiting(s: State, s1: State, t: nat)
    requires s.Up?
  {
    && s1.Up? && t in s1.db.snapshots
    && (forall k :: Read(Held(s1.db), k, t) == Last(s.log, k))
    && (Settled(s1.db, t) || (s1.db.pending == s.db.pending && s1.log == s.log && s1.db.nextSeq == t + 1))
  }

  lemma UpIsQuiet(s: State, step: Step)
    requires s.Up? && Enabled(s, step) && Do(s, step).Up?
    ensures Quiet(step)
  {
  }

  lemma NextSeqStays(s: State, step: Step)
    requires s.Up? && s.db.pending != [] && Enabled(s, step) && Do(s, step).Up?
    ensures Do(s, step).db.nextSeq == s.db.nextSeq
    ensures if step.Apply? then Do(s, step).db.pending == [] && Do(s, step).log == s.log + Writes(s.db.pending)
            else Do(s, step).db.pending == s.db.pending && Do(s, step).log == s.log
  {
  }

  lemma WaitingStep(s: State, s1: State, step: Step, t: nat)
    requires s.Up? && s.db.pending != [] && InFlightIsNoop(s)
    requires Inv(s1) && Waiting(s, s1, t) && Enabled(s1, step)
    requires Do(s1, step).Up? && t in Do(s1, step).db.snapshots
    ensures Waiting(s, Do(s1, step), t)
  {
    hide Inv, Read, Files, Stored, Last, Do, Enabled;
    var s2 := Do(s1, step);
    UpIsQuiet(s1, step);
    StepKeepsInv(s1, step);
    if Settled(s1.db, t) {
      forall k ensures Read(Held(s2.db), k, t) == Last(s.log, k) { StepKeepsSnapshot(s1, step, k, t); }
      StepKeepsSnapshot(s1, step, [], t);
    } else {
      NextSeqStays(s1, step);
      forall k ensures Read(Held(s2.db), k, t) == Last(s.log, k) { ReadTopIsLog(s2, k, t); }
    }
  }

  lemma {:induction false} WaitingRun(s: State, s0: State, ss: seq<State>, j: nat, t: nat)
    requires s.Up? && s.db.pending != [] && InFlightIsNoop(s)
    requires Inv(s0) && Waiting(s, s0, t)
    requires IsRun(ss) && ss[0] == s0 && j < |ss| && StaysLive(ss, 0, j, t)
    ensures Waiting(s, ss[j], t)
  {
    hide Inv, Waiting, Next, InFlightIsNoop;
    if j > 0 {
      WaitingRun(s, s0, ss, j - 1, t);
      RunKeepsInv(ss, j - 1);
      assert Next(ss[j - 1], ss[j - 1 + 1]);
      WaitingNext(s, ss[j - 1], ss[j], t);
    }
  }

  lemma WaitingNext(s: State, s1: State, s2: State, t: nat)
    requires s.Up? && s.db.pending != [] && InFlightIsNoop(s)
    requires Inv(s1) && Waiting(s, s1, t) && Next(s1, s2) && s2.Up? && t in s2.db.snapshots
    ensures Waiting(s, s2, t)
  {
    hide Inv, Waiting, InFlightIsNoop;
    var step :| Enabled(s1, step) && s2 == Do(s1, step);
    WaitingStep(s, s1, step, t);
  }

  lemma NoopIsStable(s: State)
    requires Inv(s) && CanTakeSnapshot(s) && InFlightIsNoop(s)
    ensures StableFrom(DoTakeSnapshot(s), s.db.nextSeq - 1)
  {
    hide Inv, Read, Files, Stored, Last, Next;
    var t, s1 := s.db.nextSeq - 1, DoTakeSnapshot(s);
    TakeSnapshotKeepsInv(s);
    forall k ensures Read(Held(s1.db), k, t) == Last(s.log, k) { ReadTopIsLog(s1, k, t); }
    forall ss: seq<State>, j: nat, k: Bytes | IsRun(ss) && ss[0] == s1 && 0 <= j < |ss| && StaysLive(ss, 0, j, t)
      ensures Read(Held(ss[j].db), k, t) == Read(Held(s1.db), k, t)
    {
      if s.db.pending == [] {
        SnapshotReadsStable(ss, 0, j, k, t);
      } else {
        WaitingRun(s, s1, ss, j, t);
      }
    }
  }

  lemma ChangeIsUnstable(s: State, k: Bytes)
    requires Inv(s) && CanTakeSnapshot(s) && Last(s.log + Writes(s.db.pending), k) != Last(s.log, k)
    ensures !StableFrom(DoTakeSnapshot(s), s.db.nextSeq - 1)
  {
    hide Inv, Read, Files, Stored, Last;
    var t, s1 := s.db.nextSeq - 1, DoTakeSnapshot(s);
    var ws := Writes(s.db.pending);
    assert ws == [] ==> s.log + ws == s.log;
    var s2 := DoApply(s1);
    TakeSnapshotKeepsInv(s);
    ApplyKeepsInv(s1);
    ReadTopIsLog(s1, k, t);
    ReadTopIsLog(s2, k, t);
    var ss := [s1, s2];
    assert Enabled(s1, Apply) && Do(s1, Apply) == s2;
    assert IsRun(ss) && StaysLive(ss, 0, 1, t);
    assert Read(Held(ss[1].db), k, t) != Read(Held(s1.db), k, t);
  }

  /**
   * A snapshot's reads stay put on every continuation if and only if the batch in flight
   * when it was taken, if any, changes nothing.
   */
  lemma SnapshotStableIff(s: State)
    requires Inv(s) && CanTakeSnapshot(s)
    ensures StableFrom(DoTakeSnapshot(s), s.db.nextSeq - 1) <==> InFlightIsNoop(s)
  {
    hide Inv, StableFrom, Last;
    if InFlightIsNoop(s) {
      NoopIsStable(s);
    } else {
      var k :| Last(s.log + Writes(s.db.pending), k) != Last(s.log, k);
      ChangeIsUnstable(s, k);
    }
  }

  /** A reachable state where a snapshot, taken between numbering and applying a put, is unstable. */
  lemma SnapshotCanMove(s: State, opts: Options, key: Bytes, value: Bytes)
    requires Init(s) && Replayable(Write(key, Some(value)))
    ensures var up := DoOpen(s, opts);
            && CanAssign(up, [Write(key, Some(value))])
            && var s1 := DoAssign(up, [Write(key, Some(value))]);
               CanTakeSnapshot(s1) && !StableFrom(DoTakeSnapshot(s1), s1.db.nextSeq - 1)
  {
    hide Inv, StableFrom, Replayable;
    var up := DoOpen(s, opts);
    InitInv(s);
    OpenKeepsInv(s, opts);
    EmptyOpens(s, opts);
    var s1 := DoAssign(up, [Write(key, Some(value))]);
    AssignKeepsInv(up, [Write(key, Some(value))]);
    assert Writes(s1.db.pending) == [Write(key, Some(value))];
    assert s1.log + Writes(s1.db.pending) == [Write(key, Some(value))];
    assert Last([Write(key, Some(value))], key) == Some(value) && Last([], key) == None;
    ChangeIsUnstable(s1, key);
  }

  lemma EmptyOpens(s: State, opts: Options)
    requires Init(s)
    ensures DoOpen(s, opts).db.nextSeq == 1
  {
    var v := RecoveredVersion(s.disk);
    assert v == NoFiles();
    assert Files(v) == {};
    assert (set e | e in Stored(RecoveredMem(s.disk), Files(v)) :: e.seqno) == {};
  }
}
