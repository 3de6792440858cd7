// Group commit as a refinement of the store: any interleaving of writers with flushes,
// compactions and snapshots is a run of the machine, so durability holds for every writer.
module ConcurrentWrites {
  import opened Keys
  import opened Entries
  import opened Versions
  import opened Machine
  import G = GroupCommit
  import Runs

  /** The writes of the queue, in order: what the leader makes its batch of. */
  ghost function QueueWrites(g: G.Group): (ws: seq<Write>)
    requires forall i :: 0 <= i < |g.queue| ==> g.queue[i] in g.write
    ensures |ws| == |g.queue| && forall i :: 0 <= i < |ws| ==> ws[i] == g.write[g.queue[i]]
  {
    seq(|g.queue|, i requires 0 <= i < |g.queue| => g.write[g.queue[i]])
  }

  ghost predicate QueueReplayable(g: G.Group) {
    forall i :: 0 <= i < |g.queue| ==> g.queue[i] in g.write && Replayable(g.write[g.queue[i]])
  }

  /** What the leader has numbered and not yet logged. */
  ghost function InFlight(g: G.Group, start: nat): seq<Entry>
    requires G.Inv(g, start)
  {
    var p, h := G.Settled(g), G.Head(g.pc, g.queue);
    if h.Leading? && h.stage == G.Numbered then Stamp(g.arrived[p..p + |h.batch|], start + p) else []
  }

  /**
   * How the writers and the store correspond: base is the list of writes before the first of
   * them arrived.
   */
  ghost predicate Matches(g: G.Group, s: State, start: nat, base: seq<Write>) {
    && G.Inv(g, start) && s.Up?
    && s.db.nextSeq == g.nextSeq
    && s.db.pending == InFlight(g, start)
    && s.log == base + g.arrived[..|g.wal|]
    && (G.Settled(g) > 0 ==> |base| + G.Settled(g) <= s.acked)
  }

  /** The sizes the invariant of the writers ties together. */
  lemma Sizes(g: G.Group, start: nat)
    requires G.Inv(g, start)
    ensures var p, h := G.Settled(g), G.Head(g.pc, g.queue);
            && 0 <= p <= |g.order| == |g.arrived|
            && |g.wal| == p + G.LoggedSize(h) <= |g.arrived|
            && g.nextSeq == start + p + G.BatchSize(h)
            && (h.Leading? ==> 0 < |h.batch| && p + |h.batch| <= |g.arrived|)
            && (forall i :: 0 <= i < |g.queue| ==> g.queue[i] in g.write && g.write[g.queue[i]] == g.arrived[p + i])
  {
    hide G.PlaceInv, G.DoneInv;
    var p := G.Settled(g);
    forall i | 0 <= i < |g.queue| ensures g.queue[i] in g.write && g.write[g.queue[i]] == g.arrived[p + i] {
      assert g.queue[i] == g.order[p + i];
    }
  }

  lemma WritesOfStamp(ws: seq<Write>, n: nat)
    ensures Writes(Stamp(ws, n)) == ws
  {
    forall i | 0 <= i < |ws| ensures WriteOf(EntryOf(ws[i], n + i)) == ws[i] { }
  }

  // ---------------------------------------------------------- step by step

  lemma LeadIsAssign(g: G.Group, s: State, start: nat, base: seq<Write>, id: nat)
    requires Matches(g, s, start, base) && G.CanStep(g, G.Lead(id)) && g.nextSeq + |g.queue| <= MAX_SEQ
    requires QueueReplayable(g)
    ensures forall i :: 0 <= i < |g.queue| ==> g.queue[i] in g.write
    ensures CanAssign(s, QueueWrites(g))
    ensures Matches(G.After(g, G.Lead(id)), DoAssign(s, QueueWrites(g)), start, base)
  {
    hide G.Inv, G.Head, Stamp, Replayable;
    var g' := G.DoLead(g, id);
    Sizes(g, start);
    G.LeadKeepsInv(g, id, start);
    FrontWaits(g, id, start);
    Sizes(g', start);
    var p := G.Settled(g);
    assert g.arrived[p..p + |g.queue|] == QueueWrites(g);
  }

  lemma FrontWaits(g: G.Group, id: nat, start: nat)
    requires G.Inv(g, start) && G.CanStep(g, G.Lead(id))
    ensures G.Head(g.pc, g.queue) == G.Waiting
    ensures G.Head(G.DoLead(g, id).pc, g.queue) == G.Leading(g.queue, G.Numbered)
  {
    G.LeadLeads(g, id);
  }

  lemma LogIsApply(g: G.Group, s: State, start: nat, base: seq<Write>, id: nat)
    requires Matches(g, s, start, base) && G.CanStep(g, G.Log(id)) && s.db.flush == NoFlush
    ensures CanApply(s) && Matches(G.After(g, G.Log(id)), DoApply(s), start, base)
  {
    hide G.Inv, G.Head, G.BatchEntries, Stamp, Writes, InsertAll;
    var g' := G.DoLog(g, id);
    Sizes(g, start);
    G.LogKeepsInv(g, id, start);
    Front(g, id, start);
    Moves(g, id, G.Logged, start);
    Sizes(g', start);
    LogGrows(base, g.arrived, |g.wal|, |g.pc[id].batch|, start);
  }

  lemma LogGrows(base: seq<Write>, arrived: seq<Write>, p: nat, b: nat, start: nat)
    requires p + b <= |arrived|
    ensures base + arrived[..p] + Writes(Stamp(arrived[p..p + b], start + p)) == base + arrived[..p + b]
  {
    WritesOfStamp(arrived[p..p + b], start + p);
    assert arrived[..p] + arrived[p..p + b] == arrived[..p + b];
  }

  lemma Front(g: G.Group, id: nat, start: nat)
    requires G.Inv(g, start) && id in g.pc && g.pc[id].Leading?
    ensures G.Head(g.pc, g.queue) == g.pc[id]
  {
    G.FrontLeads(g, id);
  }

  lemma Moves(g: G.Group, id: nat, stage: G.Stage, start: nat)
    requires G.Inv(g, start) && id in g.pc && g.pc[id].Leading?
    ensures G.Head(g.pc[id := G.Leading(g.pc[id].batch, stage)], g.queue) == G.Leading(g.pc[id].batch, stage)
  {
    G.StageMoves(g, id, stage);
  }

  lemma InsertIsSilent(g: G.Group, s: State, start: nat, base: seq<Write>, id: nat)
    requires Matches(g, s, start, base) && G.CanStep(g, G.Insert(id))
    ensures Matches(G.After(g, G.Insert(id)), s, start, base)
  {
    hide G.Inv, G.Head, Stamp;
    var g' := G.DoInsert(g, id);
    G.InsertKeepsInv(g, id, start);
    Front(g, id, start);
    Moves(g, id, G.Applied, start);
  }

  lemma FinishIsAck(g: G.Group, s: State, start: nat, base: seq<Write>, id: nat)
    requires Matches(g, s, start, base) && G.CanStep(g, G.Finish(id))
    ensures CanAck(s) && Matches(G.After(g, G.Finish(id)), DoAck(s), start, base)
  {
    hide G.Inv, G.Head, Stamp;
    var g' := G.DoFinish(g, id);
    Sizes(g, start);
    G.FinishKeepsInv(g, id, start);
    Front(g, id, start);
    Popped(g, id, start);
    Sizes(g', start);
  }

  lemma Popped(g: G.Group, id: nat, start: nat)
    requires G.Inv(g, start) && G.CanStep(g, G.Finish(id))
    ensures !G.Head(G.DoFinish(g, id).pc, G.DoFinish(g, id).queue).Leading?
  {
    G.FinishQueue(g, id);
  }

  lemma ArriveIsSilent(g: G.Group, s: State, start: nat, base: seq<Write>, id: nat, w: Write)
    requires Matches(g, s, start, base) && G.CanStep(g, G.Arrive(id, w))
    ensures Matches(G.After(g, G.Arrive(id, w)), s, start, base)
  {
    hide G.Inv, G.Head, Stamp;
    var g' := G.DoArrive(g, id, w);
    Sizes(g, start);
    G.ArriveKeepsInv(g, id, w, start);
    HeadStays(g, id, w, start);
    var p, h := G.Settled(g), G.Head(g.pc, g.queue);
    assert g'.arrived[..|g.wal|] == g.arrived[..|g.wal|];
    if h.Leading? { assert g'.arrived[p..p + |h.batch|] == g.arrived[p..p + |h.batch|]; }
  }

  lemma HeadStays(g: G.Group, id: nat, w: Write, start: nat)
    requires G.Inv(g, start) && id !in g.pc
    ensures var g' := G.DoArrive(g, id, w);
            var h, h' := G.Head(g.pc, g.queue), G.Head(g'.pc, g'.queue);
            h' == h || (!h.Leading? && !h'.Leading?)
  {
    hide G.NumberInv, G.HeldInv, G.DoneInv, G.LeaderInv;
    G.ArriveHead(g, id, w);
    G.NoHead(g.pc, g.queue);
  }

  lemma WakeIsSilent(g: G.Group, s: State, start: nat, base: seq<Write>, id: nat)
    requires Matches(g, s, start, base) && G.CanStep(g, G.Wake(id))
    ensures Matches(G.After(g, G.Wake(id)), s, start, base)
  {
    hide G.Inv, G.Head, Stamp;
    G.WakeKeepsInv(g, id, start);
    WokenHead(g, id, start);
  }

  lemma WokenHead(g: G.Group, id: nat, start: nat)
    requires G.Inv(g, start) && G.CanStep(g, G.Wake(id))
    ensures G.Head(G.DoWake(g, id).pc, g.queue) == G.Head(g.pc, g.queue)
  {
    hide G.NumberInv, G.HeldInv;
    G.WakeParts(g, id);
  }

  // --------------------------------------------------------- interleavings

  /** The machine step a step of the writers is, or none. */
  ghost predicate Follows(g: G.Group, step: G.GroupStep, s: State, s': State) {
    match step
    case Lead(id) =>
      (forall i :: 0 <= i < |g.queue| ==> g.queue[i] in g.write)
      && CanAssign(s, QueueWrites(g)) && s' == DoAssign(s, QueueWrites(g))
    case Log(id) => CanApply(s) && s' == DoApply(s)
    case Finish(id) => CanAck(s) && s' == DoAck(s)
    case _ => s' == s
  }

  /**
   * Every step of the writers is a step of the store or none at all. The lock of the store is
   * free when a batch is logged, the sequence counter does not run over, and the writes are
   * within the limit of replay.
   */
  lemma GroupStepRefines(g: G.Group, s: State, start: nat, base: seq<Write>, step: G.GroupStep) returns (s': State)
    requires Matches(g, s, start, base) && G.CanStep(g, step)
    requires step.Lead? ==> g.nextSeq + |g.queue| <= MAX_SEQ && QueueReplayable(g)
    requires step.Log? ==> s.db.flush == NoFlush
    ensures Follows(g, step, s, s') && Matches(G.After(g, step), s', start, base)
  {
    hide Matches, G.After, G.CanStep;
    match step {
      case Arrive(id, w) =>
        ArriveIsSilent(g, s, start, base, id, w);
        s' := s;
      case Lead(id) =>
        LeadIsAssign(g, s, start, base, id);
        s' := DoAssign(s, QueueWrites(g));
      case Log(id) =>
        LogIsApply(g, s, start, base, id);
        s' := DoApply(s);
      case Insert(id) =>
        InsertIsSilent(g, s, start, base, id);
        s' := s;
      case Finish(id) =>
        FinishIsAck(g, s, start, base, id);
        s' := DoAck(s);
      case Wake(id) =>
        WakeIsSilent(g, s, start, base, id);
        s' := s;
    }
  }

  /** What the other threads do meanwhile: flushes, compactions, snapshots, unlinks. */
  ghost predicate Background(s: State, s': State) {
    exists step: Step :: Enabled(s, step) && !step.Assign? && !step.Apply? && !step.Ack? && s' == Do(s, step) && s'.Up?
  }

  lemma BackgroundMatches(g: G.Group, s: State, s': State, start: nat, base: seq<Write>)
    requires Matches(g, s, start, base) && Background(s, s')
    ensures Matches(g, s', start, base)
  {
    hide G.Inv, InFlight, InsertAll, CommittedVersion, PickRunning;
    var step: Step :| Enabled(s, step) && !step.Assign? && !step.Apply? && !step.Ack? && s' == Do(s, step) && s'.Up?;
  }

  ghost predicate Together(g: G.Group, s: State, g': G.Group, s': State) {
    || (g' == g && Background(s, s'))
    || exists step: G.GroupStep :: G.CanStep(g, step) && g' == G.After(g, step) && Follows(g, step, s, s')
  }

  /** Any number of writers on a store that is otherwise busy, from a quiet moment on. */
  ghost predicate Interleaving(gs: seq<G.Group>, ss: seq<State>, start: nat) {
    && |gs| == |ss| > 0
    && gs[0] == G.Start(start)
    && Inv(ss[0]) && ss[0].Up? && ss[0].db.pending == [] && ss[0].db.nextSeq == start
    && forall i :: 0 <= i < |gs| - 1 ==> Together(gs[i], ss[i], gs[i + 1], ss[i + 1])
  }

  lemma FollowsMatches(g: G.Group, s: State, step: G.GroupStep, s': State, start: nat, base: seq<Write>)
    requires Matches(g, s, start, base) && G.CanStep(g, step) && Follows(g, step, s, s')
    ensures Matches(G.After(g, step), s', start, base)
  {
    hide Matches, G.After, G.CanStep, InFlight;
    SameCounter(g, s, start, base);
    if step.Lead? {
      forall i | 0 <= i < |g.queue| ensures Replayable(g.write[g.queue[i]]) { assert Replayable(QueueWrites(g)[i]); }
    }
    var t := GroupStepRefines(g, s, start, base, step);
  }

  lemma SameCounter(g: G.Group, s: State, start: nat, base: seq<Write>)
    requires Matches(g, s, start, base)
    ensures s.db.nextSeq == g.nextSeq
  {
  }

  lemma TogetherKeeps(g: G.Group, s: State, g': G.Group, s': State, start: nat, base: seq<Write>)
    requires Matches(g, s, start, base) && Inv(s) && Together(g, s, g', s')
    ensures Matches(g', s', start, base) && Inv(s') && (s' == s || Next(s, s'))
  {
    hide Matches, Inv, G.After, G.CanStep;
    if g' == g && Background(s, s') {
      BackgroundMatches(g, s, s', start, base);
      BackgroundNext(s, s');
    } else {
      var step: G.GroupStep :| G.CanStep(g, step) && g' == G.After(g, step) && Follows(g, step, s, s');
      FollowsMatches(g, s, step, s', start, base);
      FollowsNext(g, step, s, s');
    }
    if s' != s { Runs.NextKeepsInv(s, s'); }
  }

  lemma BackgroundNext(s: State, s': State)
    requires Background(s, s')
    ensures Next(s, s')
  {
  }

  lemma FollowsNext(g: G.Group, step: G.GroupStep, s: State, s': State)
    requires Follows(g, step, s, s')
    ensures s' == s || Next(s, s')
  {
    match step {
      case Lead(id) => assert Enabled(s, Assign(QueueWrites(g))) && s' == Do(s, Assign(QueueWrites(g)));
      case Log(id) => assert Enabled(s, Step.Apply) && s' == Do(s, Step.Apply);
      case Finish(id) => assert Enabled(s, Ack) && s' == Do(s, Ack);
      case _ =>
    }
  }

  lemma StartMatches(s: State, start: nat)
    requires s.Up? && s.db.pending == [] && s.db.nextSeq == start
    ensures Matches(G.Start(start), s, start, s.log)
  {
    G.StartInv(start);
    assert s.log + [] == s.log;
  }

  lemma {:induction false} InterleavingMatches(gs: seq<G.Group>, ss: seq<State>, start: nat, i: nat)
    requires Interleaving(gs, ss, start) && i < |gs|
    ensures Matches(gs[i], ss[i], start, ss[0].log) && Inv(ss[i])
    decreases i
  {
    hide Matches, Inv, Together, G.Start;
    if i == 0 {
      StartMatches(ss[0], start);
    } else {
      InterleavingMatches(gs, ss, start, i - 1);
      assert Together(gs[i - 1], ss[i - 1], gs[i - 1 + 1], ss[i - 1 + 1]);
      TogetherKeeps(gs[i - 1], ss[i - 1], gs[i], ss[i], start, ss[0].log);
    }
  }

  lemma ReturnedIsAcked(g: G.Group, s: State, start: nat, base: seq<Write>, id: nat)
    requires Matches(g, s, start, base) && id in g.pc && g.pc[id].Returned?
    ensures id in g.place && id in g.write
    ensures var n := |base| + g.place[id]; n < s.acked && n < |s.log| && s.log[n] == g.write[id]
  {
    Sizes(g, start);
    var p := G.Settled(g);
    assert id in g.done && g.place[id] < p;
    assert g.order[g.place[id]] == id;
  }

  /**
   * Durability for concurrent writers: once a writer has returned, its write is acknowledged
   * at its place in arrival order, and however the store runs on from there, through any
   * number of crashes, it stays at that place in the list of writes that every get answers
   * from.
   */
  lemma ReturnedWriteSurvives(gs: seq<G.Group>, ss: seq<State>, start: nat, i: nat, id: nat,
                              rs: seq<State>, j: nat, k: Bytes)
    requires Interleaving(gs, ss, start) && i < |gs| && id in gs[i].pc && gs[i].pc[id].Returned?
    requires Runs.IsRun(rs) && rs[0] == ss[i] && j < |rs| && rs[j].Up?
    ensures id in gs[i].place && id in gs[i].write
    ensures var n := |ss[0].log| + gs[i].place[id];
            n < ss[i].acked && n < |rs[j].log| && rs[j].log[n] == gs[i].write[id]
    ensures Get(rs[j].db.mem, rs[j].db.version, k, MAX_SEQ) == Last(rs[j].log, k)
  {
    hide Together, Matches, Inv, Next, Get, Last;
    InterleavingMatches(gs, ss, start, i);
    ReturnedIsAcked(gs[i], ss[i], start, ss[0].log, id);
    Runs.LogOnlyGrows(rs, 0, j);
    Runs.RunKeepsInv(rs, j);
    Runs.InvReadsLog(rs[j], k);
  }
}
