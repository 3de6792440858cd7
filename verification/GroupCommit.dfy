// Group commit: writers queue up, the front one leads, numbers the whole queue as one
// batch, logs and applies it, and wakes the rest. A state machine over the steps the
// mutexes make atomic.
module GroupCommit {
  import opened Entries
  import opened Machine

  datatype Stage = Numbered | Logged | Applied

  datatype Pc = Waiting | Leading(batch: seq<nat>, stage: Stage) | Returned

  /** The last three fields are history: who arrived, where, and with what write. */
  datatype Group = Group(
    write: map<nat, Write>,
    pc: map<nat, Pc>,
    queue: seq<nat>,
    seqOf: map<nat, nat>,
    done: set<nat>,
    nextSeq: nat,
    wal: seq<Entry>,
    synced: nat,
    mem: seq<Entry>,
    order: seq<nat>,
    place: map<nat, nat>,
    arrived: seq<Write>)

  datatype GroupStep =
    | Arrive(id: nat, w: Write)
    | Lead(id: nat)
    | Log(id: nat)
    | Insert(id: nat)
    | Finish(id: nat)
    | Wake(id: nat)

  ghost predicate Ready(write: map<nat, Write>, seqOf: map<nat, nat>, ids: seq<nat>) {
    forall i :: 0 <= i < |ids| ==> ids[i] in write && ids[i] in seqOf
  }

  /** The records of a batch, each with the number its request was given. */
  ghost function BatchEntries(write: map<nat, Write>, seqOf: map<nat, nat>, ids: seq<nat>): (es: seq<Entry>)
    requires Ready(write, seqOf, ids)
    ensures |es| == |ids| && forall i :: 0 <= i < |ids| ==> es[i] == EntryOf(write[ids[i]], seqOf[ids[i]])
  {
    seq(|ids|, i requires 0 <= i < |ids| => EntryOf(write[ids[i]], seqOf[ids[i]]))
  }

  ghost function Number(seqOf: map<nat, nat>, ids: seq<nat>, next: nat): (m: map<nat, nat>)
    decreases |ids|
  {
    if ids == [] then seqOf else Number(seqOf[ids[0] := next], ids[1..], next + 1)
  }

  // ---------------------------------------------------------------- steps

  ghost predicate At(s: Group, id: nat, stage: Stage) {
    id in s.pc && s.pc[id].Leading? && s.pc[id].stage == stage && Ready(s.write, s.seqOf, s.pc[id].batch)
  }

  ghost predicate CanStep(s: Group, step: GroupStep) {
    match step
    case Arrive(id, w) => id !in s.pc
    // The wait ends when a leader has handled the request or it is at the front of the queue.
    case Lead(id) => id in s.pc && s.pc[id].Waiting? && id !in s.done && s.queue != [] && s.queue[0] == id
    case Log(id) => At(s, id, Numbered)
    case Insert(id) => At(s, id, Logged)
    case Finish(id) => At(s, id, Applied) && |s.pc[id].batch| <= |s.queue|
    case Wake(id) => id in s.pc && s.pc[id].Waiting? && id in s.done
  }

  ghost function DoArrive(s: Group, id: nat, w: Write): Group {
    s.(write := s.write[id := w], pc := s.pc[id := Waiting], queue := s.queue + [id],
       order := s.order + [id], place := s.place[id := |s.order|], arrived := s.arrived + [w])
  }

  ghost function DoLead(s: Group, id: nat): Group {
    s.(pc := s.pc[id := Leading(s.queue, Numbered)],
       seqOf := Number(s.seqOf, s.queue, s.nextSeq),
       nextSeq := s.nextSeq + |s.queue|)
  }

  ghost function DoLog(s: Group, id: nat): Group
    requires At(s, id, Numbered)
  {
    var batch := s.pc[id].batch;
    var wal := s.wal + BatchEntries(s.write, s.seqOf, batch);
    s.(pc := s.pc[id := Leading(batch, Logged)], wal := wal, synced := |wal|)
  }

  ghost function DoInsert(s: Group, id: nat): Group
    requires At(s, id, Logged)
  {
    var batch := s.pc[id].batch;
    s.(pc := s.pc[id := Leading(batch, Applied)], mem := s.mem + BatchEntries(s.write, s.seqOf, batch))
  }

  ghost function DoFinish(s: Group, id: nat): Group
    requires At(s, id, Applied) && |s.pc[id].batch| <= |s.queue|
  {
    var batch := s.pc[id].batch;
    s.(pc := s.pc[id := Returned], queue := s.queue[|batch|..], done := s.done + (set x | x in batch))
  }

  ghost function DoWake(s: Group, id: nat): Group {
    s.(pc := s.pc[id := Returned])
  }

  ghost function After(s: Group, step: GroupStep): Group
    requires CanStep(s, step)
  {
    match step
    case Arrive(id, w) => DoArrive(s, id, w)
    case Lead(id) => DoLead(s, id)
    case Log(id) => DoLog(s, id)
    case Insert(id) => DoInsert(s, id)
    case Finish(id) => DoFinish(s, id)
    case Wake(id) => DoWake(s, id)
  }

  // ------------------------------------------------------------ invariant

  /** How many requests have left the queue. */
  ghost function Settled(s: Group): int {
    |s.order| - |s.queue|
  }

  /** Where the writer at the front of the queue stands; Returned stands for an empty queue. */
  ghost function Head(pc: map<nat, Pc>, queue: seq<nat>): Pc {
    if queue != [] && queue[0] in pc then pc[queue[0]] else Returned
  }

  ghost function BatchSize(h: Pc): nat {
    if h.Leading? then |h.batch| else 0
  }

  ghost function LoggedSize(h: Pc): nat {
    if h.Leading? && h.stage != Numbered then |h.batch| else 0
  }

  ghost function AppliedSize(h: Pc): nat {
    if h.Leading? && h.stage == Applied then |h.batch| else 0
  }

  /** Every arrival has one place, its write and its state. */
  ghost predicate PlaceInv(order: seq<nat>, place: map<nat, nat>) {
    && (forall i :: 0 <= i < |order| ==> order[i] in place && place[order[i]] == i)
    && (forall id :: id in place ==> place[id] < |order| && order[place[id]] == id)
  }

  ghost predicate KnownInv(order: seq<nat>, place: map<nat, nat>, write: map<nat, Write>, pc: map<nat, Pc>,
                           arrived: seq<Write>) {
    && pc.Keys == place.Keys
    && |arrived| == |order|
    && (forall i :: 0 <= i < |order| ==> order[i] in write && write[order[i]] == arrived[i])
  }

  /** The queue is the unsettled tail of the arrivals. */
  ghost predicate QueueInv(order: seq<nat>, queue: seq<nat>) {
    |queue| <= |order| && queue == order[|order| - |queue|..]
  }

  /** Only the front leads, and its batch is a prefix of the queue. */
  ghost predicate LeaderInv(pc: map<nat, Pc>, queue: seq<nat>) {
    && (forall id :: id in pc && pc[id].Leading? ==> queue != [] && id == queue[0])
    && var h := Head(pc, queue);
       h.Leading? ==> 0 < |h.batch| <= |queue| && h.batch == queue[..|h.batch|]
  }

  /** The settled requests are the ones marked done, and nothing else has returned. */
  ghost predicate DoneInv(pc: map<nat, Pc>, place: map<nat, nat>, done: set<nat>, p: int) {
    && (forall id :: id in done <==> id in place && place[id] < p)
    && (forall id :: id in pc && pc[id].Returned? ==> id in done)
  }

  /** Numbers run consecutively through the first n arrivals. */
  ghost predicate NumberInv(order: seq<nat>, seqOf: map<nat, nat>, nextSeq: nat, start: nat, n: int) {
    && 0 <= n <= |order|
    && nextSeq == start + n
    && forall i :: 0 <= i < n ==> order[i] in seqOf && seqOf[order[i]] == start + i
  }

  /** Entries are the first n arrivals in order, each once, with those numbers. */
  ghost predicate HeldInv(arrived: seq<Write>, es: seq<Entry>, start: nat, n: int) {
    0 <= n <= |arrived| && es == Stamp(arrived[..n], start)
  }

  ghost predicate Inv(s: Group, start: nat) {
    var p, h := Settled(s), Head(s.pc, s.queue);
    && PlaceInv(s.order, s.place)
    && KnownInv(s.order, s.place, s.write, s.pc, s.arrived)
    && QueueInv(s.order, s.queue)
    && LeaderInv(s.pc, s.queue)
    && DoneInv(s.pc, s.place, s.done, p)
    && NumberInv(s.order, s.seqOf, s.nextSeq, start, p + BatchSize(h))
    && HeldInv(s.arrived, s.wal, start, p + LoggedSize(h))
    && s.synced == |s.wal|
    && HeldInv(s.arrived, s.mem, start, p + AppliedSize(h))
  }

  ghost function Start(start: nat): Group {
    Group(map[], map[], [], map[], {}, start, [], 0, [], [], map[], [])
  }

  lemma StartInv(start: nat)
    ensures Inv(Start(start), start)
  {
  }

  // ---------------------------------------------------------------- arrival

  lemma ArrivePlace(order: seq<nat>, place: map<nat, nat>, id: nat)
    requires PlaceInv(order, place) && id !in place
    ensures PlaceInv(order + [id], place[id := |order|])
  {
  }

  lemma ArriveKnown(s: Group, id: nat, w: Write)
    requires KnownInv(s.order, s.place, s.write, s.pc, s.arrived) && PlaceInv(s.order, s.place) && id !in s.pc
    ensures KnownInv(s.order + [id], s.place[id := |s.order|], s.write[id := w], s.pc[id := Waiting], s.arrived + [w])
  {
    assert s.place[id := |s.order|].Keys == s.place.Keys + {id} == s.pc[id := Waiting].Keys;
    assert id !in s.place;
    forall i | 0 <= i < |s.order| ensures s.order[i] != id { assert s.order[i] in s.place; }
  }

  lemma ArriveQueue(order: seq<nat>, queue: seq<nat>, id: nat)
    requires QueueInv(order, queue)
    ensures QueueInv(order + [id], queue + [id])
  {
    assert (order + [id])[|order| - |queue|..] == queue + [id];
  }

  lemma ArriveLeads(pc: map<nat, Pc>, queue: seq<nat>, id: nat)
    requires LeaderInv(pc, queue) && id !in pc && (queue != [] ==> queue[0] in pc)
    ensures LeaderInv(pc[id := Waiting], queue + [id])
  {
    if Head(pc, queue).Leading? {
      var b := |Head(pc, queue).batch|;
      assert (queue + [id])[..b] == queue[..b];
    }
  }

  lemma ArriveNumber(order: seq<nat>, seqOf: map<nat, nat>, next: nat, start: nat, n: int, id: nat)
    requires NumberInv(order, seqOf, next, start, n)
    ensures NumberInv(order + [id], seqOf, next, start, n)
  {
  }

  lemma FrontKnown(s: Group)
    requires QueueInv(s.order, s.queue) && PlaceInv(s.order, s.place)
             && KnownInv(s.order, s.place, s.write, s.pc, s.arrived)
    ensures s.queue != [] ==> s.queue[0] in s.pc
  {
    if s.queue != [] { assert s.queue[0] == s.order[Settled(s)]; }
  }

  lemma ArriveHead(s: Group, id: nat, w: Write)
    requires KnownInv(s.order, s.place, s.write, s.pc, s.arrived) && PlaceInv(s.order, s.place) && id !in s.pc
    requires QueueInv(s.order, s.queue)
    ensures var t := DoArrive(s, id, w);
            Head(t.pc, t.queue) == Head(s.pc, s.queue) || (Head(t.pc, t.queue) == Waiting && s.queue == [])
  {
    if s.queue != [] { assert s.queue[0] == s.order[Settled(s)]; }
  }

  lemma HeldGrows(arrived: seq<Write>, w: Write, es: seq<Entry>, start: nat, n: int)
    requires HeldInv(arrived, es, start, n)
    ensures HeldInv(arrived + [w], es, start, n)
  {
    assert (arrived + [w])[..n] == arrived[..n];
  }

  lemma ArriveKeepsInv(s: Group, id: nat, w: Write, start: nat)
    requires Inv(s, start) && id !in s.pc
    ensures Inv(DoArrive(s, id, w), start)
  {
    hide PlaceInv, QueueInv, LeaderInv, HeldInv, NumberInv, DoneInv, Head;
    var p, h := Settled(s), Head(s.pc, s.queue);
    hide KnownInv;
    FrontKnown(s);
    NotPlaced(s, id);
    ArrivePlace(s.order, s.place, id);
    ArriveKnown(s, id, w);
    ArriveQueue(s.order, s.queue, id);
    ArriveLeads(s.pc, s.queue, id);
    ArriveHead(s, id, w);
    NoHead(s.pc, s.queue);
    ArriveNumber(s.order, s.seqOf, s.nextSeq, start, p + BatchSize(h), id);
    HeldGrows(s.arrived, w, s.wal, start, p + LoggedSize(h));
    HeldGrows(s.arrived, w, s.mem, start, p + AppliedSize(h));
    QueueShort(s.order, s.queue);
    ArriveDone(s, id, w, p);
  }

  lemma QueueShort(order: seq<nat>, queue: seq<nat>)
    requires QueueInv(order, queue)
    ensures |queue| <= |order|
  {
  }

  lemma NotPlaced(s: Group, id: nat)
    requires KnownInv(s.order, s.place, s.write, s.pc, s.arrived) && id !in s.pc
    ensures id !in s.place
  {
  }

  lemma NoHead(pc: map<nat, Pc>, queue: seq<nat>)
    ensures queue == [] ==> Head(pc, queue) == Returned
  {
  }

  lemma ArriveDone(s: Group, id: nat, w: Write, p: int)
    requires DoneInv(s.pc, s.place, s.done, p) && KnownInv(s.order, s.place, s.write, s.pc, s.arrived)
    requires id !in s.pc && p <= |s.order|
    ensures DoneInv(DoArrive(s, id, w).pc, DoArrive(s, id, w).place, s.done, p)
  {
  }

  // ---------------------------------------------------------------- leading

  lemma {:induction false} NumberIs(seqOf: map<nat, nat>, ids: seq<nat>, next: nat)
    requires forall i, j :: 0 <= i < j < |ids| ==> ids[i] != ids[j]
    ensures forall i :: 0 <= i < |ids| ==>
              ids[i] in Number(seqOf, ids, next) && Number(seqOf, ids, next)[ids[i]] == next + i
    ensures forall id :: id !in ids && id in seqOf ==>
              id in Number(seqOf, ids, next) && Number(seqOf, ids, next)[id] == seqOf[id]
    decreases |ids|
  {
    if ids != [] {
      var rest := ids[1..];
      NumberIs(seqOf[ids[0] := next], rest, next + 1);
      assert forall id :: id !in ids ==> id !in rest && id != ids[0];
      var m := Number(seqOf, ids, next);
      forall i | 0 <= i < |ids| ensures ids[i] in m && m[ids[i]] == next + i {
        if i > 0 { assert rest[i - 1] == ids[i]; }
      }
    }
  }

  lemma LeadNumbers(s: Group, start: nat, p: int)
    requires PlaceInv(s.order, s.place) && QueueInv(s.order, s.queue) && p == Settled(s)
    requires NumberInv(s.order, s.seqOf, s.nextSeq, start, p)
    ensures NumberInv(s.order, Number(s.seqOf, s.queue, s.nextSeq), s.nextSeq + |s.queue|, start, |s.order|)
  {
    assert forall j :: 0 <= j < |s.queue| ==> s.place[s.queue[j]] == p + j;
    NumberIs(s.seqOf, s.queue, s.nextSeq);
    var m := Number(s.seqOf, s.queue, s.nextSeq);
    forall i | 0 <= i < |s.order| ensures s.order[i] in m && m[s.order[i]] == start + i {
      if i < p {
        assert s.order[i] !in s.queue;
      } else {
        assert s.queue[i - p] == s.order[i];
      }
    }
  }

  lemma LeadLeads(s: Group, id: nat)
    requires LeaderInv(s.pc, s.queue) && CanStep(s, Lead(id))
    ensures LeaderInv(DoLead(s, id).pc, s.queue)
    ensures Head(DoLead(s, id).pc, s.queue) == Leading(s.queue, Numbered)
    ensures Head(s.pc, s.queue) == Waiting
  {
    assert s.queue[..|s.queue|] == s.queue;
  }

  lemma LeadKeepsInv(s: Group, id: nat, start: nat)
    requires Inv(s, start) && CanStep(s, Lead(id))
    ensures Inv(DoLead(s, id), start)
  {
    hide PlaceInv, QueueInv, LeaderInv, HeldInv, NumberInv, Number, Head;
    LeadLeads(s, id);
    LeadNumbers(s, start, Settled(s));
  }

  // ------------------------------------------------------ logging, applying

  /** The records of the batch continue the stamped arrivals. */
  lemma BatchContinues(s: Group, es: seq<Entry>, start: nat, b: nat)
    requires KnownInv(s.order, s.place, s.write, s.pc, s.arrived) && QueueInv(s.order, s.queue) && b <= |s.queue|
    requires NumberInv(s.order, s.seqOf, s.nextSeq, start, Settled(s) + b) && HeldInv(s.arrived, es, start, Settled(s))
    ensures Ready(s.write, s.seqOf, s.queue[..b])
    ensures HeldInv(s.arrived, es + BatchEntries(s.write, s.seqOf, s.queue[..b]), start, Settled(s) + b)
  {
    var p := Settled(s);
    assert forall i :: 0 <= i < b ==> s.queue[..b][i] == s.order[p + i];
  }

  lemma FrontLeads(s: Group, id: nat)
    requires LeaderInv(s.pc, s.queue) && id in s.pc && s.pc[id].Leading?
    ensures s.queue != [] && id == s.queue[0] && Head(s.pc, s.queue) == s.pc[id]
    ensures 0 < |s.pc[id].batch| <= |s.queue| && s.pc[id].batch == s.queue[..|s.pc[id].batch|]
  {
  }

  lemma StageMoves(s: Group, id: nat, stage: Stage)
    requires LeaderInv(s.pc, s.queue) && id in s.pc && s.pc[id].Leading?
    ensures var pc := s.pc[id := Leading(s.pc[id].batch, stage)];
            && LeaderInv(pc, s.queue) && Head(pc, s.queue) == Leading(s.pc[id].batch, stage)
            && pc.Keys == s.pc.Keys
  {
    assert s.pc[id := Leading(s.pc[id].batch, stage)].Keys == s.pc.Keys;
  }

  lemma LogKeepsInv(s: Group, id: nat, start: nat)
    requires Inv(s, start) && CanStep(s, Log(id))
    ensures Inv(DoLog(s, id), start)
  {
    hide PlaceInv, QueueInv, LeaderInv, HeldInv, NumberInv, Head, BatchEntries;
    FrontLeads(s, id);
    StageMoves(s, id, Logged);
    BatchContinues(s, s.wal, start, |s.pc[id].batch|);
  }

  lemma InsertKeepsInv(s: Group, id: nat, start: nat)
    requires Inv(s, start) && CanStep(s, Insert(id))
    ensures Inv(DoInsert(s, id), start)
  {
    hide PlaceInv, QueueInv, LeaderInv, HeldInv, NumberInv, Head, BatchEntries;
    FrontLeads(s, id);
    StageMoves(s, id, Applied);
    BatchContinues(s, s.mem, start, |s.pc[id].batch|);
  }

  // -------------------------------------------------------- finishing, waking

  lemma FinishQueue(s: Group, id: nat)
    requires PlaceInv(s.order, s.place) && KnownInv(s.order, s.place, s.write, s.pc, s.arrived)
    requires QueueInv(s.order, s.queue) && LeaderInv(s.pc, s.queue) && id in s.pc && s.pc[id].Leading?
    ensures var b := |s.pc[id].batch|;
            var pc, queue := s.pc[id := Returned], s.queue[b..];
            && 0 < b <= |s.queue|
            && QueueInv(s.order, queue) && LeaderInv(pc, queue) && !Head(pc, queue).Leading? && pc.Keys == s.pc.Keys
  {
    var b := |s.pc[id].batch|;
    var pc, queue := s.pc[id := Returned], s.queue[b..];
    var p := Settled(s);
    assert queue == s.order[p + b..];
    assert pc.Keys == s.pc.Keys;
    assert id == s.queue[0] == s.order[p];
    if queue != [] { assert queue[0] == s.order[p + b] && s.place[queue[0]] == p + b; }
  }

  lemma FinishDone(s: Group, id: nat)
    requires PlaceInv(s.order, s.place) && KnownInv(s.order, s.place, s.write, s.pc, s.arrived)
    requires QueueInv(s.order, s.queue) && LeaderInv(s.pc, s.queue) && id in s.pc && s.pc[id].Leading?
    requires DoneInv(s.pc, s.place, s.done, Settled(s))
    ensures var batch := s.pc[id].batch;
            DoneInv(s.pc[id := Returned], s.place, s.done + (set x | x in batch), Settled(s) + |batch|)
  {
    var batch, p := s.pc[id].batch, Settled(s);
    FrontLeads(s, id);
    assert forall i :: 0 <= i < |batch| ==> batch[i] == s.order[p + i];
    forall x
      ensures x in batch <==> x in s.place && p <= s.place[x] < p + |batch|
    {
      if x in s.place && p <= s.place[x] < p + |batch| { assert batch[s.place[x] - p] == x; }
    }
    assert batch[0] == id;
  }

  lemma FinishKeepsInv(s: Group, id: nat, start: nat)
    requires Inv(s, start) && CanStep(s, Finish(id))
    ensures Inv(DoFinish(s, id), start)
  {
    hide PlaceInv, QueueInv, LeaderInv, HeldInv, NumberInv, DoneInv, Head;
    FrontLeads(s, id);
    FinishQueue(s, id);
    FinishDone(s, id);
  }

  /** A done request is settled, so it is not at the front. */
  lemma DoneNotFront(s: Group, id: nat)
    requires PlaceInv(s.order, s.place) && QueueInv(s.order, s.queue) && DoneInv(s.pc, s.place, s.done, Settled(s))
    requires id in s.done && s.queue != []
    ensures s.queue[0] != id
  {
    assert s.queue[0] == s.order[Settled(s)];
  }

  lemma WakeParts(s: Group, id: nat)
    requires PlaceInv(s.order, s.place) && QueueInv(s.order, s.queue)
    requires LeaderInv(s.pc, s.queue) && DoneInv(s.pc, s.place, s.done, Settled(s))
    requires CanStep(s, Wake(id))
    ensures var pc := s.pc[id := Returned];
            && LeaderInv(pc, s.queue) && Head(pc, s.queue) == Head(s.pc, s.queue)
            && DoneInv(pc, s.place, s.done, Settled(s)) && pc.Keys == s.pc.Keys
  {
    hide PlaceInv, QueueInv;
    assert s.pc[id := Returned].Keys == s.pc.Keys;
    if s.queue != [] { DoneNotFront(s, id); }
  }

  lemma WakeKeepsInv(s: Group, id: nat, start: nat)
    requires Inv(s, start) && CanStep(s, Wake(id))
    ensures Inv(DoWake(s, id), start)
  {
    hide PlaceInv, QueueInv, LeaderInv, HeldInv, NumberInv, DoneInv, Head;
    WakeParts(s, id);
  }

  lemma StepKeepsInv(s: Group, step: GroupStep, start: nat)
    requires Inv(s, start) && CanStep(s, step)
    ensures Inv(After(s, step), start)
  {
    hide Inv, DoArrive, DoLead, DoLog, DoInsert, DoFinish, DoWake;
    match step {
      case Arrive(id, w) => ArriveKeepsInv(s, id, w, start);
      case Lead(id) => LeadKeepsInv(s, id, start);
      case Log(id) => LogKeepsInv(s, id, start);
      case Insert(id) => InsertKeepsInv(s, id, start);
      case Finish(id) => FinishKeepsInv(s, id, start);
      case Wake(id) => WakeKeepsInv(s, id, start);
    }
  }

  // ----------------------------------------------------------- whole runs

  ghost predicate IsRun(states: seq<Group>, steps: seq<GroupStep>, start: nat) {
    && |states| == |steps| + 1
    && states[0] == Start(start)
    && forall i :: 0 <= i < |steps| ==> CanStep(states[i], steps[i]) && states[i + 1] == After(states[i], steps[i])
  }

  lemma {:induction false} RunKeepsInv(states: seq<Group>, steps: seq<GroupStep>, start: nat, n: nat)
    requires IsRun(states, steps, start) && n < |states|
    ensures Inv(states[n], start)
    decreases n
  {
    hide Inv, After, CanStep;
    if n == 0 {
      StartInv(start);
    } else {
      RunKeepsInv(states, steps, start, n - 1);
      StepKeepsInv(states[n - 1], steps[n - 1], start);
    }
  }

  /** In every reachable state at most one writer leads. */
  lemma OneLeader(states: seq<Group>, steps: seq<GroupStep>, start: nat, n: nat, a: nat, b: nat)
    requires IsRun(states, steps, start) && n < |states|
    requires a in states[n].pc && b in states[n].pc && states[n].pc[a].Leading? && states[n].pc[b].Leading?
    ensures a == b
  {
    hide IsRun, PlaceInv, KnownInv, HeldInv, NumberInv, DoneInv;
    RunKeepsInv(states, steps, start, n);
  }

  /**
   * In every reachable state the log is the memtable plus at most the batch of the leader,
   * both are the arrivals in arrival order, each once, numbered consecutively, and all of
   * the log is synced.
   */
  lemma LogIsArrivals(states: seq<Group>, steps: seq<GroupStep>, start: nat, n: nat)
    requires IsRun(states, steps, start) && n < |states|
    ensures var s := states[n];
            && |s.mem| <= |s.wal| <= |s.arrived| && s.synced == |s.wal|
            && s.wal == Stamp(s.arrived, start)[..|s.wal|]
            && s.mem == s.wal[..|s.mem|]
  {
    hide IsRun, PlaceInv, KnownInv, QueueInv, LeaderInv, NumberInv, DoneInv, Head;
    RunKeepsInv(states, steps, start, n);
    var s := states[n];
    assert s.wal == Stamp(s.arrived, start)[..|s.wal|];
    assert s.mem == Stamp(s.arrived, start)[..|s.mem|];
  }

  /** A write that has returned is in the synced log and in the memtable, at its place in the arrivals. */
  lemma ReturnedIsLogged(states: seq<Group>, steps: seq<GroupStep>, start: nat, n: nat, id: nat)
    requires IsRun(states, steps, start) && n < |states|
    requires id in states[n].pc && states[n].pc[id].Returned?
    ensures var s := states[n];
            && id in s.place && id in s.write
            && var i := s.place[id];
               && i < s.synced == |s.wal| && i < |s.mem|
               && s.wal[i] == s.mem[i] == EntryOf(s.write[id], start + i)
  {
    hide IsRun, QueueInv, LeaderInv, NumberInv, Head;
    RunKeepsInv(states, steps, start, n);
    var s := states[n];
    var i := s.place[id];
    assert i < Settled(s);
    assert s.order[i] == id && s.write[id] == s.arrived[i];
  }

  // ---------------------------------------------------------------- progress

  /** While a writer has not returned, some step other than an arrival can be taken: nobody is stuck. */
  lemma NeverStuck(s: Group, start: nat, id: nat) returns (step: GroupStep)
    requires Inv(s, start) && id in s.pc && !s.pc[id].Returned?
    ensures !step.Arrive? && CanStep(s, step)
    ensures s.queue != [] && s.queue[0] in s.pc && !s.pc[s.queue[0]].Leading? ==> step == Lead(s.queue[0])
  {
    hide HeldInv;
    if s.queue == [] {
      step := Wake(id);
    } else {
      var front := s.queue[0];
      assert front == s.order[Settled(s)] && s.place[front] == Settled(s);
      if s.pc[front].Leading? {
        FrontLeads(s, front);
        BatchContinuesReady(s, start, |s.pc[front].batch|);
        match s.pc[front].stage
        case Numbered => step := Log(front);
        case Logged => step := Insert(front);
        case Applied => step := Finish(front);
      } else {
        step := Lead(front);
      }
    }
  }

  lemma BatchContinuesReady(s: Group, start: nat, b: nat)
    requires KnownInv(s.order, s.place, s.write, s.pc, s.arrived) && QueueInv(s.order, s.queue) && b <= |s.queue|
    requires NumberInv(s.order, s.seqOf, s.nextSeq, start, Settled(s) + b)
    ensures Ready(s.write, s.seqOf, s.queue[..b])
  {
    assert forall i :: 0 <= i < b ==> s.queue[..b][i] == s.order[Settled(s) + i];
  }

  ghost function StageNumber(h: Pc): nat {
    if !h.Leading? then 0
    else match h.stage case Numbered => 1 case Logged => 2 case Applied => 3
  }

  ghost function Unreturned(pc: map<nat, Pc>, ids: seq<nat>): nat {
    if ids == [] then 0
    else Unreturned(pc, ids[1..]) + if ids[0] in pc && pc[ids[0]].Returned? then 0 else 1
  }

  ghost function Measure(s: Group): int {
    5 * |s.queue| - StageNumber(Head(s.pc, s.queue)) + Unreturned(s.pc, s.order)
  }

  lemma {:induction false} UnreturnedKept(pc: map<nat, Pc>, ids: seq<nat>, id: nat, to: Pc)
    requires id in pc && !pc[id].Returned? && !to.Returned?
    ensures Unreturned(pc[id := to], ids) == Unreturned(pc, ids)
    decreases |ids|
  {
    if ids != [] { UnreturnedKept(pc, ids[1..], id, to); }
  }

  lemma {:induction false} UnreturnedFalls(pc: map<nat, Pc>, ids: seq<nat>, id: nat)
    requires id in pc && !pc[id].Returned?
    ensures Unreturned(pc[id := Returned], ids) <= Unreturned(pc, ids)
    ensures id in ids ==> Unreturned(pc[id := Returned], ids) < Unreturned(pc, ids)
    decreases |ids|
  {
    if ids != [] { UnreturnedFalls(pc, ids[1..], id); }
  }

  lemma ArrivedOnce(s: Group, start: nat, id: nat)
    requires Inv(s, start) && id in s.pc
    ensures id in s.order
  {
    hide QueueInv, LeaderInv, NumberInv, Head, HeldInv, DoneInv;
    assert id in s.place && s.order[s.place[id]] == id;
  }

  /**
   * Every step other than an arrival lowers a measure that is never negative: without new
   * arrivals a run ends, and as nobody is stuck it ends with every writer returned.
   */
  lemma StepsRunOut(s: Group, step: GroupStep, start: nat)
    requires Inv(s, start) && CanStep(s, step) && !step.Arrive?
    ensures Measure(After(s, step)) < Measure(s)
  {
    hide Inv, PlaceInv, KnownInv, QueueInv, LeaderInv, NumberInv, HeldInv, DoneInv, Head, Unreturned, BatchEntries,
         Number;
    ArrivedOnce(s, start, step.id);
    StepHeads(s, step, start);
    match step {
      case Lead(id) => UnreturnedKept(s.pc, s.order, id, Leading(s.queue, Numbered));
      case Log(id) => UnreturnedKept(s.pc, s.order, id, Leading(s.pc[id].batch, Logged));
      case Insert(id) => UnreturnedKept(s.pc, s.order, id, Leading(s.pc[id].batch, Applied));
      case Finish(id) => UnreturnedFalls(s.pc, s.order, id);
      case Wake(id) => UnreturnedFalls(s.pc, s.order, id);
    }
  }

  /** How a step moves the front of the queue. */
  lemma StepHeads(s: Group, step: GroupStep, start: nat)
    requires Inv(s, start) && CanStep(s, step)
    ensures var h, t := Head(s.pc, s.queue), After(s, step);
            var h' := Head(t.pc, t.queue);
            match step
            case Arrive(id, w) => true
            case Lead(id) => h == Waiting && h'.Leading? && h'.stage == Numbered
            case Log(id) => h.Leading? && h.stage == Numbered && h'.Leading? && h'.stage == Logged
            case Insert(id) => h.Leading? && h.stage == Logged && h'.Leading? && h'.stage == Applied
            case Finish(id) => h.Leading? && |t.queue| < |s.queue|
            case Wake(id) => h' == h
  {
    hide PlaceInv, KnownInv, QueueInv, LeaderInv, NumberInv, HeldInv, DoneInv, Head, BatchEntries, Number;
    match step {
      case Arrive(id, w) =>
      case Lead(id) => LeadLeads(s, id);
      case Log(id) => FrontLeads(s, id); StageMoves(s, id, Logged);
      case Insert(id) => FrontLeads(s, id); StageMoves(s, id, Applied);
      case Finish(id) => FrontLeads(s, id); FinishQueue(s, id);
      case Wake(id) => WakeParts(s, id);
    }
  }

  lemma MeasureIsNatural(s: Group)
    ensures Measure(s) >= 0
  {
    hide Unreturned;
    NoHead(s.pc, s.queue);
  }

  /** A stretch of a run in which nobody new arrives. */
  ghost predicate Quiet(states: seq<Group>, steps: seq<GroupStep>) {
    && |states| == |steps| + 1
    && forall i :: 0 <= i < |steps| ==>
         !steps[i].Arrive? && CanStep(states[i], steps[i]) && states[i + 1] == After(states[i], steps[i])
  }

  lemma {:induction false} QuietRunsAreShort(states: seq<Group>, steps: seq<GroupStep>, start: nat)
    requires Quiet(states, steps) && Inv(states[0], start)
    ensures Inv(states[|steps|], start) && |steps| <= Measure(states[0]) - Measure(states[|steps|])
    decreases |steps|
  {
    hide Inv, After, CanStep, Measure;
    if steps != [] {
      var n := |steps| - 1;
      QuietRunsAreShort(states[..n + 1], steps[..n], start);
      StepKeepsInv(states[n], steps[n], start);
      StepsRunOut(states[n], steps[n], start);
    }
  }

  /** When nobody new arrives, a run that has taken all the steps it can has let every writer return. */
  lemma EveryoneReturns(states: seq<Group>, steps: seq<GroupStep>, start: nat, id: nat)
    requires Quiet(states, steps) && Inv(states[0], start)
    requires forall step :: CanStep(states[|steps|], step) ==> step.Arrive?
    requires id in states[|steps|].pc
    ensures |steps| <= Measure(states[0]) && states[|steps|].pc[id].Returned?
  {
    hide Inv, After, Measure;
    QuietRunsAreShort(states, steps, start);
    MeasureIsNatural(states[|steps|]);
    if !states[|steps|].pc[id].Returned? {
      var step := NeverStuck(states[|steps|], start, id);
    }
  }
}
