// The k-way merging iterator: a heap of sources, each positioned at its next
// entry, in all-versions mode and in newest-visible mode.
module Merging {
  import opened Keys
  import opened Entries

  // ------------------------------------------------ what is left to deliver

  /** Everything the sources still hold, with multiplicity. */
  function Bag(rest: seq<seq<Entry>>): multiset<Entry> {
    if rest == [] then multiset{} else multiset(rest[0]) + Bag(rest[1..])
  }

  lemma {:induction false} BagMembers(rest: seq<seq<Entry>>, e: Entry)
    ensures e in Bag(rest) <==> e in Union(rest)
  {
    if rest != [] {
      BagMembers(rest[1..], e);
      UnionHead(rest, e);
    }
  }

  lemma UnionHead(rest: seq<seq<Entry>>, e: Entry)
    requires rest != []
    ensures e in Union(rest) <==> e in rest[0] || e in Union(rest[1..])
  {
    if e in Union(rest) {
      var i :| 0 <= i < |rest| && e in rest[i];
      assert i > 0 ==> e in rest[1..][i - 1];
    }
    if e in Union(rest[1..]) {
      var i :| 0 <= i < |rest[1..]| && e in rest[1..][i];
      assert e in rest[i + 1];
    }
  }

  function Advanced(rest: seq<seq<Entry>>, i: nat): (r: seq<seq<Entry>>)
    requires i < |rest| && rest[i] != []
  {
    rest[i := rest[i][1..]]
  }

  lemma {:induction false} BagAdvanced(rest: seq<seq<Entry>>, i: nat)
    requires i < |rest| && rest[i] != []
    ensures Bag(rest) == Bag(Advanced(rest, i)) + multiset{rest[i][0]}
  {
    if i == 0 {
      assert rest[0] == [rest[0][0]] + rest[0][1..];
      assert Advanced(rest, 0)[1..] == rest[1..];
    } else {
      BagAdvanced(rest[1..], i - 1);
      assert Advanced(rest, i)[1..] == Advanced(rest[1..], i - 1);
    }
  }

  lemma UnionAdvanced(rest: seq<seq<Entry>>, i: nat)
    requires i < |rest| && rest[i] != []
    ensures Union(rest) == Union(Advanced(rest, i)) + {rest[i][0]}
    ensures rest[i][0] in Union(rest)
  {
    var next := Advanced(rest, i);
    assert rest[i] == [rest[i][0]] + rest[i][1..];
    forall e | e in Union(rest) ensures e in Union(next) + {rest[i][0]} {
      var j :| 0 <= j < |rest| && e in rest[j];
      assert e == rest[i][0] || e in next[j];
    }
    forall e | e in Union(next) ensures e in Union(rest) {
      var j :| 0 <= j < |next| && e in next[j];
      assert e in rest[j];
    }
    assert rest[i][0] in rest[i];
  }

  predicate AllSorted(rest: seq<seq<Entry>>) {
    forall i :: 0 <= i < |rest| ==> Sorted(rest[i])
  }

  lemma AdvancedSorted(rest: seq<seq<Entry>>, i: nat)
    requires AllSorted(rest) && i < |rest| && rest[i] != []
    ensures AllSorted(Advanced(rest, i))
  {
  }

  // ------------------------------------------------------------------ the heap

  function NonEmpty(rest: seq<seq<Entry>>): set<nat> {
    set i: nat | i < |rest| && rest[i] != []
  }

  /** The top of the heap: no source in it has an entry that goes first. Ties are free. */
  predicate IsTop(rest: seq<seq<Entry>>, heap: set<nat>, t: nat)
    requires forall i :: i in heap ==> i < |rest| && rest[i] != []
  {
    t in heap && forall i :: i in heap ==> !Before(rest[i][0], rest[t][0])
  }

  lemma {:induction false} TopExists(rest: seq<seq<Entry>>, heap: set<nat>)
    requires (forall i :: i in heap ==> i < |rest| && rest[i] != []) && heap != {}
    ensures exists t: nat :: IsTop(rest, heap, t)
    decreases heap
  {
    hide Before;
    var a: nat :| a in heap;
    var others := heap - {a};
    if others == {} {
      NotBeforeItself(rest[a][0]);
      assert heap == {a};
      assert IsTop(rest, heap, a);
    } else {
      TopExists(rest, others);
      var b: nat :| IsTop(rest, others, b);
      NotBeforeItself(rest[a][0]);
      if Before(rest[a][0], rest[b][0]) {
        BeforeAsymmetric(rest[a][0], rest[b][0]);
        forall i | i in others ensures !Before(rest[i][0], rest[a][0]) {
          NotBeforeTransitive(rest[a][0], rest[b][0], rest[i][0]);
        }
        assert IsTop(rest, heap, a);
      } else {
        assert IsTop(rest, heap, b);
      }
    }
  }

  lemma NotBeforeItself(e: Entry)
    ensures !Before(e, e)
  {
    LessIrreflexive(e.key);
  }

  /** The entry at the top goes before, or ties with, everything that is left. */
  lemma TopIsLeast(rest: seq<seq<Entry>>, t: nat, e: Entry)
    requires AllSorted(rest) && IsTop(rest, NonEmpty(rest), t) && e in Union(rest)
    ensures !Before(e, rest[t][0])
  {
    var i :| 0 <= i < |rest| && e in rest[i];
    var j :| 0 <= j < |rest[i]| && rest[i][j] == e;
    assert i in NonEmpty(rest);
    if j > 0 {
      assert !Before(rest[i][j], rest[i][0]);
      NotBeforeTransitive(rest[t][0], rest[i][0], e);
    }
  }

  lemma EmptyHeap(rest: seq<seq<Entry>>)
    requires NonEmpty(rest) == {}
    ensures Union(rest) == {} && Bag(rest) == multiset{}
  {
    assert forall i :: 0 <= i < |rest| ==> (rest[i] != [] <==> i in NonEmpty(rest));
    forall e ensures e !in Bag(rest) { BagMembers(rest, e); }
  }

  // ------------------------------------------------------- one key's outcome

  /** The key at the top of the heap. */
  ghost predicate LeastKey(S: set<Entry>, top: Option<Bytes>) {
    match top
    case None => S == {}
    case Some(k) => (exists x :: x in S && x.key == k) && forall x :: x in S ==> !Less(x.key, k)
  }

  ghost function After(S: set<Entry>, k: Bytes): set<Entry> {
    set e | e in S && Less(k, e.key)
  }

  /** What key k yields: its newest visible version, unless that is a tombstone to be hidden. */
  ghost predicate Outcome(S: set<Entry>, k: Bytes, snapshot: nat, found: bool, best: Entry) {
    IsNewest(S, k, snapshot, if found then Some(best) else None)
  }

  ghost predicate Silent(S: set<Entry>, k: Bytes, snapshot: nat, keepTombstones: bool) {
    exists found, best :: Outcome(S, k, snapshot, found, best) && !(found && (keepTombstones || !best.tombstone))
  }

  ghost predicate Yields(S: set<Entry>, e: Entry, snapshot: nat, keepTombstones: bool) {
    Outcome(S, e.key, snapshot, true, e) && (keepTombstones || !e.tombstone)
  }

  /** Keys in S come entirely before the keys still in rest. */
  ghost predicate Behind(all: set<Entry>, rest: set<Entry>) {
    rest <= all && forall e, x :: e in all - rest && x in rest ==> Less(e.key, x.key)
  }

  lemma LeastHasKey(S: set<Entry>, e: Entry, k: Bytes)
    requires LeastKey(S, Some(k)) && e in S && forall x :: x in S ==> !Before(x, e)
    ensures e.key == k
  {
    var x :| x in S && x.key == k;
    LessTotal(k, e.key);
  }

  lemma PoppedBehind(start: set<Entry>, popped: set<Entry>, rest: set<Entry>, k: Bytes, top: Option<Bytes>)
    requires LeastKey(start, Some(k)) && start == rest + popped && LeastKey(rest, top) && top != Some(k)
    requires forall p :: p in popped ==> p.key == k
    ensures rest == After(start, k)
  {
    LessIrreflexive(k);
    forall x | x in rest ensures Less(k, x.key) {
      LessTotal(k, x.key);
      if x.key == k {
        var y :| y in rest && y.key == top.value;
        LessTotal(k, y.key);
        assert false;
      }
    }
  }

  lemma BehindSteps(all: set<Entry>, start: set<Entry>, k: Bytes)
    requires Behind(all, start) && LeastKey(start, Some(k))
    ensures Behind(all, After(start, k))
    ensures After(start, k) == After(all, k)
    ensures forall e :: e in all && Less(e.key, k) ==> e !in start
    ensures forall e :: e in all - After(start, k) ==> e !in start || e.key == k
  {
    var w :| w in start && w.key == k;
    forall e | e in all && Less(k, e.key) ensures e in start {
      if e !in start { LessAsymmetric(e.key, w.key); }
    }
    forall e | e in start && !Less(k, e.key) ensures e.key == k { LessTotal(k, e.key); }
    forall e, x | e in all - After(start, k) && x in After(start, k) ensures Less(e.key, x.key) {
    }
  }

  lemma OutcomeOfAll(all: set<Entry>, start: set<Entry>, popped: set<Entry>, k: Bytes, snapshot: nat, found: bool,
                     best: Entry)
    requires Behind(all, start) && LeastKey(start, Some(k)) && popped <= start
    requires forall e :: e in start && e.key == k ==> e in popped
    requires Outcome(popped, k, snapshot, found, best)
    ensures Outcome(all, k, snapshot, found, best)
  {
    var w :| w in start && w.key == k;
    forall e | e in all && e.key == k ensures e in popped {
      if e !in start { LessIrreflexive(k); }
    }
  }

  lemma OutcomeAdds(popped: set<Entry>, k: Bytes, snapshot: nat, found: bool, best: Entry, e: Entry)
    requires Outcome(popped, k, snapshot, found, best) && e.key == k
    requires forall p :: p in popped ==> p.key == k && !Before(e, p)
    ensures if !found && e.seqno <= snapshot then Outcome(popped + {e}, k, snapshot, true, e)
            else Outcome(popped + {e}, k, snapshot, found, best)
  {
    forall p | p in popped ensures e.seqno <= p.seqno { assert !Before(e, p); }
  }

  class MergeIterator {
    const keepTombstones: bool
    const snapshot: nat
    const allVersions: bool
    var rest: seq<seq<Entry>>
    var heap: set<nat>
    var valid: bool
    var current: Entry

    /** Every source is sorted, and the heap holds exactly the sources with an entry left. */
    ghost predicate Valid()
      reads this
    {
      AllSorted(rest) && heap == NonEmpty(rest)
    }

    constructor (sources: seq<seq<Entry>>, keepTombstones: bool, snapshot: nat, allVersions: bool)
      requires AllSorted(sources)
      ensures Valid() && rest == sources
      ensures this.keepTombstones == keepTombstones && this.snapshot == snapshot && this.allVersions == allVersions
    {
      this.keepTombstones := keepTombstones;
      this.snapshot := snapshot;
      this.allVersions := allVersions;
      this.rest := sources;
      this.heap := NonEmpty(sources);
      this.valid := false;
      this.current := Entry([], [], false, 0);
    }

    method Top() returns (t: nat)
      requires Valid() && heap != {}
      ensures t < |rest| && rest[t] != [] && IsTop(rest, heap, t)
    {
      TopExists(rest, heap);
      t :| t in heap && IsTop(rest, heap, t);
    }

    method TopKey() returns (top: Option<Bytes>)
      requires Valid()
      ensures LeastKey(Union(rest), top)
      ensures top.None? <==> heap == {}
    {
      if heap == {} {
        EmptyHeap(rest);
        return None;
      }
      var t := Top();
      assert rest[t][0] in rest[t];
      forall x | x in Union(rest) ensures !Less(x.key, rest[t][0].key) { TopIsLeast(rest, t, x); }
      top := Some(rest[t][0].key);
      assert rest[t][0] in Union(rest);
    }

    /** Take the next entry of the top source: pop it, advance it, push it back if it has more. */
    method Pop() returns (e: Entry)
      requires Valid() && heap != {}
      modifies this`rest, this`heap
      ensures Valid()
      ensures e in old(Union(rest)) && forall x :: x in old(Union(rest)) ==> !Before(x, e)
      ensures old(Union(rest)) == Union(rest) + {e}
      ensures old(Bag(rest)) == Bag(rest) + multiset{e}
    {
      hide Union, Bag, AllSorted;
      var t := Top();
      e := rest[t][0];
      forall x | x in Union(rest) ensures !Before(x, e) { TopIsLeast(rest, t, x); }
      BagAdvanced(rest, t);
      UnionAdvanced(rest, t);
      AdvancedSorted(rest, t);
      heap := heap - {t};
      rest := Advanced(rest, t);
      if rest[t] != [] {
        heap := heap + {t};
      }
    }

    /** All-versions mode: deliver the least remaining entry. */
    method AdvanceAll()
      requires Valid() && allVersions
      modifies this`rest, this`heap, this`valid, this`current
      ensures Valid()
      ensures !valid ==> old(Bag(rest)) == multiset{} && rest == old(rest)
      ensures valid ==> old(Bag(rest)) == Bag(rest) + multiset{current}
      ensures valid ==> current in old(Union(rest))
      ensures valid ==> forall x :: x in Union(rest) ==> !Before(x, current)
    {
      if heap == {} {
        EmptyHeap(rest);
        valid := false;
        return;
      }
      current := Pop();
      valid := true;
    }

    /** Consume every version of the least remaining key and find the newest visible one. */
    method NextKey(winner: Bytes) returns (found: bool, best: Entry)
      requires Valid() && LeastKey(Union(rest), Some(winner))
      modifies this`rest, this`heap
      ensures Valid()
      ensures Union(rest) == After(old(Union(rest)), winner)
      ensures |Bag(rest)| < |old(Bag(rest))|
      ensures Outcome(old(Union(rest)), winner, snapshot, found, best)
      ensures found ==> best.key == winner
    {
      hide Union, Bag, AllSorted, NonEmpty;
      ghost var start := Union(rest);
      ghost var popped: set<Entry> := {};
      found, best := false, Entry([], [], false, 0);
      var top := Some(winner);
      while top == Some(winner)
        invariant Valid() && LeastKey(Union(rest), top)
        invariant start == Union(rest) + popped
        invariant |Bag(rest)| <= |old(Bag(rest))| && (top != Some(winner) ==> |Bag(rest)| < |old(Bag(rest))|)
        invariant forall p :: p in popped ==> p.key == winner
        invariant forall p, x :: p in popped && x in Union(rest) ==> !Before(x, p)
        invariant Outcome(popped, winner, snapshot, found, best)
        decreases |Bag(rest)|
      {
        if heap == {} { EmptyHeap(rest); }
        ghost var was := Union(rest);
        var e := Pop();
        LeastHasKey(was, e, winner);
        OutcomeAdds(popped, winner, snapshot, found, best, e);
        if !found && e.seqno <= snapshot {
          found, best := true, e;
        }
        popped := popped + {e};
        top := TopKey();
      }
      PoppedBehind(start, popped, Union(rest), winner, top);
      LessIrreflexive(winner);
      OutcomeOfAll(start, start, popped, winner, snapshot, found, best);
    }

    /** Newest mode: deliver the first remaining key that yields an entry, past the silent ones. */
    method AdvanceNewest()
      requires Valid() && !allVersions
      modifies this`rest, this`heap, this`valid, this`current
      ensures Valid()
      ensures valid ==> Yields(old(Union(rest)), current, snapshot, keepTombstones)
      ensures valid ==> Union(rest) == After(old(Union(rest)), current.key)
      ensures valid ==> |Bag(rest)| < |old(Bag(rest))|
      ensures forall e :: e in old(Union(rest)) && (valid ==> Less(e.key, current.key)) ==>
        Silent(old(Union(rest)), e.key, snapshot, keepTombstones)
      ensures !valid ==> Union(rest) == {}
    {
      ghost var all := Union(rest);
      var top := TopKey();
      while top.Some?
        invariant Valid() && LeastKey(Union(rest), top) && |Bag(rest)| <= |old(Bag(rest))|
        invariant Behind(all, Union(rest))
        invariant forall e :: e in all - Union(rest) ==> Silent(all, e.key, snapshot, keepTombstones)
        decreases |Bag(rest)|
      {
        ghost var start := Union(rest);
        BehindSteps(all, start, top.value);
        var found, best := NextKey(top.value);
        OutcomeLifts(all, start, top.value, snapshot, found, best);
        if found && (keepTombstones || !best.tombstone) {
          current := best;
          valid := true;
          return;
        }
        top := TopKey();
      }
      valid := false;
    }
  }

  lemma OutcomeLifts(all: set<Entry>, start: set<Entry>, k: Bytes, snapshot: nat, found: bool, best: Entry)
    requires Behind(all, start) && LeastKey(start, Some(k)) && Outcome(start, k, snapshot, found, best)
    ensures Outcome(all, k, snapshot, found, best)
  {
    OutcomeOfAll(all, start, start, k, snapshot, found, best);
  }

  // ------------------------------------------------------------ whole merges

  /** Compaction's use: every version, sorted, nothing lost and nothing made up. */
  method MergeVersions(sources: seq<seq<Entry>>) returns (merged: seq<Entry>)
    requires AllSorted(sources)
    ensures Sorted(merged) && multiset(merged) == Bag(sources)
  {
    hide Union, Bag, AllSorted, NonEmpty;
    var it := new MergeIterator(sources, true, MAX_SEQ, true);
    merged := [];
    it.AdvanceAll();
    while it.valid
      invariant it.Valid() && it.allVersions && fresh(it)
      invariant it.valid ==> multiset(merged) + multiset{it.current} + Bag(it.rest) == Bag(sources)
      invariant it.valid ==> Sorted(merged + [it.current])
      invariant it.valid ==> forall x :: x in Union(it.rest) ==> !Before(x, it.current)
      invariant !it.valid ==> multiset(merged) == Bag(sources) && Sorted(merged)
      decreases it.valid, |Bag(it.rest)|
    {
      merged := merged + [it.current];
      it.AdvanceAll();
      if it.valid { AppendSorted(merged, it.current); }
    }
  }

  lemma AppendSorted(t: seq<Entry>, e: Entry)
    requires Sorted(t) && t != [] && !Before(e, t[|t| - 1])
    ensures Sorted(t + [e])
  {
    forall i | 0 <= i < |t| ensures !Before(e, t[i]) {
      if i < |t| - 1 { NotBeforeTransitive(t[i], t[|t| - 1], e); }
    }
  }
}
