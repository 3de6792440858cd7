// The memtable: a skiplist of heap nodes with forward pointers per level. It is
// tied to the plain sorted sequence that the rest of the engine reads.
module Skiplist {
  import opened Keys
  import opened Entries
  import Scanning

  const NODE_OVERHEAD: nat := 64

  class Node {
    const entry: Entry
    const height: nat
    var forward: seq<Node?>

    constructor (entry: Entry, height: nat)
      ensures this.entry == entry && this.height == height
      ensures forward == seq(height, i => null)
    {
      this.entry := entry;
      this.height := height;
      this.forward := seq(height, i => null);
    }
  }

  // The chain is the bottom list, the head node first.

  /** The first position at or after q of a node that reaches level l. */
  ghost function NextTall(chain: seq<Node>, l: nat, q: nat): (r: nat)
    ensures q <= |chain| ==> q <= r <= |chain|
    ensures r < |chain| ==> chain[r].height > l
    ensures forall i :: q <= i < r && i < |chain| ==> chain[i].height <= l
    decreases |chain| - q
  {
    if q >= |chain| then q else if chain[q].height > l then q else NextTall(chain, l, q + 1)
  }

  ghost function NodeAt(chain: seq<Node>, i: nat): Node? {
    if i < |chain| then chain[i] else null
  }

  /** The pointer of the node at p on level l leads to the next node that reaches l. */
  ghost predicate PointsRight(chain: seq<Node>, forward: seq<Node?>, p: nat, l: nat) {
    l < |forward| && forward[l] == NodeAt(chain, NextTall(chain, l, p + 1))
  }

  ghost predicate Linked(chain: seq<Node>)
    reads chain
  {
    forall p, l :: 0 <= p < |chain| && 0 <= l < chain[p].height ==> PointsRight(chain, chain[p].forward, p, l)
  }

  ghost function EntriesOf(chain: seq<Node>): (es: seq<Entry>)
    requires chain != []
    ensures |es| == |chain| - 1
    ensures forall i :: 0 <= i < |es| ==> es[i] == chain[i + 1].entry
  {
    seq(|chain| - 1, i requires 0 <= i < |chain| - 1 => chain[i + 1].entry)
  }

  /** P splits the chain at e: the nodes before P go before e, the ones from P on do not. */
  ghost predicate SplitAt(chain: seq<Node>, e: Entry, P: nat) {
    && 1 <= P <= |chain|
    && (forall i :: 1 <= i < P ==> Before(chain[i].entry, e))
    && (forall i :: P <= i < |chain| ==> !Before(chain[i].entry, e))
  }

  lemma SplitExists(chain: seq<Node>, e: Entry) returns (P: nat)
    requires chain != [] && Sorted(EntriesOf(chain))
    ensures 1 <= P <= |chain| && SplitAt(chain, e, P)
  {
    P := 1;
    while P < |chain| && Before(chain[P].entry, e)
      invariant 1 <= P <= |chain|
      invariant forall i :: 1 <= i < P ==> Before(chain[i].entry, e)
    {
      P := P + 1;
    }
    var es := EntriesOf(chain);
    forall i | P <= i < |chain| ensures !Before(chain[i].entry, e) {
      if i > P {
        assert !Before(es[i - 1], es[P - 1]);
        NotBeforeTransitive(e, chain[P].entry, chain[i].entry);
      }
    }
  }

  /** u is the last node before P that reaches level l. */
  ghost predicate Last(chain: seq<Node>, l: nat, P: nat, u: nat) {
    u < P <= |chain| && chain[u].height > l && NextTall(chain, l, u + 1) >= P
  }

  ghost predicate Distinct(chain: seq<Node>) {
    forall i, j :: 0 <= i < j < |chain| ==> chain[i] != chain[j]
  }

  ghost predicate ValidChain(chain: seq<Node>, head: Node, maxHeight: nat, currentHeight: nat)
    reads chain
  {
    && chain != [] && chain[0] == head && head.height == maxHeight
    && 1 <= currentHeight <= maxHeight
    && (forall i :: 1 <= i < |chain| ==> 1 <= chain[i].height <= currentHeight)
    && (forall i :: 0 <= i < |chain| ==> |chain[i].forward| == chain[i].height)
    && Distinct(chain)
    && Linked(chain)
    && Sorted(EntriesOf(chain))
  }

  class Memtable {
    const head: Node
    const maxHeight: nat
    var currentHeight: nat
    var approxBytes: nat
    ghost var chain: seq<Node>

    ghost predicate Valid()
      reads this, chain
    {
      && ValidChain(chain, head, maxHeight, currentHeight)
      && (approxBytes == 0 <==> |chain| == 1)
    }

    ghost function Contents(): seq<Entry>
      reads this, chain
      requires Valid()
    {
      EntriesOf(chain)
    }

    constructor (maxHeight: nat)
      requires maxHeight >= 1
      ensures Valid() && Contents() == [] && fresh(chain)
    {
      var h := new Node(Entry([], [], false, 0), maxHeight);
      head := h;
      this.maxHeight := maxHeight;
      currentHeight := 1;
      approxBytes := 0;
      chain := [h];
    }

    /** The descent shared by every operation: the last node before e on each level. */
    method Descend(e: Entry, ghost P: nat) returns (x: Node, update: seq<Node>, ghost us: seq<nat>)
      requires Valid() && 1 <= P <= |chain| && SplitAt(chain, e, P)
      ensures x == chain[P - 1]
      ensures |update| == |us| == maxHeight
      ensures forall l :: 0 <= l < maxHeight ==> Last(chain, l, P, us[l]) && update[l] == chain[us[l]]
    {
      hide NextTall, Linked, EntriesOf, Distinct, Sorted, Before, ValidChain, SplitAt;
      ChainParts(chain, head, maxHeight, currentHeight);
      x := head;
      ghost var p: nat := 0;
      update := seq(maxHeight, i => head);
      us := seq(maxHeight, i => 0);
      var i := currentHeight;
      TopLevels(P);
      while i > 0
        invariant 0 <= i <= currentHeight
        invariant p < P && x == chain[p] && x.height >= i
        invariant i == 0 ==> NextTall(chain, 0, p + 1) >= P
        invariant |update| == |us| == maxHeight
        invariant forall l :: i <= l < maxHeight ==> Last(chain, l, P, us[l]) && update[l] == chain[us[l]]
      {
        i := i - 1;
        FollowLink(chain, e, P, p, i);
        while x.forward[i] != null && Before(x.forward[i].entry, e)
          invariant p < P && x == chain[p] && x.height > i
          invariant x.forward[i] == NodeAt(chain, NextTall(chain, i, p + 1))
          invariant (x.forward[i] != null && Before(x.forward[i].entry, e)) <==> NextTall(chain, i, p + 1) < P
          decreases P - p
        {
          p := NextTall(chain, i, p + 1);
          x := x.forward[i];
          FollowLink(chain, e, P, p, i);
        }
        update := update[i := x];
        us := us[i := p];
      }
      BottomLevel(chain, p, P);
    }

    /** Above the current height only the head reaches a level. */
    lemma TopLevels(P: nat)
      requires Valid() && 1 <= P <= |chain|
      ensures forall l :: currentHeight <= l < maxHeight ==> Last(chain, l, P, 0)
    {
      forall l | currentHeight <= l < maxHeight ensures Last(chain, l, P, 0) {
        NextTallIs(chain, l, 1, |chain|);
      }
    }

    /** Insert at a randomly drawn height: splice the node into each of its levels. */
    method Add(e: Entry, lvl: nat)
      requires Valid() && 1 <= lvl <= maxHeight
      modifies this, chain
      ensures Valid()
      ensures Contents() == Insert(old(Contents()), e)
      ensures fresh(set n | n in chain && n !in old(chain))
      ensures approxBytes == old(approxBytes) + |e.key| + |e.value| + 64
    {
      hide NextTall, ValidChain, Spliced, Insert, SplitAt, EntriesOf, Last;
      ChainParts(chain, head, maxHeight, currentHeight);
      ghost var P := SplitExists(chain, e);
      var _, update, us := Descend(e, P);
      var node := LinkNode(e, lvl, P, update, us);
      SplicedEntries(chain, e, P, node);
      chain := Spliced(chain, P, node);
      currentHeight := if lvl > currentHeight then lvl else currentHeight;
      approxBytes := approxBytes + |e.key| + |e.value| + NODE_OVERHEAD;
    }

    /** Allocate the node and splice it in. */
    method LinkNode(e: Entry, lvl: nat, ghost P: nat, update: seq<Node>, ghost us: seq<nat>) returns (node: Node)
      requires Valid() && 1 <= lvl <= maxHeight && 1 <= P <= |chain| && SplitAt(chain, e, P)
      requires |update| == |us| == maxHeight
      requires forall l :: 0 <= l < maxHeight ==> Last(chain, l, P, us[l]) && update[l] == chain[us[l]]
      modifies chain`forward
      ensures fresh(node) && node.entry == e
      ensures ValidChain(Spliced(chain, P, node), head, maxHeight, if lvl > currentHeight then lvl else currentHeight)
      ensures forall x :: x in Spliced(chain, P, node) <==> x == node || x in chain
      ensures |Spliced(chain, P, node)| == |chain| + 1
    {
      hide NextTall, ValidChain, Spliced, SplicedFrom, SplitAt, EntriesOf;
      ChainParts(chain, head, maxHeight, currentHeight);
      node := new Node(e, lvl);
      ghost var was := chain;
      ghost var fw: seq<seq<Node?>> := seq(|was|, i requires 0 <= i < |was| reads was => was[i].forward);
      RecordLinks(chain, fw);
      Splice(chain, fw, update, us, node);
      SplicedValid(chain, fw, P, node, us, head, maxHeight, currentHeight,
                   if lvl > currentHeight then lvl else currentHeight);
    }

    method Put(key: Bytes, value: Bytes, seqno: nat, lvl: nat)
      requires Valid() && 1 <= lvl <= maxHeight
      modifies this, chain
      ensures Valid() && fresh(set n | n in chain && n !in old(chain))
      ensures Contents() == Insert(old(Contents()), Entry(key, value, false, seqno))
      ensures approxBytes == old(approxBytes) + |key| + |value| + 64
    {
      Add(Entry(key, value, false, seqno), lvl);
    }

    method Del(key: Bytes, seqno: nat, lvl: nat)
      requires Valid() && 1 <= lvl <= maxHeight
      modifies this, chain
      ensures Valid() && fresh(set n | n in chain && n !in old(chain))
      ensures Contents() == Insert(old(Contents()), Entry(key, [], true, seqno))
      ensures approxBytes == old(approxBytes) + |key| + 64
    {
      Add(Entry(key, [], true, seqno), lvl);
    }

    /** The multi-level search finds what a linear scan of the bottom list finds. */
    method FindVersion(key: Bytes, snapshot: nat) returns (status: Status)
      requires Valid()
      ensures status == StatusOf(Lookup(Contents(), key, snapshot))
    {
      hide NextTall, ValidChain, SplitAt, EntriesOf, Last, Lookup;
      var target := Entry(key, [], false, snapshot);
      ChainParts(chain, head, maxHeight, currentHeight);
      ghost var P := SplitExists(chain, target);
      var x, _, _ := Descend(target, P);
      NextOnBottom(chain, P);
      LookupAtSplit(chain, key, snapshot, P);
      var n := x.forward[0];
      if n == null || n.entry.key != key {
        return NotFound;
      }
      return if n.entry.tombstone then Deleted else Found(n.entry.value);
    }

    /** Where a scan starts: the first node whose key is not below key. */
    method RawLowerBound(key: Bytes) returns (n: Node?, ghost P: nat)
      requires Valid() && forall e :: e in Contents() ==> e.seqno <= MAX_SEQ
      ensures n == null <==> Scanning.SeekFrom(Contents(), key) == []
      ensures n != null ==> n.entry == Scanning.SeekFrom(Contents(), key)[0]
      ensures 1 <= P <= |chain| && n == NodeAt(chain, P)
      ensures Contents()[P - 1..] == Scanning.SeekFrom(Contents(), key)
    {
      hide NextTall, ValidChain, SplitAt, EntriesOf, Last, Scanning.SeekFrom;
      var target := Entry(key, [], false, MAX_SEQ);
      ChainParts(chain, head, maxHeight, currentHeight);
      P := SplitExists(chain, target);
      var x, _, _ := Descend(target, P);
      NextOnBottom(chain, P);
      SeekAtSplit(chain, key, P);
      n := x.forward[0];
    }

    /** Walking the bottom pointers from a node reads the rest of the contents. */
    method ReadFrom(start: Node?, ghost P: nat) returns (es: seq<Entry>)
      requires Valid() && 1 <= P <= |chain| && start == NodeAt(chain, P)
      ensures es == Contents()[P - 1..]
    {
      hide NextTall, ValidChain, Sorted;
      ChainParts(chain, head, maxHeight, currentHeight);
      es := [];
      var n := start;
      ghost var p := P;
      while n != null
        invariant P <= p <= |chain| && n == NodeAt(chain, p)
        invariant es == Contents()[P - 1..p - 1]
        decreases |chain| - p
      {
        es := es + [n.entry];
        NextOnBottom(chain, p + 1);
        n := n.forward[0];
        p := p + 1;
      }
    }

    /** The pointer surgery: on every level of the node, put it after update[i]. */
    method Splice(ghost was: seq<Node>, ghost fw: seq<seq<Node?>>, update: seq<Node>, ghost us: seq<nat>, node: Node)
      requires Distinct(was) && node !in was && |node.forward| == node.height <= |update| == |us|
      requires |fw| == |was| && forall p :: 0 <= p < |was| ==> was[p].forward == fw[p]
      requires forall l :: 0 <= l < |us| ==> us[l] < |was| && update[l] == was[us[l]] && l < |update[l].forward|
      modifies was`forward, node`forward
      ensures SplicedFrom(was, fw, us, node)
    {
      for i := 0 to node.height
        invariant |node.forward| == node.height
        invariant forall l :: 0 <= l < i ==> node.forward[l] == fw[us[l]][l]
        invariant forall p :: 0 <= p < |was| ==> |was[p].forward| == |fw[p]|
        invariant forall p, l :: 0 <= p < |was| && 0 <= l < |fw[p]| ==>
          was[p].forward[l] == (if l < i && p == us[l] then node else fw[p][l])
      {
        var u := update[i];
        ghost var before := seq(|was|, p requires 0 <= p < |was| reads was => was[p].forward);
        node.forward := node.forward[i := u.forward[i]];
        u.forward := u.forward[i := node];
        assert forall p :: 0 <= p < |was| ==> was[p].forward == if p == us[i] then before[p][i := node] else before[p];
      }
    }
  }

  /** The forward pointers after the surgery, in terms of the ones before it. */
  ghost predicate SplicedFrom(was: seq<Node>, fw: seq<seq<Node?>>, us: seq<nat>, node: Node)
    reads was, node
  {
    && |fw| == |was| && node.height <= |us|
    && (forall l :: 0 <= l < |us| ==> us[l] < |was| && l < |fw[us[l]]|)
    && |node.forward| == node.height
    && (forall l :: 0 <= l < node.height ==> node.forward[l] == fw[us[l]][l])
    && (forall p :: 0 <= p < |was| ==> |was[p].forward| == |fw[p]|)
    && (forall p, l :: 0 <= p < |was| && 0 <= l < |fw[p]| ==>
          was[p].forward[l] == (if l < node.height && p == us[l] then node else fw[p][l]))
  }

  ghost function Spliced(was: seq<Node>, P: nat, node: Node): seq<Node>
    requires P <= |was|
  {
    was[..P] + [node] + was[P..]
  }

  lemma NextTallIs(chain: seq<Node>, l: nat, q: nat, r: nat)
    requires q <= r <= |chain| && (r < |chain| ==> chain[r].height > l)
    requires forall i :: q <= i < r ==> chain[i].height <= l
    ensures NextTall(chain, l, q) == r
  {
  }

  lemma SplicedAt(was: seq<Node>, P: nat, node: Node)
    requires P <= |was|
    ensures var now := Spliced(was, P, node);
            && |now| == |was| + 1 && now[P] == node
            && (forall i :: 0 <= i < P ==> now[i] == was[i])
            && (forall i :: P < i < |now| ==> now[i] == was[i - 1])
  {
  }

  lemma SplicedDistinct(was: seq<Node>, P: nat, node: Node)
    requires P <= |was| && Distinct(was) && node !in was
    ensures Distinct(Spliced(was, P, node))
    ensures forall x :: x in Spliced(was, P, node) <==> x == node || x in was
  {
    hide Spliced;
    var now := Spliced(was, P, node);
    SplicedAt(was, P, node);
    forall x | x in was ensures x in now {
      var i :| 0 <= i < |was| && was[i] == x;
      assert i < P ==> now[i] == x;
      assert i >= P ==> now[i + 1] == x;
    }
    forall i, j | 0 <= i < j < |now| ensures now[i] != now[j] {
      var a, b := if i < P then i else i - 1, if j < P then j else j - 1;
      if i == P {
        assert now[j] == was[b];
      } else if j == P {
        assert now[i] == was[a];
      } else {
        assert now[i] == was[a] && now[j] == was[b] && a < b;
      }
    }
    forall x | x in now ensures x == node || x in was {
      var i :| 0 <= i < |now| && now[i] == x;
      assert i != P ==> x == was[if i < P then i else i - 1];
    }
    assert now[P] == node;
  }

  lemma RecordLinks(was: seq<Node>, fw: seq<seq<Node?>>)
    requires Linked(was) && |fw| == |was| && forall i :: 0 <= i < |was| ==> was[i].forward == fw[i]
    ensures WereLinked(was, fw)
  {
    hide PointsRight;
  }

  /** Following a pointer either stays before P or lands at or past it, as the comparison says. */
  lemma FollowLink(chain: seq<Node>, e: Entry, P: nat, p: nat, l: nat)
    requires Linked(chain) && SplitAt(chain, e, P) && p < P && p < |chain| && l < chain[p].height
    ensures P <= |chain|
    ensures l < |chain[p].forward|
    ensures chain[p].forward[l] == NodeAt(chain, NextTall(chain, l, p + 1))
    ensures (chain[p].forward[l] != null && Before(chain[p].forward[l].entry, e)) <==> NextTall(chain, l, p + 1) < P
  {
    hide NextTall, Before;
    assert PointsRight(chain, chain[p].forward, p, l);
  }

  lemma BottomLevel(chain: seq<Node>, p: nat, P: nat)
    requires p < P <= |chain| && NextTall(chain, 0, p + 1) >= P && forall i :: 1 <= i < |chain| ==> chain[i].height >= 1
    ensures p == P - 1
  {
    NextTallIs(chain, 0, p + 1, p + 1);
  }

  // Where the next tall node sits once the new node is in place.

  lemma NextTallKept(was: seq<Node>, P: nat, node: Node, l: nat, q: nat)
    requires P <= |was| && q <= P && NextTall(was, l, q) < P
    ensures NextTall(Spliced(was, P, node), l, q) == NextTall(was, l, q)
  {
    hide NextTall, Spliced;
    SplicedAt(was, P, node);
    NextTallIs(Spliced(was, P, node), l, q, NextTall(was, l, q));
  }

  lemma NextTallIsNode(was: seq<Node>, P: nat, node: Node, l: nat, q: nat)
    requires P <= |was| && q <= P && NextTall(was, l, q) >= P && node.height > l
    ensures NextTall(Spliced(was, P, node), l, q) == P
  {
    hide NextTall, Spliced;
    SplicedAt(was, P, node);
    NextTallIs(Spliced(was, P, node), l, q, P);
  }

  lemma NextTallPast(was: seq<Node>, P: nat, node: Node, l: nat, q: nat)
    requires P <= |was| && q <= P && NextTall(was, l, q) >= P && node.height <= l
    ensures NextTall(Spliced(was, P, node), l, q) == NextTall(was, l, q) + 1
  {
    hide NextTall, Spliced;
    SplicedAt(was, P, node);
    NextTallIs(Spliced(was, P, node), l, q, NextTall(was, l, q) + 1);
  }

  lemma NextTallShifted(was: seq<Node>, P: nat, node: Node, l: nat, q: nat)
    requires P <= q <= |was|
    ensures NextTall(Spliced(was, P, node), l, q + 1) == NextTall(was, l, q) + 1
  {
    hide NextTall, Spliced;
    SplicedAt(was, P, node);
    NextTallIs(Spliced(was, P, node), l, q + 1, NextTall(was, l, q) + 1);
  }

  ghost predicate WereLinked(was: seq<Node>, fw: seq<seq<Node?>>) {
    && |fw| == |was|
    && forall p, l :: 0 <= p < |was| && 0 <= l < was[p].height ==> PointsRight(was, fw[p], p, l)
  }

  lemma LastIsUnique(chain: seq<Node>, l: nat, P: nat, u: nat, p: nat)
    requires Last(chain, l, P, u) && Last(chain, l, P, p)
    ensures u == p
  {
    hide NextTall;
  }

  lemma SkipToP(chain: seq<Node>, l: nat, P: nat, u: nat)
    requires Last(chain, l, P, u)
    ensures NextTall(chain, l, u + 1) == NextTall(chain, l, P)
  {
    NextTallIs(chain, l, P, NextTall(chain, l, u + 1));
  }

  /** Every level is linked again, with the new node on its own levels. */
  lemma SplicedLinks(was: seq<Node>, fw: seq<seq<Node?>>, P: nat, node: Node, us: seq<nat>)
    requires 1 <= P <= |was| && SplicedFrom(was, fw, us, node) && WereLinked(was, fw)
    requires forall p :: 0 <= p < |was| ==> |fw[p]| == was[p].height
    requires forall l :: 0 <= l < |us| ==> Last(was, l, P, us[l])
    requires forall p :: 0 <= p < |was| ==> was[p].height <= |us|
    ensures Linked(Spliced(was, P, node))
  {
    hide NextTall, Spliced, NodeAt, SplicedFrom, WereLinked, Last;
    var now := Spliced(was, P, node);
    SplicedAt(was, P, node);
    SplicedLengths(was, fw, us, node);
    forall p, l | 0 <= p < |now| && 0 <= l < now[p].height ensures PointsRight(now, now[p].forward, p, l) {
      if p == P {
        LinkOfNode(was, fw, P, node, us, l);
      } else if p < P {
        LinkBefore(was, fw, P, node, us, p, l);
      } else {
        LinkAfter(was, fw, P, node, us, p - 1, l);
      }
    }
  }

  lemma SplicedLengths(was: seq<Node>, fw: seq<seq<Node?>>, us: seq<nat>, node: Node)
    requires SplicedFrom(was, fw, us, node)
    ensures |node.forward| == node.height <= |us| && |fw| == |was|
    ensures forall p :: 0 <= p < |was| ==> |was[p].forward| == |fw[p]|
  {
  }

  lemma LinkOfNode(was: seq<Node>, fw: seq<seq<Node?>>, P: nat, node: Node, us: seq<nat>, l: nat)
    requires 1 <= P <= |was| && SplicedFrom(was, fw, us, node) && WereLinked(was, fw) && l < node.height
    requires Last(was, l, P, us[l])
    ensures node.forward[l] == NodeAt(Spliced(was, P, node), NextTall(Spliced(was, P, node), l, P + 1))
  {
    hide NextTall, Spliced;
    assert PointsRight(was, fw[us[l]], us[l], l);
    SplicedAt(was, P, node);
    SkipToP(was, l, P, us[l]);
    NextTallShifted(was, P, node, l, P);
  }

  lemma LinkBefore(was: seq<Node>, fw: seq<seq<Node?>>, P: nat, node: Node, us: seq<nat>, p: nat, l: nat)
    requires 1 <= P <= |was| && SplicedFrom(was, fw, us, node) && WereLinked(was, fw)
    requires p < P && l < was[p].height == |fw[p]| && l < |us| && Last(was, l, P, us[l])
    ensures was[p].forward[l] == NodeAt(Spliced(was, P, node), NextTall(Spliced(was, P, node), l, p + 1))
  {
    hide NextTall, Spliced;
    assert PointsRight(was, fw[p], p, l);
    SplicedAt(was, P, node);
    if NextTall(was, l, p + 1) < P {
      NextTallKept(was, P, node, l, p + 1);
    } else {
      LastIsUnique(was, l, P, us[l], p);
      if node.height > l {
        NextTallIsNode(was, P, node, l, p + 1);
      } else {
        NextTallPast(was, P, node, l, p + 1);
      }
    }
  }

  lemma LinkAfter(was: seq<Node>, fw: seq<seq<Node?>>, P: nat, node: Node, us: seq<nat>, p: nat, l: nat)
    requires 1 <= P <= |was| && SplicedFrom(was, fw, us, node) && WereLinked(was, fw)
    requires P <= p < |was| && l < was[p].height == |fw[p]| && l < |us| && Last(was, l, P, us[l])
    ensures was[p].forward[l] == NodeAt(Spliced(was, P, node), NextTall(Spliced(was, P, node), l, p + 2))
  {
    hide NextTall, Spliced;
    assert PointsRight(was, fw[p], p, l);
    SplicedAt(was, P, node);
    NextTallShifted(was, P, node, l, p + 1);
  }

  lemma ChainParts(chain: seq<Node>, head: Node, maxHeight: nat, currentHeight: nat)
    requires ValidChain(chain, head, maxHeight, currentHeight)
    ensures chain != [] && Linked(chain) && Distinct(chain) && Sorted(EntriesOf(chain))
    ensures chain[0] == head && head.height == maxHeight && 1 <= currentHeight <= maxHeight
    ensures forall i :: 1 <= i < |chain| ==> 1 <= chain[i].height <= currentHeight
    ensures forall i :: 0 <= i < |chain| ==> |chain[i].forward| == chain[i].height <= maxHeight
  {
    hide Linked, Distinct, Sorted;
  }

  /** The chain is valid again after the surgery. */
  lemma SplicedValid(was: seq<Node>, fw: seq<seq<Node?>>, P: nat, node: Node, us: seq<nat>, head: Node,
                     maxHeight: nat, h: nat, h': nat)
    requires 1 <= P <= |was| && SplicedFrom(was, fw, us, node) && WereLinked(was, fw) && Distinct(was) && node !in was
    requires was[0] == head && head.height == maxHeight == |us| && 1 <= h <= h' <= maxHeight && 1 <= node.height <= h'
    requires forall i :: 1 <= i < |was| ==> 1 <= was[i].height <= h
    requires forall p :: 0 <= p < |was| ==> |fw[p]| == was[p].height
    requires forall l :: 0 <= l < |us| ==> Last(was, l, P, us[l])
    requires SplitAt(was, node.entry, P) && Sorted(EntriesOf(was))
    ensures ValidChain(Spliced(was, P, node), head, maxHeight, h')
    ensures forall x :: x in Spliced(was, P, node) <==> x == node || x in was
    ensures |Spliced(was, P, node)| == |was| + 1
  {
    hide NextTall, Linked, EntriesOf, Distinct, Sorted, Spliced, SplicedFrom, WereLinked, SplitAt, Last;
    SplicedLengths(was, fw, us, node);
    SplicedLinks(was, fw, P, node, us);
    SplicedEntries(was, node.entry, P, node);
    SplicedAt(was, P, node);
    SplicedDistinct(was, P, node);
  }

  /** On the bottom list the splice is the sorted insertion. */
  lemma SplicedEntries(was: seq<Node>, e: Entry, P: nat, node: Node)
    requires was != [] && SplitAt(was, e, P) && node.entry == e && Sorted(EntriesOf(was))
    ensures EntriesOf(Spliced(was, P, node)) == Insert(EntriesOf(was), e)
    ensures Sorted(EntriesOf(Spliced(was, P, node)))
  {
    hide Before, Insert;
    var es := EntriesOf(was);
    SplitEntries(was, e, P);
    InsertPosition(es, e, P - 1);
    SplicedIsInsert(was, P, node);
    hide Sorted, SplitAt, Spliced;
    InsertSorted(es, e);
  }

  lemma SplitEntries(was: seq<Node>, e: Entry, P: nat)
    requires was != [] && SplitAt(was, e, P)
    ensures 1 <= P <= |was|
    ensures forall j :: 0 <= j < P - 1 ==> Before(EntriesOf(was)[j], e)
    ensures forall j :: P - 1 <= j < |was| - 1 ==> !Before(EntriesOf(was)[j], e)
  {
    hide Before;
  }

  lemma SplicedIsInsert(was: seq<Node>, P: nat, node: Node)
    requires 1 <= P <= |was|
    ensures EntriesOf(Spliced(was, P, node)) == EntriesOf(was)[..P - 1] + [node.entry] + EntriesOf(was)[P - 1..]
  {
  }

  lemma {:induction false} InsertPosition(t: seq<Entry>, e: Entry, i: nat)
    requires i <= |t| && (forall j :: 0 <= j < i ==> Before(t[j], e)) && (forall j :: i <= j < |t| ==> !Before(t[j], e))
    ensures Insert(t, e) == t[..i] + [e] + t[i..]
  {
    if i > 0 {
      InsertPosition(t[1..], e, i - 1);
      assert t[1..][..i - 1] == t[1..i] && t[1..][i - 1..] == t[i..];
      assert [t[0]] + t[1..i] == t[..i];
    }
  }

  // ------------------------------------------------------------------ searches

  /** On the bottom level every pointer leads to the very next node. */
  lemma NextOnBottom(chain: seq<Node>, P: nat)
    requires 1 <= P <= |chain| && Linked(chain) && chain[0].height >= 1
    requires forall i :: 1 <= i < |chain| ==> chain[i].height >= 1
    ensures |chain[P - 1].forward| > 0 && chain[P - 1].forward[0] == NodeAt(chain, P)
  {
    assert PointsRight(chain, chain[P - 1].forward, P - 1, 0);
    NextTallIs(chain, 0, P, P);
  }

  lemma {:induction false} LookupSkips(t: seq<Entry>, k: Bytes, s: nat, i: nat)
    requires i <= |t| && forall j :: 0 <= j < i ==> !Visible(t[j], k, s)
    ensures Lookup(t, k, s) == Lookup(t[i..], k, s)
  {
    if i > 0 {
      LookupSkips(t[1..], k, s, i - 1);
      assert t[1..][i - 1..] == t[i..];
    } else {
      assert t[0..] == t;
    }
  }

  lemma LookupAtSplit(chain: seq<Node>, k: Bytes, s: nat, P: nat)
    requires chain != [] && Sorted(EntriesOf(chain)) && SplitAt(chain, Entry(k, [], false, s), P)
    ensures Lookup(EntriesOf(chain), k, s) ==
            if P < |chain| && chain[P].entry.key == k then Some(chain[P].entry) else None
  {
    hide Less, Lookup, Before, Sorted;
    var es := EntriesOf(chain);
    var target := Entry(k, [], false, s);
    SplitEntries(chain, target, P);
    forall j | 0 <= j < P - 1 ensures !Visible(es[j], k, s) { BeforeIsHidden(es[j], k, s); }
    LookupSkips(es, k, s, P - 1);
    TailSorted(es, P - 1);
    var rest := es[P - 1..];
    if P < |chain| {
      assert rest[0] == chain[P].entry;
      FirstAnswers(rest, k, s);
    } else {
      LookupNothing(rest, k, s);
    }
  }

  lemma BeforeIsHidden(e: Entry, k: Bytes, s: nat)
    requires Before(e, Entry(k, [], false, s))
    ensures !Visible(e, k, s)
  {
    hide Less;
    LessIrreflexive(k);
  }

  /** The first entry not before the target is visible, or nothing is. */
  lemma FirstAnswers(rest: seq<Entry>, k: Bytes, s: nat)
    requires rest != [] && Sorted(rest) && !Before(rest[0], Entry(k, [], false, s))
    ensures Lookup(rest, k, s) == if rest[0].key == k then Some(rest[0]) else None
  {
    hide Less, Lookup;
    if rest[0].key == k {
      LookupFirst(rest, k, s);
    } else {
      LessTotal(rest[0].key, k);
      forall j | 0 <= j < |rest| ensures rest[j].key != k {
        if j > 0 {
          assert !Before(rest[j], rest[0]);
          LessThenNotGreater(k, rest[0].key, rest[j].key);
          LessIrreflexive(k);
        }
      }
      LookupNothing(rest, k, s);
    }
  }

  lemma LookupFirst(rest: seq<Entry>, k: Bytes, s: nat)
    requires rest != [] && Visible(rest[0], k, s)
    ensures Lookup(rest, k, s) == Some(rest[0])
  {
  }

  lemma {:induction false} SeekSkips(t: seq<Entry>, k: Bytes, i: nat)
    requires i <= |t| && (forall j :: 0 <= j < i ==> Less(t[j].key, k)) && (i < |t| ==> !Less(t[i].key, k))
    ensures Scanning.SeekFrom(t, k) == t[i..]
  {
    if i > 0 {
      SeekSkips(t[1..], k, i - 1);
      assert t[1..][i - 1..] == t[i..];
    }
  }

  lemma SeekAtSplit(chain: seq<Node>, k: Bytes, P: nat)
    requires chain != [] && SplitAt(chain, Entry(k, [], false, MAX_SEQ), P)
    requires forall e :: e in EntriesOf(chain) ==> e.seqno <= MAX_SEQ
    ensures Scanning.SeekFrom(EntriesOf(chain), k) == EntriesOf(chain)[P - 1..]
  {
    var es := EntriesOf(chain);
    forall j | 0 <= j < P - 1 ensures Less(es[j].key, k) {
      assert es[j] in es && Before(chain[j + 1].entry, Entry(k, [], false, MAX_SEQ));
    }
    SeekSkips(es, k, P - 1);
  }

  // -------------------------------------------------------------------- levels

  /** The nodes that reach level l, in list order. */
  ghost function Level(chain: seq<Node>, l: nat): seq<Node> {
    if chain == [] then [] else (if chain[0].height > l then [chain[0]] else []) + Level(chain[1..], l)
  }

  /** sub can be read off sup from left to right. */
  ghost predicate Subsequence(sub: seq<Node>, sup: seq<Node>) {
    sub == [] || (sup != [] && ((sub[0] == sup[0] && Subsequence(sub[1..], sup[1..])) || Subsequence(sub, sup[1..])))
  }

  /** Each level is a subsequence of the one below, down to the bottom list itself. */
  lemma {:induction false} LevelsNest(chain: seq<Node>, l: nat)
    ensures Subsequence(Level(chain, l + 1), Level(chain, l))
    ensures (forall n :: n in chain ==> n.height > 0) ==> Level(chain, 0) == chain
  {
    if chain != [] {
      assert forall n :: n in chain <==> n == chain[0] || n in chain[1..];
      LevelsNest(chain[1..], l);
      var up, down := Level(chain[1..], l + 1), Level(chain[1..], l);
      assert ([chain[0]] + up)[1..] == up && ([chain[0]] + down)[1..] == down;
      assert [] + up == up && [] + down == down;
    }
  }

  /** The level's pointers visit exactly its nodes: from p the walk on level l is the rest of the level. */
  ghost function Walk(chain: seq<Node>, n: Node?, l: nat, fuel: nat): seq<Node>
    reads chain
    requires forall x :: x in chain ==> |x.forward| == x.height
  {
    if fuel == 0 || n == null || n !in chain || n.height <= l then [] else [n] + Walk(chain, n.forward[l], l, fuel - 1)
  }

  lemma {:induction false} LevelFrom(chain: seq<Node>, l: nat, q: nat)
    requires q <= |chain|
    ensures var r := NextTall(chain, l, q);
            Level(chain[q..], l) == if r < |chain| then [chain[r]] + Level(chain[r + 1..], l) else []
    decreases |chain| - q
  {
    hide Level;
    LevelStep(chain[q..], l);
    if q < |chain| {
      assert chain[q..][1..] == chain[q + 1..];
      if chain[q].height <= l { LevelFrom(chain, l, q + 1); }
    }
  }

  lemma LevelStep(chain: seq<Node>, l: nat)
    ensures chain == [] ==> Level(chain, l) == []
    ensures chain != [] ==> Level(chain, l) == (if chain[0].height > l then [chain[0]] else []) + Level(chain[1..], l)
  {
  }

  /** Following the forward pointers of level l enumerates the nodes of level l. */
  lemma {:induction false} WalkIsLevel(chain: seq<Node>, l: nat, q: nat, fuel: nat)
    requires Linked(chain) && (forall x :: x in chain ==> |x.forward| == x.height)
    requires q <= |chain| && fuel >= |chain| - q
    ensures Walk(chain, NodeAt(chain, NextTall(chain, l, q)), l, fuel) == Level(chain[q..], l)
    decreases |chain| - q
  {
    hide NextTall, Level, Walk;
    LevelFrom(chain, l, q);
    var r := NextTall(chain, l, q);
    WalkStep(chain, NodeAt(chain, r), l, fuel);
    if r < |chain| {
      PointerLeads(chain, r, l);
      WalkIsLevel(chain, l, r + 1, fuel - 1);
    }
  }

  lemma WalkStep(chain: seq<Node>, n: Node?, l: nat, fuel: nat)
    requires forall x :: x in chain ==> |x.forward| == x.height
    ensures n == null ==> Walk(chain, n, l, fuel) == []
    ensures n != null && n in chain && n.height > l && fuel > 0 ==>
              Walk(chain, n, l, fuel) == [n] + Walk(chain, n.forward[l], l, fuel - 1)
  {
  }

  lemma PointerLeads(chain: seq<Node>, p: nat, l: nat)
    requires Linked(chain) && p < |chain| && l < chain[p].height == |chain[p].forward|
    ensures chain[p].forward[l] == NodeAt(chain, NextTall(chain, l, p + 1))
  {
    hide NextTall;
    assert PointsRight(chain, chain[p].forward, p, l);
  }
}
