// The sparse index of a table: how entries are cut into blocks, which block a look-up or
// a seek goes to, and exactly when that finds what a linear scan finds.
module TableIndex {
  import opened Keys
  import opened Entries
  import opened Gc
  import opened Scanning

  const BLOCK_TARGET: nat := 4096

  function BlockSize(es: seq<Entry>): nat {
    if es == [] then 0 else BlockSize(es[..|es| - 1]) + EntryBytes(es[|es| - 1])
  }

  /** A block is closed when it is full and the next key is not the one it started with. */
  predicate Closes(cur: seq<Entry>, e: Entry) {
    cur != [] && BlockSize(cur) >= BLOCK_TARGET && e.key != cur[0].key
  }

  function BlocksFrom(es: seq<Entry>, cur: seq<Entry>): (blocks: seq<seq<Entry>>)
    ensures NoneEmpty(blocks)
    decreases |es|
  {
    if es == [] then if cur == [] then [] else [cur]
    else if Closes(cur, es[0]) then [cur] + BlocksFrom(es[1..], [es[0]])
    else BlocksFrom(es[1..], cur + [es[0]])
  }

  function BlocksOf(es: seq<Entry>): (blocks: seq<seq<Entry>>)
    ensures NoneEmpty(blocks)
  {
    BlocksFrom(es, [])
  }

  ghost predicate NoneEmpty(blocks: seq<seq<Entry>>) {
    forall i :: 0 <= i < |blocks| ==> blocks[i] != []
  }

  lemma {:induction false} BlocksHold(es: seq<Entry>, cur: seq<Entry>)
    ensures Concat(BlocksFrom(es, cur)) == cur + es
    decreases |es|
  {
    hide Closes;
    if es == [] {
      if cur != [] { assert Concat([cur]) == cur + Concat([]); }
    } else if Closes(cur, es[0]) {
      BlocksHold(es[1..], [es[0]]);
      assert BlocksFrom(es, cur)[1..] == BlocksFrom(es[1..], [es[0]]);
      assert [es[0]] + es[1..] == es;
    } else {
      BlocksHold(es[1..], cur + [es[0]]);
      assert cur + [es[0]] + es[1..] == cur + es;
    }
  }

  /** A block is cut nowhere earlier: wherever it was full, the next key was the one it started with. */
  ghost predicate NotEarlier(block: seq<Entry>) {
    forall n :: 0 < n < |block| && BlockSize(block[..n]) >= 4096 ==> block[n].key == block[0].key
  }

  /** A block that is followed by another is full, and the other starts with a different key. */
  ghost predicate FullBefore(block: seq<Entry>, next: seq<Entry>)
    requires block != [] && next != []
  {
    BlockSize(block) >= 4096 && next[0].key != block[0].key
  }

  lemma NotEarlierGrows(cur: seq<Entry>, e: Entry)
    requires NotEarlier(cur) && !Closes(cur, e)
    ensures NotEarlier(cur + [e])
  {
    hide BlockSize;
    var b := cur + [e];
    forall n | 0 < n < |b| && BlockSize(b[..n]) >= 4096 ensures b[n].key == b[0].key {
      if n < |cur| { assert b[..n] == cur[..n] && b[n] == cur[n]; } else { assert b[..n] == cur; }
    }
  }

  lemma {:induction false} CutFrom(es: seq<Entry>, cur: seq<Entry>)
    requires NotEarlier(cur)
    ensures var blocks := BlocksFrom(es, cur);
            && (forall i :: 0 <= i < |blocks| ==> NotEarlier(blocks[i]))
            && (forall i :: 0 <= i < |blocks| - 1 ==> FullBefore(blocks[i], blocks[i + 1]))
            && (cur != [] ==> blocks != [] && blocks[0][0] == cur[0])
    decreases |es|
  {
    hide BlockSize;
    if es != [] {
      if Closes(cur, es[0]) {
        CutFrom(es[1..], [es[0]]);
      } else {
        NotEarlierGrows(cur, es[0]);
        CutFrom(es[1..], cur + [es[0]]);
      }
    }
  }

  /**
   * The blocks of a table: every one but the last holds at least 4096 bytes and is followed by a
   * key other than its first, and none could have been cut earlier.
   */
  lemma BlocksAreCut(es: seq<Entry>)
    ensures var blocks := BlocksOf(es);
            && (forall i :: 0 <= i < |blocks| ==> NotEarlier(blocks[i]))
            && (forall i :: 0 <= i < |blocks| - 1 ==> FullBefore(blocks[i], blocks[i + 1]))
  {
    var none: seq<Entry> := [];
    NothingEarlier();
    CutFrom(es, none);
    assert BlocksOf(es) == BlocksFrom(es, none);
  }

  lemma NothingEarlier()
    ensures NotEarlier([])
  {
  }

  /** What the writer has closed so far, and the block it is filling. */
  lemma {:induction false} BlocksSnoc(es: seq<Entry>, cur: seq<Entry>, e: Entry)
    ensures BlocksFrom(es + [e], cur) ==
              var all := BlocksFrom(es, cur);
              if all == [] then [[e]]
              else if Closes(all[|all| - 1], e) then all + [[e]]
              else all[..|all| - 1] + [all[|all| - 1] + [e]]
    decreases |es|
  {
    hide Closes;
    if es == [] {
      assert es + [e] == [e];
      assert BlocksFrom([e][1..], [e]) == [[e]] && BlocksFrom([e][1..], cur + [e]) == [cur + [e]];
      if cur == [] { NotClosedEmpty(e); }
    } else {
      assert (es + [e])[0] == es[0] && (es + [e])[1..] == es[1..] + [e];
      if Closes(cur, es[0]) {
        BlocksSnoc(es[1..], [es[0]], e);
        BlocksSome(es[1..], [es[0]]);
      } else {
        BlocksSnoc(es[1..], cur + [es[0]], e);
      }
    }
  }

  lemma NotClosedEmpty(e: Entry)
    ensures !Closes([], e)
  {
  }

  lemma {:induction false} BlocksSome(es: seq<Entry>, cur: seq<Entry>)
    requires cur != []
    ensures BlocksFrom(es, cur) != []
    decreases |es|
  {
    hide Closes;
    if es != [] && !Closes(cur, es[0]) { BlocksSome(es[1..], cur + [es[0]]); }
  }

  // ------------------------------------------------------------ the index

  /** The last block whose first key is not above k; -1 if even the first block starts above it. */
  function BlockFor(blocks: seq<seq<Entry>>, k: Bytes): (r: int)
    requires NoneEmpty(blocks)
    ensures -1 <= r < |blocks|
    ensures r >= 0 ==> !Less(k, blocks[r][0].key)
    ensures r + 1 < |blocks| ==> Less(k, blocks[r + 1][0].key)
  {
    if blocks == [] || Less(k, blocks[0][0].key) then -1
    else 1 + BlockFor(blocks[1..], k)
  }

  function IndexedLookup(blocks: seq<seq<Entry>>, k: Bytes, s: nat): Option<Entry>
    requires NoneEmpty(blocks)
  {
    var r := BlockFor(blocks, k);
    if r < 0 then None else Lookup(blocks[r], k, s)
  }

  function IndexedSeek(blocks: seq<seq<Entry>>, k: Bytes): seq<Entry>
    requires NoneEmpty(blocks)
  {
    var r := BlockFor(blocks, k);
    SeekFrom(Concat(if r < 0 then blocks else blocks[r..]), k)
  }

  ghost predicate HasKey(t: seq<Entry>, k: Bytes) {
    exists e :: e in t && e.key == k
  }

  /** Versions of k lie in two blocks. */
  ghost predicate Straddles(blocks: seq<seq<Entry>>, k: Bytes) {
    exists i, j :: 0 <= i < j < |blocks| && HasKey(blocks[i], k) && HasKey(blocks[j], k)
  }

  lemma KeysInOrder(blocks: seq<seq<Entry>>, i: nat, j: nat, x: Entry, y: Entry)
    requires Sorted(Concat(blocks)) && i < j < |blocks| && x in blocks[i] && y in blocks[j]
    ensures !Less(y.key, x.key)
  {
    hide Concat, Less, Sorted;
    PartsInOrder(blocks, i, j, x, y);
  }

  lemma FirstIsLeast(blocks: seq<seq<Entry>>, j: nat, e: Entry)
    requires NoneEmpty(blocks) && Sorted(Concat(blocks)) && j < |blocks| && e in blocks[j]
    ensures !Less(e.key, blocks[j][0].key)
  {
    hide Concat, Less;
    PartSorted(blocks, j);
    var i :| 0 <= i < |blocks[j]| && blocks[j][i] == e;
    LessIrreflexive(e.key);
    assert i > 0 ==> !Before(blocks[j][i], blocks[j][0]);
  }

  /** Everything from a later block on is at least that block's first key. */
  lemma FirstsInOrder(blocks: seq<seq<Entry>>, i: nat, j: nat, e: Entry)
    requires NoneEmpty(blocks) && Sorted(Concat(blocks)) && i <= j < |blocks| && e in blocks[j]
    ensures !Less(e.key, blocks[i][0].key)
  {
    hide Concat, Less, Sorted;
    if i < j { KeysInOrder(blocks, i, j, blocks[i][0], e); } else { FirstIsLeast(blocks, j, e); }
  }

  /** The binary search needs only the two ends it compares. */
  lemma BlockForUnique(blocks: seq<seq<Entry>>, k: Bytes, r: int)
    requires NoneEmpty(blocks) && Sorted(Concat(blocks))
    requires -1 <= r < |blocks|
    requires r >= 0 ==> !Less(k, blocks[r][0].key)
    requires r + 1 < |blocks| ==> Less(k, blocks[r + 1][0].key)
    ensures r == BlockFor(blocks, k)
  {
    hide BlockFor, Concat, Less, Sorted;
    var q := BlockFor(blocks, k);
    if q < r { NotBelow(blocks, k, q + 1, r); }
    if r < q { NotBelow(blocks, k, r + 1, q); }
  }

  lemma NotBelow(blocks: seq<seq<Entry>>, k: Bytes, i: nat, j: nat)
    requires NoneEmpty(blocks) && Sorted(Concat(blocks)) && i <= j < |blocks| && Less(k, blocks[i][0].key)
    ensures Less(k, blocks[j][0].key)
  {
    hide Concat, Less, Sorted;
    FirstsInOrder(blocks, i, j, blocks[j][0]);
    LessThenNotGreater(k, blocks[i][0].key, blocks[j][0].key);
  }

  // ------------------------------------------- entries outside the block

  lemma FrontBelow(blocks: seq<seq<Entry>>, k: Bytes, j: nat, e: Entry)
    requires NoneEmpty(blocks) && Sorted(Concat(blocks)) && !Straddles(blocks, k)
    requires j < BlockFor(blocks, k) && e in blocks[j]
    ensures Less(e.key, k)
  {
    hide BlockFor, Concat, Less, Sorted;
    var r := BlockFor(blocks, k);
    var f := blocks[r][0];
    KeysInOrder(blocks, j, r, e, f);
    assert !(HasKey(blocks[j], k) && HasKey(blocks[r], k));
    assert e.key == k ==> HasKey(blocks[j], k);
    assert f.key == k ==> HasKey(blocks[r], k);
    Between(e.key, f.key, k);
  }

  lemma Between(a: Bytes, b: Bytes, k: Bytes)
    requires !Less(b, a) && !Less(k, b) && !(a == k && b == k)
    ensures Less(a, k)
  {
    hide Less;
    LessTotal(a, b);
    LessTotal(b, k);
    if Less(a, b) { LessThenNotGreater(a, b, k); }
  }

  lemma BackAbove(blocks: seq<seq<Entry>>, k: Bytes, j: nat, e: Entry)
    requires NoneEmpty(blocks) && Sorted(Concat(blocks))
    requires BlockFor(blocks, k) < j < |blocks| && e in blocks[j]
    ensures Less(k, e.key)
  {
    hide BlockFor, Concat, Less, Sorted;
    var r := BlockFor(blocks, k);
    FirstsInOrder(blocks, r + 1, j, e);
    LessThenNotGreater(k, blocks[r + 1][0].key, e.key);
  }

  lemma {:induction false} SeekConcat(a: seq<Entry>, b: seq<Entry>, k: Bytes)
    requires forall e :: e in a ==> Less(e.key, k)
    ensures SeekFrom(a + b, k) == SeekFrom(b, k)
    decreases |a|
  {
    if a == [] {
      assert a + b == b;
    } else {
      assert a[0] in a && (a + b)[1..] == a[1..] + b;
      SeekConcat(a[1..], b, k);
    }
  }

  lemma FrontAllBelow(blocks: seq<seq<Entry>>, k: Bytes)
    requires NoneEmpty(blocks) && Sorted(Concat(blocks)) && !Straddles(blocks, k) && BlockFor(blocks, k) >= 0
    ensures forall e :: e in Concat(blocks[..BlockFor(blocks, k)]) ==> Less(e.key, k)
  {
    hide Less, Sorted, Before, BlockFor, Concat, Straddles;
    var r := BlockFor(blocks, k);
    forall e | e in Concat(blocks[..r])
      ensures Less(e.key, k)
    {
      ConcatMembers(blocks[..r], e);
      var j: nat :| j < r && e in blocks[..r][j];
      FrontBelow(blocks, k, j, e);
    }
  }

  lemma BackAllAbove(blocks: seq<seq<Entry>>, k: Bytes, n: nat)
    requires NoneEmpty(blocks) && Sorted(Concat(blocks)) && n == BlockFor(blocks, k) + 1
    ensures forall e :: e in Concat(blocks[n..]) ==> Less(k, e.key)
  {
    hide Less, Sorted, Before, BlockFor, Concat, NoneEmpty;
    var back := blocks[n..];
    forall e | e in Concat(back)
      ensures Less(k, e.key)
    {
      ConcatMembers(back, e);
      var j: nat :| j < |back| && e in back[j];
      BackAbove(blocks, k, n + j, e);
    }
  }

  lemma BackMiss(blocks: seq<seq<Entry>>, k: Bytes, n: nat, s: nat)
    requires NoneEmpty(blocks) && Sorted(Concat(blocks)) && n == BlockFor(blocks, k) + 1
    ensures Lookup(Concat(blocks[n..]), k, s) == None
  {
    hide Less, Sorted, Before, BlockFor, Concat, NoneEmpty, Lookup;
    BackAllAbove(blocks, k, n);
    LessIrreflexive(k);
    LookupMiss(Concat(blocks[n..]), k, s);
  }

  lemma FrontMiss(blocks: seq<seq<Entry>>, k: Bytes, n: nat, s: nat)
    requires NoneEmpty(blocks) && Sorted(Concat(blocks)) && !Straddles(blocks, k) && n == BlockFor(blocks, k)
    ensures Lookup(Concat(blocks[..n]), k, s) == None
  {
    hide Less, Sorted, Before, BlockFor, Concat, NoneEmpty, Lookup, Straddles;
    FrontAllBelow(blocks, k);
    LessIrreflexive(k);
    LookupMiss(Concat(blocks[..n]), k, s);
  }

  lemma WholeOf(blocks: seq<seq<Entry>>)
    ensures blocks[0..] == blocks
  {
  }

  /** Without straddling, the one block the index picks answers for the whole table. */
  lemma IndexedLookupRight(blocks: seq<seq<Entry>>, k: Bytes, s: nat)
    requires NoneEmpty(blocks) && Sorted(Concat(blocks)) && !Straddles(blocks, k)
    ensures IndexedLookup(blocks, k, s) == Lookup(Concat(blocks), k, s)
  {
    hide Less, Sorted, BlockFor, Concat, Straddles, Lookup, NoneEmpty;
    var r := BlockFor(blocks, k);
    if r >= 0 {
      BackMiss(blocks, k, r + 1, s);
      FrontMiss(blocks, k, r, s);
      LookupInPart(blocks, r, k, s);
    } else {
      BackMiss(blocks, k, 0, s);
      WholeOf(blocks);
    }
  }

  lemma IndexedSeekRight(blocks: seq<seq<Entry>>, k: Bytes)
    requires NoneEmpty(blocks) && Sorted(Concat(blocks)) && !Straddles(blocks, k)
    ensures IndexedSeek(blocks, k) == SeekFrom(Concat(blocks), k)
  {
    hide Less, Sorted, Before, BlockFor, Concat, Straddles, SeekFrom;
    var r := BlockFor(blocks, k);
    if r >= 0 {
      FrontAllBelow(blocks, k);
      ConcatSplit(blocks, r);
      SeekConcat(Concat(blocks[..r]), Concat(blocks[r..]), k);
    }
  }

  // ------------------------------------------------ when a key straddles

  /** The index goes to the last block that holds the key, past the earlier ones. */
  lemma StraddleSkips(blocks: seq<seq<Entry>>, k: Bytes) returns (i: nat, x: Entry)
    requires NoneEmpty(blocks) && Sorted(Concat(blocks)) && Straddles(blocks, k)
    ensures i < BlockFor(blocks, k) && x in blocks[i] && x.key == k
  {
    hide Less, Sorted, BlockFor, Concat;
    var a: nat, b: nat :| a < b < |blocks| && HasKey(blocks[a], k) && HasKey(blocks[b], k);
    var e :| e in blocks[a] && e.key == k;
    var f :| f in blocks[b] && f.key == k;
    i, x := a, e;
    if BlockFor(blocks, k) < b {
      BackAbove(blocks, k, b, f);
      LessIrreflexive(k);
    }
  }

  lemma IndexedLookupWrong(blocks: seq<seq<Entry>>, k: Bytes) returns (s: nat)
    requires NoneEmpty(blocks) && StrictlySorted(Concat(blocks)) && Straddles(blocks, k)
    ensures IndexedLookup(blocks, k, s) != Lookup(Concat(blocks), k, s)
  {
    hide Less, Sorted, BlockFor, Concat, Straddles, Lookup, StrictlySorted;
    StrictIsSorted(Concat(blocks));
    var i, x := StraddleSkips(blocks, k);
    s := x.seqno;
    assert x in blocks[i];
    ConcatMembers(blocks, x);
    assert x in Elements(Concat(blocks)) && Visible(x, k, s);
    LookupIsNewest(Concat(blocks), k, s);
    var r := BlockFor(blocks, k);
    PartSorted(blocks, r);
    LookupIsNewest(blocks[r], k, s);
    var m := Lookup(blocks[r], k, s);
    if m.Some? {
      BeforeAcross(blocks, i, r, x, m.value);
      LessIrreflexive(k);
    }
  }

  /** Through the index a key is found as a linear scan finds it, at every snapshot, iff it does not straddle. */
  lemma IndexedLookupIff(blocks: seq<seq<Entry>>, k: Bytes)
    requires NoneEmpty(blocks) && StrictlySorted(Concat(blocks))
    ensures (forall s: nat :: IndexedLookup(blocks, k, s) == Lookup(Concat(blocks), k, s)) <==> !Straddles(blocks, k)
  {
    hide IndexedLookup, Concat, Straddles, Lookup, StrictlySorted;
    StrictIsSorted(Concat(blocks));
    if Straddles(blocks, k) {
      var s := IndexedLookupWrong(blocks, k);
    } else {
      forall s: nat ensures IndexedLookup(blocks, k, s) == Lookup(Concat(blocks), k, s) {
        IndexedLookupRight(blocks, k, s);
      }
    }
  }

  /** A seek starts where a linear scan would, iff the key does not straddle. */
  lemma IndexedSeekIff(blocks: seq<seq<Entry>>, k: Bytes)
    requires NoneEmpty(blocks) && Sorted(Concat(blocks))
    ensures IndexedSeek(blocks, k) == SeekFrom(Concat(blocks), k) <==> !Straddles(blocks, k)
  {
    hide Less, Sorted, Before, BlockFor, Concat, Straddles, SeekFrom;
    if Straddles(blocks, k) {
      var i, x := StraddleSkips(blocks, k);
      var r := BlockFor(blocks, k);
      ConcatSplit(blocks, r);
      assert x in blocks[..r][i];
      ConcatMembers(blocks[..r], x);
      SeekLong(Concat(blocks[..r]), Concat(blocks[r..]), k, x);
      SeekShort(Concat(blocks[r..]), k);
    } else {
      IndexedSeekRight(blocks, k);
    }
  }

  lemma {:induction false} SeekShort(t: seq<Entry>, k: Bytes)
    ensures |SeekFrom(t, k)| <= |t|
    decreases |t|
  {
    if t != [] && Less(t[0].key, k) { SeekShort(t[1..], k); }
  }

  /** A seek that finds an entry of the front returns more than the back. */
  lemma {:induction false} SeekLong(a: seq<Entry>, b: seq<Entry>, k: Bytes, x: Entry)
    requires x in a && x.key == k
    ensures |SeekFrom(a + b, k)| > |b|
    decreases |a|
  {
    LessIrreflexive(k);
    if Less(a[0].key, k) {
      assert (a + b)[1..] == a[1..] + b;
      assert a == [a[0]] + a[1..];
      SeekLong(a[1..], b, k, x);
    }
  }

  /** Tables with one version per key never straddle. */
  lemma OneVersionNeverStraddles(es: seq<Entry>, k: Bytes)
    requires StrictKeys(es)
    ensures !Straddles(BlocksOf(es), k)
  {
    hide BlocksFrom;
    BlocksHold(es, []);
    assert [] + es == es;
    StrictKeysSplit(es, BlocksOf(es));
  }

  // ------------------------------------------ which entry makes a key straddle

  function OpenBlock(es: seq<Entry>): seq<Entry> {
    var blocks := BlocksOf(es);
    if blocks == [] then [] else blocks[|blocks| - 1]
  }

  /** Entry n closes the block being filled although its key is the one just written. */
  predicate ClosesKey(es: seq<Entry>, n: nat, k: Bytes) {
    0 < n < |es| && Closes(OpenBlock(es[..n]), es[n]) && es[n - 1].key == k == es[n].key
  }

  lemma SomewhereIff(blocks: seq<seq<Entry>>, k: Bytes)
    ensures (exists i :: 0 <= i < |blocks| && HasKey(blocks[i], k)) <==> HasKey(Concat(blocks), k)
  {
    hide Concat;
    if i :| 0 <= i < |blocks| && HasKey(blocks[i], k) {
      var e :| e in blocks[i] && e.key == k;
      ConcatMembers(blocks, e);
    }
    if e :| e in Concat(blocks) && e.key == k {
      ConcatMembers(blocks, e);
    }
  }

  lemma StraddlesNewBlock(blocks: seq<seq<Entry>>, e: Entry, k: Bytes)
    ensures Straddles(blocks + [[e]], k) <==> Straddles(blocks, k) || (e.key == k && HasKey(Concat(blocks), k))
  {
    hide Concat;
    SomewhereIff(blocks, k);
    var all := blocks + [[e]];
    assert HasKey([e], k) <==> e.key == k by { assert e in [e]; }
    if i, j :| 0 <= i < j < |all| && HasKey(all[i], k) && HasKey(all[j], k) {
      assert all[i] == blocks[i];
      assert j < |blocks| ==> all[j] == blocks[j];
    }
    if i, j :| 0 <= i < j < |blocks| && HasKey(blocks[i], k) && HasKey(blocks[j], k) {
      assert all[i] == blocks[i] && all[j] == blocks[j];
    }
    if e.key == k && HasKey(Concat(blocks), k) {
      var i :| 0 <= i < |blocks| && HasKey(blocks[i], k);
      assert all[i] == blocks[i] && all[|blocks|] == [e];
    }
  }

  /** In a sorted table an entry that shares the key of an earlier one shares that of its predecessor. */
  lemma LastHasKey(es: seq<Entry>, e: Entry, k: Bytes)
    requires Sorted(es + [e]) && e.key == k
    ensures HasKey(es, k) <==> es != [] && es[|es| - 1].key == k
  {
    hide Less;
    if es != [] {
      var last := es[|es| - 1];
      assert last in es;
      if x :| x in es && x.key == k {
        var i :| 0 <= i < |es| && es[i] == x;
        var all := es + [e];
        assert all[i] == x && all[|es| - 1] == last && all[|es|] == e;
        assert !Before(e, last) && (i < |es| - 1 ==> !Before(last, x));
        LessTotal(last.key, k);
        LessIrreflexive(k);
      }
    }
  }

  lemma StraddlesGrown(front: seq<seq<Entry>>, last: seq<Entry>, e: Entry, k: Bytes)
    requires last != [] && Sorted(Concat(front) + (last + [e]))
    ensures Straddles(front + [last + [e]], k) <==> Straddles(front + [last], k)
  {
    hide Sorted;
    var a, b := front + [last], front + [last + [e]];
    assert HasKey(last + [e], k) <==> HasKey(last, k) || e.key == k by {
      assert forall x :: x in last + [e] <==> x in last || x == e;
    }
    if i, j :| 0 <= i < j < |a| && HasKey(a[i], k) && HasKey(a[j], k) {
      assert a[i] == b[i] && (j < |front| ==> a[j] == b[j]);
      assert HasKey(b[i], k) && HasKey(b[j], k);
    }
    if i, j :| 0 <= i < j < |b| && HasKey(b[i], k) && HasKey(b[j], k) {
      assert a[i] == b[i] && (j < |front| ==> a[j] == b[j]);
      if j == |front| && e.key == k {
        SomewhereIff(front, k);
        FrontReaches(Concat(front), last, e, k);
      }
      assert HasKey(a[i], k) && HasKey(a[j], k);
    }
  }

  lemma FrontReaches(front: seq<Entry>, last: seq<Entry>, e: Entry, k: Bytes)
    requires last != [] && Sorted(front + (last + [e])) && e.key == k && HasKey(front, k)
    ensures HasKey(last, k)
  {
    hide Sorted;
    assert front + (last + [e]) == front + last + [e];
    var x :| x in front && x.key == k;
    assert x in front + last;
    LastHasKey(front + last, e, k);
    assert (front + last)[|front + last| - 1] == last[|last| - 1];
    assert last[|last| - 1] in last;
  }

  lemma StraddlesSnoc(es: seq<Entry>, e: Entry, k: Bytes)
    requires Sorted(es + [e])
    ensures Straddles(BlocksOf(es + [e]), k) <==> Straddles(BlocksOf(es), k) || ClosesKey(es + [e], |es|, k)
  {
    hide BlocksFrom, Closes, Sorted, Straddles, Concat, HasKey;
    var blocks := BlocksOf(es);
    BlocksSnoc(es, [], e);
    BlocksHold(es, []);
    assert [] + es == es;
    assert (es + [e])[..|es|] == es && (es + [e])[|es|] == e;
    LastKeyOf(es, e, k);
    if blocks == [] {
      NoStraddle([], k);
      NoStraddle([e], k);
      NotClosedEmpty(e);
    } else {
      var front, last := blocks[..|blocks| - 1], blocks[|blocks| - 1];
      assert blocks == front + [last];
      if Closes(last, e) {
        StraddlesNewBlock(blocks, e, k);
      } else {
        LastConcat(blocks, e);
        StraddlesGrown(front, last, e, k);
      }
    }
  }

  lemma LastConcat(blocks: seq<seq<Entry>>, e: Entry)
    requires blocks != []
    ensures Concat(blocks[..|blocks| - 1]) + (blocks[|blocks| - 1] + [e]) == Concat(blocks) + [e]
  {
    hide Concat;
    var n := |blocks| - 1;
    ConcatSplit(blocks, n);
    assert blocks[n..] == [blocks[n]];
    ConcatSingle(blocks[n]);
  }

  lemma ConcatSingle(block: seq<Entry>)
    ensures Concat([block]) == block
  {
    assert [block][1..] == [];
  }

  lemma LastKeyOf(es: seq<Entry>, e: Entry, k: Bytes)
    requires Sorted(es + [e])
    ensures e.key == k ==> (HasKey(es, k) <==> es != [] && (es + [e])[|es| - 1].key == k)
  {
    if e.key == k { LastHasKey(es, e, k); }
  }

  lemma NoStraddle(block: seq<Entry>, k: Bytes)
    ensures !Straddles([block], k) && !Straddles([], k)
  {
  }

  /**
   * A key lies in two blocks if and only if some entry with that key closes a block right
   * after another entry with the same key: the block was full and had not started with it.
   */
  lemma {:induction false} StraddlesIff(es: seq<Entry>, k: Bytes)
    requires Sorted(es)
    ensures Straddles(BlocksOf(es), k) <==> exists n: nat :: ClosesKey(es, n, k)
    decreases |es|
  {
    hide BlocksOf, Closes, Sorted, Straddles;
    if es == [] {
      EmptyBlocks(k);
    } else {
      var front, e := es[..|es| - 1], es[|es| - 1];
      assert front + [e] == es;
      TailSorted(es, |front|);
      StraddlesIff(front, k);
      StraddlesSnoc(front, e, k);
      forall n: nat | n < |front| ensures ClosesKey(es, n, k) <==> ClosesKey(front, n, k) {
        assert es[..n] == front[..n];
      }
      if n: nat :| ClosesKey(es, n, k) { assert n < |front| || n == |front|; }
    }
  }

  lemma EmptyBlocks(k: Bytes)
    ensures !Straddles(BlocksOf([]), k)
  {
  }

  /**
   * A full block that did not start with the next key is closed even between two versions
   * of that key: the index then answers with the older one.
   */
  lemma BlockStraddleHidesNewest(a: Bytes, b: Bytes, v: Bytes, w: Bytes)
    requires Less(a, b) && |a| < 4000 && |v| >= BLOCK_TARGET
    ensures var es := [Entry(a, [], false, 1), Entry(b, v, false, 3), Entry(b, w, false, 2)];
            && StrictlySorted(es) && Lookup(es, b, MAX_SEQ) == Some(es[1])
            && IndexedLookup(BlocksOf(es), b, MAX_SEQ) == Some(es[2])
  {
    var es := [Entry(a, [], false, 1), Entry(b, v, false, 3), Entry(b, w, false, 2)];
    LessIrreflexive(a);
    LessIrreflexive(b);
    assert a != b;
    assert es[0].key == a && BlockSize([es[0]]) == BlockSize([]) + 17 + |a|;
    StraddleBlocks(es[0], es[1], es[2]);
    assert es == [es[0], es[1], es[2]];
    StraddleLookups(es[0], es[1], es[2]);
  }

  lemma StraddleBlocks(x: Entry, y: Entry, z: Entry)
    requires x.key != y.key && y.key == z.key && |y.value| >= BLOCK_TARGET
    requires BlockSize([x]) < BLOCK_TARGET
    ensures BlocksOf([x, y, z]) == [[x, y], [z]]
  {
    assert [x, y, z][1..] == [y, z] && [y, z][1..] == [z] && [z][1..] == [];
    assert [] + [x] == [x] && [x] + [y] == [x, y];
    assert [x, y][..1] == [x];
    assert BlockSize([x, y]) >= BLOCK_TARGET;
    assert !Closes([], x) && !Closes([x], y) && Closes([x, y], z);
    assert BlocksFrom([], [z]) == [[z]];
    assert BlocksFrom([z], [x, y]) == [[x, y]] + [[z]];
    assert BlocksFrom([y, z], [x]) == BlocksFrom([z], [x, y]);
  }

  lemma StraddleLookups(x: Entry, y: Entry, z: Entry)
    requires Less(x.key, y.key) && y.key == z.key && y.seqno <= MAX_SEQ && z.seqno <= MAX_SEQ
    ensures Lookup([x, y, z], y.key, MAX_SEQ) == Some(y)
    ensures NoneEmpty([[x, y], [z]]) && IndexedLookup([[x, y], [z]], y.key, MAX_SEQ) == Some(z)
  {
    LessIrreflexive(y.key);
    LessAsymmetric(x.key, y.key);
    assert [x, y, z][1..] == [y, z];
    var blocks := [[x, y], [z]];
    assert blocks[1..] == [[z]] && [[z]][1..] == [];
    assert BlockFor([[z]], y.key) == 0;
    assert BlockFor(blocks, y.key) == 1;
  }
}
