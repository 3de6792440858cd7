// Version garbage collection and output splitting: the body of the compaction
// merge loop, and what it keeps.
module Gc {
  import opened Keys
  import opened Entries

  /**
   * The keep decision of the merge loop, over the merged stream m. prev is the key of
   * the entry just handled and anchored says whether a version of prev at or below
   * oldest has already been met.
   */
  function Collect(m: seq<Entry>, oldest: nat, bottom: bool, prev: Bytes, anchored: bool): (kept: seq<Entry>)
    ensures |kept| <= |m|
  {
    if m == [] then []
    else
      var e := m[0];
      var a := e.key == prev && anchored;
      if e.seqno > oldest then [e] + Collect(m[1..], oldest, bottom, e.key, a)
      else if a then Collect(m[1..], oldest, bottom, e.key, true)
      else if e.tombstone && bottom then Collect(m[1..], oldest, bottom, e.key, true)
      else [e] + Collect(m[1..], oldest, bottom, e.key, true)
  }

  /** What survives, said without the loop: every version a snapshot above oldest may
      need, and the newest one at or below it unless that is a droppable tombstone. */
  ghost predicate Survives(S: set<Entry>, oldest: nat, bottom: bool, e: Entry) {
    e in S &&
    (e.seqno > oldest || (IsNewest(S, e.key, oldest, Some(e)) && !(e.tombstone && bottom)))
  }

  /** The same with the loop's memory of the previous key. */
  ghost predicate SurvivesAfter(m: seq<Entry>, oldest: nat, bottom: bool, prev: Bytes, anchored: bool, e: Entry) {
    Survives(Elements(m), oldest, bottom, e) && (e.seqno > oldest || !(anchored && e.key == prev))
  }

  lemma NewestInTail(m: seq<Entry>, oldest: nat, e: Entry)
    requires m != [] && Sorted(m) && Functional(Elements(m)) && e in m[1..] && e.seqno <= oldest
    ensures IsNewest(Elements(m), e.key, oldest, Some(e)) <==>
            IsNewest(Elements(m[1..]), e.key, oldest, Some(e))
              && !(m[0].key == e.key && m[0].seqno <= oldest && m[0] != e)
  {
    var i :| 0 <= i < |m[1..]| && m[1..][i] == e;
    assert !Before(m[i + 1], m[0]);
    assert forall f :: f in m <==> f == m[0] || f in m[1..];
  }

  lemma {:induction false} CollectMembers(m: seq<Entry>, oldest: nat, bottom: bool, prev: Bytes, anchored: bool,
                                          e: Entry)
    requires Sorted(m) && Functional(Elements(m))
    requires forall f :: f in m ==> !Less(f.key, prev)
    ensures e in Collect(m, oldest, bottom, prev, anchored) <==> SurvivesAfter(m, oldest, bottom, prev, anchored, e)
  {
    if m != [] {
      var h, t := m[0], m[1..];
      var a := h.key == prev && anchored;
      var a' := h.seqno <= oldest || a;
      assert forall f :: f in m <==> f == h || f in t;
      forall f | f in t ensures !Less(f.key, h.key) {
        var i :| 0 <= i < |t| && t[i] == f;
        assert !Before(m[i + 1], m[0]);
      }
      CollectMembers(t, oldest, bottom, h.key, a', e);
      CollectStep(m, oldest, bottom, prev, anchored, e);
    }
  }

  /** One turn of the loop agrees with the declarative rule, given that the rest does. */
  lemma CollectStep(m: seq<Entry>, oldest: nat, bottom: bool, prev: Bytes, anchored: bool, e: Entry)
    requires m != [] && Sorted(m) && Functional(Elements(m))
    requires forall f :: f in m ==> !Less(f.key, prev)
    requires forall f :: f in m[1..] ==> !Less(f.key, m[0].key)
    requires var a := m[0].key == prev && anchored;
             var a' := m[0].seqno <= oldest || a;
             e in Collect(m[1..], oldest, bottom, m[0].key, a') <==>
               SurvivesAfter(m[1..], oldest, bottom, m[0].key, a', e)
    ensures e in Collect(m, oldest, bottom, prev, anchored) <==> SurvivesAfter(m, oldest, bottom, prev, anchored, e)
  {
    hide Less;
    var h, t := m[0], m[1..];
    LessTotal(h.key, prev);
    LessTotal(h.key, e.key);
    assert h in m;
    if e in t && e.seqno <= oldest { NewestInTail(m, oldest, e); }
    if e == h && h.seqno <= oldest {
      forall f | f in m && Visible(f, e.key, oldest) ensures f.seqno <= e.seqno {
        var i :| 0 <= i < |m| && m[i] == f;
        assert i > 0 ==> !Before(m[i], m[0]);
      }
    }
  }

  lemma {:induction false} CollectSorted(m: seq<Entry>, oldest: nat, bottom: bool, prev: Bytes, anchored: bool)
    requires Sorted(m)
    ensures Sorted(Collect(m, oldest, bottom, prev, anchored))
    ensures forall e :: e in Collect(m, oldest, bottom, prev, anchored) ==> e in m
  {
    if m != [] {
      var a := m[0].key == prev && anchored;
      var a' := m[0].seqno <= oldest || a;
      CollectSorted(m[1..], oldest, bottom, m[0].key, a');
      var rest := Collect(m[1..], oldest, bottom, m[0].key, a');
      forall j | 0 <= j < |rest| ensures !Before(rest[j], m[0]) {
        assert rest[j] in m[1..];
        var i :| 0 <= i < |m[1..]| && m[1..][i] == rest[j];
        assert !Before(m[i + 1], m[0]);
      }
      assert Sorted([m[0]] + rest);
    }
  }

  /** The whole loop: exactly the surviving versions come out, in order. */
  lemma CollectKeepsSurvivors(m: seq<Entry>, oldest: nat, bottom: bool)
    requires Sorted(m) && Functional(Elements(m))
    ensures forall e :: e in Collect(m, oldest, bottom, [], false) <==> Survives(Elements(m), oldest, bottom, e)
    ensures Sorted(Collect(m, oldest, bottom, [], false))
  {
    forall e ensures e in Collect(m, oldest, bottom, [], false) <==> Survives(Elements(m), oldest, bottom, e) {
      forall f | f in m ensures !Less(f.key, []) { EmptyIsLeast(f.key); }
      CollectMembers(m, oldest, bottom, [], false, e);
    }
    CollectSorted(m, oldest, bottom, [], false);
  }

  // ---------------------------------------------------------- output files

  /** Cut the kept stream into files: cur is the open file and bytes its size so far. */
  function Split(kept: seq<Entry>, target: nat, cur: seq<Entry>, bytes: nat): (parts: seq<seq<Entry>>)
    ensures forall i :: 0 <= i < |parts| ==> parts[i] != []
    ensures parts == [] <==> cur + kept == []
  {
    if kept == [] then
      if cur == [] then [] else [cur]
    else
      var cur', bytes' := cur + [kept[0]], bytes + EntryBytes(kept[0]);
      if bytes' >= target then [cur'] + Split(kept[1..], target, [], 0)
      else Split(kept[1..], target, cur', bytes')
  }

  function Concat(parts: seq<seq<Entry>>): seq<Entry> {
    if parts == [] then [] else parts[0] + Concat(parts[1..])
  }

  lemma {:induction false} SplitConcat(kept: seq<Entry>, target: nat, cur: seq<Entry>, bytes: nat)
    ensures Concat(Split(kept, target, cur, bytes)) == cur + kept
  {
    if kept == [] {
      if cur != [] { assert Concat([cur]) == cur + Concat([]); }
    } else {
      var cur', bytes' := cur + [kept[0]], bytes + EntryBytes(kept[0]);
      assert cur' + kept[1..] == cur + kept;
      if bytes' >= target {
        SplitConcat(kept[1..], target, [], 0);
        assert Split(kept, target, cur, bytes)[1..] == Split(kept[1..], target, [], 0);
      } else {
        SplitConcat(kept[1..], target, cur', bytes');
      }
    }
  }

  lemma {:induction false} ConcatMembers(parts: seq<seq<Entry>>, e: Entry)
    ensures e in Concat(parts) <==> exists i :: 0 <= i < |parts| && e in parts[i]
  {
    if parts != [] {
      ConcatMembers(parts[1..], e);
      if e in Concat(parts[1..]) {
        var i :| 0 <= i < |parts[1..]| && e in parts[1..][i];
        assert e in parts[i + 1];
      }
      if i :| 0 <= i < |parts| && e in parts[i] {
        assert i > 0 ==> e in parts[1..][i - 1];
      }
    }
  }

  lemma {:induction false} ConcatSplit(parts: seq<seq<Entry>>, r: nat)
    requires r <= |parts|
    ensures Concat(parts) == Concat(parts[..r]) + Concat(parts[r..])
    decreases r
  {
    if r == 0 {
      assert parts[0..] == parts;
    } else {
      assert parts[..r][1..] == parts[1..][..r - 1] && parts[1..][r - 1..] == parts[r..];
      ConcatSplit(parts[1..], r - 1);
    }
  }

  lemma ConcatFirst(parts: seq<seq<Entry>>, r: nat)
    requires r < |parts|
    ensures Concat(parts[r..]) == parts[r] + Concat(parts[r + 1..])
  {
    assert parts[r..][1..] == parts[r + 1..];
  }

  /** The look-up in a stream is the look-up in one of its parts, if the others miss. */
  lemma LookupInPart(parts: seq<seq<Entry>>, n: nat, k: Bytes, s: nat)
    requires n < |parts| && Lookup(Concat(parts[..n]), k, s) == None && Lookup(Concat(parts[n + 1..]), k, s) == None
    ensures Lookup(Concat(parts), k, s) == Lookup(parts[n], k, s)
  {
    hide Concat, Lookup;
    ConcatSplit(parts, n);
    ConcatFirst(parts, n);
    LookupConcat(Concat(parts[..n]), Concat(parts[n..]), k, s);
    LookupConcat(parts[n], Concat(parts[n + 1..]), k, s);
  }

  /** Two parts of a sorted stream, one before the other: never out of order. */
  lemma {:induction false} PartsInOrder(parts: seq<seq<Entry>>, i: nat, j: nat, x: Entry, y: Entry)
    requires Sorted(Concat(parts)) && i < j < |parts| && x in parts[i] && y in parts[j]
    ensures !Before(y, x)
  {
    var c := Concat(parts);
    var rest := Concat(parts[1..]);
    assert c == parts[0] + rest;
    if i == 0 {
      var a :| 0 <= a < |parts[0]| && parts[0][a] == x;
      assert y in parts[1..][j - 1];
      ConcatMembers(parts[1..], y);
      var b :| 0 <= b < |rest| && rest[b] == y;
      assert c[a] == x && c[|parts[0]| + b] == y;
    } else {
      TailSorted(c, |parts[0]|);
      assert c[|parts[0]|..] == rest;
      PartsInOrder(parts[1..], i - 1, j - 1, x, y);
    }
  }

  lemma {:induction false} PartSorted(parts: seq<seq<Entry>>, i: nat)
    requires Sorted(Concat(parts)) && i < |parts|
    ensures Sorted(parts[i])
  {
    var c := Concat(parts);
    TailSorted(c, |parts[0]|);
    if i == 0 {
      assert c[..|parts[0]|] == parts[0];
    } else {
      assert c[|parts[0]|..] == Concat(parts[1..]);
      PartSorted(parts[1..], i - 1);
    }
  }

  /** No key has versions in two output files. */
  ghost predicate SplitsBetweenKeys(parts: seq<seq<Entry>>) {
    forall i, j, x, y :: 0 <= i < j < |parts| && x in parts[i] && y in parts[j] ==> x.key != y.key
  }

  predicate StrictKeys(t: seq<Entry>) {
    forall i, j :: 0 <= i < j < |t| ==> Less(t[i].key, t[j].key)
  }

  /** With no snapshot live at pick, one version per key is kept ... */
  lemma {:induction false} CollectOnePerKey(m: seq<Entry>, oldest: nat, bottom: bool, prev: Bytes, anchored: bool)
    requires Sorted(m)
    requires forall e :: e in m ==> e.seqno <= oldest && !Less(e.key, prev)
    ensures StrictKeys(Collect(m, oldest, bottom, prev, anchored))
    ensures anchored ==> forall e :: e in Collect(m, oldest, bottom, prev, anchored) ==> Less(prev, e.key)
  {
    hide Less;
    if m != [] {
      var h, t := m[0], m[1..];
      assert h in m;
      forall f | f in t ensures !Less(f.key, h.key) && f.seqno <= oldest {
        var i :| 0 <= i < |t| && t[i] == f;
        assert !Before(m[i + 1], m[0]) && m[i + 1] in m;
      }
      CollectOnePerKey(t, oldest, bottom, h.key, true);
      LessTotal(h.key, prev);
      forall e | e in Collect(t, oldest, bottom, h.key, true) ensures Less(prev, e.key) {
        NotGreaterThenLess(prev, h.key, e.key);
      }
    }
  }

  /** ... so no output boundary can fall between two versions of a key. */
  lemma StrictKeysSplit(kept: seq<Entry>, parts: seq<seq<Entry>>)
    requires StrictKeys(kept) && Concat(parts) == kept
    ensures SplitsBetweenKeys(parts)
  {
    KeyOrder();
    forall i, j, x, y | 0 <= i < j < |parts| && x in parts[i] && y in parts[j] ensures x.key != y.key {
      StrictAcross(parts, i, j, x, y);
    }
  }

  lemma {:induction false} StrictAcross(parts: seq<seq<Entry>>, i: nat, j: nat, x: Entry, y: Entry)
    requires StrictKeys(Concat(parts)) && i < j < |parts| && x in parts[i] && y in parts[j]
    ensures Less(x.key, y.key)
  {
    var c := Concat(parts);
    var rest := Concat(parts[1..]);
    assert c == parts[0] + rest;
    if i == 0 {
      var a :| 0 <= a < |parts[0]| && parts[0][a] == x;
      assert y in parts[1..][j - 1];
      ConcatMembers(parts[1..], y);
      var b :| 0 <= b < |rest| && rest[b] == y;
      assert c[a] == x && c[|parts[0]| + b] == y;
    } else {
      assert c[|parts[0]|..] == rest;
      StrictAcross(parts[1..], i - 1, j - 1, x, y);
    }
  }

  /** Versions are in strict order: no sequence number twice for a key. */
  ghost predicate StrictlySorted(t: seq<Entry>) {
    forall i, j :: 0 <= i < j < |t| ==> Before(t[i], t[j])
  }

  lemma StrictIsSorted(t: seq<Entry>)
    requires StrictlySorted(t)
    ensures Sorted(t)
  {
    hide Before;
    forall i, j | 0 <= i < j < |t| ensures !Before(t[j], t[i]) { BeforeAsymmetric(t[i], t[j]); }
  }

  lemma {:induction false} BeforeAcross(parts: seq<seq<Entry>>, i: nat, j: nat, x: Entry, y: Entry)
    requires StrictlySorted(Concat(parts)) && i < j < |parts| && x in parts[i] && y in parts[j]
    ensures Before(x, y)
  {
    hide Before;
    var c := Concat(parts);
    var rest := Concat(parts[1..]);
    assert c == parts[0] + rest;
    if i == 0 {
      var a :| 0 <= a < |parts[0]| && parts[0][a] == x;
      assert y in parts[1..][j - 1];
      ConcatMembers(parts[1..], y);
      var b :| 0 <= b < |rest| && rest[b] == y;
      assert c[a] == x && c[|parts[0]| + b] == y;
    } else {
      assert c[|parts[0]|..] == rest;
      BeforeAcross(parts[1..], i - 1, j - 1, x, y);
    }
  }

  // ---------------------------------------------------- where the split falls

  /** The bytes in the open file once entry n has been added to it, when it starts out with `bytes`. */
  function Fill(kept: seq<Entry>, target: nat, bytes: nat, n: nat): nat
    requires n < |kept|
    decreases n
  {
    var b := bytes + EntryBytes(kept[0]);
    if n == 0 then b else Fill(kept[1..], target, if b >= target then 0 else b, n - 1)
  }

  /** The file is finished between two versions of a key: the size test passes at entry n. */
  predicate CutsKey(kept: seq<Entry>, target: nat, bytes: nat, n: nat) {
    n + 1 < |kept| && Fill(kept, target, bytes, n) >= target && kept[n].key == kept[n + 1].key
  }

  lemma SplitsCons(head: seq<Entry>, parts: seq<seq<Entry>>)
    ensures SplitsBetweenKeys([head] + parts) <==>
            SplitsBetweenKeys(parts) && forall x: Entry, y: Entry :: x in head && y in Concat(parts) ==> x.key != y.key
  {
    hide Concat;
    if SplitsBetweenKeys([head] + parts) {
      SplitsTail(head, parts);
    }
    if SplitsBetweenKeys(parts) && forall x: Entry, y: Entry :: x in head && y in Concat(parts) ==> x.key != y.key {
      SplitsWhole(head, parts);
    }
  }

  lemma SplitsTail(head: seq<Entry>, parts: seq<seq<Entry>>)
    requires SplitsBetweenKeys([head] + parts)
    ensures SplitsBetweenKeys(parts) && forall x: Entry, y: Entry :: x in head && y in Concat(parts) ==> x.key != y.key
  {
    hide Concat;
    var all := [head] + parts;
    forall i, j, x: Entry, y: Entry | 0 <= i < j < |parts| && x in parts[i] && y in parts[j] ensures x.key != y.key {
      assert x in all[i + 1] && y in all[j + 1];
    }
    forall x: Entry, y: Entry | x in head && y in Concat(parts) ensures x.key != y.key {
      ConcatMembers(parts, y);
      var j :| 0 <= j < |parts| && y in parts[j];
      assert x in all[0] && y in all[j + 1];
    }
  }

  lemma SplitsWhole(head: seq<Entry>, parts: seq<seq<Entry>>)
    requires SplitsBetweenKeys(parts) && forall x: Entry, y: Entry :: x in head && y in Concat(parts) ==> x.key != y.key
    ensures SplitsBetweenKeys([head] + parts)
  {
    hide Concat;
    var all := [head] + parts;
    forall i, j, x: Entry, y: Entry | 0 <= i < j < |all| && x in all[i] && y in all[j] ensures x.key != y.key {
      assert y in parts[j - 1];
      ConcatMembers(parts, y);
      assert i > 0 ==> x in parts[i - 1];
    }
  }

  /** In a sorted stream two neighbouring pieces share a key exactly when they meet in it. */
  lemma PiecesShare(head: seq<Entry>, rest: seq<Entry>)
    requires Sorted(head + rest) && head != []
    ensures (forall x: Entry, y: Entry :: x in head && y in rest ==> x.key != y.key) <==>
            rest == [] || head[|head| - 1].key != rest[0].key
  {
    hide Less;
    if rest != [] {
      var last, first := head[|head| - 1], rest[0];
      assert last in head && first in rest;
      if last.key != first.key {
        forall x, y | x in head && y in rest ensures x.key != y.key {
          PiecesApart(head, rest, x, y);
        }
      }
    }
  }

  lemma PiecesApart(head: seq<Entry>, rest: seq<Entry>, x: Entry, y: Entry)
    requires Sorted(head + rest) && x in head && y in rest && head[|head| - 1].key != rest[0].key
    ensures x.key != y.key
  {
    hide Less;
    var all := head + rest;
    var last, first := head[|head| - 1], rest[0];
    var i :| 0 <= i < |head| && head[i] == x;
    var j :| 0 <= j < |rest| && rest[j] == y;
    assert all[i] == x && all[|head| - 1] == last && all[|head|] == first && all[|head| + j] == y;
    assert !Before(first, last);
    assert i < |head| - 1 ==> !Before(last, x);
    assert j > 0 ==> !Before(y, first);
    LessIrreflexive(last.key);
    LessIrreflexive(first.key);
    LessTotal(last.key, first.key);
    NotGreaterThenLess(x.key, last.key, first.key);
    LessThenNotGreater(x.key, first.key, y.key);
    LessIrreflexive(x.key);
  }

  /**
   * The writer splits between keys if and only if its size test never passes at an entry
   * whose successor has the same key.
   */
  lemma {:induction false} SplitsBetweenKeysIff(kept: seq<Entry>, target: nat, cur: seq<Entry>, bytes: nat)
    requires Sorted(cur + kept)
    ensures SplitsBetweenKeys(Split(kept, target, cur, bytes)) <==> forall n: nat :: !CutsKey(kept, target, bytes, n)
    decreases |kept|
  {
    hide Sorted, EntryBytes, Fill, SplitsBetweenKeys;
    if kept == [] {
      OnePart(cur);
    } else {
      var cur', rest := cur + [kept[0]], kept[1..];
      var b := bytes + EntryBytes(kept[0]);
      var open := if b >= target then 0 else b;
      assert cur' + rest == cur + kept;
      CutsLater(kept, target, bytes);
      if b >= target {
        DropFront(cur', rest);
        assert [] + rest == rest;
        SplitsBetweenKeysIff(rest, target, [], 0);
        SplitConcat(rest, target, [], 0);
        SplitsCons(cur', Split(rest, target, [], 0));
        PiecesShare(cur', rest);
        CutsNow(kept, target, bytes);
      } else {
        SplitsBetweenKeysIff(rest, target, cur', b);
        CutsNow(kept, target, bytes);
      }
    }
  }

  lemma OnePart(cur: seq<Entry>)
    ensures SplitsBetweenKeys([cur]) && SplitsBetweenKeys([])
  {
  }

  lemma DropFront(a: seq<Entry>, b: seq<Entry>)
    requires Sorted(a + b)
    ensures Sorted(b)
  {
    hide Before;
    TailSorted(a + b, |a|);
    assert (a + b)[|a|..] == b;
  }

  lemma CutsNow(kept: seq<Entry>, target: nat, bytes: nat)
    requires kept != []
    ensures CutsKey(kept, target, bytes, 0) <==>
            |kept| > 1 && bytes + EntryBytes(kept[0]) >= target && kept[0].key == kept[1].key
  {
    hide EntryBytes;
  }

  lemma CutsLater(kept: seq<Entry>, target: nat, bytes: nat)
    requires kept != []
    ensures var b := bytes + EntryBytes(kept[0]);
            var open := if b >= target then 0 else b;
            (forall n: nat :: !CutsKey(kept, target, bytes, n)) <==>
            !CutsKey(kept, target, bytes, 0) && forall n: nat :: !CutsKey(kept[1..], target, open, n)
  {
    hide EntryBytes;
    var b := bytes + EntryBytes(kept[0]);
    var open := if b >= target then 0 else b;
    forall n: nat ensures CutsKey(kept[1..], target, open, n) <==> CutsKey(kept, target, bytes, n + 1) {
      CutsShift(kept, target, bytes, n);
    }
    if n: nat :| CutsKey(kept, target, bytes, n) {
      assert n > 0 ==> CutsKey(kept[1..], target, open, n - 1);
    }
  }

  lemma CutsShift(kept: seq<Entry>, target: nat, bytes: nat, n: nat)
    requires kept != []
    ensures var b := bytes + EntryBytes(kept[0]);
            CutsKey(kept[1..], target, if b >= target then 0 else b, n) <==> CutsKey(kept, target, bytes, n + 1)
  {
    hide EntryBytes;
  }
}
