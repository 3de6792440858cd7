// Searching the output files of a job: the one binary-searched file answers for all of
// them if and only if the split fell between keys.
module LevelSearch {
  import opened Keys
  import opened Entries
  import opened Versions
  import opened Gc
  import Layout

  /** What the search of one level finds. */
  function LevelLookup(fs: seq<FileMeta>, k: Bytes, s: nat): Option<Entry> {
    var c := Covering(fs, k);
    if c.Some? then Lookup(c.value.table, k, s) else None
  }

  /** Any order the sort by smallest key may leave the files in; it says nothing about ties. */
  ghost predicate InKeyOrder(fs: seq<FileMeta>, outs: seq<FileMeta>) {
    && multiset(fs) == multiset(outs)
    && forall i, j :: 0 <= i < j < |fs| ==> !Less(fs[j].smallest, fs[i].smallest)
  }

  // ------------------------------------------------------- a key that straddles

  /** The bound at a version's own number: the whole stream answers with that number. */
  lemma AnswersAt(parts: seq<seq<Entry>>, i: nat, x: Entry)
    requires Sorted(Concat(parts)) && i < |parts| && x in parts[i]
    ensures var r := Lookup(Concat(parts), x.key, x.seqno); r.Some? && r.value.seqno == x.seqno
  {
    hide Concat, Lookup, Sorted;
    ConcatMembers(parts, x);
    LookupIsNewest(Concat(parts), x.key, x.seqno);
    assert x in Elements(Concat(parts)) && Visible(x, x.key, x.seqno);
  }

  /** Whichever part a search for a straddling key lands on, at some bound it answers wrongly. */
  lemma StraddleReadsWrong(parts: seq<seq<Entry>>, i: nat, j: nat, x: Entry, y: Entry, p: nat) returns (s: nat)
    requires StrictlySorted(Concat(parts)) && i < j < |parts| && p < |parts|
    requires x in parts[i] && y in parts[j] && x.key == y.key
    ensures Lookup(parts[p], x.key, s) != Lookup(Concat(parts), x.key, s)
  {
    hide Concat, Lookup, Sorted, StrictlySorted, Less;
    StrictIsSorted(Concat(parts));
    LessIrreflexive(x.key);
    if p > i {
      s := x.seqno;
      AnswersAt(parts, i, x);
      LookupFound(parts[p], x.key, s);
      var r := Lookup(parts[p], x.key, s);
      if r.Some? { BeforeAcross(parts, i, p, x, r.value); }
    } else {
      s := y.seqno;
      AnswersAt(parts, j, y);
      forall e | e in parts[p] && e.key == x.key ensures e.seqno > s { BeforeAcross(parts, p, j, e, y); }
      LookupNothing(parts[p], x.key, s);
    }
  }

  /** A search that lands on no part misses the key altogether. */
  lemma MissReadsWrong(parts: seq<seq<Entry>>, i: nat, x: Entry)
    requires Sorted(Concat(parts)) && i < |parts| && x in parts[i]
    ensures Lookup(Concat(parts), x.key, x.seqno) != None
  {
    AnswersAt(parts, i, x);
  }

  // --------------------------------------------------- no key that straddles

  lemma BagPair(fs: seq<FileMeta>, i: nat, j: nat)
    requires i < j < |fs| && fs[i] == fs[j]
    ensures multiset(fs)[fs[i]] >= 2
  {
    assert fs == fs[..j] + ([fs[j]] + fs[j + 1..]);
    assert fs[..j][i] == fs[i];
    assert fs[i] in fs[..j];
  }

  lemma {:induction false} BagOnce(outs: seq<FileMeta>, f: FileMeta)
    requires forall i, j :: 0 <= i < j < |outs| ==> outs[i] != outs[j]
    ensures multiset(outs)[f] <= 1
  {
    if outs != [] {
      assert outs == [outs[0]] + outs[1..];
      BagOnce(outs[1..], f);
      if outs[0] == f { assert f !in outs[1..]; }
    }
  }

  lemma OutputsInOrder(parts: seq<seq<Entry>>, numbers: seq<nat>, level: nat)
    requires |parts| == |numbers| && Sorted(Concat(parts)) && SplitsBetweenKeys(parts)
    requires forall i :: 0 <= i < |parts| ==> parts[i] != []
    ensures var outs := Layout.MakeOutputs(parts, numbers, level);
            forall i, j :: 0 <= i < j < |outs| ==> LeftOf(outs[i], outs[j]) && Less(outs[i].smallest, outs[j].smallest)
  {
    hide Concat, Sorted, SplitsBetweenKeys, Less, FileOk;
    var outs := Layout.MakeOutputs(parts, numbers, level);
    Layout.OutputsFileOk(parts, numbers, level);
    forall i, j | 0 <= i < j < |outs|
      ensures LeftOf(outs[i], outs[j]) && Less(outs[i].smallest, outs[j].smallest)
    {
      Layout.SplitsApart(parts, i, j);
      RangeNonEmpty(outs[i]);
      NotGreaterThenLess(outs[i].smallest, outs[i].largest, outs[j].smallest);
    }
  }

  /** Disjoint outputs come out of any sort as one sorted run. */
  lemma SortedOutputsRun(outs: seq<FileMeta>, fs: seq<FileMeta>)
    requires forall i :: 0 <= i < |outs| ==> FileOk(outs[i])
    requires forall i, j :: 0 <= i < j < |outs| ==> LeftOf(outs[i], outs[j]) && Less(outs[i].smallest, outs[j].smallest)
    requires InKeyOrder(fs, outs)
    ensures SortedRun(fs)
  {
    hide Less, FileOk;
    forall i | 0 <= i < |fs| ensures fs[i] in outs && FileOk(fs[i]) { assert fs[i] in multiset(fs); }
    forall i, j | 0 <= i < j < |fs|
      ensures Less(fs[i].smallest, fs[j].smallest) && LeftOf(fs[i], fs[j])
    {
      SortedPair(outs, fs, i, j);
    }
  }

  lemma SortedPair(outs: seq<FileMeta>, fs: seq<FileMeta>, i: nat, j: nat)
    requires forall i, j :: 0 <= i < j < |outs| ==> LeftOf(outs[i], outs[j]) && Less(outs[i].smallest, outs[j].smallest)
    requires InKeyOrder(fs, outs) && i < j < |fs|
    ensures Less(fs[i].smallest, fs[j].smallest) && LeftOf(fs[i], fs[j])
  {
    hide Less, LeftOf;
    assert fs[i] in multiset(fs) && fs[j] in multiset(fs);
    var a :| 0 <= a < |outs| && outs[a] == fs[i];
    var b :| 0 <= b < |outs| && outs[b] == fs[j];
    forall c, d | 0 <= c < d < |outs| ensures outs[c] != outs[d] { LessIrreflexive(outs[c].smallest); }
    if a == b {
      BagPair(fs, i, j);
      BagOnce(outs, fs[i]);
    }
  }

  lemma KeyOnlyIn(parts: seq<seq<Entry>>, p: nat, k: Bytes, s: nat)
    requires p < |parts| && forall i, e :: 0 <= i < |parts| && i != p && e in parts[i] ==> e.key != k
    ensures Lookup(Concat(parts), k, s) == Lookup(parts[p], k, s)
  {
    hide Concat, Lookup;
    forall e | e in Concat(parts[..p]) ensures e.key != k {
      ConcatMembers(parts[..p], e);
      var i :| 0 <= i < p && e in parts[..p][i];
      assert e in parts[i];
    }
    forall e | e in Concat(parts[p + 1..]) ensures e.key != k {
      ConcatMembers(parts[p + 1..], e);
      var i :| 0 <= i < |parts[p + 1..]| && e in parts[p + 1..][i];
      assert e in parts[p + 1 + i];
    }
    LookupMiss(Concat(parts[..p]), k, s);
    LookupMiss(Concat(parts[p + 1..]), k, s);
    LookupInPart(parts, p, k, s);
  }

  lemma KeyNowhere(parts: seq<seq<Entry>>, k: Bytes, s: nat)
    requires forall i, e :: 0 <= i < |parts| && e in parts[i] ==> e.key != k
    ensures Lookup(Concat(parts), k, s) == None
  {
    hide Concat, Lookup;
    forall e | e in Concat(parts) ensures e.key != k { ConcatMembers(parts, e); }
    LookupMiss(Concat(parts), k, s);
  }

  lemma SearchRight(parts: seq<seq<Entry>>, numbers: seq<nat>, level: nat, fs: seq<FileMeta>, k: Bytes, s: nat)
    requires |parts| == |numbers| && Sorted(Concat(parts)) && SplitsBetweenKeys(parts)
    requires forall i :: 0 <= i < |parts| ==> parts[i] != []
    requires InKeyOrder(fs, Layout.MakeOutputs(parts, numbers, level))
    ensures LevelLookup(fs, k, s) == Lookup(Concat(parts), k, s)
  {
    hide Concat, Lookup, Sorted, SortedRun, Less, FileOk, Covering;
    var outs := Layout.MakeOutputs(parts, numbers, level);
    OutputsInOrder(parts, numbers, level);
    Layout.OutputsFileOk(parts, numbers, level);
    SortedOutputsRun(outs, fs);
    if p: nat, x :| p < |parts| && x in parts[p] && x.key == k {
      assert forall i, e :: 0 <= i < |parts| && i != p && e in parts[i] ==> e.key != k;
      KeyOnlyIn(parts, p, k, s);
      FileFound(outs, fs, p, x);
    } else {
      KeyNowhere(parts, k, s);
      NoFileAnswers(parts, numbers, level, fs, k, s);
    }
  }

  lemma FileFound(outs: seq<FileMeta>, fs: seq<FileMeta>, p: nat, x: Entry)
    requires p < |outs| && FileOk(outs[p]) && x in outs[p].table && SortedRun(fs) && multiset(fs) == multiset(outs)
    ensures Covering(fs, x.key) == Some(outs[p])
  {
    hide SortedRun, FileOk, Less, Covering;
    assert outs[p] in multiset(fs);
    var i :| 0 <= i < |fs| && fs[i] == outs[p];
    KeyInRange(outs[p], x);
    CoveringFinds(fs, i, x.key);
  }

  lemma NoFileAnswers(parts: seq<seq<Entry>>, numbers: seq<nat>, level: nat, fs: seq<FileMeta>, k: Bytes, s: nat)
    requires |parts| == |numbers| && forall i :: 0 <= i < |parts| ==> parts[i] != []
    requires multiset(fs) == multiset(Layout.MakeOutputs(parts, numbers, level))
    requires forall i, e :: 0 <= i < |parts| && e in parts[i] ==> e.key != k
    ensures LevelLookup(fs, k, s) == None
  {
    hide Lookup, Less;
    var c := Covering(fs, k);
    if c.Some? {
      var p := PartOf(parts, numbers, level, fs, c.value);
      LookupMiss(parts[p], k, s);
    }
  }

  lemma PartOf(parts: seq<seq<Entry>>, numbers: seq<nat>, level: nat, fs: seq<FileMeta>, f: FileMeta) returns (p: nat)
    requires |parts| == |numbers| && forall i :: 0 <= i < |parts| ==> parts[i] != []
    requires multiset(fs) == multiset(Layout.MakeOutputs(parts, numbers, level)) && f in fs
    ensures p < |parts| && f.table == parts[p]
  {
    var outs := Layout.MakeOutputs(parts, numbers, level);
    assert f in multiset(fs);
    p :| 0 <= p < |outs| && outs[p] == f;
  }

  lemma StraddlingPair(parts: seq<seq<Entry>>) returns (i: nat, j: nat, x: Entry, y: Entry)
    requires !SplitsBetweenKeys(parts)
    ensures i < j < |parts| && x in parts[i] && y in parts[j] && x.key == y.key
  {
    i, j, x, y :| i < j < |parts| && x in parts[i] && y in parts[j] && x.key == y.key;
  }

  lemma SearchWrong(parts: seq<seq<Entry>>, numbers: seq<nat>, level: nat, fs: seq<FileMeta>) returns (k: Bytes, s: nat)
    requires |parts| == |numbers| && StrictlySorted(Concat(parts)) && !SplitsBetweenKeys(parts)
    requires forall i :: 0 <= i < |parts| ==> parts[i] != []
    requires multiset(fs) == multiset(Layout.MakeOutputs(parts, numbers, level))
    ensures LevelLookup(fs, k, s) != Lookup(Concat(parts), k, s)
  {
    hide Concat, Lookup, Sorted, StrictlySorted, SplitsBetweenKeys, Less, Layout.MakeOutputs;
    var i, j, x, y := StraddlingPair(parts);
    k := x.key;
    StrictIsSorted(Concat(parts));
    var c := Covering(fs, k);
    if c.Some? {
      var p := PartOf(parts, numbers, level, fs, c.value);
      s := StraddleReadsWrong(parts, i, j, x, y, p);
    } else {
      s := x.seqno;
      MissReadsWrong(parts, i, x);
    }
  }

  /**
   * However the sort orders the outputs, searching their level answers every key at every
   * bound as the whole stream does if and only if the split fell between keys.
   */
  lemma SearchRightIff(parts: seq<seq<Entry>>, numbers: seq<nat>, level: nat, fs: seq<FileMeta>)
    requires |parts| == |numbers| && StrictlySorted(Concat(parts))
    requires forall i :: 0 <= i < |parts| ==> parts[i] != []
    requires InKeyOrder(fs, Layout.MakeOutputs(parts, numbers, level))
    ensures (forall k: Bytes, s: nat :: LevelLookup(fs, k, s) == Lookup(Concat(parts), k, s)) <==>
            SplitsBetweenKeys(parts)
  {
    hide Concat, Lookup, StrictlySorted, SplitsBetweenKeys, LevelLookup;
    StrictIsSorted(Concat(parts));
    if SplitsBetweenKeys(parts) {
      forall k: Bytes, s: nat ensures LevelLookup(fs, k, s) == Lookup(Concat(parts), k, s) {
        SearchRight(parts, numbers, level, fs, k, s);
      }
    } else {
      var k, s := SearchWrong(parts, numbers, level, fs);
    }
  }
}
