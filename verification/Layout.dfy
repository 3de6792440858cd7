// How a version is listed: the sorts by number and by smallest key, the version a
// compaction installs, and the output files it consists of.
module Layout {
  import opened Keys
  import opened Entries
  import opened Versions
  import opened Compaction
  import opened Gc

  // ------------------------------------------------------------------ sorting

  datatype Order = ByFileNumber | BySmallestKey

  predicate Precedes(o: Order, f: FileMeta, g: FileMeta) {
    match o
    case ByFileNumber => f.number < g.number
    case BySmallestKey => Less(f.smallest, g.smallest)
  }

  function Insert(o: Order, f: FileMeta, fs: seq<FileMeta>): (r: seq<FileMeta>)
    ensures forall g :: g in r <==> g == f || g in fs
  {
    if fs == [] || !Precedes(o, fs[0], f) then [f] + fs
    else
      assert fs == [fs[0]] + fs[1..];
      [fs[0]] + Insert(o, f, fs[1..])
  }

  function Sort(o: Order, fs: seq<FileMeta>): (r: seq<FileMeta>)
    ensures forall g :: g in r <==> g in fs
  {
    if fs == [] then []
    else
      assert fs == [fs[0]] + fs[1..];
      Insert(o, fs[0], Sort(o, fs[1..]))
  }

  predicate Strict(o: Order, fs: seq<FileMeta>) {
    forall i, j :: 0 <= i < j < |fs| ==> Precedes(o, fs[i], fs[j])
  }

  predicate Comparable(o: Order, fs: seq<FileMeta>) {
    forall i, j :: 0 <= i < j < |fs| ==> Precedes(o, fs[i], fs[j]) || Precedes(o, fs[j], fs[i])
  }

  lemma PrecedesTransitive(o: Order, f: FileMeta, g: FileMeta, h: FileMeta)
    requires Precedes(o, f, g) && Precedes(o, g, h)
    ensures Precedes(o, f, h)
  {
    if o.BySmallestKey? { LessTransitive(f.smallest, g.smallest, h.smallest); }
  }

  lemma PrecedesAsymmetric(o: Order, f: FileMeta, g: FileMeta)
    requires Precedes(o, f, g)
    ensures f != g && !Precedes(o, g, f)
  {
    if o.BySmallestKey? { LessAsymmetric(f.smallest, g.smallest); }
  }

  lemma {:induction false} InsertSorted(o: Order, f: FileMeta, fs: seq<FileMeta>)
    requires Strict(o, fs)
    requires forall g :: g in fs ==> Precedes(o, f, g) || Precedes(o, g, f)
    ensures Strict(o, Insert(o, f, fs))
  {
    if fs == [] {
    } else if !Precedes(o, fs[0], f) {
      assert fs[0] in fs;
      forall j | 1 <= j < |fs| ensures Precedes(o, f, fs[j]) { PrecedesTransitive(o, f, fs[0], fs[j]); }
    } else {
      assert fs[0] in fs;
      InsertSorted(o, f, fs[1..]);
      var r := Insert(o, f, fs[1..]);
      forall j | 0 <= j < |r| ensures Precedes(o, fs[0], r[j]) {
        assert r[j] in r;
        if r[j] != f {
          var i :| 0 <= i < |fs[1..]| && fs[1..][i] == r[j];
          assert fs[i + 1] == r[j];
        }
      }
    }
  }

  lemma {:induction false} SortSorts(o: Order, fs: seq<FileMeta>)
    requires Comparable(o, fs)
    ensures Strict(o, Sort(o, fs))
  {
    if fs != [] {
      var r := Sort(o, fs[1..]);
      SortSorts(o, fs[1..]);
      forall g | g in r ensures Precedes(o, fs[0], g) || Precedes(o, g, fs[0]) {
        var j :| 0 <= j < |fs[1..]| && fs[1..][j] == g;
        assert fs[j + 1] == g;
      }
      InsertSorted(o, fs[0], r);
    }
  }

  lemma StrictHead(o: Order, a: seq<FileMeta>, g: FileMeta)
    requires Strict(o, a) && g in a
    ensures g == a[0] || (Precedes(o, a[0], g) && g in a[1..])
    ensures a[0] !in a[1..]
  {
    var i :| 0 <= i < |a| && a[i] == g;
    assert i > 0 ==> a[1..][i - 1] == g;
    forall j | 1 <= j < |a| ensures a[j] != a[0] { PrecedesAsymmetric(o, a[0], a[j]); }
  }

  /** A strictly sorted arrangement is the only one: whatever sorts the files yields it. */
  lemma {:induction false} StrictUnique(o: Order, a: seq<FileMeta>, b: seq<FileMeta>)
    requires Strict(o, a) && Strict(o, b) && forall g :: g in a <==> g in b
    ensures a == b
  {
    assert a != [] ==> a[0] in a;
    assert b != [] ==> b[0] in b;
    if a != [] && b != [] {
      StrictHead(o, a, b[0]);
      StrictHead(o, b, a[0]);
      if a[0] != b[0] { PrecedesAsymmetric(o, a[0], b[0]); }
      forall g ensures g in a[1..] <==> g in b[1..] {
        if g in a[1..] { StrictHead(o, b, g); }
        if g in b[1..] { StrictHead(o, a, g); }
      }
      StrictUnique(o, a[1..], b[1..]);
    }
  }

  // ---------------------------------------------------- committing a compaction

  function Numbers(fs: seq<FileMeta>): set<nat> {
    set f | f in fs :: f.number
  }

  function Without(fs: seq<FileMeta>, nums: set<nat>): (r: seq<FileMeta>)
    ensures forall f :: f in r <==> f in fs && f.number !in nums
  {
    if fs == [] then []
    else (if fs[0].number in nums then [] else [fs[0]]) + Without(fs[1..], nums)
  }

  /** The version a compaction installs: inputs out, outputs in, output level sorted. */
  function Committed(v: Version, nums: set<nat>, outs: seq<FileMeta>, out: nat): Version
    requires out < MAX_LEVELS
  {
    seq(MAX_LEVELS, l requires 0 <= l < MAX_LEVELS =>
      if l == out then
        if out >= 1 then Sort(BySmallestKey, Without(v[l], nums) + outs) else Without(v[l], nums) + outs
      else Without(v[l], nums))
  }

  lemma {:induction false} WithoutKeepsOrder(o: Order, fs: seq<FileMeta>, nums: set<nat>)
    requires Strict(o, fs)
    ensures Strict(o, Without(fs, nums))
  {
    hide Precedes;
    if fs != [] {
      var rest := fs[1..];
      WithoutKeepsOrder(o, rest, nums);
      var r := Without(rest, nums);
      hide Without;
      forall j | 0 <= j < |r| ensures Precedes(o, fs[0], r[j]) {
        assert r[j] in r;
        FirstPrecedes(o, fs, r[j]);
      }
      WithoutFirst(fs, nums);
    }
  }

  lemma FirstPrecedes(o: Order, fs: seq<FileMeta>, f: FileMeta)
    requires Strict(o, fs) && fs != [] && f in fs[1..]
    ensures Precedes(o, fs[0], f)
  {
    hide Precedes;
    var i :| 0 <= i < |fs[1..]| && fs[1..][i] == f;
    assert fs[i + 1] == f;
  }

  lemma WithoutFirst(fs: seq<FileMeta>, nums: set<nat>)
    requires fs != []
    ensures Without(fs, nums) == (if fs[0].number in nums then [] else [fs[0]]) + Without(fs[1..], nums)
  {
  }

  lemma PlainOrders(fs: seq<FileMeta>)
    ensures ByNumber(fs) <==> Strict(ByFileNumber, fs)
    ensures BySmallest(fs) <==> Strict(BySmallestKey, fs)
  {
    assert forall f, g :: Precedes(BySmallestKey, f, g) <==> Less(f.smallest, g.smallest);
  }

  lemma DisjointComparable(f: FileMeta, g: FileMeta)
    requires FileOk(f) && FileOk(g) && (LeftOf(f, g) || LeftOf(g, f))
    ensures Less(f.smallest, g.smallest) || Less(g.smallest, f.smallest)
  {
    RangeNonEmpty(f);
    RangeNonEmpty(g);
    if LeftOf(f, g) {
      NotGreaterThenLess(f.smallest, f.largest, g.smallest);
    } else {
      NotGreaterThenLess(g.smallest, g.largest, f.smallest);
    }
  }

  /** The output level before sorting: files left behind, then the outputs. */
  lemma OutputLevelComparable(left: seq<FileMeta>, outs: seq<FileMeta>)
    requires Strict(BySmallestKey, left)
    requires forall f :: f in left ==> FileOk(f)
    requires forall o :: o in outs ==> FileOk(o)
    requires forall i, j :: 0 <= i < j < |outs| ==> LeftOf(outs[i], outs[j]) || LeftOf(outs[j], outs[i])
    requires forall f, o :: f in left && o in outs ==> LeftOf(f, o) || LeftOf(o, f)
    ensures Comparable(BySmallestKey, left + outs)
  {
    var fs := left + outs;
    forall i, j | 0 <= i < j < |fs|
      ensures Precedes(BySmallestKey, fs[i], fs[j]) || Precedes(BySmallestKey, fs[j], fs[i])
    {
      if j >= |left| {
        assert fs[j] == outs[j - |left|] && fs[j] in outs;
        assert i < |left| ==> fs[i] == left[i] && fs[i] in left;
        assert i >= |left| ==> fs[i] == outs[i - |left|] && fs[i] in outs;
        DisjointComparable(fs[i], fs[j]);
      }
    }
  }

  lemma InputsByNumber(F: set<FileMeta>, inputs: seq<FileMeta>, f: FileMeta)
    requires SetOf(inputs) <= F && f in F
    requires forall f, g :: f in F && g in F && f.number == g.number ==> f == g
    ensures f.number in Numbers(inputs) <==> f in inputs
  {
    if f.number in Numbers(inputs) {
      var g :| g in inputs && g.number == f.number;
      assert g in SetOf(inputs);
    }
  }

  lemma LevelFiles(v: Version, f: FileMeta) returns (l: nat)
    requires f in Files(v)
    ensures l < MAX_LEVELS && f in v[l]
  {
    var l', i :| 0 <= l' < MAX_LEVELS && 0 <= i < |v[l']| && v[l'][i] == f;
    l := l';
  }

  lemma FileInLevel(v: Version, l: nat, f: FileMeta)
    requires l < MAX_LEVELS && f in v[l]
    ensures f in Files(v)
  {
  }

  lemma CommittedFiles(v: Version, inputs: seq<FileMeta>, outs: seq<FileMeta>, out: nat)
    requires 1 <= out < MAX_LEVELS && SetOf(inputs) <= Files(v)
    requires forall f, g :: f in Files(v) && g in Files(v) && f.number == g.number ==> f == g
    ensures Files(Committed(v, Numbers(inputs), outs, out)) == Replace(Files(v), SetOf(inputs), SetOf(outs))
  {
    var nums := Numbers(inputs);
    var v' := Committed(v, nums, outs, out);
    forall f | f in Files(v') ensures f in Replace(Files(v), SetOf(inputs), SetOf(outs)) {
      var l := LevelFiles(v', f);
      if f !in outs {
        assert f in Without(v[l], nums);
        FileInLevel(v, l, f);
        InputsByNumber(Files(v), inputs, f);
      }
    }
    forall f | f in Replace(Files(v), SetOf(inputs), SetOf(outs)) ensures f in Files(v') {
      if f in outs {
        FileInLevel(v', out, f);
      } else {
        var l := LevelFiles(v, f);
        InputsByNumber(Files(v), inputs, f);
        assert f in Without(v[l], nums);
        FileInLevel(v', l, f);
      }
    }
  }

  lemma CommittedArranged(v: Version, nums: set<nat>, outs: seq<FileMeta>, out: nat)
    requires Arranged(v) && 1 <= out < MAX_LEVELS
    requires forall o :: o in outs ==> o.level == out
    requires Comparable(BySmallestKey, Without(v[out], nums) + outs)
    ensures Arranged(Committed(v, nums, outs, out))
  {
    var v' := Committed(v, nums, outs, out);
    SortSorts(BySmallestKey, Without(v[out], nums) + outs);
    forall l | 0 <= l < MAX_LEVELS
      ensures forall i :: 0 <= i < |v'[l]| ==> v'[l][i].level == l
      ensures if l == 0 then ByNumber(v'[l]) else BySmallest(v'[l])
    {
      PlainOrders(v[l]);
      PlainOrders(v'[l]);
      forall i | 0 <= i < |v'[l]| ensures v'[l][i].level == l {
        assert v'[l][i] in v'[l];
        assert v'[l][i] in v[l] || v'[l][i] in outs;
      }
      if l != out { WithoutKeepsOrder(if l == 0 then ByFileNumber else BySmallestKey, v[l], nums); }
    }
  }

  // ------------------------------------------------------------- output files

  function MakeFile(number: nat, level: nat, table: seq<Entry>): (f: FileMeta)
    requires table != []
  {
    FileMeta(number, level, table[0].key, table[|table| - 1].key, table)
  }

  function MakeOutputs(parts: seq<seq<Entry>>, numbers: seq<nat>, level: nat): (outs: seq<FileMeta>)
    requires |parts| == |numbers| && forall i :: 0 <= i < |parts| ==> parts[i] != []
    ensures |outs| == |parts|
    ensures forall i :: 0 <= i < |outs| ==> outs[i] == MakeFile(numbers[i], level, parts[i])
  {
    seq(|parts|, i requires 0 <= i < |parts| => MakeFile(numbers[i], level, parts[i]))
  }

  lemma OutputsFileOk(parts: seq<seq<Entry>>, numbers: seq<nat>, level: nat)
    requires |parts| == |numbers| && Sorted(Concat(parts))
    requires forall i :: 0 <= i < |parts| ==> parts[i] != []
    ensures forall i :: 0 <= i < |parts| ==> FileOk(MakeOutputs(parts, numbers, level)[i])
  {
    forall i | 0 <= i < |parts| ensures FileOk(MakeOutputs(parts, numbers, level)[i]) { PartSorted(parts, i); }
  }

  lemma SplitsApart(parts: seq<seq<Entry>>, i: nat, j: nat)
    requires Sorted(Concat(parts)) && SplitsBetweenKeys(parts) && i < j < |parts| && parts[i] != [] && parts[j] != []
    ensures Less(parts[i][|parts[i]| - 1].key, parts[j][0].key)
  {
    var x, y := parts[i][|parts[i]| - 1], parts[j][0];
    assert x in parts[i] && y in parts[j];
    PartsInOrder(parts, i, j, x, y);
    LessTotal(x.key, y.key);
  }

  lemma StraddleOverlaps(parts: seq<seq<Entry>>, numbers: seq<nat>, level: nat) returns (i: nat, j: nat)
    requires |parts| == |numbers| && Sorted(Concat(parts)) && !SplitsBetweenKeys(parts)
    requires forall i :: 0 <= i < |parts| ==> parts[i] != []
    ensures i < j < |parts|
    ensures var f, g := MakeFile(numbers[i], level, parts[i]), MakeFile(numbers[j], level, parts[j]);
            !LeftOf(f, g) && !LeftOf(g, f)
  {
    hide Concat, LeftOf, Before;
    var a, b, x, y :| 0 <= a < b < |parts| && x in parts[a] && y in parts[b] && x.key == y.key;
    i, j := a, b;
    PartSorted(parts, i);
    PartSorted(parts, j);
    hide SplitsBetweenKeys;
    SharedKeyNotDisjoint(MakeFile(numbers[i], level, parts[i]), MakeFile(numbers[j], level, parts[j]), x, y);
  }

  /** Ranges of the outputs are disjoint if and only if no key straddles two of them. */
  lemma OutputsDisjointIff(parts: seq<seq<Entry>>, numbers: seq<nat>, level: nat)
    requires |parts| == |numbers| && Sorted(Concat(parts))
    requires forall i :: 0 <= i < |parts| ==> parts[i] != []
    ensures var outs := MakeOutputs(parts, numbers, level);
            (forall i, j :: 0 <= i < j < |outs| ==> LeftOf(outs[i], outs[j]) || LeftOf(outs[j], outs[i])) <==>
                SplitsBetweenKeys(parts)
  {
    var outs := MakeOutputs(parts, numbers, level);
    if SplitsBetweenKeys(parts) {
      forall i, j | 0 <= i < j < |outs| ensures LeftOf(outs[i], outs[j]) { SplitsApart(parts, i, j); }
    } else {
      var i, j := StraddleOverlaps(parts, numbers, level);
      assert !LeftOf(outs[i], outs[j]) && !LeftOf(outs[j], outs[i]);
    }
  }

  lemma PairsOfOutputs(outs: seq<FileMeta>, o: FileMeta, p: FileMeta)
    requires o in outs && p in outs && o != p
    requires forall i, j :: 0 <= i < j < |outs| ==> LeftOf(outs[i], outs[j]) || LeftOf(outs[j], outs[i])
    requires forall i, j :: 0 <= i < j < |outs| ==> outs[i].number != outs[j].number
    ensures o.number != p.number && (LeftOf(o, p) || LeftOf(p, o))
  {
    var i :| 0 <= i < |outs| && outs[i] == o;
    var j :| 0 <= j < |outs| && outs[j] == p;
    assert i < j || j < i;
  }

  lemma OutputsStore(parts: seq<seq<Entry>>, numbers: seq<nat>, level: nat, e: Entry)
    requires |parts| == |numbers| && forall i :: 0 <= i < |parts| ==> parts[i] != []
    ensures e in StoredIn(SetOf(MakeOutputs(parts, numbers, level))) <==> e in Concat(parts)
  {
    var outs := MakeOutputs(parts, numbers, level);
    ConcatMembers(parts, e);
    if e in StoredIn(SetOf(outs)) {
      var o :| o in SetOf(outs) && e in o.table;
      var i :| 0 <= i < |outs| && outs[i] == o;
      assert e in parts[i];
    }
    if i :| 0 <= i < |parts| && e in parts[i] {
      assert outs[i] in SetOf(outs) && e in outs[i].table;
    }
  }

  lemma PlannedStore(I: set<FileMeta>, merged: seq<Entry>, parts: seq<seq<Entry>>, oldest: nat, bottom: bool,
                     target: nat, numbers: seq<nat>, out: nat)
    requires Sorted(merged) && Elements(merged) == StoredIn(I) && Functional(StoredIn(I))
    requires parts == Split(Collect(merged, oldest, bottom, [], false), target, [], 0) && |parts| == |numbers|
    ensures Sorted(Concat(parts))
    ensures forall e :: e in StoredIn(SetOf(MakeOutputs(parts, numbers, out))) <==>
                        Survives(StoredIn(I), oldest, bottom, e)
  {
    hide Survives, StoredIn, Sorted, Collect, MakeOutputs;
    var kept := Collect(merged, oldest, bottom, [], false);
    CollectKeepsSurvivors(merged, oldest, bottom);
    SplitConcat(kept, target, [], 0);
    assert Concat(parts) == kept;
    forall e
      ensures e in StoredIn(SetOf(MakeOutputs(parts, numbers, out))) <==> Survives(StoredIn(I), oldest, bottom, e)
    {
      OutputsStore(parts, numbers, out, e);
    }
  }

  /**
   * The files written from a merged stream hold exactly the surviving versions, and they are
   * the outputs the commit argument needs if and only if no key straddles two of them.
   */
  lemma PlannedOutputs(I: set<FileMeta>, merged: seq<Entry>, parts: seq<seq<Entry>>, oldest: nat, bottom: bool,
                       target: nat, numbers: seq<nat>, out: nat)
    requires Sorted(merged) && Elements(merged) == StoredIn(I) && Functional(StoredIn(I))
    requires parts == Split(Collect(merged, oldest, bottom, [], false), target, [], 0)
    requires |parts| == |numbers|
    requires forall i, j :: 0 <= i < j < |numbers| ==> numbers[i] != numbers[j]
    ensures var O := SetOf(MakeOutputs(parts, numbers, out));
            && (forall e :: e in StoredIn(O) <==> Survives(StoredIn(I), oldest, bottom, e))
            && (OutputsOf(O, I, out, bottom, oldest) <==> SplitsBetweenKeys(parts))
  {
    hide LeftOf, FileOk, Survives, SplitsBetweenKeys, StoredIn, Sorted, Split, Collect, Concat;
    PlannedStore(I, merged, parts, oldest, bottom, target, numbers, out);
    var outs := MakeOutputs(parts, numbers, out);
    var O := SetOf(outs);
    OutputsFileOk(parts, numbers, out);
    OutputsDisjointIff(parts, numbers, out);
    if SplitsBetweenKeys(parts) {
      forall o, p | o in O && p in O && o != p ensures o.number != p.number && (LeftOf(o, p) || LeftOf(p, o)) {
        PairsOfOutputs(outs, o, p);
      }
    } else {
      var i, j := StraddleOverlaps(parts, numbers, out);
      assert outs[i] in O && outs[j] in O && outs[i] != outs[j];
    }
  }
}
