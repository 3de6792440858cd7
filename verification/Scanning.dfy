// Range scans: the sources a scan merges, and that the merged answer is exactly
// what point lookups would say.
module Scanning {
  import opened Keys
  import opened Entries
  import opened Versions
  import opened Merging

  /** SSTable::seek and raw_lower_bound: from the first entry whose key is not below k. */
  function SeekFrom(t: seq<Entry>, k: Bytes): seq<Entry> {
    if t != [] && Less(t[0].key, k) then SeekFrom(t[1..], k) else t
  }

  function UpTo(t: seq<Entry>, end: Bytes): seq<Entry> {
    if t == [] || Less(end, t[0].key) then [] else [t[0]] + UpTo(t[1..], end)
  }

  /** All L0 files, each from the start key. */
  function L0Sources(fs: seq<FileMeta>, start: Bytes): seq<seq<Entry>> {
    if fs == [] then []
    else L0Sources(fs[..|fs| - 1], start) + [SeekFrom(fs[|fs| - 1].table, start)]
  }

  /** The files of one deeper level whose range meets [start, end]. */
  function LevelSources(fs: seq<FileMeta>, start: Bytes, end: Bytes): seq<seq<Entry>> {
    if fs == [] then []
    else
      var f := fs[|fs| - 1];
      LevelSources(fs[..|fs| - 1], start, end) + (if Overlaps(f, start, end) then [SeekFrom(f.table, start)] else [])
  }

  function DeepSources(v: Version, n: nat, start: Bytes, end: Bytes): seq<seq<Entry>>
    requires 1 <= n <= MAX_LEVELS
  {
    if n == 1 then [] else DeepSources(v, n - 1, start, end) + LevelSources(v[n - 1], start, end)
  }

  function Sources(mem: seq<Entry>, v: Version, start: Bytes, end: Bytes): seq<seq<Entry>> {
    [UpTo(SeekFrom(mem, start), end)] + L0Sources(v[0], start) + DeepSources(v, MAX_LEVELS, start, end)
  }

  lemma OverlappingStep(f: FileMeta, rest: seq<FileMeta>, lo: Bytes, hi: Bytes)
    ensures Overlapping([f] + rest, lo, hi) == (if Overlaps(f, lo, hi) then [f] else []) + Overlapping(rest, lo, hi)
  {
    hide Overlaps;
    assert ([f] + rest)[1..] == rest;
  }

  lemma {:induction false} OverlappingSnoc(fs: seq<FileMeta>, f: FileMeta, lo: Bytes, hi: Bytes)
    ensures Overlapping(fs + [f], lo, hi) == Overlapping(fs, lo, hi) + if Overlaps(f, lo, hi) then [f] else []
    decreases |fs|
  {
    hide Overlaps, Overlapping;
    NoneOverlapping(lo, hi);
    if fs == [] {
      OverlappingStep(f, [], lo, hi);
      assert fs + [f] == [f] + [];
    } else {
      var rest := fs[1..];
      OverlappingSnoc(rest, f, lo, hi);
      OverlappingStep(fs[0], rest, lo, hi);
      OverlappingStep(fs[0], rest + [f], lo, hi);
      assert fs + [f] == [fs[0]] + (rest + [f]) && fs == [fs[0]] + rest;
    }
  }

  lemma L0SourcesSnoc(fs: seq<FileMeta>, f: FileMeta, start: Bytes)
    ensures L0Sources(fs + [f], start) == L0Sources(fs, start) + [SeekFrom(f.table, start)]
  {
    hide SeekFrom;
    assert (fs + [f])[..|fs|] == fs;
  }

  /** A deeper level is read as L0 is, except that files without a key in the range are passed over. */
  lemma {:induction false} LevelSourcesAre(fs: seq<FileMeta>, start: Bytes, end: Bytes)
    ensures LevelSources(fs, start, end) == L0Sources(Overlapping(fs, start, end), start)
    decreases |fs|
  {
    hide Overlaps, Overlapping, SeekFrom;
    NoneOverlapping(start, end);
    if fs != [] {
      var front, f := fs[..|fs| - 1], fs[|fs| - 1];
      var all := Overlapping(front, start, end);
      LevelSourcesAre(front, start, end);
      OverlappingSnoc(front, f, start, end);
      assert front + [f] == fs && all + [] == all;
      L0SourcesSnoc(all, f, start);
    }
  }

  lemma NoneOverlapping(lo: Bytes, hi: Bytes)
    ensures Overlapping([], lo, hi) == []
  {
  }

  // ---------------------------------------------------------- what they cover

  lemma {:induction false} SeekMembers(t: seq<Entry>, k: Bytes)
    requires Sorted(t)
    ensures Sorted(SeekFrom(t, k))
    ensures forall e :: e in SeekFrom(t, k) <==> e in t && !Less(e.key, k)
  {
    if t != [] {
      if Less(t[0].key, k) {
        SeekMembers(t[1..], k);
        assert forall e :: e in t <==> e == t[0] || e in t[1..];
      } else {
        forall e | e in t ensures !Less(e.key, k) {
          var i :| 0 <= i < |t| && t[i] == e;
          assert i > 0 ==> !Before(t[i], t[0]);
          if Less(e.key, k) { LessThenNotGreater(e.key, k, t[0].key); }
        }
      }
    }
  }

  lemma {:induction false} UpToMembers(t: seq<Entry>, end: Bytes)
    requires Sorted(t)
    ensures Sorted(UpTo(t, end))
    ensures forall e :: e in UpTo(t, end) <==> e in t && !Less(end, e.key)
  {
    if t != [] {
      assert forall e :: e in t <==> e == t[0] || e in t[1..];
      UpToMembers(t[1..], end);
      var r := UpTo(t[1..], end);
      forall j | 0 <= j < |r| ensures !Before(r[j], t[0]) {
        assert r[j] in r;
        var i :| 0 <= i < |t[1..]| && t[1..][i] == r[j];
        assert !Before(t[i + 1], t[0]);
      }
      if Less(end, t[0].key) {
        forall e | e in t ensures Less(end, e.key) {
          var i :| 0 <= i < |t| && t[i] == e;
          assert i > 0 ==> !Before(t[i], t[0]);
          LessThenNotGreater(end, t[0].key, e.key);
        }
      } else {
        assert Sorted([t[0]] + r);
      }
    }
  }

  /** ss holds, among the entries at or above start, the ones of the files in F. */
  ghost predicate Covers(ss: seq<seq<Entry>>, F: set<FileMeta>, start: Bytes, end: Bytes) {
    && AllSorted(ss)
    && (forall e :: e in Union(ss) ==> e in StoredIn(F) && !Less(e.key, start))
    && (forall e :: e in StoredIn(F) && !Less(e.key, start) && !Less(end, e.key) ==> e in Union(ss))
  }

  lemma UnionConcat(a: seq<seq<Entry>>, b: seq<seq<Entry>>)
    ensures Union(a + b) == Union(a) + Union(b)
  {
    forall e | e in Union(a) ensures e in Union(a + b) {
      var i :| 0 <= i < |a| && e in a[i];
      assert e in (a + b)[i];
    }
    forall e | e in Union(b) ensures e in Union(a + b) {
      var i :| 0 <= i < |b| && e in b[i];
      assert e in (a + b)[|a| + i];
    }
    forall e | e in Union(a + b) ensures e in Union(a) + Union(b) {
      var i :| 0 <= i < |a + b| && e in (a + b)[i];
      assert if i < |a| then e in a[i] else e in b[i - |a|];
    }
  }

  lemma CoversTogether(a: seq<seq<Entry>>, F: set<FileMeta>, b: seq<seq<Entry>>, G: set<FileMeta>, start: Bytes,
                       end: Bytes)
    requires Covers(a, F, start, end) && Covers(b, G, start, end)
    ensures Covers(a + b, F + G, start, end)
  {
    hide Union;
    UnionConcat(a, b);
    assert StoredIn(F + G) == StoredIn(F) + StoredIn(G);
  }

  lemma CoversOne(f: FileMeta, start: Bytes, end: Bytes)
    requires FileOk(f)
    ensures Covers([SeekFrom(f.table, start)], {f}, start, end)
  {
    SeekMembers(f.table, start);
    var ss := [SeekFrom(f.table, start)];
    assert forall e :: e in Union(ss) <==> e in ss[0];
    assert StoredIn({f}) == Elements(f.table);
  }

  lemma CoversNone(f: FileMeta, start: Bytes, end: Bytes)
    requires FileOk(f) && !Overlaps(f, start, end)
    ensures Covers([], {f}, start, end)
  {
    forall e | e in f.table ensures Less(e.key, start) || Less(end, e.key) {
      KeyInRange(f, e);
      if Less(f.largest, start) {
        NotGreaterThenLess(e.key, f.largest, start);
      } else {
        LessThenNotGreater(end, f.smallest, e.key);
      }
    }
  }

  lemma {:induction false} L0Covers(fs: seq<FileMeta>, start: Bytes, end: Bytes)
    requires forall f :: f in fs ==> FileOk(f)
    ensures Covers(L0Sources(fs, start), SetOf(fs), start, end)
  {
    if fs != [] {
      var init, f := fs[..|fs| - 1], fs[|fs| - 1];
      L0Covers(init, start, end);
      CoversOne(f, start, end);
      assert SetOf(fs) == SetOf(init) + {f} by { assert fs == init + [f]; }
      CoversTogether(L0Sources(init, start), SetOf(init), [SeekFrom(f.table, start)], {f}, start, end);
    }
  }

  lemma {:induction false} LevelCovers(fs: seq<FileMeta>, start: Bytes, end: Bytes)
    requires forall f :: f in fs ==> FileOk(f)
    ensures Covers(LevelSources(fs, start, end), SetOf(fs), start, end)
  {
    if fs != [] {
      var init, f := fs[..|fs| - 1], fs[|fs| - 1];
      LevelCovers(init, start, end);
      assert SetOf(fs) == SetOf(init) + {f} by { assert fs == init + [f]; }
      if Overlaps(f, start, end) {
        CoversOne(f, start, end);
        CoversTogether(LevelSources(init, start, end), SetOf(init), [SeekFrom(f.table, start)], {f}, start, end);
      } else {
        CoversNone(f, start, end);
        CoversTogether(LevelSources(init, start, end), SetOf(init), [], {f}, start, end);
      }
    }
  }

  ghost function FilesBelow(v: Version, n: nat): set<FileMeta>
    requires 1 <= n <= MAX_LEVELS
  {
    if n == 1 then {} else FilesBelow(v, n - 1) + SetOf(v[n - 1])
  }

  lemma {:induction false} DeepCovers(v: Version, n: nat, start: Bytes, end: Bytes)
    requires 1 <= n <= MAX_LEVELS && forall l, f :: 1 <= l < n && f in v[l] ==> FileOk(f)
    ensures Covers(DeepSources(v, n, start, end), FilesBelow(v, n), start, end)
  {
    if n > 1 {
      DeepCovers(v, n - 1, start, end);
      LevelCovers(v[n - 1], start, end);
      CoversTogether(DeepSources(v, n - 1, start, end), FilesBelow(v, n - 1),
                     LevelSources(v[n - 1], start, end), SetOf(v[n - 1]), start, end);
    }
  }

  lemma {:induction false} FilesBelowMembers(v: Version, n: nat, f: FileMeta)
    requires 1 <= n <= MAX_LEVELS
    ensures f in FilesBelow(v, n) <==> exists l :: 1 <= l < n && f in v[l]
  {
    if n > 1 { FilesBelowMembers(v, n - 1, f); }
  }

  lemma AllFiles(v: Version)
    ensures SetOf(v[0]) + FilesBelow(v, MAX_LEVELS) == Files(v)
  {
    forall f ensures f in SetOf(v[0]) + FilesBelow(v, MAX_LEVELS) <==> f in Files(v) {
      FilesBelowMembers(v, MAX_LEVELS, f);
      if f in Files(v) {
        var l, i :| 0 <= l < MAX_LEVELS && 0 <= i < |v[l]| && v[l][i] == f;
        assert f in v[l];
      }
    }
  }

  /** Despite seeks and range filtering the sources hold every stored version in range. */
  lemma SourcesCover(mem: seq<Entry>, v: Version, start: Bytes, end: Bytes)
    requires Healthy(mem, v)
    ensures var P := Union(Sources(mem, v, start, end));
            && AllSorted(Sources(mem, v, start, end))
            && (forall e :: e in P ==> e in Stored(mem, Files(v)) && !Less(e.key, start))
            && (forall e :: e in Stored(mem, Files(v)) && !Less(e.key, start) && !Less(end, e.key) ==> e in P)
  {
    hide Union, Over, LeftOf, Functional, ByNumber, BySmallest, FilesBelow;
    var m := [UpTo(SeekFrom(mem, start), end)];
    var l0, deep := L0Sources(v[0], start), DeepSources(v, MAX_LEVELS, start, end);
    SeekMembers(mem, start);
    UpToMembers(SeekFrom(mem, start), end);
    forall l, f | 0 <= l < MAX_LEVELS && f in v[l] ensures FileOk(f) { assert f in Files(v); }
    L0Covers(v[0], start, end);
    DeepCovers(v, MAX_LEVELS, start, end);
    CoversTogether(l0, SetOf(v[0]), deep, FilesBelow(v, MAX_LEVELS), start, end);
    AllFiles(v);
    UnionConcat(m, l0 + deep);
    assert m + (l0 + deep) == Sources(mem, v, start, end);
    UnionSingle(m[0]);
  }

  lemma UnionSingle(t: seq<Entry>)
    ensures Union([t]) == Elements(t)
  {
    forall e | e in t ensures e in Union([t]) { assert e in [t][0]; }
  }

  // ------------------------------------------------------------ delivering

  ghost predicate Reached(k: Bytes, hi: Option<Bytes>) {
    hi.Some? && !Less(hi.value, k)
  }

  ghost function Beyond(P: set<Entry>, hi: Option<Bytes>): set<Entry> {
    if hi.None? then P else After(P, hi.value)
  }

  ghost predicate Lists(P: set<Entry>, s: nat, out: seq<(Bytes, Bytes)>, hi: Option<Bytes>) {
    && (forall i, j :: 0 <= i < j < |out| ==> Less(out[i].0, out[j].0))
    && (forall i :: 0 <= i < |out| ==> Reached(out[i].0, hi) && Emits(P, s, out[i].0, out[i].1))
    && (forall e :: e in P && Yields(P, e, s, false) && Reached(e.key, hi) ==> (e.key, e.value) in out)
  }

  ghost predicate Emits(P: set<Entry>, s: nat, k: Bytes, val: Bytes) {
    exists e :: e in P && Yields(P, e, s, false) && e.key == k && e.value == val
  }

  /** What the iterator promises about its current position, over the whole pool P. */
  ghost predicate Positioned(P: set<Entry>, s: nat, hi: Option<Bytes>, valid: bool, current: Entry, rest: set<Entry>) {
    && (forall e :: e in P && !Reached(e.key, hi) && (valid ==> Less(e.key, current.key)) ==>
        Silent(P, e.key, s, false))
    && (valid ==>
          && current in P && Yields(P, current, s, false)
          && rest == After(P, current.key) && !Reached(current.key, hi))
  }

  lemma OutcomeBeyond(P: set<Entry>, hi: Option<Bytes>, k: Bytes, s: nat, found: bool, best: Entry)
    requires !Reached(k, hi)
    ensures Outcome(Beyond(P, hi), k, s, found, best) <==> Outcome(P, k, s, found, best)
  {
    forall e: Entry | e.key == k ensures e in Beyond(P, hi) <==> e in P {
    }
  }

  lemma SilentBeyond(P: set<Entry>, hi: Option<Bytes>, k: Bytes, s: nat)
    requires !Reached(k, hi) && Silent(Beyond(P, hi), k, s, false)
    ensures Silent(P, k, s, false)
  {
    var found, best :| Outcome(Beyond(P, hi), k, s, found, best) && !(found && !best.tombstone);
    OutcomeBeyond(P, hi, k, s, found, best);
  }

  lemma AfterBeyond(P: set<Entry>, hi: Option<Bytes>, k: Bytes)
    requires !Reached(k, hi)
    ensures After(Beyond(P, hi), k) == After(P, k)
  {
    if hi.Some? {
      forall e | e in P && Less(k, e.key) ensures Less(hi.value, e.key) { LessTransitive(hi.value, k, e.key); }
    }
  }

  /** What one advance over the remaining entries means for the whole pool. */
  lemma AdvancePosition(P: set<Entry>, s: nat, hi: Option<Bytes>, valid: bool, current: Entry, rest: set<Entry>)
    requires valid ==> Yields(Beyond(P, hi), current, s, false) && rest == After(Beyond(P, hi), current.key)
    requires forall e :: e in Beyond(P, hi) && (valid ==> Less(e.key, current.key)) ==>
               Silent(Beyond(P, hi), e.key, s, false)
    ensures Positioned(P, s, hi, valid, current, rest)
  {
    forall e | e in P && !Reached(e.key, hi) && (valid ==> Less(e.key, current.key))
      ensures Silent(P, e.key, s, false)
    {
      assert e in Beyond(P, hi);
      SilentBeyond(P, hi, e.key, s);
    }
    if valid {
      assert current in Beyond(P, hi);
      OutcomeBeyond(P, hi, current.key, s, true, current);
      AfterBeyond(P, hi, current.key);
    }
  }

  lemma SilentYieldsNothing(P: set<Entry>, e: Entry, s: nat)
    requires Functional(P) && e in P && Silent(P, e.key, s, false)
    ensures !Yields(P, e, s, false)
  {
  }

  /** Emitting the current entry extends the listing up to its key. */
  lemma EmitExtends(P: set<Entry>, s: nat, out: seq<(Bytes, Bytes)>, hi: Option<Bytes>, current: Entry,
                    rest: set<Entry>)
    requires Functional(P) && Lists(P, s, out, hi) && Positioned(P, s, hi, true, current, rest)
    ensures Lists(P, s, out + [(current.key, current.value)], Some(current.key))
  {
    hide Silent, Yields;
    var out', hi' := out + [(current.key, current.value)], Some(current.key);
    LessIrreflexive(current.key);
    forall i | 0 <= i < |out| ensures Less(out[i].0, current.key) && Reached(out[i].0, hi') {
      NotGreaterThenLess(out[i].0, hi.value, current.key);
      LessAsymmetric(out[i].0, current.key);
    }
    forall i | 0 <= i < |out'| ensures Emits(P, s, out'[i].0, out'[i].1) {
      assert i < |out| ==> out'[i] == out[i];
    }
    forall e | e in P && Yields(P, e, s, false) && Reached(e.key, hi') ensures (e.key, e.value) in out' {
      if Reached(e.key, hi) {
        assert (e.key, e.value) in out;
      } else {
        LessTotal(e.key, current.key);
        if Less(e.key, current.key) {
          SilentYieldsNothing(P, e, s);
          assert false;
        }
        YieldsUnique(P, e, current, s);
      }
    }
  }

  lemma YieldsUnique(P: set<Entry>, e: Entry, f: Entry, s: nat)
    requires Functional(P) && Yields(P, e, s, false) && Yields(P, f, s, false) && e.key == f.key
    ensures e == f
  {
  }

  /** Over the pool of a scan, a key in range emits exactly what a point lookup answers. */
  lemma EmitsIffGet(mem: seq<Entry>, v: Version, start: Bytes, end: Bytes, s: nat, k: Bytes, val: Bytes)
    requires Healthy(mem, v) && !Less(k, start) && !Less(end, k)
    ensures Emits(Union(Sources(mem, v, start, end)), s, k, val) <==> Get(mem, v, k, s) == Some(val)
  {
    hide Get, Stored, Files, Arranged, FilesOk, Sources, Union, Over;
    var P, S := Union(Sources(mem, v, start, end)), Stored(mem, Files(v));
    SourcesCover(mem, v, start, end);
    GetReadsNewest(mem, v, k, s);
    forall e ensures Outcome(P, k, s, true, e) <==> IsNewest(S, k, s, Some(e)) {
    }
    if Emits(P, s, k, val) {
      var e :| e in P && Yields(P, e, s, false) && e.key == k && e.value == val;
      NewestUnique(S, k, s, Some(e));
    }
    if Get(mem, v, k, s) == Some(val) {
      var e := Newest(S, k, s).value;
      assert Outcome(P, k, s, true, e);
    }
  }

  lemma PoolFunctional(mem: seq<Entry>, v: Version, start: Bytes, end: Bytes)
    requires Healthy(mem, v)
    ensures Functional(Union(Sources(mem, v, start, end)))
  {
    hide Stored, Files, Arranged, FilesOk, Sources, Union, Over;
    SourcesCover(mem, v, start, end);
  }

  // ------------------------------------------------------------- scan_impl

  lemma SeekStep(t: seq<Entry>, i: nat, k: Bytes)
    requires i <= |t|
    ensures i < |t| && Less(t[i].key, k) ==> SeekFrom(t[i..], k) == SeekFrom(t[i + 1..], k)
    ensures !(i < |t| && Less(t[i].key, k)) ==> SeekFrom(t[i..], k) == t[i..]
  {
    if i < |t| { assert t[i..][1..] == t[i + 1..]; }
  }

  lemma UpToStep(t: seq<Entry>, i: nat, end: Bytes)
    requires i <= |t|
    ensures i < |t| && !Less(end, t[i].key) ==> UpTo(t[i..], end) == [t[i]] + UpTo(t[i + 1..], end)
    ensures !(i < |t| && !Less(end, t[i].key)) ==> UpTo(t[i..], end) == []
  {
    if i < |t| { assert t[i..][1..] == t[i + 1..]; }
  }

  method MemRange(mem: seq<Entry>, start: Bytes, end: Bytes) returns (r: seq<Entry>)
    ensures r == UpTo(SeekFrom(mem, start), end)
  {
    hide SeekFrom, UpTo, Less;
    var i := 0;
    assert mem[0..] == mem;
    while i < |mem| && Less(mem[i].key, start)
      invariant i <= |mem|
      invariant SeekFrom(mem[i..], start) == SeekFrom(mem, start)
    {
      SeekStep(mem, i, start);
      i := i + 1;
    }
    SeekStep(mem, i, start);
    r := [];
    while i < |mem| && !Less(end, mem[i].key)
      invariant i <= |mem|
      invariant r + UpTo(mem[i..], end) == UpTo(SeekFrom(mem, start), end)
    {
      UpToStep(mem, i, end);
      assert r + [mem[i]] + UpTo(mem[i + 1..], end) == r + UpTo(mem[i..], end);
      r := r + [mem[i]];
      i := i + 1;
    }
    UpToStep(mem, i, end);
  }

  method GatherL0(fs: seq<FileMeta>, start: Bytes) returns (ss: seq<seq<Entry>>)
    ensures ss == L0Sources(fs, start)
  {
    ss := [];
    for i := 0 to |fs|
      invariant ss == L0Sources(fs[..i], start)
    {
      assert fs[..i + 1][..i] == fs[..i];
      ss := ss + [SeekFrom(fs[i].table, start)];
    }
    assert fs[..|fs|] == fs;
  }

  method GatherLevel(fs: seq<FileMeta>, start: Bytes, end: Bytes) returns (ss: seq<seq<Entry>>)
    ensures ss == LevelSources(fs, start, end)
  {
    ss := [];
    for i := 0 to |fs|
      invariant ss == LevelSources(fs[..i], start, end)
    {
      assert fs[..i + 1][..i] == fs[..i];
      if Overlaps(fs[i], start, end) {
        ss := ss + [SeekFrom(fs[i].table, start)];
      }
    }
    assert fs[..|fs|] == fs;
  }

  method GatherSources(mem: seq<Entry>, v: Version, start: Bytes, end: Bytes) returns (ss: seq<seq<Entry>>)
    ensures ss == Sources(mem, v, start, end)
  {
    var m := MemRange(mem, start, end);
    var l0 := GatherL0(v[0], start);
    var deep := [];
    for l := 1 to MAX_LEVELS
      invariant deep == DeepSources(v, l, start, end)
    {
      var level := GatherLevel(v[l], start, end);
      deep := deep + level;
    }
    ss := [m] + l0 + deep;
  }

  /**
   * Scan agrees with get: keys come out strictly ascending, and (k, value) comes out exactly
   * when k is in [start, end] and a get of k at the same bound answers value.
   */
  method Scan(mem: seq<Entry>, v: Version, start: Bytes, end: Bytes, s: nat) returns (out: seq<(Bytes, Bytes)>)
    requires Healthy(mem, v)
    ensures forall i, j :: 0 <= i < j < |out| ==> Less(out[i].0, out[j].0)
    ensures forall k, val :: (k, val) in out <==> !Less(k, start) && !Less(end, k) && Get(mem, v, k, s) == Some(val)
  {
    hide Healthy, Sources;
    var ss := GatherSources(mem, v, start, end);
    out := ScanSources(mem, v, start, end, s, ss);
  }

  /** The merge over the sources of a scan. */
  method ScanSources(ghost mem: seq<Entry>, ghost v: Version, ghost start: Bytes, end: Bytes, s: nat,
                     ss: seq<seq<Entry>>) returns (out: seq<(Bytes, Bytes)>)
    requires Healthy(mem, v) && ss == Sources(mem, v, start, end)
    ensures forall i, j :: 0 <= i < j < |out| ==> Less(out[i].0, out[j].0)
    ensures forall k, val :: (k, val) in out <==> !Less(k, start) && !Less(end, k) && Get(mem, v, k, s) == Some(val)
  {
    hide Get, Healthy, Sources, Union, Silent, Yields, AllSorted, NonEmpty;
    ghost var P := Union(ss);
    SourcesCover(mem, v, start, end);
    PoolFunctional(mem, v, start, end);
    var it := new MergeIterator(ss, false, s, false);
    out := [];
    ghost var hi: Option<Bytes> := None;
    it.AdvanceNewest();
    AdvancePosition(P, s, hi, it.valid, it.current, Union(it.rest));
    while it.valid && !Less(end, it.current.key)
      invariant it.Valid() && fresh(it) && it.snapshot == s && !it.keepTombstones && !it.allVersions
      invariant Lists(P, s, out, hi)
      invariant Positioned(P, s, hi, it.valid, it.current, Union(it.rest))
      invariant hi.Some? ==> !Less(end, hi.value)
      decreases it.valid, |Bag(it.rest)|
    {
      EmitExtends(P, s, out, hi, it.current, Union(it.rest));
      out := out + [(it.current.key, it.current.value)];
      hi := Some(it.current.key);
      it.AdvanceNewest();
      AdvancePosition(P, s, hi, it.valid, it.current, Union(it.rest));
    }
    ScanListing(mem, v, start, end, s, out, hi, it.valid, it.current, Union(it.rest));
  }

  lemma ScanListing(mem: seq<Entry>, v: Version, start: Bytes, end: Bytes, s: nat, out: seq<(Bytes, Bytes)>,
                    hi: Option<Bytes>, valid: bool, current: Entry, rest: set<Entry>)
    requires Healthy(mem, v)
    requires var P := Union(Sources(mem, v, start, end));
             Lists(P, s, out, hi) && Positioned(P, s, hi, valid, current, rest)
    requires hi.Some? ==> !Less(end, hi.value)
    requires valid ==> Less(end, current.key)
    ensures forall k, val :: (k, val) in out <==> !Less(k, start) && !Less(end, k) && Get(mem, v, k, s) == Some(val)
  {
    hide Get, Healthy, Sources, Union, Silent, Yields;
    var P := Union(Sources(mem, v, start, end));
    SourcesCover(mem, v, start, end);
    PoolFunctional(mem, v, start, end);
    forall k, val ensures (k, val) in out <==> !Less(k, start) && !Less(end, k) && Get(mem, v, k, s) == Some(val) {
      if (k, val) in out {
        var i :| 0 <= i < |out| && out[i] == (k, val);
        assert Emits(P, s, k, val);
        if Less(end, k) { LessThenNotGreater(end, k, hi.value); assert false; }
        EmitsIffGet(mem, v, start, end, s, k, val);
      } else if !Less(k, start) && !Less(end, k) {
        EmitsIffGet(mem, v, start, end, s, k, val);
        if Emits(P, s, k, val) {
          var e :| e in P && Yields(P, e, s, false) && e.key == k && e.value == val;
          if !Reached(k, hi) {
            if valid { NotGreaterThenLess(k, end, current.key); }
            SilentYieldsNothing(P, e, s);
          }
          assert false;
        }
      }
    }
  }
}
