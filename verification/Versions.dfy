// Immutable versions of the file set: levels L0..L6, the invariant that ties
// level, file number and recency together, and the point lookup over them.
module Versions {
  import opened Keys
  import opened Entries

  const MAX_LEVELS: nat := 7

  datatype FileMeta = FileMeta(number: nat, level: nat, smallest: Bytes, largest: Bytes, table: seq<Entry>)

  type Version = v: seq<seq<FileMeta>> | |v| == MAX_LEVELS witness seq(MAX_LEVELS, i => [])

  predicate FileOk(f: FileMeta) {
    && f.table != []
    && Sorted(f.table)
    && f.smallest == f.table[0].key
    && f.largest == f.table[|f.table| - 1].key
  }

  predicate LeftOf(f: FileMeta, g: FileMeta) {
    Less(f.largest, g.smallest)
  }

  /** f is searched before g: a shallower level, or a later L0 file. */
  predicate Above(f: FileMeta, g: FileMeta) {
    f.level < g.level || (f.level == 0 && g.level == 0 && f.number > g.number)
  }

  ghost function Files(v: Version): set<FileMeta> {
    set l, i | 0 <= l < MAX_LEVELS && 0 <= i < |v[l]| :: v[l][i]
  }

  ghost function SetOf(fs: seq<FileMeta>): set<FileMeta> {
    set f | f in fs
  }

  /** The invariant of the file set, independent of how the levels list it. */
  ghost predicate FilesOk(F: set<FileMeta>) {
    && (forall f :: f in F ==> FileOk(f) && f.level < MAX_LEVELS)
    && (forall f, g :: f in F && g in F && f.number == g.number ==> f == g)
    && (forall f, g :: f in F && g in F && f.level == g.level && f.level >= 1 && f != g ==>
        LeftOf(f, g) || LeftOf(g, f))
    && (forall f, g :: f in F && g in F && Above(f, g) ==> Over(f.table, g.table))
  }

  predicate ByNumber(fs: seq<FileMeta>) {
    forall i, j :: 0 <= i < j < |fs| ==> fs[i].number < fs[j].number
  }

  predicate BySmallest(fs: seq<FileMeta>) {
    forall i, j :: 0 <= i < j < |fs| ==> Less(fs[i].smallest, fs[j].smallest)
  }

  /** How a version lists its files: L0 by file number, every deeper level by key. */
  predicate Arranged(v: Version) {
    && (forall l, i :: 0 <= l < MAX_LEVELS && 0 <= i < |v[l]| ==> v[l][i].level == l)
    && ByNumber(v[0])
    && (forall l :: 1 <= l < MAX_LEVELS ==> BySmallest(v[l]))
  }

  ghost function StoredIn(F: set<FileMeta>): set<Entry> {
    set f, e | f in F && e in f.table :: e
  }

  ghost function Stored(mem: seq<Entry>, F: set<FileMeta>): set<Entry> {
    Elements(mem) + StoredIn(F)
  }

  ghost predicate LayersOk(mem: seq<Entry>, F: set<FileMeta>) {
    && Sorted(mem)
    && FilesOk(F)
    && (forall f :: f in F ==> Over(mem, f.table))
    && Functional(Stored(mem, F))
  }

  ghost predicate Healthy(mem: seq<Entry>, v: Version) {
    Arranged(v) && LayersOk(mem, Files(v))
  }

  lemma KeyInRange(f: FileMeta, e: Entry)
    requires FileOk(f) && e in f.table
    ensures !Less(e.key, f.smallest) && !Less(f.largest, e.key)
  {
    KeyOrder();
    var i :| 0 <= i < |f.table| && f.table[i] == e;
    assert i > 0 ==> !Before(f.table[i], f.table[0]);
    assert i < |f.table| - 1 ==> !Before(f.table[|f.table| - 1], f.table[i]);
  }

  // ------------------------------------------------------------ point lookup

  /** std::upper_bound over smallest keys: the first file that starts after k. */
  function UpperBound(fs: seq<FileMeta>, k: Bytes): (i: nat)
    ensures i <= |fs|
    ensures forall j :: 0 <= j < i ==> !Less(k, fs[j].smallest)
    ensures i < |fs| ==> Less(k, fs[i].smallest)
  {
    if fs == [] || Less(k, fs[0].smallest) then 0 else 1 + UpperBound(fs[1..], k)
  }

  /** The one file of a sorted level whose range covers k, if there is one. */
  function Covering(fs: seq<FileMeta>, k: Bytes): Option<FileMeta> {
    var i := UpperBound(fs, k);
    if i > 0 && !Less(fs[i - 1].largest, k) then Some(fs[i - 1]) else None
  }

  function Reversed(fs: seq<FileMeta>): (r: seq<FileMeta>)
    ensures |r| == |fs|
    ensures forall i :: 0 <= i < |fs| ==> r[i] == fs[|fs| - 1 - i]
  {
    seq(|fs|, i requires 0 <= i < |fs| => fs[|fs| - 1 - i])
  }

  /** The files get consults below L0, one per level at most. */
  function Candidates(v: Version, l: nat, k: Bytes): seq<FileMeta>
    requires l <= MAX_LEVELS
    decreases MAX_LEVELS - l
  {
    if l == MAX_LEVELS then []
    else
      var c := Covering(v[l], k);
      (if c.Some? then [c.value] else []) + Candidates(v, l + 1, k)
  }

  function SearchFiles(v: Version, k: Bytes): seq<FileMeta> {
    Reversed(v[0]) + Candidates(v, 1, k)
  }

  function Tables(fs: seq<FileMeta>): (ts: seq<seq<Entry>>)
    ensures |ts| == |fs|
    ensures forall i :: 0 <= i < |fs| ==> ts[i] == fs[i].table
  {
    seq(|fs|, i requires 0 <= i < |fs| => fs[i].table)
  }

  /** get_impl: memtable, L0 newest first, then one file per level; stop at the first hit. */
  function Get(mem: seq<Entry>, v: Version, k: Bytes, s: nat): Option<Bytes> {
    Answer(FirstHit([mem] + Tables(SearchFiles(v, k)), k, s))
  }

  lemma {:induction false} CandidatesDescend(v: Version, l: nat, k: Bytes)
    requires Arranged(v) && 1 <= l <= MAX_LEVELS
    ensures forall f :: f in Candidates(v, l, k) ==> f in Files(v) && f.level >= l
    ensures forall i, j :: 0 <= i < j < |Candidates(v, l, k)| ==> Above(Candidates(v, l, k)[i], Candidates(v, l, k)[j])
    decreases MAX_LEVELS - l
  {
    if l < MAX_LEVELS {
      CandidatesDescend(v, l + 1, k);
    }
  }

  lemma SearchFilesDescend(v: Version, k: Bytes)
    requires Arranged(v)
    ensures forall f :: f in SearchFiles(v, k) ==> f in Files(v)
    ensures forall i, j :: 0 <= i < j < |SearchFiles(v, k)| ==> Above(SearchFiles(v, k)[i], SearchFiles(v, k)[j])
  {
    CandidatesDescend(v, 1, k);
    var r, c := Reversed(v[0]), Candidates(v, 1, k);
    assert forall f :: f in r ==> f in Files(v) && f.level == 0;
    forall i, j | 0 <= i < j < |r + c| ensures Above((r + c)[i], (r + c)[j]) {
      if i < |r| <= j { assert (r + c)[j] in c; }
    }
  }

  lemma RangeNonEmpty(f: FileMeta)
    requires FileOk(f)
    ensures !Less(f.largest, f.smallest)
  {
    KeyInRange(f, f.table[0]);
  }

  lemma DisjointNotCovered(f: FileMeta, g: FileMeta, k: Bytes)
    requires FileOk(f) && FileOk(g) && (LeftOf(f, g) || LeftOf(g, f))
    requires Less(f.smallest, g.smallest) && !Less(k, g.smallest)
    ensures Less(f.largest, k)
  {
    RangeNonEmpty(f);
    RangeNonEmpty(g);
    KeyOrder();
  }

  /** A level below L0 as the binary search sees it: sorted files with disjoint ranges. */
  predicate SortedRun(fs: seq<FileMeta>) {
    && (forall i :: 0 <= i < |fs| ==> FileOk(fs[i]))
    && BySmallest(fs)
    && (forall i, j :: 0 <= i < j < |fs| ==> LeftOf(fs[i], fs[j]) || LeftOf(fs[j], fs[i]))
  }

  lemma LevelIsSortedRun(v: Version, l: nat)
    requires Arranged(v) && FilesOk(Files(v)) && 1 <= l < MAX_LEVELS
    ensures SortedRun(v[l])
  {
    var fs := v[l];
    forall i | 0 <= i < |fs| ensures FileOk(fs[i]) { assert fs[i] in Files(v); }
    forall i, j | 0 <= i < j < |fs| ensures LeftOf(fs[i], fs[j]) || LeftOf(fs[j], fs[i]) {
      assert fs[i] in Files(v) && fs[j] in Files(v);
      LessAsymmetric(fs[i].smallest, fs[j].smallest);
    }
  }

  /** In a sorted run, the file whose range covers k is the one the binary search lands on. */
  lemma CoveringFinds(fs: seq<FileMeta>, i: nat, k: Bytes)
    requires SortedRun(fs) && i < |fs|
    requires !Less(k, fs[i].smallest) && !Less(fs[i].largest, k)
    ensures Covering(fs, k) == Some(fs[i])
  {
    var u := UpperBound(fs, k);
    if u <= i {
      if u < i { LessTransitive(k, fs[u].smallest, fs[i].smallest); }
      assert false;
    } else if i < u - 1 {
      DisjointNotCovered(fs[i], fs[u - 1], k);
    }
  }

  lemma {:induction false} CandidatesComplete(v: Version, from: nat, l: nat, i: nat, e: Entry)
    requires Arranged(v) && FilesOk(Files(v)) && 1 <= from <= l < MAX_LEVELS && i < |v[l]|
    requires e in v[l][i].table
    ensures v[l][i] in Candidates(v, from, e.key)
    decreases l - from
  {
    if from == l {
      LevelIsSortedRun(v, l);
      KeyInRange(v[l][i], e);
      CoveringFinds(v[l], i, e.key);
    } else {
      CandidatesComplete(v, from + 1, l, i, e);
    }
  }

  lemma SearchIsLayered(mem: seq<Entry>, v: Version, k: Bytes)
    requires Healthy(mem, v)
    ensures Layered([mem] + Tables(SearchFiles(v, k)))
  {
    var fs := SearchFiles(v, k);
    var ts := [mem] + Tables(fs);
    SearchFilesDescend(v, k);
    forall i, j | 0 <= i < j < |ts| ensures Over(ts[i], ts[j]) {
      assert fs[j - 1] in Files(v);
      if i > 0 {
        assert fs[i - 1] in Files(v) && Above(fs[i - 1], fs[j - 1]);
      }
    }
    forall i | 0 <= i < |ts| ensures Sorted(ts[i]) {
      if i > 0 { assert fs[i - 1] in Files(v); }
    }
  }

  lemma SearchedIsStored(mem: seq<Entry>, v: Version, k: Bytes)
    requires Arranged(v)
    ensures Union([mem] + Tables(SearchFiles(v, k))) <= Stored(mem, Files(v))
  {
    hide Arranged, Files, SearchFiles;
    var fs := SearchFiles(v, k);
    var ts := [mem] + Tables(fs);
    SearchFilesDescend(v, k);
    forall e | e in Union(ts) ensures e in Stored(mem, Files(v)) {
      var i :| 0 <= i < |ts| && e in ts[i];
      if i > 0 { assert fs[i - 1] in fs; }
    }
  }

  /** The searched tables hold every stored version of k, and nothing that is not stored. */
  lemma SearchIsComplete(mem: seq<Entry>, v: Version, k: Bytes)
    requires Arranged(v) && FilesOk(Files(v))
    ensures Union([mem] + Tables(SearchFiles(v, k))) <= Stored(mem, Files(v))
    ensures forall e :: e in Stored(mem, Files(v)) && e.key == k ==> e in Union([mem] + Tables(SearchFiles(v, k)))
  {
    hide Arranged, FilesOk, Files, SearchFiles;
    var fs := SearchFiles(v, k);
    var ts := [mem] + Tables(fs);
    SearchedIsStored(mem, v, k);
    forall e | e in Stored(mem, Files(v)) && e.key == k ensures e in Union(ts) {
      if e in mem {
        assert e in ts[0];
      } else {
        SearchFindsFile(v, e);
        var f :| f in fs && e in f.table;
        var i :| 0 <= i < |fs| && fs[i] == f;
        assert e in ts[i + 1];
      }
    }
  }

  /** First-hit search is right: it returns the newest visible version over all layers. */
  lemma GetReadsNewest(mem: seq<Entry>, v: Version, k: Bytes, s: nat)
    requires Healthy(mem, v)
    ensures Get(mem, v, k, s) == Read(Stored(mem, Files(v)), k, s)
  {
    var ts := [mem] + Tables(SearchFiles(v, k));
    SearchIsLayered(mem, v, k);
    SearchIsComplete(mem, v, k);
    FirstHitIsNewest(ts, k, s);
    NewestUnique(Stored(mem, Files(v)), k, s, FirstHit(ts, k, s));
  }

  lemma SearchFindsFile(v: Version, e: Entry)
    requires Arranged(v) && FilesOk(Files(v)) && e in StoredIn(Files(v))
    ensures exists f :: f in SearchFiles(v, e.key) && e in f.table
  {
    var f :| f in Files(v) && e in f.table;
    var l, i :| 0 <= l < MAX_LEVELS && 0 <= i < |v[l]| && v[l][i] == f;
    if l == 0 {
      assert Reversed(v[0])[|v[0]| - 1 - i] == f;
      assert f in Reversed(v[0]);
    } else {
      CandidatesComplete(v, 1, l, i, e);
    }
    assert f in SearchFiles(v, e.key);
  }

  // ----------------------------------------------------------------- overlap

  /** The test of the picker and of a scan: not wholly to one side of the range. */
  predicate Overlaps(f: FileMeta, lo: Bytes, hi: Bytes) {
    !Less(f.largest, lo) && !Less(hi, f.smallest)
  }

  function Overlapping(fs: seq<FileMeta>, lo: Bytes, hi: Bytes): (r: seq<FileMeta>)
    ensures forall f :: f in r <==> f in fs && Overlaps(f, lo, hi)
  {
    if fs == [] then []
    else (if Overlaps(fs[0], lo, hi) then [fs[0]] else []) + Overlapping(fs[1..], lo, hi)
  }

  /** Some key lies in both ranges. */
  ghost predicate Meet(lo: Bytes, hi: Bytes, lo': Bytes, hi': Bytes) {
    exists k: Bytes :: !Less(k, lo) && !Less(hi, k) && !Less(k, lo') && !Less(hi', k)
  }

  /** A file is taken if and only if its range and the given one have a key in common. */
  lemma OverlapsIff(f: FileMeta, lo: Bytes, hi: Bytes)
    requires !Less(f.largest, f.smallest) && !Less(hi, lo)
    ensures Overlaps(f, lo, hi) <==> Meet(f.smallest, f.largest, lo, hi)
  {
    hide Less;
    LessIrreflexive(lo);
    LessIrreflexive(f.smallest);
    if Overlaps(f, lo, hi) {
      var k := if Less(lo, f.smallest) then f.smallest else lo;
      LessTotal(lo, f.smallest);
      if Less(lo, f.smallest) { LessAsymmetric(lo, f.smallest); }
      assert !Less(k, f.smallest) && !Less(f.largest, k) && !Less(k, lo) && !Less(hi, k);
    }
    if k: Bytes :| !Less(k, f.smallest) && !Less(f.largest, k) && !Less(k, lo) && !Less(hi, k) {
      if Less(f.largest, lo) { LessThenNotGreater(f.largest, lo, k); }
      if Less(hi, f.smallest) { LessThenNotGreater(hi, f.smallest, k); }
    }
  }
}
