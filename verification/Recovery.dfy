// The MANIFEST snapshot of a version and the version open rebuilds from it.
module Recovery {
  import opened Keys
  import opened Entries
  import opened Versions
  import opened Picking
  import opened Layout

  datatype ManifestEntry = ManifestEntry(number: nat, level: nat, smallest: Bytes, largest: Bytes)

  function Describe(fs: seq<FileMeta>): (es: seq<ManifestEntry>)
    ensures |es| == |fs|
    ensures forall i :: 0 <= i < |fs| ==>
              es[i] == ManifestEntry(fs[i].number, fs[i].level, fs[i].smallest, fs[i].largest)
  {
    seq(|fs|, i requires 0 <= i < |fs| => ManifestEntry(fs[i].number, fs[i].level, fs[i].smallest, fs[i].largest))
  }

  function VersionToManifest(v: Version): seq<ManifestEntry> {
    Describe(Flatten(v))
  }

  type FileStore = map<nat, seq<Entry>>

  /** One live MANIFEST entry as open turns it into a file of the version. */
  function LoadFile(e: ManifestEntry, table: seq<Entry>): (f: FileMeta)
    ensures f.level < MAX_LEVELS
  {
    var level := if e.level >= MAX_LEVELS then 0 else e.level;
    if (e.smallest == [] || e.largest == []) && table != [] then
      FileMeta(e.number, level, table[0].key, table[|table| - 1].key, table)
    else FileMeta(e.number, level, e.smallest, e.largest, table)
  }

  /**
   * An entry without keys, as older stores wrote it, takes the range of its table; an unknown
   * level counts as L0.
   */
  lemma LoadedFile(e: ManifestEntry, table: seq<Entry>)
    requires table != [] && Sorted(table)
    requires e.smallest == [] || e.largest == []
             || (e.smallest == table[0].key && e.largest == table[|table| - 1].key)
    ensures var f := LoadFile(e, table);
            && FileOk(f) && f.number == e.number && f.table == table
            && f.level == if e.level < 7 then e.level else 0
  {
  }

  function LoadAll(es: seq<ManifestEntry>, disk: FileStore, v: Version): Version {
    if es == [] then v
    else if es[0].number !in disk then LoadAll(es[1..], disk, v)
    else
      var f := LoadFile(es[0], disk[es[0].number]);
      LoadAll(es[1..], disk, v[f.level := v[f.level] + [f]])
  }

  function NoFiles(): (v: Version)
    ensures forall l :: 0 <= l < MAX_LEVELS ==> v[l] == []
  {
    seq(MAX_LEVELS, l => [])
  }

  function SortLevels(v: Version): Version {
    seq(MAX_LEVELS, l requires 0 <= l < MAX_LEVELS =>
      if l == 0 then Sort(ByFileNumber, v[l]) else Sort(BySmallestKey, Sort(ByFileNumber, v[l])))
  }

  /** open: collect the live files level by level, then sort every level. */
  function Rebuild(es: seq<ManifestEntry>, disk: FileStore): Version {
    SortLevels(LoadAll(es, disk, NoFiles()))
  }

  ghost predicate OnDisk(F: set<FileMeta>, disk: FileStore) {
    forall f :: f in F ==> f.number in disk && disk[f.number] == f.table
  }

  lemma {:induction false} LoadLevel(fs: seq<FileMeta>, l: nat, rest: seq<ManifestEntry>, disk: FileStore, v: Version)
    requires l < MAX_LEVELS
    requires forall f :: f in fs ==> f.level == l && FileOk(f) && f.number in disk && disk[f.number] == f.table
    ensures LoadAll(Describe(fs) + rest, disk, v) == LoadAll(rest, disk, v[l := v[l] + fs])
  {
    if fs == [] {
      assert Describe(fs) + rest == rest;
      assert v[l] + fs == v[l];
      assert v[l := v[l]] == v;
    } else {
      var es := Describe(fs) + rest;
      assert fs[0] in fs;
      assert LoadFile(es[0], disk[es[0].number]) == fs[0];
      assert es[1..] == Describe(fs[1..]) + rest;
      LoadLevel(fs[1..], l, rest, disk, v[l := v[l] + [fs[0]]]);
      PushTwice(v, l, fs);
    }
  }

  lemma PushTwice(v: Version, l: nat, fs: seq<FileMeta>)
    requires l < MAX_LEVELS && fs != []
    ensures var v1 := v[l := v[l] + [fs[0]]]; v1[l := v1[l] + fs[1..]] == v[l := v[l] + fs]
  {
    assert v[l] + [fs[0]] + fs[1..] == v[l] + fs;
  }

  /** The first n levels of v, the others empty. */
  function FirstLevels(v: Version, n: nat): (p: Version)
    requires n <= MAX_LEVELS
  {
    seq(MAX_LEVELS, l requires 0 <= l < MAX_LEVELS => if l < n then v[l] else [])
  }

  lemma {:induction false} LoadLevels(v: Version, n: nat, disk: FileStore)
    requires Arranged(v) && n <= MAX_LEVELS && OnDisk(Files(v), disk)
    requires forall f :: f in Files(v) ==> FileOk(f)
    ensures LoadAll(Describe(Flatten(v[n..])), disk, FirstLevels(v, n)) == v
    decreases MAX_LEVELS - n
  {
    if n == MAX_LEVELS {
      assert FirstLevels(v, n) == v;
    } else {
      var p := FirstLevels(v, n);
      var rest := Flatten(v[n + 1..]);
      assert v[n..][1..] == v[n + 1..];
      assert Describe(Flatten(v[n..])) == Describe(v[n]) + Describe(rest);
      forall f | f in v[n] ensures f.level == n && FileOk(f) && f.number in disk && disk[f.number] == f.table {
        FileInLevel(v, n, f);
      }
      LoadLevel(v[n], n, Describe(rest), disk, p);
      assert p[n] + v[n] == v[n];
      assert p[n := v[n]] == FirstLevels(v, n + 1);
      LoadLevels(v, n + 1, disk);
    }
  }

  lemma SortRestoresL0(fs: seq<FileMeta>)
    requires ByNumber(fs)
    ensures Sort(ByFileNumber, fs) == fs
  {
    PlainOrders(fs);
    SortSorts(ByFileNumber, fs);
    StrictUnique(ByFileNumber, Sort(ByFileNumber, fs), fs);
  }

  /** Sorting a run by number and then by smallest key gives the run back. */
  lemma SortRestoresRun(fs: seq<FileMeta>)
    requires BySmallest(fs) && forall f, g :: f in fs && g in fs && f.number == g.number ==> f == g
    ensures Sort(BySmallestKey, Sort(ByFileNumber, fs)) == fs
  {
    PlainOrders(fs);
    forall i, j | 0 <= i < j < |fs| ensures fs[i].number != fs[j].number {
      PrecedesAsymmetric(BySmallestKey, fs[i], fs[j]);
      assert fs[i] in fs && fs[j] in fs;
    }
    SortSorts(ByFileNumber, fs);
    var byNum := Sort(ByFileNumber, fs);
    forall i, j | 0 <= i < j < |byNum|
      ensures Precedes(BySmallestKey, byNum[i], byNum[j]) || Precedes(BySmallestKey, byNum[j], byNum[i])
    {
      assert byNum[i] in byNum && byNum[j] in byNum && byNum[i] != byNum[j];
      var a :| 0 <= a < |fs| && fs[a] == byNum[i];
      var b :| 0 <= b < |fs| && fs[b] == byNum[j];
      assert a < b || b < a;
    }
    SortSorts(BySmallestKey, byNum);
    StrictUnique(BySmallestKey, Sort(BySmallestKey, byNum), fs);
  }

  /** open rebuilds exactly the version whose snapshot is the last in the MANIFEST. */
  lemma RebuildRestores(v: Version, disk: FileStore)
    requires Arranged(v) && FilesOk(Files(v)) && OnDisk(Files(v), disk)
    ensures Rebuild(VersionToManifest(v), disk) == v
  {
    LoadLevels(v, 0, disk);
    assert v[0..] == v && FirstLevels(v, 0) == NoFiles();
    assert LoadAll(VersionToManifest(v), disk, NoFiles()) == v;
    forall l | 0 <= l < MAX_LEVELS ensures SortLevels(v)[l] == v[l] {
      if l == 0 {
        SortRestoresL0(v[0]);
      } else {
        forall f, g | f in v[l] && g in v[l] && f.number == g.number ensures f == g {
          FileInLevel(v, l, f);
          FileInLevel(v, l, g);
        }
        SortRestoresRun(v[l]);
      }
    }
  }
}
