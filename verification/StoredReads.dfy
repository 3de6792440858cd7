// Reads down to the bytes: get and scan over table files read through filter, index and
// blocks answer what they answer over the entries, for keys that straddle no block.
module StoredReads {
  import opened Keys
  import opened Entries
  import opened Versions
  import opened Scanning
  import opened Machine
  import opened TableIndex
  import opened TableFormat
  import opened TableReader
  import opened TableIterator
  import Coding
  import Crc
  import Runs

  function AnswerOf(s: Status): Option<Bytes> {
    if s.Found? then Some(s.value) else None
  }

  /** The files of a read one after the other: the first that finds or has deleted the key decides. */
  ghost function GetThrough(fs: seq<FileMeta>, k: Bytes, s: nat): Result<Status> {
    if fs == [] then Ok(NotFound)
    else
      var r := GetBytes(FileBytes(fs[0].table), TableOf(fs[0].table), k, s);
      if r == Ok(NotFound) then GetThrough(fs[1..], k, s) else r
  }

  /** get_impl over a memtable and table files. */
  ghost function GetStored(mem: seq<Entry>, v: Version, k: Bytes, s: nat): Result<Option<Bytes>> {
    var m := StatusOf(Lookup(mem, k, s));
    if m != NotFound then Ok(AnswerOf(m))
    else
      match GetThrough(SearchFiles(v, k), k, s)
      case Ok(status) => Ok(AnswerOf(status))
      case Failed => Failed
  }

  /** The file fits its format, and the versions of k lie in one of its blocks. */
  ghost predicate ReadsTrue(f: FileMeta, k: Bytes) {
    TableFits(f.table) && Sorted(f.table) && !Straddles(BlocksOf(f.table), k)
  }

  lemma {:induction false} GetThroughIs(fs: seq<FileMeta>, k: Bytes, s: nat)
    requires forall f :: f in fs ==> ReadsTrue(f, k)
    ensures GetThrough(fs, k, s) == Ok(StatusOf(FirstHit(Tables(fs), k, s)))
    decreases |fs|
  {
    hide GetBytes, FileBytes, TableOf, Lookup, Straddles, TableFits, Sorted, BlocksOf;
    if fs != [] {
      assert fs[0] in fs;
      assert ReadsTrue(fs[0], k);
      GetIsLinear(fs[0].table, k, s);
      assert Tables(fs)[1..] == Tables(fs[1..]);
      GetThroughIs(fs[1..], k, s);
    }
  }

  /** A get through the files on disk answers what Versions.Get says. */
  lemma StoredGetIs(mem: seq<Entry>, v: Version, k: Bytes, s: nat)
    requires forall f :: f in SearchFiles(v, k) ==> ReadsTrue(f, k)
    ensures GetStored(mem, v, k, s) == Ok(Versions.Get(mem, v, k, s))
  {
    hide ReadsTrue, SearchFiles, Lookup, GetThrough, Tables;
    var fs := SearchFiles(v, k);
    GetThroughIs(fs, k, s);
    assert ([mem] + Tables(fs))[1..] == Tables(fs);
  }

  lemma SearchedInVersion(v: Version, k: Bytes, f: FileMeta)
    requires f in SearchFiles(v, k)
    ensures f in Files(v)
  {
    var fs := SearchFiles(v, k);
    if f in Reversed(v[0]) {
      var i :| 0 <= i < |v[0]| && Reversed(v[0])[i] == f;
      assert v[0][|v[0]| - 1 - i] == f;
    } else {
      CandidatesInVersion(v, 1, k, f);
    }
  }

  lemma {:induction false} CandidatesInVersion(v: Version, l: nat, k: Bytes, f: FileMeta)
    requires l <= MAX_LEVELS && f in Candidates(v, l, k)
    ensures f in Files(v)
    decreases MAX_LEVELS - l
  {
    hide UpperBound;
    if l < MAX_LEVELS {
      var c := Covering(v[l], k);
      if c.Some? && f == c.value {
        assert v[l][UpperBound(v[l], k) - 1] == f;
      } else {
        CandidatesInVersion(v, l + 1, k, f);
      }
    }
  }

  /**
   * In every reachable state a get through memtable, filters, indexes and blocks answers what
   * the list of durable writes says, for every key that straddles no block of a table.
   */
  lemma StoredGetReadsLog(ss: seq<State>, i: nat, k: Bytes)
    requires Runs.IsRun(ss) && Init(ss[0]) && i < |ss| && ss[i].Up?
    requires forall f :: f in Files(ss[i].db.version) ==> ReadsTrue(f, k)
    ensures GetStored(ss[i].db.mem, ss[i].db.version, k, MAX_SEQ) == Ok(Last(ss[i].log, k))
  {
    hide Runs.IsRun, Init, ReadsTrue, Versions.Get, GetStored, SearchFiles, Files, Last;
    var v := ss[i].db.version;
    forall f | f in SearchFiles(v, k) ensures ReadsTrue(f, k) { SearchedInVersion(v, k, f); }
    StoredGetIs(ss[i].db.mem, v, k, MAX_SEQ);
    Runs.GetReadsLog(ss, i, k);
  }

  // ------------------------------------------------------------------ scans

  ghost function StoredSeek(f: FileMeta, start: Bytes): seq<Entry> {
    IndexedSeek(BlocksOf(f.table), start)
  }

  ghost function StoredL0(fs: seq<FileMeta>, start: Bytes): seq<seq<Entry>> {
    if fs == [] then [] else StoredL0(fs[..|fs| - 1], start) + [StoredSeek(fs[|fs| - 1], start)]
  }

  ghost function StoredLevel(fs: seq<FileMeta>, start: Bytes, end: Bytes): seq<seq<Entry>> {
    if fs == [] then []
    else
      var f := fs[|fs| - 1];
      StoredLevel(fs[..|fs| - 1], start, end) + (if Overlaps(f, start, end) then [StoredSeek(f, start)] else [])
  }

  ghost function StoredDeep(v: Version, n: nat, start: Bytes, end: Bytes): seq<seq<Entry>>
    requires 1 <= n <= MAX_LEVELS
  {
    if n == 1 then [] else StoredDeep(v, n - 1, start, end) + StoredLevel(v[n - 1], start, end)
  }

  /** The sources of a scan when every table is entered through its index. */
  ghost function StoredSources(mem: seq<Entry>, v: Version, start: Bytes, end: Bytes): seq<seq<Entry>> {
    [UpTo(SeekFrom(mem, start), end)] + StoredL0(v[0], start) + StoredDeep(v, MAX_LEVELS, start, end)
  }

  ghost predicate SeeksTrue(f: FileMeta, start: Bytes) {
    Sorted(f.table) && !Straddles(BlocksOf(f.table), start)
  }

  lemma StoredSeekIs(f: FileMeta, start: Bytes)
    requires SeeksTrue(f, start)
    ensures StoredSeek(f, start) == SeekFrom(f.table, start)
  {
    hide BlocksOf, SeekFrom, Straddles, IndexedSeek;
    BlocksWhole(f.table);
    IndexedSeekIff(BlocksOf(f.table), start);
  }

  lemma {:induction false} StoredL0Is(fs: seq<FileMeta>, start: Bytes)
    requires forall f :: f in fs ==> SeeksTrue(f, start)
    ensures StoredL0(fs, start) == L0Sources(fs, start)
    decreases |fs|
  {
    hide SeeksTrue, SeekFrom, StoredSeek;
    if fs != [] {
      assert fs[|fs| - 1] in fs;
      StoredSeekIs(fs[|fs| - 1], start);
      StoredL0Is(fs[..|fs| - 1], start);
    }
  }

  lemma {:induction false} StoredLevelIs(fs: seq<FileMeta>, start: Bytes, end: Bytes)
    requires forall f :: f in fs ==> SeeksTrue(f, start)
    ensures StoredLevel(fs, start, end) == LevelSources(fs, start, end)
    decreases |fs|
  {
    hide SeeksTrue, SeekFrom, StoredSeek, Overlaps;
    if fs != [] {
      assert fs[|fs| - 1] in fs;
      StoredSeekIs(fs[|fs| - 1], start);
      StoredLevelIs(fs[..|fs| - 1], start, end);
    }
  }

  lemma {:induction false} StoredDeepIs(v: Version, n: nat, start: Bytes, end: Bytes)
    requires 1 <= n <= MAX_LEVELS && forall f :: f in Files(v) ==> SeeksTrue(f, start)
    ensures StoredDeep(v, n, start, end) == DeepSources(v, n, start, end)
    decreases n
  {
    hide SeeksTrue, StoredLevel, LevelSources;
    if n > 1 {
      StoredDeepIs(v, n - 1, start, end);
      LevelTrue(v, n - 1, start);
      StoredLevelIs(v[n - 1], start, end);
    }
  }

  lemma LevelTrue(v: Version, l: nat, start: Bytes)
    requires l < MAX_LEVELS && forall f :: f in Files(v) ==> SeeksTrue(f, start)
    ensures forall f :: f in v[l] ==> SeeksTrue(f, start)
  {
    hide SeeksTrue;
    forall f | f in v[l] ensures SeeksTrue(f, start) {
      var i :| 0 <= i < |v[l]| && v[l][i] == f;
      assert f in Files(v);
    }
  }

  /** A scan through the indexes merges the same sources, when its start key straddles no block. */
  lemma StoredSourcesAre(mem: seq<Entry>, v: Version, start: Bytes, end: Bytes)
    requires forall f :: f in Files(v) ==> SeeksTrue(f, start)
    ensures StoredSources(mem, v, start, end) == Sources(mem, v, start, end)
  {
    hide SeeksTrue, SeekFrom, UpTo, StoredL0, L0Sources, StoredDeep, DeepSources, Files;
    LevelTrue(v, 0, start);
    StoredL0Is(v[0], start);
    StoredDeepIs(v, MAX_LEVELS, start, end);
  }

  // -------------------------------------------------- a scan over the files

  type TableFiles = map<nat, Bytes>

  /** The file of every table is there, byte for byte. */
  ghost predicate OnFiles(fs: seq<FileMeta>, tables: TableFiles) {
    forall i :: 0 <= i < |fs| ==>
      && fs[i].number in tables && tables[fs[i].number] == FileBytes(fs[i].table)
      && TableFits(fs[i].table) && Sorted(fs[i].table)
  }

  ghost predicate CrcReady(crc: array<bv32>)
    reads crc
  {
    crc.Length == 256 && forall i: bv8 :: crc[Coding.ByteValue(i)] == Crc.TableEntry(i)
  }

  /** One source of a scan: open the file, seek by its index, read to the end. */
  method SeekSource(f: FileMeta, start: Bytes, tables: TableFiles, crc: array<bv32>) returns (src: seq<Entry>)
    requires OnFiles([f], tables) && CrcReady(crc)
    ensures src == StoredSeek(f, start)
  {
    hide FileBytes, TableFits, Sorted, BlocksOf, IndexedSeek, Straddles, SeekFrom, Crc.TableEntry, Coding.ByteValue;
    assert [f][0] == f;
    var it := SeekTable(tables[f.number], crc, start, f.table);
    src := Drain(it);
  }

  method SeekL0(fs: seq<FileMeta>, start: Bytes, tables: TableFiles, crc: array<bv32>) returns (ss: seq<seq<Entry>>)
    requires OnFiles(fs, tables) && CrcReady(crc)
    ensures ss == StoredL0(fs, start)
  {
    hide FileBytes, TableFits, Sorted, StoredSeek, Crc.TableEntry, Coding.ByteValue;
    ss := [];
    for i := 0 to |fs|
      invariant ss == StoredL0(fs[..i], start)
    {
      assert fs[..i + 1][..i] == fs[..i];
      var src := SeekSource(fs[i], start, tables, crc);
      ss := ss + [src];
    }
    assert fs[..|fs|] == fs;
  }

  method SeekLevel(fs: seq<FileMeta>, start: Bytes, end: Bytes, tables: TableFiles, crc: array<bv32>)
    returns (ss: seq<seq<Entry>>)
    requires OnFiles(fs, tables) && CrcReady(crc)
    ensures ss == StoredLevel(fs, start, end)
  {
    hide FileBytes, TableFits, Sorted, StoredSeek, Overlaps, Crc.TableEntry, Coding.ByteValue;
    ss := [];
    for i := 0 to |fs|
      invariant ss == StoredLevel(fs[..i], start, end)
    {
      assert fs[..i + 1][..i] == fs[..i];
      if Overlaps(fs[i], start, end) {
        var src := SeekSource(fs[i], start, tables, crc);
        ss := ss + [src];
      }
    }
    assert fs[..|fs|] == fs;
  }

  method SeekAll(mem: seq<Entry>, v: Version, start: Bytes, end: Bytes, tables: TableFiles, crc: array<bv32>)
    returns (ss: seq<seq<Entry>>)
    requires (forall l :: 0 <= l < MAX_LEVELS ==> OnFiles(v[l], tables)) && CrcReady(crc)
    ensures ss == StoredSources(mem, v, start, end)
  {
    hide OnFiles, StoredL0, StoredLevel, UpTo, SeekFrom, Crc.TableEntry, Coding.ByteValue;
    var m := MemRange(mem, start, end);
    var l0 := SeekL0(v[0], start, tables, crc);
    var deep := [];
    for l := 1 to MAX_LEVELS
      invariant deep == StoredDeep(v, l, start, end)
    {
      var level := SeekLevel(v[l], start, end, tables, crc);
      deep := deep + level;
    }
    ss := [m] + l0 + deep;
  }

  /**
   * In every reachable state a scan over memtable and table files, with seeks by the index and
   * checked blocks, lists exactly the keys in range that hold a value, with the last value
   * written, when its start key straddles no block.
   */
  method ScanFiles(mem: seq<Entry>, v: Version, start: Bytes, end: Bytes, tables: TableFiles, crc: array<bv32>,
                   ghost ss: seq<State>, ghost n: nat) returns (out: seq<(Bytes, Bytes)>)
    requires Runs.IsRun(ss) && Init(ss[0]) && n < |ss| && ss[n].Up? && mem == ss[n].db.mem && v == ss[n].db.version
    requires (forall l :: 0 <= l < MAX_LEVELS ==> OnFiles(v[l], tables)) && CrcReady(crc)
    requires forall f :: f in Files(v) ==> SeeksTrue(f, start)
    ensures forall i, j :: 0 <= i < j < |out| ==> Less(out[i].0, out[j].0)
    ensures forall k, val :: (k, val) in out <==>
              !Less(k, start) && !Less(end, k) && Last(ss[n].log, k) == Some(val)
  {
    hide OnFiles, SeeksTrue, Files, Healthy, Init, Runs.IsRun, Sources, StoredSources, Versions.Get, Last, Inv;
    hide Crc.TableEntry, Coding.ByteValue;
    StoredSourcesAre(mem, v, start, end);
    Runs.ReachableHealthy(ss, n);
    var sources := SeekAll(mem, v, start, end, tables, crc);
    out := ScanSources(mem, v, start, end, MAX_SEQ, sources);
    forall k ensures Versions.Get(mem, v, k, MAX_SEQ) == Last(ss[n].log, k) { Runs.GetReadsLog(ss, n, k); }
  }
}
