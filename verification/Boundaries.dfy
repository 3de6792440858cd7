// Inputs on which the code falls short of its promise: an output boundary between two
// versions of a key, an empty key in the range of an L0 job, and a job that keeps nothing.
module Boundaries {
  import opened Keys
  import opened Entries
  import opened Versions
  import opened Gc
  import opened Picking
  import opened Machine
  import opened Progress
  import Compaction
  import Layout
  import LevelSearch
  import LostWrites
  import Manifest
  import Merging
  import Recovery
  import Runs
  import Safety

  // ------------------------------------------- exactly when a compaction is sound

  lemma FreshOutputs(parts: seq<seq<Entry>>, numbers: seq<nat>, level: nat, F: set<FileMeta>, nextSst: nat)
    requires |parts| == |numbers| && NumbersInv(numbers, F, nextSst)
    requires forall i :: 0 <= i < |parts| ==> parts[i] != []
    ensures var outs := Layout.MakeOutputs(parts, numbers, level);
            && Compaction.FreshNumbers(SetOf(outs), F)
            && forall i, j :: 0 <= i < j < |outs| ==> outs[i].number != outs[j].number
  {
    var outs := Layout.MakeOutputs(parts, numbers, level);
    forall o, f | o in SetOf(outs) && f in F ensures o.number != f.number {
      var i :| 0 <= i < |outs| && outs[i] == o;
    }
  }

  /** Two files of one level that share a key make a version no search can trust. */
  lemma OverlapIsUnhealthy(v: Version, inputs: seq<FileMeta>, parts: seq<seq<Entry>>, numbers: seq<nat>, out: nat)
    requires FilesOk(Files(v)) && SetOf(inputs) <= Files(v) && 1 <= out < MAX_LEVELS
    requires |parts| == |numbers| && Sorted(Concat(parts)) && !SplitsBetweenKeys(parts)
    requires forall i :: 0 <= i < |parts| ==> parts[i] != []
    requires forall i, j :: 0 <= i < j < |numbers| ==> numbers[i] != numbers[j]
    ensures !FilesOk(Files(Layout.Committed(v, Layout.Numbers(inputs), Layout.MakeOutputs(parts, numbers, out), out)))
  {
    hide Files, Layout.Committed, LeftOf, SplitsBetweenKeys, Sorted, Concat;
    var outs := Layout.MakeOutputs(parts, numbers, out);
    var i, j := Layout.StraddleOverlaps(parts, numbers, out);
    Layout.CommittedFiles(v, inputs, outs, out);
    assert outs[i] in SetOf(outs) && outs[j] in SetOf(outs) && outs[i] != outs[j];
  }

  lemma JobBounds(F: set<FileMeta>, I: set<FileMeta>, out: nat, bottom: bool)
    requires Compaction.JobOk(F, I, out, bottom)
    ensures I <= F && 1 <= out < MAX_LEVELS
  {
  }

  /**
   * A committed job, automatic or forced, leaves the version healthy if and only if it cut its
   * outputs between keys. PickOk is the exact condition of the picker.
   */
  lemma HealthyAfterIff(mem: seq<Entry>, v: Version, v': Version, opts: Options, force: bool, merged: seq<Entry>,
                        oldest: nat, numbers: seq<nat>, nextSst: nat)
    requires Healthy(mem, v) && PickOk(v, opts, force) && Commits(v, v', opts, force, merged, oldest, numbers)
    requires Pick(v, opts, force).out >= 1 && NumbersInv(numbers, Files(v), nextSst)
    ensures var kept := Collect(merged, oldest, Pick(v, opts, force).bottom, [], false);
            Healthy(mem, v') <==> SplitsBetweenKeys(Split(kept, opts.targetFileSize, [], 0))
  {
    hide Pick, PickOk, Files, SplitsBetweenKeys, Split, Collect, Layout.Committed, LayersOk, Arranged, FilesOk, Sorted;
    hide Compaction.OutputsOf, Compaction.JobOk, Concat, SetOf, Stored, StoredIn, Functional;
    var job := Pick(v, opts, force);
    var parts := Split(Collect(merged, oldest, job.bottom, [], false), opts.targetFileSize, [], 0);
    var F, I, outs := Files(v), SetOf(job.inputs), Layout.MakeOutputs(parts, numbers, job.out);
    Safety.LayersParts(mem, F);
    PickSafe(v, opts, force);
    JobBounds(F, I, job.out, job.bottom);
    Safety.InputsStored(mem, F, I);
    Safety.MergeElements(job.inputs, merged);
    FreshOutputs(parts, numbers, job.out, F, nextSst);
    Layout.PlannedStore(I, merged, parts, oldest, job.bottom, opts.targetFileSize, numbers, job.out);
    Layout.PlannedOutputs(I, merged, parts, oldest, job.bottom, opts.targetFileSize, numbers, job.out);
    if SplitsBetweenKeys(parts) {
      Safety.CommitArranged(v, job, outs, oldest);
      Compaction.CommitKeepsLayers(mem, F, I, SetOf(outs), job.out, job.bottom, oldest);
    } else {
      OverlapIsUnhealthy(v, job.inputs, parts, numbers, job.out);
      if Healthy(mem, v') { Safety.LayersParts(mem, Files(v')); }
    }
  }

  // -------------------------------------------------------- searching by hand

  lemma {:induction false} NoCandidates(v: Version, l: nat, k: Bytes)
    requires l <= MAX_LEVELS && forall i :: l <= i < MAX_LEVELS ==> v[i] == []
    ensures Candidates(v, l, k) == []
    decreases MAX_LEVELS - l
  {
    if l < MAX_LEVELS { NoCandidates(v, l + 1, k); }
  }

  /** With nothing in the memtable, a search over one file answers what that file says. */
  lemma SearchOne(v: Version, k: Bytes, s: nat, f: FileMeta)
    requires SearchFiles(v, k) == [f]
    ensures Get([], v, k, s) == Answer(Lookup(f.table, k, s))
  {
    var ts: seq<seq<Entry>> := [[]] + Tables([f]);
    assert ts[1..] == [f.table] && [f.table][1..] == [];
    assert Lookup([], k, s) == None;
    assert FirstHit([f.table], k, s) == Lookup(f.table, k, s);
    assert FirstHit(ts, k, s) == FirstHit([f.table], k, s);
  }

  function OnlyL1(fs: seq<FileMeta>): Version {
    [[], fs, [], [], [], [], []]
  }

  /** Of two files that start with k, a search of the level looks into the second. */
  lemma SecondFileAnswers(a: FileMeta, b: FileMeta, k: Bytes, s: nat)
    requires a.smallest == b.smallest == k && !Less(b.largest, k)
    ensures Get([], OnlyL1([a, b]), k, s) == Answer(Lookup(b.table, k, s))
  {
    var v := OnlyL1([a, b]);
    LessIrreflexive(k);
    assert [a, b][1..] == [b] && [b][1..] == [];
    assert UpperBound([b], k) == 1;
    assert UpperBound([a, b], k) == 2;
    assert Covering(v[1], k) == Some(b);
    NoCandidates(v, 2, k);
    assert SearchFiles(v, k) == [b];
    SearchOne(v, k, s, b);
  }

  // --------------------------------------------- a boundary inside one key

  function TwoVersions(k: Bytes, newer: Bytes, older: Bytes): seq<Entry> {
    [Entry(k, newer, false, 2), Entry(k, older, false, 1)]
  }

  function OneFileVersion(f: FileMeta): Version {
    [[f], [], [], [], [], [], []]
  }

  /** Every flush triggers a compaction, and output files are as small as they can be. */
  const EAGER: Options := Options(1, 0x1_0000, 10, 1)

  lemma StraddledParts(k: Bytes, newer: Bytes, older: Bytes)
    ensures var t := TwoVersions(k, newer, older);
            Split(Collect(t, 1, true, [], false), 1, [], 0) == [[t[0]], [t[1]]]
  {
    var t := TwoVersions(k, newer, older);
    assert Collect(t[1..], 1, true, k, false) == [t[1]] + Collect(t[1..][1..], 1, true, k, true);
    assert Collect(t, 1, true, [], false) == [t[0], t[1]];
    SplitFirst([t[1]]);
    SplitFirst([t[0], t[1]]);
    assert [t[0], t[1]][1..] == [t[1]] && [t[1]][1..] == [];
  }

  lemma SplitFirst(kept: seq<Entry>)
    requires kept != []
    ensures Split(kept, 1, [], 0) == [[kept[0]]] + Split(kept[1..], 1, [], 0)
  {
    assert [] + [kept[0]] == [kept[0]];
  }

  lemma PicksTheFile(f: FileMeta)
    ensures Pick(OneFileVersion(f), EAGER, false) == Job([f], 1, true)
  {
    var v := OneFileVersion(f);
    assert MaxPopulated(v, MAX_LEVELS - 1) == 0;
    assert Overlapping(v[1], RangeMin(v[0], []), RangeMax(v[0], [])) == [];
  }

  lemma OneTableMerges(f: FileMeta)
    requires Sorted(f.table)
    ensures IsMerge([f], f.table)
  {
    assert Tables([f]) == [f.table] && [f.table][1..] == [];
    assert Merging.Bag([]) == multiset{};
  }

  lemma StraddledLevels(f: FileMeta, a: FileMeta, b: FileMeta)
    requires f.number == 1 && a.smallest == b.smallest
    ensures Layout.Committed(OneFileVersion(f), Layout.Numbers([f]), [a, b], 1) == OnlyL1([a, b])
  {
    LessIrreflexive(a.smallest);
    assert [a, b][1..] == [b] && [b][1..] == [];
    assert Layout.Sort(Layout.BySmallestKey, [b]) == [b];
    assert Layout.Sort(Layout.BySmallestKey, [a, b]) == [a, b];
    assert [f][1..] == [] && f.number in Layout.Numbers([f]) && Layout.Without([f], Layout.Numbers([f])) == [];
    assert [] + [a, b] == [a, b];
  }

  lemma StraddleCompacts(f: FileMeta, k: Bytes, newer: Bytes, older: Bytes)
    requires f == Layout.MakeFile(1, 0, TwoVersions(k, newer, older))
    ensures var t := TwoVersions(k, newer, older);
            Compacts(OneFileVersion(f), OnlyL1([Layout.MakeFile(2, 1, [t[0]]), Layout.MakeFile(3, 1, [t[1]])]),
                     EAGER, t, 1, [2, 3])
  {
    hide Pick, IsMerge, Split, Collect, Layout.Committed, Layout.Numbers;
    var t := TwoVersions(k, newer, older);
    var a, b := Layout.MakeFile(2, 1, [t[0]]), Layout.MakeFile(3, 1, [t[1]]);
    PicksTheFile(f);
    LessIrreflexive(k);
    OneTableMerges(f);
    StraddledParts(k, newer, older);
    StraddledLevels(f, a, b);
    assert Layout.MakeOutputs([[t[0]], [t[1]]], [2, 3], 1) == [a, b];
  }

  lemma OneSnapshot(t: nat)
    ensures OldestSnapshot(multiset{t}) == t
  {
    assert t in multiset{t};
  }

  lemma OneFileHealthy(f: FileMeta)
    requires FileOk(f) && f.level == 0 && Functional(Elements(f.table))
    ensures Healthy([], OneFileVersion(f))
  {
    var v := OneFileVersion(f);
    assert v[0][0] == f;
    forall h | h in Files(v) ensures h == f {
      var l, i :| 0 <= l < MAX_LEVELS && 0 <= i < |v[l]| && v[l][i] == h;
    }
    assert Files(v) == {f};
    OneFileLayers(f);
  }

  /**
   * The output split looks only at bytes. Here the picker's own job, with a snapshot live
   * between two versions of a key, writes them into two files; the level search lands on
   * the file with the older one, and the read goes back in time.
   */
  lemma StraddleLosesNewest(k: Bytes, newer: Bytes, older: Bytes)
    ensures var t := TwoVersions(k, newer, older);
            var v := OneFileVersion(Layout.MakeFile(1, 0, t));
            var v' := OnlyL1([Layout.MakeFile(2, 1, [t[0]]), Layout.MakeFile(3, 1, [t[1]])]);
            && Healthy([], v) && Compacts(v, v', EAGER, t, OldestSnapshot(multiset{1}), [2, 3])
            && Get([], v, k, MAX_SEQ) == Some(newer) && Get([], v', k, MAX_SEQ) == Some(older)
  {
    hide OneFileVersion, Get, SearchFiles, Compacts, Healthy;
    var t := TwoVersions(k, newer, older);
    var a, b, f := Layout.MakeFile(2, 1, [t[0]]), Layout.MakeFile(3, 1, [t[1]]), Layout.MakeFile(1, 0, t);
    OneSnapshot(1);
    StraddleCompacts(f, k, newer, older);
    LessIrreflexive(k);
    OneFileHealthy(f);
    SecondFileAnswers(a, b, k, MAX_SEQ);
    OnlyFileAnswers(f, k);
    SearchOne(OneFileVersion(f), k, MAX_SEQ, f);
  }

  // ... and the version it starts from comes from put, get_snapshot, put, flush.

  lemma NextOf(s: State, step: Step)
    requires Enabled(s, step)
    ensures Next(s, Do(s, step))
  {
  }

  lemma PutRun(s: State, w: Write) returns (ss: seq<State>)
    requires s.Up? && s.db.pending == [] && s.db.flush == NoFlush && s.db.nextSeq < MAX_SEQ && Replayable(w)
    ensures Runs.IsRun(ss) && ss[0] == s
    ensures var t, e := ss[|ss| - 1], EntryOf(w, s.db.nextSeq);
            && t.Up? && t.db == s.db.(mem := Insert(s.db.mem, e), nextSeq := s.db.nextSeq + 1)
            && t.disk == s.disk.(wal := s.disk.wal + [e])
  {
    hide Next, InsertAll, Insert, Stamp, Writes, CanPickJob, CanCommitJob, CanUnlink, CanAllocOutput, Replayable;
    hide CanWriteOutput, CanDropJob, CommittedVersion;
    StampOne(w, s.db.mem, s.db.nextSeq);
    var s1 := DoAssign(s, [w]);
    var s2 := DoApply(s1);
    NextOf(s, Assign([w]));
    NextOf(s1, Apply);
    NextOf(s2, Ack);
    ss := [s, s1, s2, DoAck(s2)];
  }

  lemma StampOne(w: Write, mem: seq<Entry>, n: nat)
    ensures Stamp([w], n) == [EntryOf(w, n)] && InsertAll(mem, [EntryOf(w, n)]) == Insert(mem, EntryOf(w, n))
  {
    var es := [EntryOf(w, n)];
    assert es[..0] == [] && InsertAll(mem, es[..0]) == mem;
  }

  lemma SnapshotNext(s: State)
    requires CanTakeSnapshot(s)
    ensures Next(s, DoTakeSnapshot(s))
  {
    hide Next;
    NextOf(s, TakeSnapshot);
  }

  lemma FlushRun(s: State) returns (ss: seq<State>)
    requires CanFlushInstall(s) && CanAppend(s.disk, LostWrites.FlushManifest(s))
    ensures Runs.IsRun(ss) && ss[0] == s
    ensures var t := ss[|ss| - 1];
            t.Up? && t.db.version == FlushedVersion(s.db.version, s.db.nextSst, s.db.mem) && t.db.mem == []
            && t.db.snapshots == s.db.snapshots && t.db.opts == s.db.opts
  {
    hide Next, CanPickJob, Manifest.Encodable, Manifest.Loads, FlushedVersion, CommittedVersion, CanUnlink;
    hide CanWriteOutput, CanDropJob, CanAllocOutput, Recovery.VersionToManifest;
    var s1 := DoFlushInstall(s);
    var s2 := DoFlushPublish(s1);
    NextOf(s, FlushInstall);
    NextOf(s1, FlushPublish);
    NextOf(s2, FlushClear);
    ss := [s, s1, s2, DoFlushClear(s2)];
  }

  lemma Joined(a: seq<State>, b: seq<State>)
    requires Runs.IsRun(a) && Runs.IsRun(b) && Next(a[|a| - 1], b[0])
    ensures Runs.IsRun(a + b)
  {
    hide Next;
    var c := a + b;
    forall i | 0 <= i < |c| - 1 ensures Next(c[i], c[i + 1]) {
      if i >= |a| { assert Next(b[i - |a|], b[i - |a| + 1]); }
    }
  }

  lemma Glued(a: seq<State>, b: seq<State>)
    requires Runs.IsRun(a) && Runs.IsRun(b) && a[|a| - 1] == b[0]
    ensures Runs.IsRun(a + b[1..]) && (a + b[1..])[|a + b[1..]| - 1] == b[|b| - 1]
  {
    hide Next;
    var c := a + b[1..];
    forall i | 0 <= i < |c| - 1 ensures Next(c[i], c[i + 1]) {
      if i >= |a| - 1 { assert Next(b[i - |a| + 1], b[i - |a| + 2]); }
    }
  }

  lemma InsertTwo(k: Bytes, newer: Bytes, older: Bytes)
    ensures var t := TwoVersions(k, newer, older);
            Insert([], t[1]) == [t[1]] && Insert([t[1]], t[0]) == t
  {
    LessIrreflexive(k);
    var t := TwoVersions(k, newer, older);
    assert [t[1]][1..] == [];
  }

  /** The version of StraddleLosesNewest, with its snapshot live, is one the store gets into. */
  lemma StraddleReachable(s: State, k: Bytes, newer: Bytes, older: Bytes) returns (ss: seq<State>)
    requires Init(s) && |k| <= Manifest.SPARE
    requires Replayable(Write(k, Some(newer))) && Replayable(Write(k, Some(older)))
    ensures Runs.IsRun(ss) && ss[0] == s
    ensures ss[|ss| - 1].Up?
    ensures var db := ss[|ss| - 1].db;
            && db.opts == EAGER && db.mem == [] && db.snapshots == multiset{1}
            && db.version == OneFileVersion(Layout.MakeFile(1, 0, TwoVersions(k, newer, older)))
  {
    hide Next, Inv, Recover, Insert, Replayable, OneFileVersion, Layout.MakeFile, FlushedVersion, CanAppend;
    var t := TwoVersions(k, newer, older);
    InsertTwo(k, newer, older);
    LostWrites.FreshStore(s, EAGER);
    var up := DoOpen(s, EAGER);
    NextOf(s, Open(EAGER));
    var put := PutRun(up, Write(k, Some(older)));
    Joined([s], put);
    var s1 := put[|put| - 1];
    var snapped := DoTakeSnapshot(s1);
    SnapshotNext(s1);
    var again := PutRun(snapped, Write(k, Some(newer)));
    Joined([s] + put, again);
    var full := again[|again| - 1];
    FlushOfTwo(full, k, newer, older);
    var flush := FlushRun(full);
    ss := [s] + put + again;
    Glued(ss, flush);
    ss := ss + flush[1..];
  }

  lemma FlushOfTwo(s: State, k: Bytes, newer: Bytes, older: Bytes)
    requires s.Up? && s.db.mem == TwoVersions(k, newer, older) && s.db.nextSst == 1 && |k| <= Manifest.SPARE
    requires s.db.version == Recovery.NoFiles() && !s.disk.torn
    ensures CanAppend(s.disk, LostWrites.FlushManifest(s))
    ensures FlushedVersion(s.db.version, 1, s.db.mem)
         == OneFileVersion(Layout.MakeFile(1, 0, TwoVersions(k, newer, older)))
  {
    var v := FlushedVersion(s.db.version, 1, s.db.mem);
    var f := Layout.MakeFile(1, 0, s.db.mem);
    assert v[0] == [f];
    assert v == OneFileVersion(f);
    Safety.FlattenEmpty(v[1..]);
    assert Flatten(v) == [f];
    assert LostWrites.FlushManifest(s) == [Recovery.ManifestEntry(1, 0, k, k)];
  }

  lemma OnlyFileAnswers(f: FileMeta, k: Bytes)
    ensures SearchFiles(OneFileVersion(f), k) == [f]
  {
    NoCandidates(OneFileVersion(f), 1, k);
  }

  // ------------------------------------------------------------- empty keys

  function SingleFile(number: nat, level: nat, e: Entry): FileMeta {
    Layout.MakeFile(number, level, [e])
  }

  /** Two L0 files, the first holding the empty key, over an L1 file that holds an older version of it. */
  function EmptyKeyVersion(c: Bytes, newer: Bytes, older: Bytes): Version {
    [[SingleFile(2, 0, Entry([], newer, false, 2)), SingleFile(3, 0, Entry(c, [], false, 3))],
     [SingleFile(1, 1, Entry([], older, false, 1))], [], [], [], [], []]
  }

  /** Two files in L0 trigger a compaction; everything fits into one output file. */
  const PAIRS: Options := Options(2, 0x1_0000, 10, 0x1_0000_0000)

  lemma EmptyKeyMin(c: Bytes, newer: Bytes, older: Bytes)
    requires c != []
    ensures RangeMin(EmptyKeyVersion(c, newer, older)[0], []) == c
  {
    var v := EmptyKeyVersion(c, newer, older);
    var f, g := v[0][0], v[0][1];
    EmptyIsLeast(c);
    assert [f, g][1..] == [g] && [g][1..] == [];
    assert RangeMin([g], []) == c;
  }

  lemma EmptyKeyPick(c: Bytes, newer: Bytes, older: Bytes)
    requires c != []
    ensures var v := EmptyKeyVersion(c, newer, older);
            Pick(v, PAIRS, false) == Job([v[0][0], v[0][1]], 1, true)
  {
    var v := EmptyKeyVersion(c, newer, older);
    var f, g, r := v[0][0], v[0][1], v[1][0];
    hide RangeMax, RangeMin;
    EmptyKeyMin(c, newer, older);
    EmptyIsLeast(c);
    assert [r][1..] == [];
    assert Overlapping(v[1], c, RangeMax(v[0], [])) == [];
    assert v[0] + [] == [f, g];
    assert MaxPopulated(v, MAX_LEVELS - 1) == 1;
  }

  lemma EmptyKeyFiles(c: Bytes, newer: Bytes, older: Bytes)
    ensures var v := EmptyKeyVersion(c, newer, older);
            Files(v) == {v[0][0], v[0][1], v[1][0]}
  {
    var v := EmptyKeyVersion(c, newer, older);
    assert v[0][0] in Files(v) && v[0][1] in Files(v) && v[1][0] in Files(v);
    forall h | h in Files(v) ensures h in {v[0][0], v[0][1], v[1][0]} {
      var l, i :| 0 <= l < MAX_LEVELS && 0 <= i < |v[l]| && v[l][i] == h;
    }
  }

  lemma SingleFileOk(number: nat, level: nat, e: Entry)
    ensures FileOk(SingleFile(number, level, e))
  {
  }

  lemma OverSingle(e: Entry, d: Entry)
    requires e.seqno > d.seqno
    ensures Over([e], [d])
  {
  }

  /** Three files of one entry each: two in L0, one below, the newer numbers above. */
  lemma ThreeFilesOk(f: FileMeta, g: FileMeta, r: FileMeta, x: Entry, y: Entry, z: Entry)
    requires f == SingleFile(2, 0, x) && g == SingleFile(3, 0, y) && r == SingleFile(1, 1, z)
    requires x.seqno == 2 && y.seqno == 3 && z.seqno == 1
    ensures LayersOk([], {f, g, r})
  {
    hide FileOk, Less, Before;
    var F := {f, g, r};
    SingleFileOk(2, 0, x);
    SingleFileOk(3, 0, y);
    SingleFileOk(1, 1, z);
    assert FilesOk(F) by {
      OverSingle(x, z);
      OverSingle(y, z);
      OverSingle(y, x);
      hide Over, LeftOf;
    }
    forall e | e in Stored([], F) ensures e == x || e == y || e == z {
      var h :| h in F && e in h.table;
    }
    hide FilesOk;
    assert Functional(Stored([], F));
  }

  lemma EmptyKeyHealthy(c: Bytes, newer: Bytes, older: Bytes)
    ensures Healthy([], EmptyKeyVersion(c, newer, older))
  {
    hide Files, LayersOk;
    var v := EmptyKeyVersion(c, newer, older);
    EmptyKeyFiles(c, newer, older);
    ThreeFilesOk(v[0][0], v[0][1], v[1][0], v[0][0].table[0], v[0][1].table[0], v[1][0].table[0]);
  }

  lemma EmptyKeyMerge(f: FileMeta, g: FileMeta, x: Entry, y: Entry)
    requires f.table == [x] && g.table == [y] && Less(x.key, y.key)
    ensures IsMerge([f, g], [x, y])
  {
    LessAsymmetric(x.key, y.key);
    assert Tables([f, g]) == [[x], [y]] && [[x], [y]][1..] == [[y]] && [[y]][1..] == [];
    assert Merging.Bag([[y]]) == multiset{y};
  }

  lemma EmptyKeyParts(x: Entry, y: Entry)
    requires x.seqno > 1 && y.seqno > 1 && EntryBytes(x) + EntryBytes(y) < PAIRS.targetFileSize
    ensures Split(Collect([x, y], 1, true, [], false), PAIRS.targetFileSize, [], 0) == [[x, y]]
  {
    assert [x, y][1..] == [y] && [y][1..] == [];
    assert Collect([y], 1, true, x.key, false) == [y];
    assert Collect([x, y], 1, true, [], false) == [x, y];
    assert [] + [x] == [x] && [x] + [y] == [x, y];
    assert Split([], PAIRS.targetFileSize, [x, y], EntryBytes(x) + EntryBytes(y)) == [[x, y]];
    assert Split([y], PAIRS.targetFileSize, [x], EntryBytes(x)) == [[x, y]];
  }

  lemma EmptyKeyLevels(c: Bytes, newer: Bytes, older: Bytes, o: FileMeta)
    requires o.smallest == []
    ensures var v := EmptyKeyVersion(c, newer, older);
            Layout.Committed(v, Layout.Numbers([v[0][0], v[0][1]]), [o], 1) == OnlyL1([v[1][0], o])
  {
    var v := EmptyKeyVersion(c, newer, older);
    var f, g, r := v[0][0], v[0][1], v[1][0];
    var nums := Layout.Numbers([f, g]);
    LessIrreflexive([]);
    assert [f, g][0] == f && [f, g][1] == g;
    assert f.number in nums && g.number in nums && r.number !in nums;
    assert [f, g][1..] == [g] && [g][1..] == [] && [r][1..] == [];
    assert Layout.Without([g], nums) == [] && Layout.Without([f, g], nums) == [];
    assert Layout.Without([r], nums) == [r] && [r] + [o] == [r, o];
    assert [r, o][1..] == [o] && [o][1..] == [];
    assert Layout.Sort(Layout.BySmallestKey, [o]) == [o];
    assert Layout.Sort(Layout.BySmallestKey, [r, o]) == [r, o];
  }

  lemma EmptyKeyCompacts(c: Bytes, newer: Bytes, older: Bytes)
    requires c != [] && |c| + |newer| < 0x1_0000
    ensures var v := EmptyKeyVersion(c, newer, older);
            var merged := [v[0][0].table[0], v[0][1].table[0]];
            Compacts(v, OnlyL1([v[1][0], Layout.MakeFile(4, 1, merged)]), PAIRS, merged, 1, [4])
  {
    hide Pick, IsMerge, Split, Collect, Layout.Committed, Layout.Numbers;
    var v := EmptyKeyVersion(c, newer, older);
    var x, y := v[0][0].table[0], v[0][1].table[0];
    var o := Layout.MakeFile(4, 1, [x, y]);
    EmptyKeyPick(c, newer, older);
    EmptyIsLeast(c);
    EmptyKeyMerge(v[0][0], v[0][1], x, y);
    EmptyKeyParts(x, y);
    EmptyKeyLevels(c, newer, older, o);
    assert Layout.MakeOutputs([[x, y]], [4], 1) == [o];
  }

  lemma ThreeTables(a: seq<Entry>, b: seq<Entry>, c: seq<Entry>, k: Bytes, s: nat)
    ensures FirstHit([[], a, b, c], k, s) ==
              if Lookup(a, k, s).Some? then Lookup(a, k, s)
              else if Lookup(b, k, s).Some? then Lookup(b, k, s)
              else Lookup(c, k, s)
  {
    hide Lookup;
    assert [[], a, b, c][1..] == [a, b, c] && [a, b, c][1..] == [b, c] && [b, c][1..] == [c] && [c][1..] == [];
    assert Lookup([], k, s) == None by { LookupNothing([], k, s); }
    assert FirstHit([c], k, s) == Lookup(c, k, s);
    assert FirstHit([b, c], k, s) == if Lookup(b, k, s).Some? then Lookup(b, k, s) else Lookup(c, k, s);
  }

  lemma EmptyKeySearch(c: Bytes, newer: Bytes, older: Bytes)
    ensures var v := EmptyKeyVersion(c, newer, older);
            SearchFiles(v, []) == [v[0][1], v[0][0], v[1][0]]
  {
    var v := EmptyKeyVersion(c, newer, older);
    var r := v[1][0];
    LessIrreflexive([]);
    assert [r][1..] == [];
    assert UpperBound([r], []) == 1 && Covering(v[1], []) == Some(r);
    NoCandidates(v, 2, []);
    assert Candidates(v, 1, []) == [r];
  }

  lemma EmptyKeyReadBefore(c: Bytes, newer: Bytes, older: Bytes)
    requires c != []
    ensures var v := EmptyKeyVersion(c, newer, older);
            Get([], v, [], 1) == Some(older) && Get([], v, [], MAX_SEQ) == Some(newer)
  {
    hide FirstHit, Lookup, SearchFiles;
    var v := EmptyKeyVersion(c, newer, older);
    var f, g, r := v[0][0], v[0][1], v[1][0];
    EmptyKeySearch(c, newer, older);
    assert [[]] + Tables([g, f, r]) == [[], g.table, f.table, r.table];
    ThreeTables(g.table, f.table, r.table, [], 1);
    ThreeTables(g.table, f.table, r.table, [], MAX_SEQ);
    OneEntry(g.table[0], [], 1);
    OneEntry(g.table[0], [], MAX_SEQ);
    OneEntry(f.table[0], [], 1);
    OneEntry(f.table[0], [], MAX_SEQ);
    OneEntry(r.table[0], [], 1);
  }

  lemma OneEntry(e: Entry, k: Bytes, s: nat)
    ensures Lookup([e], k, s) == if Visible(e, k, s) then Some(e) else None
  {
    assert [e][1..] == [];
  }

  /**
   * The empty key is also the "unset" mark of range_min. The picker's job over this healthy
   * version misses the L1 file it overlaps, and the two files then overlap in L1. In one
   * order a live snapshot loses its answer; in the other, which the sort may leave just as
   * well, the newest read goes back in time.
   */
  lemma EmptyKeyBreaksPick(c: Bytes, newer: Bytes, older: Bytes)
    requires c != [] && |c| + |newer| < 0x1_0000
    ensures var v := EmptyKeyVersion(c, newer, older);
            var merged := [v[0][0].table[0], v[0][1].table[0]];
            var o := Layout.MakeFile(4, 1, merged);
            var v' := OnlyL1([v[1][0], o]);
            && Healthy([], v) && !RangeOk(v)
            && Compacts(v, v', PAIRS, merged, OldestSnapshot(multiset{1}), [4])
            && Get([], v, [], 1) == Some(older) && Get([], v', [], 1) == None
            && LevelSearch.InKeyOrder([o, v[1][0]], v'[1])
            && Get([], v, [], MAX_SEQ) == Some(newer) && Get([], OnlyL1([o, v[1][0]]), [], MAX_SEQ) == Some(older)
  {
    hide Get, Compacts, Healthy;
    var v := EmptyKeyVersion(c, newer, older);
    var x, y, r := v[0][0].table[0], v[0][1].table[0], v[1][0];
    var o := Layout.MakeFile(4, 1, [x, y]);
    OneSnapshot(1);
    EmptyKeyHealthy(c, newer, older);
    EmptyKeyCompacts(c, newer, older);
    EmptyKeyReadBefore(c, newer, older);
    EmptyKeyRange(c, newer, older);
    EmptyIsLeast(c);
    LessIrreflexive([]);
    SecondFileAnswers(r, o, [], 1);
    SecondFileAnswers(o, r, [], MAX_SEQ);
    OneEntry(r.table[0], [], MAX_SEQ);
    OneEntry(y, [], 1);
    assert [x, y][1..] == [y];
    TieOrder(o, r);
  }

  /** The sort may leave two files that start with the same key in either order. */
  lemma TieOrder(a: FileMeta, b: FileMeta)
    requires a.smallest == b.smallest
    ensures LevelSearch.InKeyOrder([a, b], [b, a])
  {
    LessIrreflexive(a.smallest);
  }

  lemma EmptyKeyRange(c: Bytes, newer: Bytes, older: Bytes)
    requires c != []
    ensures !RangeOk(EmptyKeyVersion(c, newer, older))
  {
    var v := EmptyKeyVersion(c, newer, older);
    var f, g, r := v[0][0], v[0][1], v[1][0];
    EmptyIsLeast(c);
    EmptyKeyMin(c, newer, older);
    assert f in v[0] && f.smallest == [] && v[0][|v[0]| - 1] == g;
    assert r in v[1];
  }

  // ---------------------------------------------------- nothing but tombstones

  function Grave(number: nat, k: Bytes): FileMeta {
    SingleFile(number, 0, Entry(k, [], true, number))
  }

  /** Two L0 files, each with a tombstone of the same key, and nothing below. */
  function GraveVersion(k: Bytes): Version {
    [[Grave(1, k), Grave(2, k)], [], [], [], [], [], []]
  }

  lemma GravePick(k: Bytes)
    ensures Pick(GraveVersion(k), PAIRS, false) == Job([Grave(1, k), Grave(2, k)], 1, true)
  {
    var v := GraveVersion(k);
    assert MaxPopulated(v, MAX_LEVELS - 1) == 0;
    assert Overlapping(v[1], RangeMin(v[0], []), RangeMax(v[0], [])) == [];
    assert v[0] + [] == [Grave(1, k), Grave(2, k)];
  }

  lemma GraveStored(k: Bytes)
    ensures StoredIn(SetOf([Grave(1, k), Grave(2, k)])) == {Entry(k, [], true, 1), Entry(k, [], true, 2)}
  {
    var a, b := Grave(1, k), Grave(2, k);
    assert [a, b][0] == a && [a, b][1] == b;
    assert SetOf([a, b]) == {a, b};
    assert a.table[0] in a.table && b.table[0] in b.table;
  }

  lemma GraveFiles(k: Bytes)
    ensures Files(GraveVersion(k)) == {Grave(1, k), Grave(2, k)}
  {
    var v := GraveVersion(k);
    assert v[0][0] == Grave(1, k) && v[0][1] == Grave(2, k);
    forall h | h in Files(v) ensures h in {Grave(1, k), Grave(2, k)} {
      var l, i :| 0 <= l < MAX_LEVELS && 0 <= i < |v[l]| && v[l][i] == h;
    }
  }

  lemma GraveLayers(a: FileMeta, b: FileMeta, k: Bytes)
    requires a == Grave(1, k) && b == Grave(2, k)
    ensures LayersOk([], {a, b})
  {
    var F := {a, b};
    forall h, i | h in F && i in F && Above(h, i) ensures Over(h.table, i.table) { }
    assert FilesOk(F);
    forall e | e in Stored([], F) ensures e == a.table[0] || e == b.table[0] {
      var h :| h in F && e in h.table;
    }
    assert Functional(Stored([], F));
  }

  lemma GraveHealthy(k: Bytes)
    ensures Healthy([], GraveVersion(k))
  {
    hide Files, LayersOk;
    GraveFiles(k);
    GraveLayers(Grave(1, k), Grave(2, k), k);
  }

  /**
   * Two tombstones of one key and nothing to bury: the picker's bottommost job keeps nothing,
   * so nothing is committed, compaction is as needed as before, and the same job comes again.
   */
  lemma GravesSpin(k: Bytes)
    ensures var v := GraveVersion(k);
            var job := Pick(v, PAIRS, false);
            && Healthy([], v) && NeedsCompaction(v, PAIRS) && job == Job([Grave(1, k), Grave(2, k)], 1, true)
            && AllDead(StoredIn(SetOf(job.inputs)), OldestSnapshot(multiset{}), job.bottom)
            && AtRest(v, PAIRS, OldestSnapshot(multiset{}))
  {
    hide Healthy, Pick, NeedsCompaction, StoredIn;
    var v := GraveVersion(k);
    GraveHealthy(k);
    GravePick(k);
    JobIffNeeded(v, PAIRS);
    GraveStored(k);
    var x, y := Entry(k, [], true, 1), Entry(k, [], true, 2);
    assert IsNewest({x, y}, k, MAX_SEQ, Some(y));
    NewestUnique({x, y}, k, MAX_SEQ, Some(y));
  }

  // ------------------------------------------------------------- a trigger of zero

  /** Every turn wants an L0 job, whatever is there. */
  const ALWAYS: Options := Options(0, 0x1_0000, 10, 0x1_0000_0000)

  function EmptyKeyFile(n: nat, value: Bytes): FileMeta {
    SingleFile(n, 1, Entry([], value, false, 1))
  }

  lemma ZeroPick(f: FileMeta)
    requires f.smallest == [] == f.largest
    ensures Pick(OnlyL1([f]), ALWAYS, false) == Job([f], 1, true)
  {
    var v := OnlyL1([f]);
    LessIrreflexive([]);
    assert [f][1..] == [];
    assert Overlapping([f], [], []) == [f];
    assert v[1] == [f] && MaxPopulated(v, 1) == 1 && MaxPopulated(v, 4) == 1;
  }

  lemma ZeroLevels(f: FileMeta, o: FileMeta)
    ensures Layout.Committed(OnlyL1([f]), Layout.Numbers([f]), [o], 1) == OnlyL1([o])
  {
    assert [f][1..] == [] && f.number in Layout.Numbers([f]) && Layout.Without([f], Layout.Numbers([f])) == [];
    assert [] + [o] == [o] && [o][1..] == [];
    assert Layout.Sort(Layout.BySmallestKey, [o]) == [o];
  }

  /**
   * With a trigger of zero the loop has no end: over an empty L0 the range is the empty key,
   * and the file that holds it is rewritten under the next number, for ever.
   */
  lemma ZeroTriggerRunsOn(n: nat, value: Bytes)
    requires 17 + |value| < 0x1_0000_0000
    ensures Healthy([], OnlyL1([EmptyKeyFile(n, value)]))
    ensures Compacts(OnlyL1([EmptyKeyFile(n, value)]), OnlyL1([EmptyKeyFile(n + 1, value)]), ALWAYS,
                     EmptyKeyFile(n, value).table, OldestSnapshot(multiset{}), [n + 1])
  {
    hide Pick, IsMerge, Layout.Committed, Layout.Numbers, Healthy, OldestSnapshot, Split, Collect;
    var f, o := EmptyKeyFile(n, value), EmptyKeyFile(n + 1, value);
    ZeroPick(f);
    OneTableMerges(f);
    ZeroLevels(f, o);
    OneL1Healthy(f);
    ZeroParts(f.table[0]);
    assert Layout.MakeOutputs([f.table], [n + 1], 1) == [o];
  }

  lemma ZeroParts(e: Entry)
    requires !e.tombstone && e.seqno <= MAX_SEQ && EntryBytes(e) < ALWAYS.targetFileSize
    ensures Split(Collect([e], MAX_SEQ, true, [], false), ALWAYS.targetFileSize, [], 0) == [[e]]
  {
    assert [e][1..] == [] && Collect([e], MAX_SEQ, true, [], false) == [e];
    assert [] + [e] == [e] && Split([], ALWAYS.targetFileSize, [e], EntryBytes(e)) == [[e]];
  }

  lemma OneL1Healthy(f: FileMeta)
    requires FileOk(f) && f.level == 1 && Functional(Elements(f.table))
    ensures Healthy([], OnlyL1([f]))
  {
    hide FileOk, Functional;
    var v := OnlyL1([f]);
    assert v[1][0] == f;
    forall h | h in Files(v) ensures h == f {
      var l, i :| 0 <= l < MAX_LEVELS && 0 <= i < |v[l]| && v[l][i] == h;
    }
    assert Files(v) == {f};
    OneFileLayers(f);
  }

  lemma OneFileLayers(f: FileMeta)
    requires FileOk(f) && f.level < MAX_LEVELS && Functional(Elements(f.table))
    ensures LayersOk([], {f})
  {
    hide FileOk, Functional;
    assert Stored([], {f}) == Elements(f.table);
  }
}
