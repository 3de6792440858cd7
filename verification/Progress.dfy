// Compaction and its end: every committed automatic job moves entries down, so a weight
// strictly decreases; a job that keeps nothing is picked again and again.
module Progress {
  import opened Keys
  import opened Entries
  import opened Versions
  import opened Gc
  import opened Picking
  import opened Machine
  import Layout
  import Merging
  import Safety

  /** The entries of a version, each weighted by the number of levels below it. */
  function WeightFrom(v: Version, l: nat): nat
    requires l <= MAX_LEVELS
    decreases MAX_LEVELS - l
  {
    if l == MAX_LEVELS then 0 else (MAX_LEVELS - 1 - l) * Count(v[l]) + WeightFrom(v, l + 1)
  }

  function Weight(v: Version): nat {
    WeightFrom(v, 0)
  }

  // ----------------------------------------------------------------- counting

  lemma {:induction false} CountConcat(a: seq<FileMeta>, b: seq<FileMeta>)
    ensures Count(a + b) == Count(a) + Count(b)
  {
    if a == [] {
      assert a + b == b;
    } else {
      CountConcat(a[1..], b);
      assert (a + b)[1..] == a[1..] + b;
    }
  }

  lemma {:induction false} CountInsert(o: Layout.Order, f: FileMeta, fs: seq<FileMeta>)
    ensures Count(Layout.Insert(o, f, fs)) == |f.table| + Count(fs)
  {
    if fs != [] && Layout.Precedes(o, fs[0], f) {
      CountInsert(o, f, fs[1..]);
      var r := Layout.Insert(o, f, fs[1..]);
      assert ([fs[0]] + r)[1..] == r;
    } else {
      assert ([f] + fs)[1..] == fs;
    }
  }

  lemma {:induction false} CountSort(o: Layout.Order, fs: seq<FileMeta>)
    ensures Count(Layout.Sort(o, fs)) == Count(fs)
  {
    if fs != [] {
      CountSort(o, fs[1..]);
      CountInsert(o, fs[0], Layout.Sort(o, fs[1..]));
    }
  }

  lemma {:induction false} CountBag(fs: seq<FileMeta>)
    ensures |Merging.Bag(Tables(fs))| == Count(fs)
  {
    if fs != [] {
      CountBag(fs[1..]);
      assert Tables(fs)[1..] == Tables(fs[1..]);
    }
  }

  lemma {:induction false} CountOutputs(parts: seq<seq<Entry>>, numbers: seq<nat>, level: nat)
    requires |parts| == |numbers| && forall i :: 0 <= i < |parts| ==> parts[i] != []
    ensures Count(Layout.MakeOutputs(parts, numbers, level)) == |Concat(parts)|
  {
    if parts != [] {
      CountOutputs(parts[1..], numbers[1..], level);
      assert Layout.MakeOutputs(parts, numbers, level)[1..] == Layout.MakeOutputs(parts[1..], numbers[1..], level);
    }
  }

  /** The outputs never hold more entries than the inputs. */
  lemma OutputsNoLarger(inputs: seq<FileMeta>, merged: seq<Entry>, oldest: nat, bottom: bool, target: nat,
                        numbers: seq<nat>, out: nat)
    requires IsMerge(inputs, merged)
    requires |Split(Collect(merged, oldest, bottom, [], false), target, [], 0)| == |numbers|
    ensures var parts := Split(Collect(merged, oldest, bottom, [], false), target, [], 0);
            Count(Layout.MakeOutputs(parts, numbers, out)) <= Count(inputs)
  {
    var kept := Collect(merged, oldest, bottom, [], false);
    var parts := Split(kept, target, [], 0);
    SplitConcat(kept, target, [], 0);
    CountOutputs(parts, numbers, out);
    CountBag(inputs);
    assert |merged| == |multiset(merged)|;
  }

  lemma {:induction false} WithoutNone(fs: seq<FileMeta>, nums: set<nat>)
    requires forall f :: f in fs ==> f.number !in nums
    ensures Layout.Without(fs, nums) == fs
  {
    if fs != [] {
      assert fs[0] in fs;
      WithoutNone(fs[1..], nums);
    }
  }

  lemma {:induction false} WithoutAll(fs: seq<FileMeta>, nums: set<nat>)
    requires forall f :: f in fs ==> f.number in nums
    ensures Layout.Without(fs, nums) == []
  {
    if fs != [] {
      assert fs[0] in fs;
      WithoutAll(fs[1..], nums);
    }
  }

  lemma {:induction false} WithoutOverlapping(fs: seq<FileMeta>, nums: set<nat>, lo: Bytes, hi: Bytes)
    requires forall f :: f in fs ==> (f.number in nums <==> Overlaps(f, lo, hi))
    ensures Count(Layout.Without(fs, nums)) + Count(Overlapping(fs, lo, hi)) == Count(fs)
  {
    if fs != [] {
      var f, t := fs[0], fs[1..];
      assert f in fs;
      WithoutOverlapping(t, nums, lo, hi);
      CountConcat([f], Layout.Without(t, nums));
      CountConcat([f], Overlapping(t, lo, hi));
      assert Count([f]) == |f.table|;
      assert [] + Overlapping(t, lo, hi) == Overlapping(t, lo, hi);
      assert [] + Layout.Without(t, nums) == Layout.Without(t, nums);
    }
  }

  lemma {:induction false} WithoutOne(fs: seq<FileMeta>, nums: set<nat>, p: FileMeta)
    requires p in fs && p.number in nums
    ensures Count(Layout.Without(fs, nums)) + |p.table| <= Count(fs)
  {
    var f, t := fs[0], fs[1..];
    CountConcat([f], Layout.Without(t, nums));
    assert Count([f]) == |f.table|;
    assert [] + Layout.Without(t, nums) == Layout.Without(t, nums);
    if p in t {
      WithoutOne(t, nums, p);
    } else {
      assert p == f;
      WithoutAtMost(t, nums);
    }
  }

  lemma {:induction false} WithoutAtMost(fs: seq<FileMeta>, nums: set<nat>)
    ensures Count(Layout.Without(fs, nums)) <= Count(fs)
  {
    if fs != [] {
      WithoutAtMost(fs[1..], nums);
      CountConcat([fs[0]], Layout.Without(fs[1..], nums));
      assert Count([fs[0]]) == |fs[0].table|;
      assert [] + Layout.Without(fs[1..], nums) == Layout.Without(fs[1..], nums);
    }
  }

  // -------------------------------------------------------------- one commit

  /**
   * What counting needs of a version: levels and tables as the file names say, one file to a
   * number. Ranges may overlap.
   */
  ghost predicate Numbered(v: Version) {
    && (forall l, i :: 0 <= l < MAX_LEVELS && 0 <= i < |v[l]| ==> v[l][i].level == l && v[l][i].table != [])
    && (forall f, g :: f in Files(v) && g in Files(v) && f.number == g.number ==> f == g)
  }

  lemma HealthyIsNumbered(mem: seq<Entry>, v: Version)
    requires Healthy(mem, v)
    ensures Numbered(v) && Functional(StoredIn(Files(v)))
  {
    hide Over, LeftOf;
    forall l, i | 0 <= l < MAX_LEVELS && 0 <= i < |v[l]| ensures v[l][i].table != [] {
      Layout.FileInLevel(v, l, v[l][i]);
      assert FileOk(v[l][i]);
    }
    assert StoredIn(Files(v)) <= Stored(mem, Files(v));
  }

  lemma OnlyInputsRemoved(v: Version, inputs: seq<FileMeta>, l: nat)
    requires Numbered(v) && SetOf(inputs) <= Files(v) && l < MAX_LEVELS
    ensures forall f :: f in v[l] ==> (f.number in Layout.Numbers(inputs) <==> f in inputs)
  {
    forall f | f in v[l] ensures f.number in Layout.Numbers(inputs) <==> f in inputs {
      Layout.FileInLevel(v, l, f);
      Layout.InputsByNumber(Files(v), inputs, f);
    }
  }

  /** The level counts after a commit: m entries leave level, no more arrive below it. */
  ghost predicate Moved(v: Version, v': Version, level: nat, m: nat)
    requires level + 1 < MAX_LEVELS
  {
    && (forall l :: 0 <= l < MAX_LEVELS && l != level && l != level + 1 ==> Count(v'[l]) == Count(v[l]))
    && m > 0
    && Count(v'[level]) + m <= Count(v[level])
    && Count(v'[level + 1]) <= Count(v[level + 1]) + m
  }

  lemma {:induction false} WeightAgrees(v: Version, v': Version, l: nat)
    requires l <= MAX_LEVELS && forall i :: l <= i < MAX_LEVELS ==> Count(v'[i]) == Count(v[i])
    ensures WeightFrom(v', l) == WeightFrom(v, l)
    decreases MAX_LEVELS - l
  {
    if l < MAX_LEVELS { WeightAgrees(v, v', l + 1); }
  }

  lemma {:induction false} MovedIsLighter(v: Version, v': Version, level: nat, m: nat, l: nat)
    requires level + 1 < MAX_LEVELS && l <= level && Moved(v, v', level, m)
    ensures WeightFrom(v', l) < WeightFrom(v, l)
    decreases level - l
  {
    if l < level {
      MovedIsLighter(v, v', level, m, l + 1);
    } else {
      WeightAgrees(v, v', level + 2);
      var a, b := MAX_LEVELS - 1 - level, MAX_LEVELS - 2 - level;
      LighterSum(a, b, Count(v[level]), Count(v[level + 1]), Count(v'[level]), Count(v'[level + 1]), m);
    }
  }

  lemma LighterSum(a: nat, b: nat, x: nat, y: nat, x': nat, y': nat, m: nat)
    requires a == b + 1 && m > 0 && x' + m <= x && y' <= y + m
    ensures a * x' + b * y' < a * x + b * y
  {
    assert b * y' <= b * (y + m) == b * y + b * m;
    assert a * (x' + m) <= a * x;
    assert a * (x' + m) == a * x' + b * m + m;
  }

  /** What a committed job does to the version it was picked from. */
  ghost predicate Commits(v: Version, v': Version, opts: Options, force: bool, merged: seq<Entry>, oldest: nat,
                          numbers: seq<nat>) {
    var job := Pick(v, opts, force);
    var parts := Split(Collect(merged, oldest, job.bottom, [], false), opts.targetFileSize, [], 0);
    && job.inputs != [] && IsMerge(job.inputs, merged)
    && parts != [] && |numbers| == |parts| && job.out < MAX_LEVELS
    && v' == Layout.Committed(v, Layout.Numbers(job.inputs), Layout.MakeOutputs(parts, numbers, job.out), job.out)
  }

  /** An automatic job. */
  ghost predicate Compacts(v: Version, v': Version, opts: Options, merged: seq<Entry>, oldest: nat, numbers: seq<nat>) {
    Commits(v, v', opts, false, merged, oldest, numbers)
  }

  lemma LevelOfFile(v: Version, l: nat, f: FileMeta)
    requires Numbered(v) && l < MAX_LEVELS && f in v[l]
    ensures f.level == l && |f.table| > 0
  {
    Layout.FileInLevel(v, l, f);
  }

  lemma PickedInVersion(v: Version, level: nat, inputs: seq<FileMeta>)
    requires level + 1 < MAX_LEVELS && forall f :: f in inputs ==> f in v[level] || f in v[level + 1]
    ensures SetOf(inputs) <= Files(v)
  {
    forall f | f in inputs ensures f in Files(v) {
      Layout.FileInLevel(v, if f in v[level] then level else level + 1, f);
    }
  }

  /** Levels a job does not touch keep their files. */
  lemma UntouchedLevel(v: Version, level: nat, inputs: seq<FileMeta>, outs: seq<FileMeta>, l: nat)
    requires Numbered(v) && level + 1 < MAX_LEVELS
    requires l < MAX_LEVELS && l != level && l != level + 1
    requires forall f :: f in inputs ==> f in v[level] || f in v[level + 1]
    ensures Layout.Committed(v, Layout.Numbers(inputs), outs, level + 1)[l] == v[l]
  {
    hide Files, Numbered;
    PickedInVersion(v, level, inputs);
    OnlyInputsRemoved(v, inputs, l);
    forall f | f in v[l] ensures f.number !in Layout.Numbers(inputs) {
      LevelOfFile(v, l, f);
      if f in v[level] { LevelOfFile(v, level, f); }
      if f in v[level + 1] { LevelOfFile(v, level + 1, f); }
    }
    WithoutNone(v[l], Layout.Numbers(inputs));
  }

  /** The output level: the overlapping files leave it and the outputs join it. */
  lemma OutputLevelCount(v: Version, level: nat, top: seq<FileMeta>, lo: Bytes, hi: Bytes, outs: seq<FileMeta>)
    requires Numbered(v) && level + 1 < MAX_LEVELS
    requires forall f :: f in top ==> f in v[level]
    requires Count(outs) <= Count(top + Overlapping(v[level + 1], lo, hi))
    ensures var nums := Layout.Numbers(top + Overlapping(v[level + 1], lo, hi));
            Count(Layout.Committed(v, nums, outs, level + 1)[level + 1]) <= Count(v[level + 1]) + Count(top)
  {
    hide Files, Numbered, Overlaps;
    var below := v[level + 1];
    var inputs := top + Overlapping(below, lo, hi);
    var nums := Layout.Numbers(inputs);
    PickedInVersion(v, level, inputs);
    OnlyInputsRemoved(v, inputs, level + 1);
    forall f | f in below ensures f.number in nums <==> Overlaps(f, lo, hi) {
      LevelOfFile(v, level + 1, f);
      if f in top { LevelOfFile(v, level, f); }
    }
    WithoutOverlapping(below, nums, lo, hi);
    CountConcat(top, Overlapping(below, lo, hi));
    CountConcat(Layout.Without(below, nums), outs);
    CountSort(Layout.BySmallestKey, Layout.Without(below, nums) + outs);
  }

  /** A job that takes files top from level and what they overlap below makes the version lighter. */
  lemma JobLighter(v: Version, level: nat, top: seq<FileMeta>, lo: Bytes, hi: Bytes, outs: seq<FileMeta>)
    requires Numbered(v) && level + 1 < MAX_LEVELS
    requires forall f :: f in top ==> f in v[level]
    requires Count(outs) <= Count(top + Overlapping(v[level + 1], lo, hi))
    requires Count(top) > 0
    requires var inputs := top + Overlapping(v[level + 1], lo, hi);
             Count(Layout.Without(v[level], Layout.Numbers(inputs))) + Count(top) <= Count(v[level])
    ensures var inputs := top + Overlapping(v[level + 1], lo, hi);
            Weight(Layout.Committed(v, Layout.Numbers(inputs), outs, level + 1)) < Weight(v)
  {
    hide Files, Numbered, Overlaps;
    var inputs := top + Overlapping(v[level + 1], lo, hi);
    var v' := Layout.Committed(v, Layout.Numbers(inputs), outs, level + 1);
    forall l | 0 <= l < MAX_LEVELS && l != level && l != level + 1 ensures v'[l] == v[l] {
      UntouchedLevel(v, level, inputs, outs, l);
    }
    OutputLevelCount(v, level, top, lo, hi, outs);
    MovedIsLighter(v, v', level, Count(top), 0);
  }

  lemma L0Lighter(v: Version, outs: seq<FileMeta>)
    requires Numbered(v) && v[0] != []
    requires Count(outs) <= Count(PickL0(v).inputs)
    ensures Weight(Layout.Committed(v, Layout.Numbers(PickL0(v).inputs), outs, 1)) < Weight(v)
  {
    hide Files, Numbered, Overlaps, RangeMin, RangeMax, Weight, Layout.Committed, MaxPopulated;
    var inputs := PickL0(v).inputs;
    forall f | f in v[0] ensures f.number in Layout.Numbers(inputs) { assert f in inputs; }
    WithoutAll(v[0], Layout.Numbers(inputs));
    LevelOfFile(v, 0, v[0][0]);
    JobLighter(v, 0, v[0], RangeMin(v[0], []), RangeMax(v[0], []), outs);
  }

  lemma LevelLighter(v: Version, level: nat, outs: seq<FileMeta>)
    requires Numbered(v) && 1 <= level < MAX_LEVELS - 1 && v[level] != []
    requires Count(outs) <= Count(PickLevel(v, level).inputs)
    ensures Weight(Layout.Committed(v, Layout.Numbers(PickLevel(v, level).inputs), outs, level + 1)) < Weight(v)
  {
    hide Files, Numbered, Overlaps;
    var inputs := PickLevel(v, level).inputs;
    var p := Oldest(v[level]);
    assert p in inputs && Count([p]) == |p.table|;
    WithoutOne(v[level], Layout.Numbers(inputs), p);
    LevelOfFile(v, level, p);
    JobLighter(v, level, [p], p.smallest, p.largest, outs);
  }

  lemma {:induction false} OverfullLighter(v: Version, opts: Options, level: nat, outs: seq<FileMeta>)
    requires Numbered(v) && 1 <= level < MAX_LEVELS
    requires var job := PickOverfull(v, opts, level); job.inputs != [] && Count(outs) <= Count(job.inputs)
    ensures var job := PickOverfull(v, opts, level);
            job.out < MAX_LEVELS && Weight(Layout.Committed(v, Layout.Numbers(job.inputs), outs, job.out)) < Weight(v)
    decreases MAX_LEVELS - level
  {
    if Overfull(v, opts, level) && v[level] != [] {
      LevelLighter(v, level, outs);
    } else {
      OverfullLighter(v, opts, level + 1, outs);
    }
  }

  lemma {:induction false} NoneOverlap(fs: seq<FileMeta>, lo: Bytes, hi: Bytes)
    requires forall f :: f in fs ==> !Overlaps(f, lo, hi)
    ensures Overlapping(fs, lo, hi) == []
  {
    if fs != [] {
      assert fs[0] in fs;
      NoneOverlap(fs[1..], lo, hi);
    }
  }

  lemma {:induction false} SomeOverlap(fs: seq<FileMeta>, lo: Bytes, hi: Bytes, f: FileMeta)
    requires f in fs && Overlaps(f, lo, hi)
    ensures Overlapping(fs, lo, hi) != []
  {
    assert f in Overlapping(fs, lo, hi);
  }

  /** Over an empty L0 the range is the empty key, so the job takes the L1 file that starts with it. */
  lemma EmptyL0Picks(v: Version)
    requires v[0] == []
    ensures PickL0(v).inputs != [] <==> exists f :: f in v[1] && f.smallest == []
  {
    hide Less;
    forall f | f in v[1] ensures Overlaps(f, [], []) <==> f.smallest == [] {
      EmptyIsLeast(f.largest);
      EmptyIsLeast(f.smallest);
      LessIrreflexive([]);
    }
    if f :| f in v[1] && f.smallest == [] {
      SomeOverlap(v[1], [], [], f);
    } else {
      NoneOverlap(v[1], [], []);
    }
  }

  /** A trigger of zero asks for an L0 job even when there is nothing in L0. */
  predicate ZeroTrigger(v: Version, opts: Options) {
    opts.compactionTrigger == 0 && v[0] == []
  }

  /** Every committed automatic job strictly lowers the weight. */
  lemma CompactionLowersWeight(v: Version, v': Version, opts: Options, merged: seq<Entry>, oldest: nat,
                               numbers: seq<nat>)
    requires Numbered(v) && !ZeroTrigger(v, opts)
    requires Compacts(v, v', opts, merged, oldest, numbers)
    ensures Weight(v') < Weight(v)
  {
    var job := Pick(v, opts, false);
    var parts := Split(Collect(merged, oldest, job.bottom, [], false), opts.targetFileSize, [], 0);
    var outs := Layout.MakeOutputs(parts, numbers, job.out);
    OutputsNoLarger(job.inputs, merged, oldest, job.bottom, opts.targetFileSize, numbers, job.out);
    if |v[0]| >= opts.compactionTrigger {
      L0Lighter(v, outs);
    } else {
      OverfullLighter(v, opts, 1, outs);
    }
  }

  // ---------------------------------------------------------------- all jobs

  /** The numbers of the outputs are new ones. */
  ghost predicate Fresh(numbers: seq<nat>, F: set<FileMeta>) {
    && (forall i, j :: 0 <= i < j < |numbers| ==> numbers[i] != numbers[j])
    && (forall i, f :: 0 <= i < |numbers| && f in F ==> numbers[i] != f.number)
  }

  lemma OutputFiles(parts: seq<seq<Entry>>, numbers: seq<nat>, out: nat, F: set<FileMeta>)
    requires |parts| == |numbers| && (forall i :: 0 <= i < |parts| ==> parts[i] != []) && Fresh(numbers, F)
    ensures var outs := Layout.MakeOutputs(parts, numbers, out);
            && (forall o :: o in outs ==> o.level == out && o.table != [])
            && (forall o, f :: o in outs && f in F ==> o.number != f.number)
            && (forall o, p :: o in outs && p in outs && o.number == p.number ==> o == p)
  {
    var outs := Layout.MakeOutputs(parts, numbers, out);
    forall o | o in outs
      ensures o.level == out && o.table != [] && forall f :: f in F ==> o.number != f.number
    {
      var i :| 0 <= i < |outs| && outs[i] == o;
    }
    forall o, p | o in outs && p in outs && o.number == p.number ensures o == p {
      var i :| 0 <= i < |outs| && outs[i] == o;
      var j :| 0 <= j < |outs| && outs[j] == p;
      assert i == j;
    }
  }

  lemma CommitNumbered(v: Version, inputs: seq<FileMeta>, outs: seq<FileMeta>, out: nat)
    requires Numbered(v) && 1 <= out < MAX_LEVELS && SetOf(inputs) <= Files(v)
    requires forall o :: o in outs ==> o.level == out && o.table != []
    requires forall o, f :: o in outs && f in Files(v) ==> o.number != f.number
    requires forall o, p :: o in outs && p in outs && o.number == p.number ==> o == p
    ensures Numbered(Layout.Committed(v, Layout.Numbers(inputs), outs, out))
  {
    hide Files;
    var nums := Layout.Numbers(inputs);
    var v' := Layout.Committed(v, nums, outs, out);
    Layout.CommittedFiles(v, inputs, outs, out);
    forall l, i | 0 <= l < MAX_LEVELS && 0 <= i < |v'[l]| ensures v'[l][i].level == l && v'[l][i].table != [] {
      var f := v'[l][i];
      assert f in v'[l];
      if !(l == out && f in outs) { LevelOfFile(v, l, f); }
    }
  }

  /** The outputs are drawn from the inputs, so numbers go on naming one version each. */
  lemma CommitFunctional(v: Version, v': Version, opts: Options, merged: seq<Entry>, oldest: nat, numbers: seq<nat>)
    requires Numbered(v) && Functional(StoredIn(Files(v))) && Compacts(v, v', opts, merged, oldest, numbers)
    requires SetOf(Pick(v, opts, false).inputs) <= Files(v) && 1 <= Pick(v, opts, false).out
    ensures Functional(StoredIn(Files(v')))
  {
    hide Files, Pick, Split, Collect, Layout.Committed, IsMerge, Numbered;
    var job := Pick(v, opts, false);
    var outs := Layout.MakeOutputs(TurnParts(v, opts, merged, oldest), numbers, job.out);
    OneFileToANumber(v);
    Layout.CommittedFiles(v, job.inputs, outs, job.out);
    OutputsDrawn(job.inputs, merged, oldest, job.bottom, opts.targetFileSize, numbers, job.out);
    forall e | e in StoredIn(Files(v')) ensures e in StoredIn(Files(v)) {
      var f :| f in Files(v') && e in f.table;
      if f in SetOf(outs) {
        assert e in StoredIn(SetOf(job.inputs));
        var g :| g in SetOf(job.inputs) && e in g.table;
      }
    }
  }

  lemma OneFileToANumber(v: Version)
    requires Numbered(v)
    ensures forall f, g :: f in Files(v) && g in Files(v) && f.number == g.number ==> f == g
  {
  }

  lemma OutputsDrawn(inputs: seq<FileMeta>, merged: seq<Entry>, oldest: nat, bottom: bool, target: nat,
                     numbers: seq<nat>, out: nat)
    requires IsMerge(inputs, merged)
    requires |Split(Collect(merged, oldest, bottom, [], false), target, [], 0)| == |numbers|
    ensures var parts := Split(Collect(merged, oldest, bottom, [], false), target, [], 0);
            StoredIn(SetOf(Layout.MakeOutputs(parts, numbers, out))) <= StoredIn(SetOf(inputs))
  {
    hide Split, Collect, Concat, StoredIn;
    var kept := Collect(merged, oldest, bottom, [], false);
    var parts := Split(kept, target, [], 0);
    Safety.MergeElements(inputs, merged);
    CollectSorted(merged, oldest, bottom, [], false);
    SplitConcat(kept, target, [], 0);
    assert [] + kept == kept;
    forall e | e in StoredIn(SetOf(Layout.MakeOutputs(parts, numbers, out))) ensures e in StoredIn(SetOf(inputs)) {
      Layout.OutputsStore(parts, numbers, out, e);
    }
  }

  /** An automatic job takes files of the version and has an output level of at least 1. */
  lemma {:induction false} OverfullInVersion(v: Version, opts: Options, level: nat)
    requires 1 <= level < MAX_LEVELS
    ensures var job := PickOverfull(v, opts, level);
            SetOf(job.inputs) <= Files(v) && (job.inputs != [] ==> 1 <= job.out < MAX_LEVELS)
    decreases MAX_LEVELS - level
  {
    hide Files;
    if level < MAX_LEVELS - 1 {
      OverfullInVersion(v, opts, level + 1);
      if v[level] != [] { PickedInVersion(v, level, PickLevel(v, level).inputs); }
    }
  }

  lemma PickInVersion(v: Version, opts: Options)
    ensures var job := Pick(v, opts, false);
            SetOf(job.inputs) <= Files(v) && (job.inputs != [] ==> 1 <= job.out < MAX_LEVELS)
  {
    hide Files;
    if |v[0]| >= opts.compactionTrigger {
      PickedInVersion(v, 0, PickL0(v).inputs);
    } else {
      OverfullInVersion(v, opts, 1);
    }
  }

  /** Every commit with new numbers keeps what counting needs, whether or not its outputs overlap. */
  lemma CommitKeepsCount(v: Version, v': Version, opts: Options, merged: seq<Entry>, oldest: nat, numbers: seq<nat>)
    requires Numbered(v) && Compacts(v, v', opts, merged, oldest, numbers) && Fresh(numbers, Files(v))
    ensures Numbered(v')
    ensures Functional(StoredIn(Files(v))) ==> Functional(StoredIn(Files(v')))
  {
    hide Files, Pick, Split, Collect, Layout.Committed, IsMerge, Numbered, Functional;
    var job := Pick(v, opts, false);
    var parts := Split(Collect(merged, oldest, job.bottom, [], false), opts.targetFileSize, [], 0);
    PickInVersion(v, opts);
    OutputFiles(parts, numbers, job.out, Files(v));
    CommitNumbered(v, job.inputs, Layout.MakeOutputs(parts, numbers, job.out), job.out);
    if Functional(StoredIn(Files(v))) { CommitFunctional(v, v', opts, merged, oldest, numbers); }
  }

  ghost predicate CompactsTo(v: Version, v': Version, opts: Options) {
    exists merged: seq<Entry>, oldest: nat, numbers: seq<nat> ::
      Compacts(v, v', opts, merged, oldest, numbers) && Fresh(numbers, Files(v))
  }

  /** A history of automatic compactions with no flush in between. */
  ghost predicate CompactionRun(vs: seq<Version>, opts: Options) {
    && vs != [] && Numbered(vs[0])
    && (forall i :: 0 <= i < |vs| - 1 ==> CompactsTo(vs[i], vs[i + 1], opts))
  }

  /** Only finitely many jobs commit: no more than the starting weight. */
  lemma {:induction false} CompactionTerminates(vs: seq<Version>, opts: Options)
    requires CompactionRun(vs, opts) && opts.compactionTrigger > 0
    ensures |vs| - 1 + Weight(vs[|vs| - 1]) <= Weight(vs[0])
  {
    hide Numbered, CompactsTo, Weight;
    if |vs| > 1 {
      assert CompactsTo(vs[0], vs[0 + 1], opts);
      JobLowersWeight(vs[0], vs[1], opts);
      CompactionTerminates(vs[1..], opts);
    }
  }

  lemma JobLowersWeight(v: Version, v': Version, opts: Options)
    requires Numbered(v) && opts.compactionTrigger > 0 && CompactsTo(v, v', opts)
    ensures Weight(v') < Weight(v) && Numbered(v')
  {
    hide Numbered, Compacts, Weight, Fresh;
    var merged: seq<Entry>, oldest: nat, numbers: seq<nat> :|
      Compacts(v, v', opts, merged, oldest, numbers) && Fresh(numbers, Files(v));
    CompactionLowersWeight(v, v', opts, merged, oldest, numbers);
    CommitKeepsCount(v, v', opts, merged, oldest, numbers);
  }

  lemma {:induction false} OverfullHasJob(v: Version, opts: Options, level: nat)
    requires 1 <= level < MAX_LEVELS
    ensures PickOverfull(v, opts, level).inputs != [] <==>
              exists l :: level <= l < MAX_LEVELS - 1 && Overfull(v, opts, l)
    decreases MAX_LEVELS - level
  {
    if level < MAX_LEVELS - 1 {
      OverfullHasJob(v, opts, level + 1);
      assert v[level] == [] ==> LevelBytes(v[level]) == 0;
    }
  }

  /**
   * A job is picked if and only if compaction is needed, except for a zero trigger with an
   * empty L0 and no L1 file that starts with the empty key.
   */
  lemma JobIffNeeded(v: Version, opts: Options)
    ensures Pick(v, opts, false).inputs != [] <==>
            NeedsCompaction(v, opts) && !(ZeroTrigger(v, opts) && forall f :: f in v[1] ==> f.smallest != [])
  {
    if |v[0]| >= opts.compactionTrigger {
      if v[0] == [] { EmptyL0Picks(v); }
    } else {
      OverfullHasJob(v, opts, 1);
    }
  }

  // ------------------------------------------------- jobs that keep nothing

  /** The newest version of k at or below oldest is a tombstone. */
  ghost predicate Dead(S: set<Entry>, k: Bytes, oldest: nat) {
    Newest(S, k, oldest).Some? && Newest(S, k, oldest).value.tombstone
  }

  /** A bottommost job over nothing but keys that are deleted below the oldest snapshot. */
  ghost predicate AllDead(S: set<Entry>, oldest: nat, bottom: bool) {
    forall e :: e in S ==> bottom && e.seqno <= oldest && Dead(S, e.key, oldest)
  }

  lemma NoSurvivorIff(S: set<Entry>, oldest: nat, bottom: bool)
    requires Functional(S)
    ensures (forall e :: !Survives(S, oldest, bottom, e)) <==> AllDead(S, oldest, bottom)
  {
    if AllDead(S, oldest, bottom) {
      forall e | e in S ensures !Survives(S, oldest, bottom, e) {
        var n := Newest(S, e.key, oldest);
        if IsNewest(S, e.key, oldest, Some(e)) { NewestUnique(S, e.key, oldest, Some(e)); }
      }
    }
    if forall e :: !Survives(S, oldest, bottom, e) {
      forall e | e in S ensures bottom && e.seqno <= oldest && Dead(S, e.key, oldest) {
        assert !Survives(S, oldest, bottom, e);
        var n := Newest(S, e.key, oldest);
        assert Visible(e, e.key, oldest) && n.Some?;
        assert !Survives(S, oldest, bottom, n.value);
      }
    }
  }

  /** What one turn of the loop writes for the job it picked. */
  ghost function TurnParts(v: Version, opts: Options, merged: seq<Entry>, oldest: nat): seq<seq<Entry>> {
    Split(Collect(merged, oldest, Pick(v, opts, false).bottom, [], false), opts.targetFileSize, [], 0)
  }

  /**
   * A picked job writes something if and only if it is not a bottommost job over nothing but
   * deleted keys.
   */
  lemma TurnCommitsIff(v: Version, opts: Options, merged: seq<Entry>, oldest: nat)
    requires var job := Pick(v, opts, false);
             IsMerge(job.inputs, merged) && Functional(StoredIn(SetOf(job.inputs)))
    ensures var job := Pick(v, opts, false);
            TurnParts(v, opts, merged, oldest) != [] <==> !AllDead(StoredIn(SetOf(job.inputs)), oldest, job.bottom)
  {
    hide Pick, Collect, Survives, StoredIn, AllDead, Merging.Bag;
    var job := Pick(v, opts, false);
    var S := StoredIn(SetOf(job.inputs));
    var kept := Collect(merged, oldest, job.bottom, [], false);
    Safety.MergeElements(job.inputs, merged);
    CollectKeepsSurvivors(merged, oldest, job.bottom);
    NoSurvivorIff(S, oldest, job.bottom);
    assert [] + kept == kept;
    if kept != [] { assert kept[0] in kept; }
  }

  /** A job that keeps nothing leaves the store as it was, and compaction as needed as it was. */
  lemma DroppedJobSpins(s: State, merged: seq<Entry>)
    requires CanPickJob(s, false, merged) && PickRunning(s.db, false, merged).parts == []
    ensures var s1 := DoPickJob(s, false, merged);
            CanDropJob(s1) && DoDropJob(s1) == s && NeedsCompaction(s.db.version, s.db.opts)
  {
    hide Pick, IsMerge, SplitsBetweenKeys, OldestSnapshot, NeedsCompaction;
    JobIffNeeded(s.db.version, s.db.opts);
  }

  /** One turn of the compaction loop: a committed job, or a version left as it is. */
  ghost predicate Turn(v: Version, v': Version, opts: Options, oldest: nat) {
    var job := Pick(v, opts, false);
    if job.inputs == [] then v' == v
    else exists merged: seq<Entry>, numbers: seq<nat> :: TurnWith(v, v', opts, oldest, merged, numbers)
  }

  ghost predicate TurnWith(v: Version, v': Version, opts: Options, oldest: nat, merged: seq<Entry>, numbers: seq<nat>) {
    && IsMerge(Pick(v, opts, false).inputs, merged)
    && if TurnParts(v, opts, merged, oldest) == [] then v' == v
       else Compacts(v, v', opts, merged, oldest, numbers) && Fresh(numbers, Files(v))
  }

  /** Where the loop comes to rest, or spins: nothing to do, or nothing it does changes anything. */
  ghost predicate AtRest(v: Version, opts: Options, oldest: nat) {
    var job := Pick(v, opts, false);
    job.inputs == [] || AllDead(StoredIn(SetOf(job.inputs)), oldest, job.bottom)
  }

  /** What the loop needs of the version it starts from; it keeps that up by itself. */
  ghost predicate Countable(v: Version) {
    Numbered(v) && Functional(StoredIn(Files(v)))
  }

  lemma InputsFunctional(v: Version, opts: Options)
    requires Countable(v)
    ensures Functional(StoredIn(SetOf(Pick(v, opts, false).inputs)))
  {
    hide Files, Pick, Numbered;
    PickInVersion(v, opts);
    var I := SetOf(Pick(v, opts, false).inputs);
    forall e | e in StoredIn(I) ensures e in StoredIn(Files(v)) {
      var f :| f in I && e in f.table;
    }
  }

  lemma TurnLowersOrRests(v: Version, v': Version, opts: Options, oldest: nat)
    requires Countable(v) && opts.compactionTrigger > 0 && Turn(v, v', opts, oldest)
    ensures if AtRest(v, opts, oldest) then v' == v else Weight(v') < Weight(v)
    ensures Countable(v')
  {
    hide Pick, Compacts, Weight, AllDead, TurnParts, IsMerge, Numbered, Functional, Files, Fresh;
    var job := Pick(v, opts, false);
    if job.inputs != [] {
      var merged: seq<Entry>, numbers: seq<nat> :| TurnWith(v, v', opts, oldest, merged, numbers);
      InputsFunctional(v, opts);
      TurnCommitsIff(v, opts, merged, oldest);
      if !AtRest(v, opts, oldest) {
        CompactionLowersWeight(v, v', opts, merged, oldest, numbers);
        CommitKeepsCount(v, v', opts, merged, oldest, numbers);
      }
    }
  }

  /** Turns of the loop with no flush and no change of snapshots in between. */
  ghost predicate Loop(vs: seq<Version>, opts: Options, oldest: nat) {
    && vs != [] && Countable(vs[0]) && opts.compactionTrigger > 0
    && (forall i :: 0 <= i < |vs| - 1 ==> Turn(vs[i], vs[i + 1], opts, oldest))
  }

  lemma {:induction false} LoopKeepsCount(vs: seq<Version>, opts: Options, oldest: nat, n: nat)
    requires Loop(vs, opts, oldest) && n < |vs|
    ensures Countable(vs[n])
    decreases n
  {
    hide Countable, Turn, AtRest, Weight;
    if n > 0 {
      LoopKeepsCount(vs, opts, oldest, n - 1);
      assert Turn(vs[n - 1], vs[n - 1 + 1], opts, oldest);
      TurnLowersOrRests(vs[n - 1], vs[n], opts, oldest);
    }
  }

  lemma {:induction false} RestsForEver(vs: seq<Version>, opts: Options, oldest: nat, i: nat, j: nat)
    requires Loop(vs, opts, oldest) && i <= j < |vs| && AtRest(vs[i], opts, oldest)
    ensures vs[j] == vs[i]
    decreases j - i
  {
    hide Countable, Turn, AtRest, Weight;
    if i < j {
      RestsForEver(vs, opts, oldest, i, j - 1);
      LoopKeepsCount(vs, opts, oldest, j - 1);
      assert Turn(vs[j - 1], vs[j - 1 + 1], opts, oldest);
      TurnLowersOrRests(vs[j - 1], vs[j], opts, oldest);
    }
  }

  lemma {:induction false} LoopLowers(vs: seq<Version>, opts: Options, oldest: nat, n: nat)
    requires Loop(vs, opts, oldest) && n < |vs| && forall i :: 0 <= i < n ==> !AtRest(vs[i], opts, oldest)
    ensures n + Weight(vs[n]) <= Weight(vs[0])
    decreases n
  {
    hide Countable, Turn, AtRest, Weight;
    if n > 0 {
      LoopLowers(vs, opts, oldest, n - 1);
      LoopKeepsCount(vs, opts, oldest, n - 1);
      assert Turn(vs[n - 1], vs[n - 1 + 1], opts, oldest);
      TurnLowersOrRests(vs[n - 1], vs[n], opts, oldest);
    }
  }

  /**
   * The loop comes to rest: after no more turns than the starting weight and one the
   * version no longer changes. Compaction is then not needed, or the loop spins: its job is a
   * bottommost one over nothing but deleted keys.
   */
  lemma LoopSettles(vs: seq<Version>, opts: Options, oldest: nat)
    requires Loop(vs, opts, oldest) && |vs| > Weight(vs[0]) + 1
    ensures var v := vs[|vs| - 1];
            var job := Pick(v, opts, false);
            && AtRest(v, opts, oldest)
            && (!NeedsCompaction(v, opts) || AllDead(StoredIn(SetOf(job.inputs)), oldest, job.bottom))
  {
    hide Countable, Turn, Pick, Weight, AllDead, NeedsCompaction;
    var last := |vs| - 1;
    if forall i :: 0 <= i < |vs| ==> !AtRest(vs[i], opts, oldest) {
      LoopLowers(vs, opts, oldest, last);
    } else {
      var i :| 0 <= i < |vs| && AtRest(vs[i], opts, oldest);
      RestsForEver(vs, opts, oldest, i, last);
    }
    NoJobNoNeed(vs[last], opts);
  }

  lemma NoJobNoNeed(v: Version, opts: Options)
    requires opts.compactionTrigger > 0
    ensures Pick(v, opts, false).inputs == [] ==> !NeedsCompaction(v, opts)
  {
    JobIffNeeded(v, opts);
  }
}
