// Which files a compaction takes: forced, L0 overflow, or one file of an
// overfull level, each with the files of the next level it overlaps.
module Picking {
  import opened Keys
  import opened Versions
  import opened Compaction

  datatype Options = Options(compactionTrigger: nat, l1MaxBytes: nat, levelSizeMultiplier: nat, targetFileSize: nat)

  datatype Job = Job(inputs: seq<FileMeta>, out: nat, bottom: bool)

  const SIZE_T: nat := 0x1_0000_0000_0000_0000

  function LevelBytes(fs: seq<FileMeta>): nat {
    if fs == [] then 0 else (|fs[0].table| * 64 + LevelBytes(fs[1..])) % SIZE_T
  }

  /** How many entries the files hold. */
  function Count(fs: seq<FileMeta>): nat {
    if fs == [] then 0 else |fs[0].table| + Count(fs[1..])
  }

  /** 64 bytes are reckoned for every entry, modulo size_t. */
  lemma {:induction false} LevelBytesIs(fs: seq<FileMeta>)
    ensures LevelBytes(fs) == (64 * Count(fs)) % 0x1_0000_0000_0000_0000
    decreases |fs|
  {
    if fs != [] {
      LevelBytesIs(fs[1..]);
      ModSum(|fs[0].table| * 64, 64 * Count(fs[1..]));
    }
  }

  lemma ModSum(x: nat, y: nat)
    ensures (x + y % SIZE_T) % SIZE_T == (x + y) % SIZE_T
  {
    ModShift(x + y % SIZE_T, y / SIZE_T);
  }

  function MaxLevelBytes(opts: Options, level: nat): nat
    requires level >= 1
  {
    if level == 1 then opts.l1MaxBytes
    else (MaxLevelBytes(opts, level - 1) * opts.levelSizeMultiplier) % SIZE_T
  }

  function Power(base: nat, n: nat): nat {
    if n == 0 then 1 else base * Power(base, n - 1)
  }

  lemma ModFactor(x: nat, y: nat)
    ensures (x % SIZE_T * y) % SIZE_T == (x * y) % SIZE_T
  {
    var q, r := x / SIZE_T, x % SIZE_T;
    assert x == SIZE_T * q + r;
    Distribute(SIZE_T, q, r, y);
    ModShift(r * y, q * y);
  }

  lemma Distribute(m: nat, q: nat, r: nat, y: nat)
    ensures (m * q + r) * y == m * (q * y) + r * y
  {
  }

  lemma ModShift(b: nat, a: nat)
    ensures (SIZE_T * a + b) % SIZE_T == b % SIZE_T
  {
  }

  /** The limit of level 1 times the multiplier once for every level below it, modulo size_t. */
  lemma {:induction false} LimitIsPower(opts: Options, level: nat)
    requires level >= 1 && opts.l1MaxBytes < SIZE_T
    ensures MaxLevelBytes(opts, level) == (opts.l1MaxBytes * Power(opts.levelSizeMultiplier, level - 1)) % SIZE_T
    decreases level
  {
    hide Power;
    PowerUnfold(opts.levelSizeMultiplier, level - 1);
    if level > 1 {
      LimitIsPower(opts, level - 1);
      var m, p := opts.levelSizeMultiplier, Power(opts.levelSizeMultiplier, level - 2);
      ModFactor(opts.l1MaxBytes * p, m);
      assert opts.l1MaxBytes * p * m == opts.l1MaxBytes * (m * p);
    }
  }

  lemma PowerUnfold(base: nat, n: nat)
    ensures Power(base, n) == if n == 0 then 1 else base * Power(base, n - 1)
  {
  }

  predicate Overfull(v: Version, opts: Options, level: nat)
    requires 1 <= level < MAX_LEVELS
  {
    LevelBytes(v[level]) > MaxLevelBytes(opts, level)
  }

  predicate NeedsCompaction(v: Version, opts: Options) {
    |v[0]| >= opts.compactionTrigger || exists l :: 1 <= l < MAX_LEVELS - 1 && Overfull(v, opts, l)
  }

  function MaxPopulated(v: Version, l: nat): (m: nat)
    requires l < MAX_LEVELS
    ensures m <= l
    ensures forall j :: m < j <= l ==> v[j] == []
    ensures m > 0 ==> v[m] != []
  {
    if l == 0 || v[l] != [] then l else MaxPopulated(v, l - 1)
  }

  /** The running minimum of the smallest keys, with the empty key as "unset". */
  function RangeMin(fs: seq<FileMeta>, acc: Bytes): Bytes {
    if fs == [] then acc
    else RangeMin(fs[1..], if acc == [] || Less(fs[0].smallest, acc) then fs[0].smallest else acc)
  }

  function RangeMax(fs: seq<FileMeta>, acc: Bytes): Bytes {
    if fs == [] then acc
    else RangeMax(fs[1..], if acc == [] || Less(acc, fs[0].largest) then fs[0].largest else acc)
  }

  /** The file with the smallest number, the first one on a tie. */
  function Oldest(fs: seq<FileMeta>): (f: FileMeta)
    requires fs != []
    ensures f in fs
    ensures forall g :: g in fs ==> f.number <= g.number
    decreases |fs|
  {
    if |fs| == 1 then fs[0]
    else
      var r := Oldest(fs[..|fs| - 1]);
      if fs[|fs| - 1].number < r.number then fs[|fs| - 1] else r
  }

  function Flatten(v: seq<seq<FileMeta>>): (r: seq<FileMeta>) {
    if v == [] then [] else v[0] + Flatten(v[1..])
  }

  function PickL0(v: Version): Job {
    var lo, hi := RangeMin(v[0], []), RangeMax(v[0], []);
    var top := MaxPopulated(v, MAX_LEVELS - 1);
    Job(v[0] + Overlapping(v[1], lo, hi), 1, 1 >= top || top == 0)
  }

  function PickLevel(v: Version, level: nat): Job
    requires 1 <= level < MAX_LEVELS - 1 && v[level] != []
  {
    var p := Oldest(v[level]);
    Job([p] + Overlapping(v[level + 1], p.smallest, p.largest), level + 1, level + 1 >= MaxPopulated(v, MAX_LEVELS - 1))
  }

  function PickOverfull(v: Version, opts: Options, level: nat): Job
    requires 1 <= level < MAX_LEVELS
    decreases MAX_LEVELS - level
  {
    if level == MAX_LEVELS - 1 then Job([], 0, false)
    else if Overfull(v, opts, level) && v[level] != [] then PickLevel(v, level)
    else PickOverfull(v, opts, level + 1)
  }

  function Pick(v: Version, opts: Options, force: bool): Job {
    if force then
      var all := Flatten(v);
      if |all| >= 2 then Job(all, 1, true) else Job(all, 0, false)
    else if |v[0]| >= opts.compactionTrigger then PickL0(v)
    else PickOverfull(v, opts, 1)
  }

  // ------------------------------------------------ the span of the inputs

  predicate Within(f: FileMeta, lo: Bytes, hi: Bytes) {
    !Less(f.smallest, lo) && !Less(hi, f.largest)
  }

  lemma LeftOfSpan(r: FileMeta, g: FileMeta, lo: Bytes, hi: Bytes)
    requires FileOk(r) && FileOk(g) && Less(r.largest, lo)
    requires Within(g, lo, hi) || (Overlaps(g, lo, hi) && (LeftOf(r, g) || LeftOf(g, r)))
    ensures LeftOf(r, g)
  {
    if Within(g, lo, hi) {
      LessThenNotGreater(r.largest, lo, g.smallest);
    } else if LeftOf(g, r) {
      RangeNonEmpty(r);
      LessThenNotGreater(g.largest, r.smallest, r.largest);
      LessTransitive(g.largest, r.largest, lo);
    }
  }

  lemma RightOfSpan(r: FileMeta, g: FileMeta, hi: Bytes)
    requires FileOk(r) && FileOk(g) && Less(hi, r.smallest)
    requires !Less(hi, g.largest) || (!Less(hi, g.smallest) && (LeftOf(r, g) || LeftOf(g, r)))
    ensures LeftOf(g, r)
  {
    if !Less(hi, g.largest) {
      NotGreaterThenLess(g.largest, hi, r.smallest);
    } else if LeftOf(r, g) {
      RangeNonEmpty(r);
      NotGreaterThenLess(r.smallest, r.largest, g.smallest);
      LessTransitive(hi, r.smallest, g.smallest);
    }
  }

  /**
   * The span of the inputs cannot straddle a file left behind: widening [lo, hi] to the
   * files that overlap it never reaches past a file that does not.
   */
  lemma OneSideOfSpan(r: FileMeta, I: set<FileMeta>, lo: Bytes, hi: Bytes)
    requires FileOk(r) && !Overlaps(r, lo, hi)
    requires forall g :: g in I ==> FileOk(g)
    requires forall g :: g in I ==> Within(g, lo, hi) || (Overlaps(g, lo, hi) && (LeftOf(r, g) || LeftOf(g, r)))
    ensures OneSide(r, I)
  {
    if Less(r.largest, lo) {
      forall g | g in I ensures LeftOf(r, g) { LeftOfSpan(r, g, lo, hi); }
    } else {
      forall g | g in I ensures LeftOf(g, r) { RightOfSpan(r, g, hi); }
    }
  }

  lemma {:induction false} RangeMinBounds(fs: seq<FileMeta>, acc: Bytes)
    requires forall f :: f in fs ==> f.smallest != []
    ensures acc != [] ==> !Less(acc, RangeMin(fs, acc))
    ensures forall f :: f in fs ==> !Less(f.smallest, RangeMin(fs, acc))
    ensures RangeMin(fs, acc) == [] ==> acc == [] && fs == []
  {
    if fs != [] {
      var a := if acc == [] || Less(fs[0].smallest, acc) then fs[0].smallest else acc;
      assert fs[0] in fs;
      RangeMinBounds(fs[1..], a);
      var m := RangeMin(fs[1..], a);
      MinStep(acc, fs[0].smallest, m);
      forall f | f in fs ensures !Less(f.smallest, m) {
        assert f == fs[0] || f in fs[1..];
      }
    }
  }

  lemma MinStep(acc: Bytes, x: Bytes, m: Bytes)
    requires !Less(if acc == [] || Less(x, acc) then x else acc, m)
    ensures !Less(x, m) && (acc != [] ==> !Less(acc, m))
  {
    KeyOrder();
  }

  lemma MaxStep(acc: Bytes, x: Bytes, m: Bytes)
    requires !Less(m, if acc == [] || Less(acc, x) then x else acc)
    ensures !Less(m, x) && (acc != [] ==> !Less(m, acc))
  {
    KeyOrder();
  }

  lemma {:induction false} RangeMaxBounds(fs: seq<FileMeta>, acc: Bytes)
    ensures !Less(RangeMax(fs, acc), acc)
    ensures forall f :: f in fs ==> !Less(RangeMax(fs, acc), f.largest)
  {
    LessIrreflexive(acc);
    if fs != [] {
      var a := if acc == [] || Less(acc, fs[0].largest) then fs[0].largest else acc;
      RangeMaxBounds(fs[1..], a);
      var m := RangeMax(fs[1..], a);
      MaxStep(acc, fs[0].largest, m);
      EmptyIsLeast(m);
      forall f | f in fs ensures !Less(m, f.largest) {
        assert f == fs[0] || f in fs[1..];
      }
    }
  }

  ghost predicate IsMin(fs: seq<FileMeta>, m: Bytes) {
    (exists f :: f in fs && f.smallest == m) && forall f :: f in fs ==> !Less(f.smallest, m)
  }

  lemma {:induction false} RangeMinHits(fs: seq<FileMeta>, acc: Bytes)
    ensures RangeMin(fs, acc) == acc || exists f :: f in fs && f.smallest == RangeMin(fs, acc)
    ensures fs != [] && acc == [] ==> exists f :: f in fs && f.smallest == RangeMin(fs, acc)
  {
    if fs != [] {
      var a := if acc == [] || Less(fs[0].smallest, acc) then fs[0].smallest else acc;
      RangeMinHits(fs[1..], a);
      assert fs[0] in fs;
    }
  }

  /** The empty key doubles as "unset": the last file decides whether it is noticed. */
  lemma {:induction false} RangeMinEmptyIffLast(fs: seq<FileMeta>, acc: Bytes)
    ensures fs != [] ==> (RangeMin(fs, acc) == [] <==> fs[|fs| - 1].smallest == [])
  {
    if |fs| > 1 {
      RangeMinEmptyIffLast(fs[1..], if acc == [] || Less(fs[0].smallest, acc) then fs[0].smallest else acc);
    } else if |fs| == 1 {
      assert fs[1..] == [];
      EmptyIsLeast(acc);
      EmptyIsLeast(fs[0].smallest);
    }
  }

  predicate MinNoticed(fs: seq<FileMeta>)
    requires fs != []
  {
    (forall f :: f in fs ==> f.smallest != []) || fs[|fs| - 1].smallest == []
  }

  /**
   * range_min is the true minimum if and only if no file starts with the empty key or
   * the last one does.
   */
  lemma RangeMinExact(fs: seq<FileMeta>)
    requires fs != []
    ensures IsMin(fs, RangeMin(fs, [])) <==> MinNoticed(fs)
  {
    var m := RangeMin(fs, []);
    RangeMinEmptyIffLast(fs, []);
    RangeMinHits(fs, []);
    assert fs[|fs| - 1] in fs;
    if forall f :: f in fs ==> f.smallest != [] {
      RangeMinBounds(fs, []);
    } else {
      var f :| f in fs && f.smallest == [];
      forall g | g in fs ensures !Less(g.smallest, []) { EmptyIsLeast(g.smallest); }
      EmptyIsLeast(m);
    }
  }

  // ----------------------------------------------------------- safe picks

  /** The computed range misses no file of L1: it is exact, or nothing in L1 ends below it. */
  predicate RangeOk(v: Version) {
    v[0] == [] || MinNoticed(v[0]) || forall r :: r in v[1] ==> !Less(r.largest, RangeMin(v[0], []))
  }

  lemma FilesAt(v: Version, l: nat, f: FileMeta)
    requires Arranged(v) && l < MAX_LEVELS
    ensures f in v[l] <==> f in Files(v) && f.level == l
  {
    if f in Files(v) && f.level == l {
      var l', i :| 0 <= l' < MAX_LEVELS && 0 <= i < |v[l']| && v[l'][i] == f;
      assert l' == l;
    }
  }

  lemma NothingDeeper(v: Version, out: nat, r: FileMeta)
    requires Arranged(v) && MaxPopulated(v, MAX_LEVELS - 1) <= out && r in Files(v)
    ensures r.level <= out
  {
    var l, i :| 0 <= l < MAX_LEVELS && 0 <= i < |v[l]| && v[l][i] == r;
    assert forall j :: out < j < MAX_LEVELS ==> v[j] == [];
  }

  lemma L0JobFiles(v: Version, g: FileMeta)
    requires Arranged(v)
    ensures g in PickL0(v).inputs <==>
            g in Files(v)
            && (g.level == 0 || (g.level == 1 && Overlaps(g, RangeMin(v[0], []), RangeMax(v[0], []))))
  {
    hide Arranged, RangeMin, RangeMax, Overlaps, Files;
    FilesAt(v, 0, g);
    FilesAt(v, 1, g);
  }

  lemma L0OneSide(v: Version, r: FileMeta)
    requires Arranged(v) && FilesOk(Files(v)) && RangeOk(v)
    requires r in Files(v) && r.level == 1 && r !in PickL0(v).inputs
    ensures OneSide(r, SetOf(PickL0(v).inputs))
  {
    hide Arranged, RangeMin, RangeMax, Less, Files;
    var F, I := Files(v), SetOf(PickL0(v).inputs);
    var lo, hi := RangeMin(v[0], []), RangeMax(v[0], []);
    L0JobFiles(v, r);
    RangeMaxBounds(v[0], []);
    forall g | g in I
      ensures g in F && (g.level == 0 ==> g in v[0]) && (g.level != 0 ==> g.level == 1 && Overlaps(g, lo, hi))
    {
      L0JobFiles(v, g);
      FilesAt(v, 0, g);
    }
    if v[0] == [] || MinNoticed(v[0]) {
      if v[0] != [] { RangeMinExact(v[0]); }
      OneSideOfSpan(r, I, lo, hi);
    } else {
      FilesAt(v, 1, r);
      forall g | g in I ensures LeftOf(g, r) { RightOfSpan(r, g, hi); }
    }
  }

  /** An unnoticed empty key and an L1 file below the computed range: that file lies inside the span. */
  lemma MissedFileInside(v: Version, r: FileMeta)
    requires Arranged(v) && FilesOk(Files(v)) && v[0] != [] && !MinNoticed(v[0])
    requires r in v[1] && Less(r.largest, RangeMin(v[0], []))
    ensures r in Files(v) && r !in PickL0(v).inputs && r.level == 1 && !OneSide(r, SetOf(PickL0(v).inputs))
  {
    hide Arranged, RangeMin, RangeMax, Less, Files;
    var I := SetOf(PickL0(v).inputs);
    FilesAt(v, 1, r);
    L0JobFiles(v, r);
    RangeMinHits(v[0], []);
    var f :| f in v[0] && f.smallest == [];
    var g :| g in v[0] && g.smallest == RangeMin(v[0], []);
    assert f in I && g in I;
    FilesAt(v, 0, g);
    EmptyIsLeast(r.largest);
    RangeNonEmpty(r);
    RangeNonEmpty(g);
    if LeftOf(g, r) {
      LessThenNotGreater(g.largest, r.smallest, r.largest);
      LessTransitive(g.largest, r.largest, g.smallest);
    }
  }

  /** The L0 job is safe to merge if and only if its computed range misses no file of L1. */
  lemma PickL0SafeIff(v: Version)
    requires Arranged(v) && FilesOk(Files(v))
    ensures JobOk(Files(v), SetOf(PickL0(v).inputs), 1, PickL0(v).bottom) <==> RangeOk(v)
  {
    hide Arranged, RangeMin, RangeMax, Less, Files, OneSide;
    var j := PickL0(v);
    var F, I := Files(v), SetOf(j.inputs);
    forall g ensures g in I ==> g in F && g.level <= 1 { L0JobFiles(v, g); }
    forall r | r in F - I ensures r.level >= 1 { L0JobFiles(v, r); }
    forall r | r in F && j.bottom ensures r.level <= 1 { NothingDeeper(v, 1, r); }
    if RangeOk(v) {
      forall r | r in F - I && r.level == 1 ensures OneSide(r, I) { L0OneSide(v, r); }
    } else {
      var r :| r in v[1] && Less(r.largest, RangeMin(v[0], []));
      MissedFileInside(v, r);
    }
  }

  lemma PickedSpan(F: set<FileMeta>, I: set<FileMeta>, r: FileMeta, out: nat, lo: Bytes, hi: Bytes)
    requires FilesOk(F) && I <= F && r in F - I && r.level == out && out >= 1 && !Overlaps(r, lo, hi)
    requires forall g :: g in I ==> Within(g, lo, hi) || (g.level == out && Overlaps(g, lo, hi))
    ensures OneSide(r, I)
  {
    OneSideOfSpan(r, I, lo, hi);
  }

  lemma PickLevelSafe(v: Version, level: nat)
    requires Arranged(v) && FilesOk(Files(v)) && 1 <= level < MAX_LEVELS - 1 && v[level] != []
    ensures JobOk(Files(v), SetOf(PickLevel(v, level).inputs), level + 1, PickLevel(v, level).bottom)
  {
    hide Less, Arranged;
    var j := PickLevel(v, level);
    var F, I := Files(v), SetOf(j.inputs);
    var p := Oldest(v[level]);
    FilesAt(v, level, p);
    LessIrreflexive(p.smallest);
    LessIrreflexive(p.largest);
    forall g | g in I ensures g in F && (g == p || (g.level == level + 1 && Overlaps(g, p.smallest, p.largest))) {
      FilesAt(v, level + 1, g);
    }
    forall r | r in F - I && r.level == level + 1 ensures OneSide(r, I) {
      FilesAt(v, level + 1, r);
      PickedSpan(F, I, r, level + 1, p.smallest, p.largest);
    }
    forall r | r in F && j.bottom ensures r.level <= level + 1 { NothingDeeper(v, level + 1, r); }
  }

  lemma {:induction false} PickOverfullSafe(v: Version, opts: Options, level: nat)
    requires Arranged(v) && FilesOk(Files(v)) && 1 <= level < MAX_LEVELS
    ensures var j := PickOverfull(v, opts, level);
            j.inputs != [] ==> JobOk(Files(v), SetOf(j.inputs), j.out, j.bottom)
    decreases MAX_LEVELS - level
  {
    if level < MAX_LEVELS - 1 {
      if Overfull(v, opts, level) && v[level] != [] {
        PickLevelSafe(v, level);
      } else {
        PickOverfullSafe(v, opts, level + 1);
      }
    }
  }

  lemma {:induction false} FlattenMembers(v: seq<seq<FileMeta>>, f: FileMeta)
    ensures f in Flatten(v) <==> exists l, i :: 0 <= l < |v| && 0 <= i < |v[l]| && v[l][i] == f
  {
    if v != [] {
      FlattenMembers(v[1..], f);
      if f in v[0] {
        var i :| 0 <= i < |v[0]| && v[0][i] == f;
      }
      if f in Flatten(v[1..]) {
        var l, i :| 0 <= l < |v[1..]| && 0 <= i < |v[1..][l]| && v[1..][l][i] == f;
        assert v[l + 1][i] == f;
      }
      if l, i :| 0 <= l < |v| && 0 <= i < |v[l]| && v[l][i] == f {
        assert l > 0 ==> v[1..][l - 1][i] == f;
      }
    }
  }

  lemma ForcedSafe(v: Version)
    requires Arranged(v) && FilesOk(Files(v))
    ensures SetOf(Flatten(v)) == Files(v)
    ensures JobOk(Files(v), SetOf(Flatten(v)), 1, true)
  {
    forall f ensures f in SetOf(Flatten(v)) <==> f in Files(v) { FlattenMembers(v, f); }
  }

  /** When the picker's job can be trusted: only the L0 job depends on its computed range. */
  predicate PickOk(v: Version, opts: Options, force: bool) {
    force || |v[0]| < opts.compactionTrigger || RangeOk(v)
  }

  /**
   * A job the picker hands out with an output level is safe to merge if and only if it is
   * not an L0 job whose range misses a file. The one job without an output level is the
   * forced one with a single input.
   */
  lemma PickSafe(v: Version, opts: Options, force: bool)
    requires Arranged(v) && FilesOk(Files(v))
    ensures var j := Pick(v, opts, force);
            j.inputs != [] ==>
              if force && |Flatten(v)| == 1 then j.out == 0
              else JobOk(Files(v), SetOf(j.inputs), j.out, j.bottom) <==> PickOk(v, opts, force)
  {
    if force {
      ForcedSafe(v);
    } else if |v[0]| >= opts.compactionTrigger {
      PickL0SafeIff(v);
    } else {
      PickOverfullSafe(v, opts, 1);
    }
  }

  /** A flush between pick and commit leaves the job safe: its file is searched first. */
  lemma JobOkAfterFlush(F: set<FileMeta>, I: set<FileMeta>, out: nat, bottom: bool, f: FileMeta)
    requires JobOk(F, I, out, bottom) && f !in F && f.level == 0
    requires forall g :: g in F ==> g.number < f.number
    ensures JobOk(F + {f}, I, out, bottom)
  {
    assert F + {f} - I == F - I + {f};
    forall g | g in I ensures Above(f, g) { assert g in F; }
  }

  // ------------------------------------------------------- which job it is

  /** How often f is among the files of fs that overlap the range. */
  lemma {:induction false} OverlappingCount(fs: seq<FileMeta>, lo: Bytes, hi: Bytes, f: FileMeta)
    ensures multiset(Overlapping(fs, lo, hi))[f] == if Overlaps(f, lo, hi) then multiset(fs)[f] else 0
    decreases |fs|
  {
    hide Overlaps;
    if fs != [] {
      OverlappingCount(fs[1..], lo, hi, f);
      assert fs == [fs[0]] + fs[1..];
    }
  }

  /** Nothing is stored below a level. */
  predicate Deepest(v: Version, level: nat) {
    forall j :: level < j < 7 ==> v[j] == []
  }

  /** A level holds more than its limit: the limit of level 1 times the multiplier for every level below it. */
  predicate OverLimit(v: Version, opts: Options, level: nat)
    requires 1 <= level < MAX_LEVELS
  {
    (64 * Count(v[level])) % SIZE_T > (opts.l1MaxBytes * Power(opts.levelSizeMultiplier, level - 1)) % SIZE_T
  }

  lemma OverLimitIs(v: Version, opts: Options, level: nat)
    requires 1 <= level < MAX_LEVELS && opts.l1MaxBytes < SIZE_T
    ensures Overfull(v, opts, level) <==> OverLimit(v, opts, level)
    ensures OverLimit(v, opts, level) ==> v[level] != []
  {
    hide Power;
    LevelBytesIs(v[level]);
    LimitIsPower(opts, level);
  }

  lemma {:induction false} FirstOverfull(v: Version, opts: Options, from: nat, level: nat)
    requires 1 <= from <= level < 6 && opts.l1MaxBytes < SIZE_T && OverLimit(v, opts, level)
    requires forall l :: from <= l < level ==> !OverLimit(v, opts, l)
    ensures v[level] != [] && PickOverfull(v, opts, from) == PickLevel(v, level)
    decreases level - from
  {
    hide OverLimit, Overfull, PickLevel;
    OverLimitIs(v, opts, from);
    OverLimitIs(v, opts, level);
    if from < level { FirstOverfull(v, opts, from + 1, level); }
  }

  lemma {:induction false} NoneOverfull(v: Version, opts: Options, from: nat)
    requires 1 <= from < MAX_LEVELS && opts.l1MaxBytes < SIZE_T
    requires forall l :: from <= l < 6 ==> !OverLimit(v, opts, l)
    ensures PickOverfull(v, opts, from).inputs == []
    decreases MAX_LEVELS - from
  {
    hide OverLimit, Overfull;
    OverLimitIs(v, opts, from);
    if from < MAX_LEVELS - 1 { NoneOverfull(v, opts, from + 1); }
  }

  lemma BottomIs(v: Version, out: nat)
    ensures out >= MaxPopulated(v, MAX_LEVELS - 1) <==> Deepest(v, out)
  {
  }

  /**
   * When L0 is below the trigger, the smallest level over its limit gives its oldest file and
   * the files of the next level that overlap that file, each once, for that next level; the job
   * is bottommost exactly when nothing is stored deeper. With no level over its limit there is
   * no job.
   */
  lemma LevelJobIs(v: Version, opts: Options)
    requires |v[0]| < opts.compactionTrigger && opts.l1MaxBytes < SIZE_T
    ensures (forall l :: 1 <= l < 6 ==> !OverLimit(v, opts, l)) ==> Pick(v, opts, false).inputs == []
    ensures forall l :: 1 <= l < 6 && OverLimit(v, opts, l) && (forall i :: 1 <= i < l ==> !OverLimit(v, opts, i)) ==>
              v[l] != [] && IsLevelJob(v, l, Pick(v, opts, false))
  {
    hide OverLimit, PickLevel, PickOverfull, IsLevelJob;
    if forall l :: 1 <= l < 6 ==> !OverLimit(v, opts, l) { NoneOverfull(v, opts, 1); }
    forall l | 1 <= l < 6 && OverLimit(v, opts, l) && (forall i :: 1 <= i < l ==> !OverLimit(v, opts, i))
      ensures v[l] != [] && IsLevelJob(v, l, Pick(v, opts, false))
    {
      FirstOverfull(v, opts, 1, l);
      PickLevelIs(v, l);
    }
  }

  ghost predicate IsLevelJob(v: Version, level: nat, job: Job)
    requires 1 <= level < 6
  {
    && job.out == level + 1 && (job.bottom <==> Deepest(v, level + 1)) && job.inputs != []
    && var p := job.inputs[0];
       && p in v[level] && (forall g :: g in v[level] ==> p.number <= g.number)
       && forall f :: multiset(job.inputs[1..])[f]
                      == if Overlaps(f, p.smallest, p.largest) then multiset(v[level + 1])[f] else 0
  }

  lemma PickLevelIs(v: Version, level: nat)
    requires 1 <= level < 6 && v[level] != []
    ensures IsLevelJob(v, level, PickLevel(v, level))
  {
    hide Overlaps, Deepest;
    var p := Oldest(v[level]);
    var below := Overlapping(v[level + 1], p.smallest, p.largest);
    assert ([p] + below)[1..] == below;
    BottomIs(v, level + 1);
    forall f ensures multiset(below)[f] == if Overlaps(f, p.smallest, p.largest) then multiset(v[level + 1])[f] else 0 {
      OverlappingCount(v[level + 1], p.smallest, p.largest, f);
    }
  }

  /** The greatest of the largest keys. */
  ghost predicate IsMax(fs: seq<FileMeta>, hi: Bytes) {
    (forall f :: f in fs ==> !Less(hi, f.largest)) && exists f :: f in fs && f.largest == hi
  }

  lemma {:induction false} RangeMaxIs(fs: seq<FileMeta>, acc: Bytes)
    ensures RangeMax(fs, acc) == acc || exists f :: f in fs && f.largest == RangeMax(fs, acc)
    decreases |fs|
  {
    hide Less;
    if fs != [] {
      var a := if acc == [] || Less(acc, fs[0].largest) then fs[0].largest else acc;
      RangeMaxIs(fs[1..], a);
      assert fs[0] in fs;
    }
  }

  /**
   * All of L0, each file once, with the L1 files that overlap its range, for L1; bottommost
   * exactly when nothing is stored below L1. The upper end of the range is the greatest key of
   * L0; RangeMinExact says when the lower end is the least one.
   */
  ghost predicate IsL0Job(v: Version, job: Job) {
    var lo, hi := RangeMin(v[0], []), RangeMax(v[0], []);
    && job.out == 1 && (job.bottom <==> Deepest(v, 1)) && (v[0] != [] ==> IsMax(v[0], hi))
    && |v[0]| <= |job.inputs| && job.inputs[..|v[0]|] == v[0]
    && forall f :: multiset(job.inputs[|v[0]|..])[f] == if Overlaps(f, lo, hi) then multiset(v[1])[f] else 0
  }

  lemma L0JobIs(v: Version, opts: Options)
    requires |v[0]| >= opts.compactionTrigger
    ensures IsL0Job(v, Pick(v, opts, false))
  {
    hide Overlaps, Less, RangeMin, RangeMax, Deepest;
    var lo, hi := RangeMin(v[0], []), RangeMax(v[0], []);
    var below := Overlapping(v[1], lo, hi);
    assert (v[0] + below)[|v[0]|..] == below && (v[0] + below)[..|v[0]|] == v[0];
    BottomIs(v, 1);
    RangeMaxBounds(v[0], []);
    if v[0] != [] { MaxOfSome(v[0]); }
    forall f ensures multiset(below)[f] == if Overlaps(f, lo, hi) then multiset(v[1])[f] else 0 {
      OverlappingCount(v[1], lo, hi, f);
    }
  }

  lemma MaxOfSome(fs: seq<FileMeta>)
    requires fs != []
    ensures exists f :: f in fs && f.largest == RangeMax(fs, [])
  {
    hide Less, RangeMax;
    RangeMaxIs(fs, []);
    RangeMaxBounds(fs, []);
    assert fs[0] in fs;
    if RangeMax(fs, []) == [] && fs[0].largest != [] { EmptyIsLeast(fs[0].largest); }
  }

  /** How often f is listed in the levels. */
  function Copies(v: seq<seq<FileMeta>>, f: FileMeta): nat {
    if v == [] then 0 else multiset(v[0])[f] + Copies(v[1..], f)
  }

  lemma {:induction false} FlattenCount(v: seq<seq<FileMeta>>, f: FileMeta)
    ensures multiset(Flatten(v))[f] == Copies(v, f)
    decreases |v|
  {
    if v != [] { FlattenCount(v[1..], f); }
  }

  /** A forced job is every file of the version once; two or more of them go to L1 as the bottommost job. */
  lemma ForcedJobIs(v: Version, opts: Options, f: FileMeta)
    ensures var job := Pick(v, opts, true);
            multiset(job.inputs)[f] == Copies(v, f) && (|job.inputs| >= 2 ==> job.out == 1 && job.bottom)
  {
    hide Copies;
    FlattenCount(v, f);
  }

  /** Which job the picker owes, case by case. */
  ghost predicate RightJob(v: Version, opts: Options, force: bool, job: Job) {
    if force then
      (forall f :: multiset(job.inputs)[f] == Copies(v, f)) && (|job.inputs| >= 2 ==> job.out == 1 && job.bottom)
    else if |v[0]| >= opts.compactionTrigger then IsL0Job(v, job)
    else
      && ((forall l :: 1 <= l < 6 ==> !OverLimit(v, opts, l)) ==> job.inputs == [])
      && forall l :: 1 <= l < 6 && OverLimit(v, opts, l) && (forall i :: 1 <= i < l ==> !OverLimit(v, opts, i)) ==>
           v[l] != [] && IsLevelJob(v, l, job)
  }

  lemma PickIsRight(v: Version, opts: Options, force: bool)
    requires opts.l1MaxBytes < SIZE_T
    ensures RightJob(v, opts, force, Pick(v, opts, force))
  {
    hide OverLimit, Copies, IsL0Job, IsLevelJob;
    if force {
      forall f ensures multiset(Pick(v, opts, true).inputs)[f] == Copies(v, f) { ForcedJobIs(v, opts, f); }
    } else if |v[0]| >= opts.compactionTrigger {
      L0JobIs(v, opts);
    } else {
      LevelJobIs(v, opts);
    }
  }
}
