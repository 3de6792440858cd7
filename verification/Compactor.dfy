// The loops of the compactor: range and overlap collection, the picker, and the
// merge loop that keeps, drops and splits.
module Compactor {
  import opened Keys
  import opened Entries
  import opened Versions
  import opened Gc
  import opened Picking

  method RangeOf(fs: seq<FileMeta>) returns (lo: Bytes, hi: Bytes)
    ensures lo == RangeMin(fs, []) && hi == RangeMax(fs, [])
  {
    lo, hi := [], [];
    assert fs[0..] == fs;
    for i := 0 to |fs|
      invariant RangeMin(fs[i..], lo) == RangeMin(fs, []) && RangeMax(fs[i..], hi) == RangeMax(fs, [])
    {
      assert fs[i..][1..] == fs[i + 1..];
      if lo == [] || Less(fs[i].smallest, lo) { lo := fs[i].smallest; }
      if hi == [] || Less(hi, fs[i].largest) { hi := fs[i].largest; }
    }
  }

  method CollectOverlapping(fs: seq<FileMeta>, lo: Bytes, hi: Bytes) returns (r: seq<FileMeta>)
    ensures r == Overlapping(fs, lo, hi)
  {
    hide Overlapping, Less;
    r := [];
    assert fs[0..] == fs;
    for i := 0 to |fs|
      invariant r + Overlapping(fs[i..], lo, hi) == Overlapping(fs, lo, hi)
    {
      OverlapStep(fs, i, lo, hi);
      ghost var rest := Overlapping(fs[i + 1..], lo, hi);
      assert r + ([fs[i]] + rest) == r + [fs[i]] + rest && [] + rest == rest;
      if !(Less(fs[i].largest, lo) || Less(hi, fs[i].smallest)) { r := r + [fs[i]]; }
    }
    OverlapStep(fs, |fs|, lo, hi);
  }

  lemma OverlapStep(fs: seq<FileMeta>, i: nat, lo: Bytes, hi: Bytes)
    requires i <= |fs|
    ensures i < |fs| ==>
              Overlapping(fs[i..], lo, hi)
              == (if Overlaps(fs[i], lo, hi) then [fs[i]] else []) + Overlapping(fs[i + 1..], lo, hi)
    ensures i == |fs| ==> Overlapping(fs[i..], lo, hi) == []
  {
    if i < |fs| { assert fs[i..][1..] == fs[i + 1..]; }
  }

  method OldestFile(fs: seq<FileMeta>) returns (p: FileMeta)
    requires fs != []
    ensures p == Oldest(fs)
  {
    p := fs[0];
    for i := 1 to |fs|
      invariant p == Oldest(fs[..i])
    {
      assert fs[..i + 1][..i] == fs[..i];
      if fs[i].number < p.number { p := fs[i]; }
    }
    assert fs[..|fs|] == fs;
  }

  method BytesOf(fs: seq<FileMeta>) returns (n: nat)
    ensures n == LevelBytes(fs)
  {
    n := 0;
    for i := |fs| downto 0
      invariant n == LevelBytes(fs[i..])
    {
      assert fs[i..][1..] == fs[i + 1..];
      n := (|fs[i].table| * 64 + n) % SIZE_T;
    }
    assert fs[0..] == fs;
  }

  method LimitOf(opts: Options, level: nat) returns (limit: nat)
    requires level >= 1
    ensures limit == MaxLevelBytes(opts, level)
    ensures opts.l1MaxBytes < SIZE_T ==>
              limit == (opts.l1MaxBytes * Power(opts.levelSizeMultiplier, level - 1)) % SIZE_T
  {
    hide Power;
    limit := opts.l1MaxBytes;
    for l := 2 to level + 1
      invariant limit == MaxLevelBytes(opts, l - 1)
    {
      limit := (limit * opts.levelSizeMultiplier) % SIZE_T;
    }
    if opts.l1MaxBytes < SIZE_T { LimitIsPower(opts, level); }
  }

  method DeepestPopulated(v: Version) returns (m: nat)
    ensures m == MaxPopulated(v, MAX_LEVELS - 1)
  {
    m := MAX_LEVELS - 1;
    while m > 0 && v[m] == []
      invariant m < MAX_LEVELS && MaxPopulated(v, m) == MaxPopulated(v, MAX_LEVELS - 1)
    {
      m := m - 1;
    }
  }

  method AllFilesOf(v: Version) returns (all: seq<FileMeta>)
    ensures all == Flatten(v)
  {
    all := [];
    for l := MAX_LEVELS downto 0
      invariant all == Flatten(v[l..])
    {
      assert v[l..][1..] == v[l + 1..];
      all := v[l] + all;
    }
    assert v[0..] == v;
  }

  method PickCompaction(v: Version, opts: Options, force: bool) returns (job: Job)
    ensures job == Pick(v, opts, force)
    ensures opts.l1MaxBytes < SIZE_T ==> RightJob(v, opts, force, job)
  {
    hide RightJob;
    if opts.l1MaxBytes < SIZE_T { PickIsRight(v, opts, force); }
    if force {
      var all := AllFilesOf(v);
      return if |all| >= 2 then Job(all, 1, true) else Job(all, 0, false);
    }
    if |v[0]| >= opts.compactionTrigger {
      var lo, hi := RangeOf(v[0]);
      var below := CollectOverlapping(v[1], lo, hi);
      var top := DeepestPopulated(v);
      return Job(v[0] + below, 1, 1 >= top || top == 0);
    }
    for level := 1 to MAX_LEVELS - 1
      invariant PickOverfull(v, opts, level) == PickOverfull(v, opts, 1)
    {
      var bytes := BytesOf(v[level]);
      var limit := LimitOf(opts, level);
      if bytes > limit && v[level] != [] {
        var p := OldestFile(v[level]);
        var below := CollectOverlapping(v[level + 1], p.smallest, p.largest);
        var top := DeepestPopulated(v);
        return Job([p] + below, level + 1, level + 1 >= top);
      }
    }
    job := Job([], 0, false);
  }

  /** The merge loop: keep or drop each entry of the stream, and cut the files by size. */
  method WriteOutputs(merged: seq<Entry>, oldest: nat, bottom: bool, target: nat) returns (parts: seq<seq<Entry>>)
    ensures parts == Split(Collect(merged, oldest, bottom, [], false), target, [], 0)
  {
    parts := [];
    hide Collect, Split;
    var cur: seq<Entry>, bytes: nat := [], 0;
    var prev: Bytes, anchored := [], false;
    assert merged[0..] == merged;
    for i := 0 to |merged|
      invariant parts + Split(Collect(merged[i..], oldest, bottom, prev, anchored), target, cur, bytes)
             == Split(Collect(merged, oldest, bottom, [], false), target, [], 0)
    {
      var e := merged[i];
      CollectUnfold(merged, i, oldest, bottom, prev, anchored);
      if e.key != prev {
        prev, anchored := e.key, false;
      }
      var keep := false;
      if e.seqno > oldest {
        keep := true;
      } else if !anchored {
        anchored := true;
        keep := !(e.tombstone && bottom);
      }
      ghost var rest := Collect(merged[i + 1..], oldest, bottom, prev, anchored);
      if keep {
        SplitUnfold(e, rest, target, cur, bytes);
        cur, bytes := cur + [e], bytes + 17 + |e.key| + |e.value|;
        if bytes >= target {
          assert parts + ([cur] + Split(rest, target, [], 0)) == parts + [cur] + Split(rest, target, [], 0);
          parts := parts + [cur];
          cur, bytes := [], 0;
        }
      }
    }
    NothingLeft(merged, oldest, bottom, prev, anchored, target, cur, bytes);
    if cur != [] {
      parts := parts + [cur];
    }
  }

  lemma NothingLeft(m: seq<Entry>, oldest: nat, bottom: bool, prev: Bytes, anchored: bool, target: nat,
                    cur: seq<Entry>, bytes: nat)
    ensures Split(Collect(m[|m|..], oldest, bottom, prev, anchored), target, cur, bytes)
            == if cur == [] then [] else [cur]
  {
  }

  lemma CollectUnfold(m: seq<Entry>, i: nat, oldest: nat, bottom: bool, prev: Bytes, anchored: bool)
    requires i < |m|
    ensures var e := m[i];
            var a := e.key == prev && anchored;
            var keep := e.seqno > oldest || (!a && !(e.tombstone && bottom));
            var rest := Collect(m[i + 1..], oldest, bottom, e.key, a || e.seqno <= oldest);
            Collect(m[i..], oldest, bottom, prev, anchored) == if keep then [e] + rest else rest
  {
    assert m[i..][1..] == m[i + 1..];
  }

  lemma SplitUnfold(e: Entry, rest: seq<Entry>, target: nat, cur: seq<Entry>, bytes: nat)
    ensures var cur', bytes' := cur + [e], bytes + 17 + |e.key| + |e.value|;
            Split([e] + rest, target, cur, bytes) ==
              if bytes' >= target then [cur'] + Split(rest, target, [], 0) else Split(rest, target, cur', bytes')
  {
    assert ([e] + rest)[1..] == rest;
  }
}
