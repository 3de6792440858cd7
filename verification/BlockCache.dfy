// The block cache: a list in order of use, an index into it, a byte count, and calls that
// look, load without the lock, and look again before they store.
module BlockCache {
  import opened Keys
  import opened Entries

  datatype CacheKey = CacheKey(file: nat, offset: nat)
  datatype CacheEntry = CacheEntry(key: CacheKey, block: Bytes, size: nat)

  /** `bytes` may be thought of as unsigned: Valid keeps it the sum of the sizes. */
  datatype Cache = Cache(capacity: nat, bytes: int, lru: seq<CacheEntry>, index: map<CacheKey, CacheEntry>)

  function Total(lru: seq<CacheEntry>): nat {
    if lru == [] then 0 else Total(lru[..|lru| - 1]) + lru[|lru| - 1].size
  }

  ghost predicate DistinctKeys(lru: seq<CacheEntry>) {
    forall i, j :: 0 <= i < j < |lru| ==> lru[i].key != lru[j].key
  }

  /** The index names exactly the entries of the list. */
  ghost predicate Indexed(lru: seq<CacheEntry>, index: map<CacheKey, CacheEntry>) {
    && (forall i :: 0 <= i < |lru| ==> lru[i].key in index && index[lru[i].key] == lru[i])
    && (forall k :: k in index ==> index[k].key == k && index[k] in lru)
  }

  ghost predicate Sized(lru: seq<CacheEntry>) {
    forall i :: 0 <= i < |lru| ==> lru[i].size == |lru[i].block|
  }

  ghost predicate Valid(c: Cache) {
    && DistinctKeys(c.lru) && Indexed(c.lru, c.index) && Sized(c.lru)
    && c.bytes == Total(c.lru) && c.bytes <= c.capacity
  }

  // ------------------------------------------------------------ operations

  function Without(lru: seq<CacheEntry>, k: CacheKey): (r: seq<CacheEntry>) {
    if lru == [] then [] else if lru[0].key == k then lru[1..] else [lru[0]] + Without(lru[1..], k)
  }

  /** splice to the front. */
  function ToFront(lru: seq<CacheEntry>, e: CacheEntry): seq<CacheEntry> {
    [e] + Without(lru, e.key)
  }

  function Touched(c: Cache, k: CacheKey): Cache
    requires k in c.index
  {
    c.(lru := ToFront(c.lru, c.index[k]))
  }

  function Evicted(c: Cache): Cache
    decreases |c.lru|
  {
    if c.bytes > c.capacity && c.lru != [] then
      var back := c.lru[|c.lru| - 1];
      Evicted(c.(bytes := c.bytes - back.size, index := c.index - {back.key}, lru := c.lru[..|c.lru| - 1]))
    else c
  }

  function Pushed(c: Cache, k: CacheKey, block: Bytes): Cache {
    var e := CacheEntry(k, block, |block|);
    c.(lru := [e] + c.lru, index := c.index[k := e], bytes := c.bytes + |block|)
  }

  /** The second critical section: another call may have stored the block meanwhile. */
  function Stored(c: Cache, k: CacheKey, block: Bytes): Cache {
    if k in c.index then Touched(c, k) else Evicted(Pushed(c, k, block))
  }

  // -------------------------------------------------------------- invariant

  lemma {:induction false} TotalConcat(a: seq<CacheEntry>, b: seq<CacheEntry>)
    ensures Total(a + b) == Total(a) + Total(b)
    decreases |b|
  {
    if b == [] {
      assert a + b == a;
    } else {
      var front := b[..|b| - 1];
      TotalConcat(a, front);
      assert (a + b)[..|a + b| - 1] == a + front;
    }
  }

  lemma TotalOne(e: CacheEntry)
    ensures Total([e]) == e.size
  {
    assert Total([]) == 0;
  }

  /** Taking an entry out leaves the others in their order. */
  lemma {:induction false} WithoutSplit(lru: seq<CacheEntry>, i: nat)
    requires DistinctKeys(lru) && i < |lru|
    ensures Without(lru, lru[i].key) == lru[..i] + lru[i + 1..]
    decreases |lru|
  {
    if i > 0 {
      assert lru[0].key != lru[i].key;
      WithoutSplit(lru[1..], i - 1);
      assert lru[..i] == [lru[0]] + lru[1..][..i - 1] && lru[1..][i..] == lru[i + 1..];
    }
  }

  lemma ToFrontSplit(c: Cache, k: CacheKey) returns (i: nat)
    requires DistinctKeys(c.lru) && Indexed(c.lru, c.index) && k in c.index
    ensures i < |c.lru| && c.lru[i] == c.index[k] && c.index[k].key == k
    ensures Touched(c, k).lru == [c.lru[i]] + (c.lru[..i] + c.lru[i + 1..])
  {
    hide Without;
    var e := c.index[k];
    i :| 0 <= i < |c.lru| && c.lru[i] == e;
    WithoutSplit(c.lru, i);
  }

  lemma SameEntries(lru: seq<CacheEntry>, t: seq<CacheEntry>, index: map<CacheKey, CacheEntry>)
    requires Indexed(lru, index) && Sized(lru) && forall e :: e in t <==> e in lru
    ensures Indexed(t, index) && Sized(t)
  {
    forall i | 0 <= i < |t|
      ensures t[i].key in index && index[t[i].key] == t[i] && t[i].size == |t[i].block|
    {
      assert t[i] in t;
      var j :| 0 <= j < |lru| && lru[j] == t[i];
    }
  }

  lemma TouchKeepsValid(c: Cache, k: CacheKey)
    requires Valid(c) && k in c.index
    ensures Valid(Touched(c, k)) && (forall e :: e in Touched(c, k).lru <==> e in c.lru)
  {
    hide Total, Without, DistinctKeys, Indexed, Sized;
    var i := ToFrontSplit(c, k);
    FrontTotal(c.lru, i);
    FrontDistinct(c.lru, i);
    SameEntries(c.lru, Touched(c, k).lru, c.index);
  }

  lemma FrontTotal(lru: seq<CacheEntry>, i: nat)
    requires i < |lru|
    ensures Total([lru[i]] + (lru[..i] + lru[i + 1..])) == Total(lru)
  {
    hide Total;
    TotalConcat([lru[i]], lru[..i] + lru[i + 1..]);
    TotalConcat(lru[..i], lru[i + 1..]);
    assert lru == lru[..i] + ([lru[i]] + lru[i + 1..]);
    TotalConcat(lru[..i], [lru[i]] + lru[i + 1..]);
    TotalConcat([lru[i]], lru[i + 1..]);
  }

  lemma FrontDistinct(lru: seq<CacheEntry>, i: nat)
    requires DistinctKeys(lru) && i < |lru|
    ensures var t := [lru[i]] + (lru[..i] + lru[i + 1..]);
            DistinctKeys(t) && forall e :: e in t <==> e in lru
  {
    var t := [lru[i]] + (lru[..i] + lru[i + 1..]);
    forall e | e in lru ensures e in t {
      var j :| 0 <= j < |lru| && lru[j] == e;
      if j < i { assert t[j + 1] == e; } else if j > i { assert t[j] == e; }
    }
  }

  /** The longest front part of the list that fits. */
  ghost predicate LongestFit(lru: seq<CacheEntry>, capacity: nat, kept: seq<CacheEntry>) {
    && kept <= lru && Total(kept) <= capacity
    && (kept != lru ==> Total(lru[..|kept| + 1]) > capacity)
  }

  lemma {:induction false} EvictKeeps(c: Cache)
    requires DistinctKeys(c.lru) && Indexed(c.lru, c.index) && Sized(c.lru) && c.bytes == Total(c.lru)
    ensures Valid(Evicted(c)) && LongestFit(c.lru, c.capacity, Evicted(c).lru) && Evicted(c).capacity == c.capacity
    decreases |c.lru|
  {
    hide Total, DistinctKeys, Indexed, Sized, LongestFit;
    NothingFits(c.lru, c.capacity);
    if c.bytes > c.capacity && c.lru != [] {
      var n := |c.lru| - 1;
      var back := c.lru[n];
      var d := c.(bytes := c.bytes - back.size, index := c.index - {back.key}, lru := c.lru[..n]);
      DropLastIndexed(c.lru, c.index);
      DropLastSized(c.lru);
      EvictKeeps(d);
      DropLastFit(c.lru, c.capacity, Evicted(d).lru);
    }
  }

  lemma NothingFits(lru: seq<CacheEntry>, capacity: nat)
    ensures Total(lru) <= capacity ==> LongestFit(lru, capacity, lru)
    ensures lru == [] ==> Total(lru) <= capacity
  {
  }

  lemma DropLastSized(lru: seq<CacheEntry>)
    requires DistinctKeys(lru) && Sized(lru) && lru != []
    ensures DistinctKeys(lru[..|lru| - 1]) && Sized(lru[..|lru| - 1])
    ensures Total(lru) == Total(lru[..|lru| - 1]) + lru[|lru| - 1].size
  {
  }

  lemma DropLastFit(lru: seq<CacheEntry>, capacity: nat, kept: seq<CacheEntry>)
    requires lru != [] && Total(lru) > capacity && LongestFit(lru[..|lru| - 1], capacity, kept)
    ensures LongestFit(lru, capacity, kept)
  {
    hide Total;
    var front := lru[..|lru| - 1];
    if kept == front {
      assert lru[..|kept| + 1] == lru;
    } else {
      assert |kept| < |front|;
      assert lru[..|kept| + 1] == front[..|kept| + 1];
    }
  }

  lemma DropLastIndexed(lru: seq<CacheEntry>, index: map<CacheKey, CacheEntry>)
    requires DistinctKeys(lru) && Indexed(lru, index) && lru != []
    ensures Indexed(lru[..|lru| - 1], index - {lru[|lru| - 1].key})
  {
    var front, back := lru[..|lru| - 1], lru[|lru| - 1];
    forall k | k in index && k != back.key ensures index[k] in front {
      var i :| 0 <= i < |lru| && lru[i] == index[k];
      assert i < |front| && front[i] == lru[i];
    }
  }

  lemma PushIndexed(lru: seq<CacheEntry>, index: map<CacheKey, CacheEntry>, e: CacheEntry)
    requires DistinctKeys(lru) && Indexed(lru, index) && e.key !in index
    ensures DistinctKeys([e] + lru) && Indexed([e] + lru, index[e.key := e])
  {
    var t := [e] + lru;
    forall x | x in index ensures index[x] in t {
      var i :| 0 <= i < |lru| && lru[i] == index[x];
      assert t[i + 1] == index[x];
    }
    assert t[0] == e;
  }

  lemma PushKeeps(c: Cache, k: CacheKey, block: Bytes)
    requires Valid(c) && k !in c.index
    ensures var d := Pushed(c, k, block);
            DistinctKeys(d.lru) && Indexed(d.lru, d.index) && Sized(d.lru) && d.bytes == Total(d.lru)
  {
    hide Total, DistinctKeys, Indexed;
    var e := CacheEntry(k, block, |block|);
    TotalConcat([e], c.lru);
    TotalOne(e);
    PushIndexed(c.lru, c.index, e);
  }

  /** Storing keeps the cache within its capacity; what goes is exactly the least recently used tail. */
  lemma StoreKeepsValid(c: Cache, k: CacheKey, block: Bytes)
    requires Valid(c)
    ensures Valid(Stored(c, k, block)) && Stored(c, k, block).capacity == c.capacity
    ensures k in c.index ==> forall e :: e in Stored(c, k, block).lru <==> e in c.lru
    ensures k !in c.index ==>
              LongestFit([CacheEntry(k, block, |block|)] + c.lru, c.capacity, Stored(c, k, block).lru)
  {
    hide Valid, Touched, Evicted, LongestFit, DistinctKeys, Indexed, Sized, Total;
    if k in c.index {
      TouchKeepsValid(c, k);
      SameCapacity(c, k);
    } else {
      PushKeeps(c, k, block);
      EvictKeeps(Pushed(c, k, block));
    }
  }

  /** What one undisturbed call does to the cache. */
  function Called(c: Cache, k: CacheKey, block: Bytes): Cache {
    if k in c.index then Touched(c, k) else Stored(c, k, block)
  }

  /** k is moved to the front, and the others keep their order. */
  ghost predicate MovedFirst(was: seq<CacheEntry>, now: seq<CacheEntry>, k: CacheKey) {
    exists i :: 0 <= i < |was| && was[i].key == k && now == [was[i]] + (was[..i] + was[i + 1..])
  }

  lemma CalledIs(c: Cache, k: CacheKey, block: Bytes)
    requires Valid(c)
    ensures Valid(Called(c, k, block))
    ensures k in c.index ==> MovedFirst(c.lru, Called(c, k, block).lru, k)
    ensures k !in c.index ==>
              LongestFit([CacheEntry(k, block, |block|)] + c.lru, c.capacity, Called(c, k, block).lru)
  {
    hide Total, LongestFit, Without, Evicted;
    if k in c.index {
      TouchKeepsValid(c, k);
      var i := ToFrontSplit(c, k);
    } else {
      StoreKeepsValid(c, k, block);
    }
  }

  /**
   * After a call for a block that was not there, the block is there if and only if it is no
   * larger than the cache; a larger one empties the cache.
   */
  lemma CalledIsKept(c: Cache, k: CacheKey, block: Bytes)
    requires Valid(c) && k !in c.index
    ensures k in Called(c, k, block).index <==> |block| <= c.capacity
    ensures |block| > c.capacity ==> Called(c, k, block).lru == []
  {
    hide Called, Total, Stored;
    CalledIs(c, k, block);
    var e := CacheEntry(k, block, |block|);
    var d := Called(c, k, block);
    CalledCapacity(c, k, block);
    FirstFits(e, c.lru, c.capacity, d.lru);
    if d.lru != [] { assert d.lru[0] == e && d.lru[0].key in d.index; }
  }

  lemma CalledCapacity(c: Cache, k: CacheKey, block: Bytes)
    requires Valid(c)
    ensures Called(c, k, block).capacity == c.capacity
  {
    hide Valid, Evicted;
    if k !in c.index { StoreKeepsValid(c, k, block); }
  }

  lemma FirstFits(e: CacheEntry, lru: seq<CacheEntry>, capacity: nat, kept: seq<CacheEntry>)
    requires LongestFit([e] + lru, capacity, kept)
    ensures kept != [] <==> e.size <= capacity
  {
    hide Total;
    var all := [e] + lru;
    TotalOne(e);
    if kept == [] {
      assert all[..1] == [e];
    } else {
      assert kept == [e] + kept[1..];
      TotalConcat([e], kept[1..]);
    }
  }

  /** Two calls in a row for a block that fits: the second finds it. */
  lemma SecondCallHits(c: Cache, k: CacheKey, block: Bytes)
    requires Valid(c) && |block| <= c.capacity
    ensures k in Called(c, k, block).index
  {
    hide Valid, Stored;
    if k !in c.index { CalledIsKept(c, k, block); }
  }

  lemma SameCapacity(c: Cache, k: CacheKey)
    requires k in c.index
    ensures Touched(c, k).capacity == c.capacity
  {
  }

  // -------------------------------------------------------- order of use

  /** The position after the last use of k; 0 if it was never used. */
  function LastUse(uses: seq<CacheKey>, k: CacheKey): (n: nat)
    ensures n <= |uses|
  {
    if uses == [] then 0 else if uses[|uses| - 1] == k then |uses| else LastUse(uses[..|uses| - 1], k)
  }

  /** The list runs from the most to the least recently used. */
  ghost predicate ByUse(lru: seq<CacheEntry>, uses: seq<CacheKey>) {
    forall i, j :: 0 <= i < j < |lru| ==> LastUse(uses, lru[i].key) > LastUse(uses, lru[j].key)
  }

  lemma UsedLast(uses: seq<CacheKey>, k: CacheKey, other: CacheKey)
    ensures LastUse(uses + [k], k) == |uses| + 1
    ensures other != k ==> LastUse(uses + [k], other) == LastUse(uses, other)
  {
    assert (uses + [k])[..|uses|] == uses;
  }

  lemma PushedByUse(lru: seq<CacheEntry>, uses: seq<CacheKey>, e: CacheEntry)
    requires ByUse(lru, uses) && forall i :: 0 <= i < |lru| ==> lru[i].key != e.key
    ensures ByUse([e] + lru, uses + [e.key])
  {
    hide LastUse;
    var t, u := [e] + lru, uses + [e.key];
    forall i, j | 0 <= i < j < |t| ensures LastUse(u, t[i].key) > LastUse(u, t[j].key) {
      UsedLast(uses, e.key, t[j].key);
      if i > 0 { UsedLast(uses, e.key, t[i].key); }
    }
  }

  /** A hit or a store leaves the list in order of use. */
  lemma StoreByUse(c: Cache, k: CacheKey, block: Bytes, uses: seq<CacheKey>)
    requires Valid(c) && ByUse(c.lru, uses)
    ensures ByUse(Stored(c, k, block).lru, uses + [k])
  {
    if k in c.index {
      TouchByUse(c, k, uses);
    } else {
      var e := CacheEntry(k, block, |block|);
      forall i | 0 <= i < |c.lru| ensures c.lru[i].key != k { assert c.lru[i].key in c.index; }
      PushedByUse(c.lru, uses, e);
      StoreKeepsValid(c, k, block);
      PrefixByUse([e] + c.lru, uses + [k], Stored(c, k, block).lru);
    }
  }

  lemma PrefixByUse(lru: seq<CacheEntry>, uses: seq<CacheKey>, kept: seq<CacheEntry>)
    requires ByUse(lru, uses) && kept <= lru
    ensures ByUse(kept, uses)
  {
    hide LastUse;
    forall i, j | 0 <= i < j < |kept| ensures LastUse(uses, kept[i].key) > LastUse(uses, kept[j].key) {
      assert kept[i] == lru[i] && kept[j] == lru[j];
    }
  }

  lemma TouchByUse(c: Cache, k: CacheKey, uses: seq<CacheKey>)
    requires Valid(c) && k in c.index && ByUse(c.lru, uses)
    ensures ByUse(Touched(c, k).lru, uses + [k])
  {
    hide LastUse, Total, Indexed, Without, ByUse;
    var i := ToFrontSplit(c, k);
    TakenOutByUse(c.lru, uses, i);
    PushedByUse(c.lru[..i] + c.lru[i + 1..], uses, c.lru[i]);
  }

  lemma TakenOutByUse(lru: seq<CacheEntry>, uses: seq<CacheKey>, i: nat)
    requires ByUse(lru, uses) && i < |lru|
    ensures ByUse(lru[..i] + lru[i + 1..], uses)
  {
    hide LastUse;
    var rest := lru[..i] + lru[i + 1..];
    forall a, b | 0 <= a < b < |rest| ensures LastUse(uses, rest[a].key) > LastUse(uses, rest[b].key) {
      var a', b' := if a < i then a else a + 1, if b < i then b else b + 1;
      assert rest[a] == lru[a'] && rest[b] == lru[b'];
    }
  }

  // --------------------------------------------------- concurrent calls

  datatype Call =
    | Looking(key: CacheKey)
    | Loading(key: CacheKey)
    | Holding(key: CacheKey, block: Bytes)
    | Answered(key: CacheKey, block: Bytes)

  datatype World = World(cache: Cache, calls: map<nat, Call>, uses: seq<CacheKey>)

  datatype Move = Begin(id: nat, key: CacheKey) | Look(id: nat) | Load(id: nat) | Store(id: nat)

  ghost predicate CanMove(w: World, m: Move) {
    match m
    case Begin(id, key) => id !in w.calls
    case Look(id) => id in w.calls && w.calls[id].Looking?
    case Load(id) => id in w.calls && w.calls[id].Loading?
    case Store(id) => id in w.calls && w.calls[id].Holding?
  }

  /** Tables never change once written, so a key always loads the same bytes. */
  ghost function Moved(w: World, m: Move, disk: CacheKey -> Bytes): World
    requires CanMove(w, m)
  {
    match m
    case Begin(id, key) => w.(calls := w.calls[id := Looking(key)])
    case Look(id) =>
      var k := w.calls[id].key;
      if k in w.cache.index then
        World(Touched(w.cache, k), w.calls[id := Answered(k, w.cache.index[k].block)], w.uses + [k])
      else w.(calls := w.calls[id := Loading(k)])
    case Load(id) =>
      var k := w.calls[id].key;
      w.(calls := w.calls[id := Holding(k, disk(k))])
    case Store(id) =>
      var k, b := w.calls[id].key, w.calls[id].block;
      var answer := if k in w.cache.index then w.cache.index[k].block else b;
      World(Stored(w.cache, k, b), w.calls[id := Answered(k, answer)], w.uses + [k])
  }

  ghost predicate Truthful(lru: seq<CacheEntry>, disk: CacheKey -> Bytes) {
    forall e :: e in lru ==> e.block == disk(e.key)
  }

  ghost predicate CallsTruthful(calls: map<nat, Call>, disk: CacheKey -> Bytes) {
    forall id :: id in calls && (calls[id].Holding? || calls[id].Answered?) ==> calls[id].block == disk(calls[id].key)
  }

  ghost predicate WorldInv(w: World, capacity: nat, disk: CacheKey -> Bytes) {
    && Valid(w.cache) && w.cache.capacity == capacity
    && ByUse(w.cache.lru, w.uses)
    && Truthful(w.cache.lru, disk)
    && CallsTruthful(w.calls, disk)
  }

  lemma IndexTruthful(c: Cache, k: CacheKey, disk: CacheKey -> Bytes)
    requires Valid(c) && Truthful(c.lru, disk) && k in c.index
    ensures c.index[k].block == disk(k)
  {
  }

  lemma StoreTruthful(c: Cache, k: CacheKey, block: Bytes, disk: CacheKey -> Bytes)
    requires Valid(c) && Truthful(c.lru, disk) && block == disk(k)
    ensures Truthful(Stored(c, k, block).lru, disk)
  {
    hide Stored, Total;
    StoreKeepsValid(c, k, block);
    forall e | e in Stored(c, k, block).lru ensures e.block == disk(e.key) {
      if k !in c.index {
        var all := [CacheEntry(k, block, |block|)] + c.lru;
        assert e in all;
      }
    }
  }

  lemma TouchTruthful(c: Cache, k: CacheKey, disk: CacheKey -> Bytes)
    requires Valid(c) && Truthful(c.lru, disk) && k in c.index
    ensures Truthful(Touched(c, k).lru, disk)
  {
    hide Touched, Total;
    TouchKeepsValid(c, k);
  }

  lemma AnswerTruthful(calls: map<nat, Call>, id: nat, call: Call, disk: CacheKey -> Bytes)
    requires CallsTruthful(calls, disk) && (call.Holding? || call.Answered? ==> call.block == disk(call.key))
    ensures CallsTruthful(calls[id := call], disk)
  {
  }

  /**
   * However calls interleave, every step keeps the cache valid, within capacity, in order of use
   * and true to the files.
   */
  lemma MoveKeepsInv(w: World, m: Move, capacity: nat, disk: CacheKey -> Bytes)
    requires WorldInv(w, capacity, disk) && CanMove(w, m)
    ensures WorldInv(Moved(w, m, disk), capacity, disk)
  {
    hide Valid, ByUse, Truthful, CallsTruthful, Touched, Stored;
    match m {
      case Begin(id, key) => AnswerTruthful(w.calls, id, Looking(key), disk);
      case Look(id) =>
        var k := w.calls[id].key;
        AnswerTruthful(w.calls, id, Loading(k), disk);
        if k in w.cache.index {
          IndexTruthful(w.cache, k, disk);
          AnswerTruthful(w.calls, id, Answered(k, w.cache.index[k].block), disk);
          TouchKeepsValid(w.cache, k);
          SameCapacity(w.cache, k);
          TouchByUse(w.cache, k, w.uses);
          TouchTruthful(w.cache, k, disk);
        }
      case Load(id) => AnswerTruthful(w.calls, id, Holding(w.calls[id].key, disk(w.calls[id].key)), disk);
      case Store(id) =>
        var k, b := w.calls[id].key, w.calls[id].block;
        HoldsTruth(w.calls, id, disk);
        if k in w.cache.index { IndexTruthful(w.cache, k, disk); }
        AnswerTruthful(w.calls, id, Answered(k, if k in w.cache.index then w.cache.index[k].block else b), disk);
        StoreKeepsValid(w.cache, k, b);
        StoreByUse(w.cache, k, b, w.uses);
        StoreTruthful(w.cache, k, b, disk);
    }
  }

  lemma HoldsTruth(calls: map<nat, Call>, id: nat, disk: CacheKey -> Bytes)
    requires CallsTruthful(calls, disk) && id in calls && calls[id].Holding?
    ensures calls[id].block == disk(calls[id].key)
  {
  }

  ghost predicate IsRun(ws: seq<World>, ms: seq<Move>, capacity: nat, disk: CacheKey -> Bytes) {
    && |ws| == |ms| + 1
    && ws[0] == World(Cache(capacity, 0, [], map[]), map[], [])
    && forall i :: 0 <= i < |ms| ==> CanMove(ws[i], ms[i]) && ws[i + 1] == Moved(ws[i], ms[i], disk)
  }

  /**
   * In every run of concurrent calls, every answer is the block as it is on disk, and the cache
   * stays within its capacity.
   */
  lemma {:induction false} AnswersAreTrue(ws: seq<World>, ms: seq<Move>, capacity: nat, disk: CacheKey -> Bytes, n: nat)
    requires IsRun(ws, ms, capacity, disk) && n < |ws|
    ensures WorldInv(ws[n], capacity, disk)
    ensures Total(ws[n].cache.lru) <= capacity
    ensures forall id :: id in ws[n].calls && ws[n].calls[id].Answered? ==>
              ws[n].calls[id].block == disk(ws[n].calls[id].key)
    decreases n
  {
    hide CanMove, Moved, ByUse, Truthful;
    if n == 0 {
      EmptyWorld(capacity, disk);
    } else {
      AnswersAreTrue(ws, ms, capacity, disk, n - 1);
      MoveKeepsInv(ws[n - 1], ms[n - 1], capacity, disk);
    }
  }

  lemma EmptyWorld(capacity: nat, disk: CacheKey -> Bytes)
    ensures WorldInv(World(Cache(capacity, 0, [], map[]), map[], []), capacity, disk)
  {
  }

  // ------------------------------------------------------ the cache object

  class LruCache {
    const capacity: nat
    var bytes: int
    var lru: seq<CacheEntry>
    var index: map<CacheKey, CacheEntry>
    var hits: nat
    var misses: nat

    function Value(): Cache
      reads this
    {
      Cache(capacity, bytes, lru, index)
    }

    constructor (capacityBytes: nat)
      ensures Value() == Cache(capacityBytes, 0, [], map[]) && Valid(Value())
      ensures hits == 0 && misses == 0
    {
      capacity, bytes, lru, index, hits, misses := capacityBytes, 0, [], map[], 0, 0;
    }

    /** The first critical section of a call. */
    method Find(k: CacheKey) returns (r: Option<Bytes>)
      requires Valid(Value())
      modifies this
      ensures Valid(Value())
      ensures old(k in index) ==>
                Value() == Touched(old(Value()), k) && r == Some(old(index)[k].block) && hits == old(hits) + 1
      ensures old(k !in index) ==> Value() == old(Value()) && r == None && hits == old(hits)
      ensures misses == old(misses)
    {
      hide Valid;
      if k in index {
        TouchKeepsValid(Value(), k);
        lru := ToFront(lru, index[k]);
        hits := hits + 1;
        return Some(index[k].block);
      }
      return None;
    }

    /** The second critical section: store the loaded block unless another call has, then evict. */
    method Keep(k: CacheKey, block: Bytes) returns (r: Bytes)
      requires Valid(Value())
      modifies this
      ensures Valid(Value()) && Value() == Stored(old(Value()), k, block)
      ensures r == if old(k in index) then old(index)[k].block else block
      ensures hits == old(hits) && misses == old(misses) + 1
    {
      hide Valid, Total, Evicted, LongestFit;
      StoreKeepsValid(Value(), k, block);
      misses := misses + 1;
      if k in index {
        lru := ToFront(lru, index[k]);
        return index[k].block;
      }
      var e := CacheEntry(k, block, |block|);
      lru := [e] + lru;
      index := index[k := e];
      bytes := bytes + |block|;
      Evict();
      return block;
    }

    method Evict()
      modifies this`bytes, this`index, this`lru
      ensures Value() == Evicted(old(Value()))
    {
      while bytes > capacity && lru != []
        invariant Evicted(Value()) == Evicted(old(Value()))
        decreases |lru|
      {
        var back := lru[|lru| - 1];
        bytes := bytes - back.size;
        index := index - {back.key};
        lru := lru[..|lru| - 1];
      }
    }

    /** One call with nothing in between: the block as it is on disk, from the cache or loaded. */
    method GetOrLoad(k: CacheKey, disk: CacheKey -> Bytes) returns (r: Bytes)
      requires Valid(Value()) && Truthful(lru, disk)
      modifies this
      ensures Valid(Value()) && Truthful(lru, disk) && r == disk(k)
      ensures Value() == Called(old(Value()), k, disk(k))
      ensures old(k in index) ==> hits == old(hits) + 1 && misses == old(misses) && MovedFirst(old(lru), lru, k)
      ensures old(k !in index) ==>
                && hits == old(hits) && misses == old(misses) + 1
                && LongestFit([CacheEntry(k, disk(k), |disk(k)|)] + old(lru), capacity, lru)
      ensures |disk(k)| <= capacity ==> k in index
    {
      hide Valid, Truthful, Stored, Touched, LongestFit, MovedFirst;
      ghost var was := Value();
      CalledIs(was, k, disk(k));
      if |disk(k)| <= capacity { SecondCallHits(was, k, disk(k)); }
      if k in index {
        IndexTruthful(was, k, disk);
        TouchTruthful(was, k, disk);
      }
      var found := Find(k);
      if found.Some? { return found.value; }
      StoreTruthful(was, k, disk(k), disk);
      r := Keep(k, disk(k));
    }
  }
}
