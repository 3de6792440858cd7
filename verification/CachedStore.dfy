// The block cache over a running store: loads read the tables that are on disk at that
// moment, and since file numbers are never reused every answer is what the file holds.
module CachedStore {
  import opened Keys
  import opened Entries
  import opened Recovery
  import opened Machine
  import opened TableFormat
  import opened TableIndex
  import opened BlockCache
  import Runs
  import FileNumbers

  /** What the loader makes of the block at an offset of a table. */
  ghost function BlockAt(table: seq<Entry>, offset: nat): Bytes {
    BlockIn(FileBytes(table), TableOf(table).index, offset)
  }

  ghost function BlockIn(file: Bytes, index: seq<IndexEntry>, offset: nat): Bytes {
    if index == [] then []
    else if index[0].offset == offset then
      match ReadBlock(file, index[0])
      case Ok(b) => b
      case Failed => []
    else BlockIn(file, index[1..], offset)
  }

  lemma {:induction false} OffsetsGrow(blocks: seq<seq<Entry>>, offset: nat, i: nat)
    requires NoneEmpty(blocks) && i < |blocks|
    ensures IndexOf(blocks, offset)[i].offset >= offset
    ensures i > 0 ==> IndexOf(blocks, offset)[i].offset > offset
    decreases i
  {
    hide IndexOf, BlockBytes;
    IndexStep(blocks, offset);
    if i > 0 { OffsetsGrow(blocks[1..], offset + |BlockBytes(blocks[0])| + 4, i - 1); }
  }

  lemma {:induction false} BlockInFinds(file: Bytes, blocks: seq<seq<Entry>>, offset: nat, i: nat)
    requires NoneEmpty(blocks) && i < |blocks|
    ensures var index := IndexOf(blocks, offset);
            ReadBlock(file, index[i]).Ok? ==> BlockIn(file, index, index[i].offset) == ReadBlock(file, index[i]).value
    decreases i
  {
    hide IndexOf, BlockBytes, ReadBlock;
    IndexStep(blocks, offset);
    OffsetsGrow(blocks, offset, i);
    if i > 0 { BlockInFinds(file, blocks[1..], offset + |BlockBytes(blocks[0])| + 4, i - 1); }
  }

  /** At the offset of an index entry that is the bytes of its block. */
  lemma BlockAtIs(es: seq<Entry>, i: nat)
    requires TableFits(es) && i < |BlocksOf(es)|
    ensures BlockAt(es, TableOf(es).index[i].offset) == BlockBytes(BlocksOf(es)[i])
  {
    hide BlocksOf, FileBytes, IndexOf, ReadBlock, BlockBytes, FilterOf, MaxSeq, TableFits, BlockIn;
    BlocksRead(es, i);
    BlockInFinds(FileBytes(es), BlocksOf(es), 0, i);
  }

  /** What a load finds on disk now. */
  ghost function OnDiskNow(files: FileStore, key: CacheKey): Bytes {
    if key.file in files then BlockAt(files[key.file], key.offset) else []
  }

  /**
   * Cache calls that interleave with the store: move e happens at state at[e] of the run, and
   * a table is loaded from only while its file is there.
   */
  ghost predicate CachedRun(ss: seq<State>, i: nat, j: nat, capacity: nat, ws: seq<World>, ms: seq<Move>,
                            at: seq<nat>) {
    && i <= j < |ss|
    && |ws| == |ms| + 1 && |at| == |ms|
    && ws[0] == World(Cache(capacity, 0, [], map[]), map[], [])
    && forall e :: 0 <= e < |ms| ==>
         && i <= at[e] <= j
         && CanMove(ws[e], ms[e])
         && (ms[e].Load? ==> ws[e].calls[ms[e].id].key.file in ss[at[e]].disk.files)
         && ws[e + 1] == Moved(ws[e], ms[e], (key: CacheKey) => OnDiskNow(ss[at[e]].disk.files, key))
  }

  /** The one content a number has between i and j; the first that is seen, if there is any. */
  ghost function Content(ss: seq<State>, i: nat, j: nat, n: nat): seq<Entry>
    requires i <= j < |ss|
    decreases j - i
  {
    if n in ss[i].disk.files then ss[i].disk.files[n]
    else if i < j then Content(ss, i + 1, j, n)
    else []
  }

  lemma {:induction false} ContentIs(ss: seq<State>, i: nat, j: nat, n: nat, m: nat)
    requires Runs.IsRun(ss) && Init(ss[0]) && i <= m <= j < |ss| && FileNumbers.StaysUp(ss, i, j)
    requires n in ss[m].disk.files
    ensures Content(ss, i, j, n) == ss[m].disk.files[n]
    decreases j - i
  {
    hide Runs.IsRun, Init;
    if n in ss[i].disk.files {
      FileNumbers.NumbersNeverReused(ss, i, m, n);
    } else {
      ContentIs(ss, i + 1, j, n, m);
    }
  }

  ghost function Truth(ss: seq<State>, i: nat, j: nat): CacheKey -> Bytes
    requires i <= j < |ss|
  {
    (key: CacheKey) => BlockAt(Content(ss, i, j, key.file), key.offset)
  }

  lemma LoadIsTrue(ss: seq<State>, i: nat, j: nat, w: World, m: Move, at: nat)
    requires Runs.IsRun(ss) && Init(ss[0]) && i <= at <= j < |ss| && FileNumbers.StaysUp(ss, i, j)
    requires CanMove(w, m) && (m.Load? ==> w.calls[m.id].key.file in ss[at].disk.files)
    ensures Moved(w, m, (key: CacheKey) => OnDiskNow(ss[at].disk.files, key)) == Moved(w, m, Truth(ss, i, j))
  {
    hide Runs.IsRun, Init, Touched, Stored, BlockAt;
    if m.Load? {
      ContentIs(ss, i, j, w.calls[m.id].key.file, at);
    }
  }

  lemma TruthRun(ss: seq<State>, i: nat, j: nat, capacity: nat, ws: seq<World>, ms: seq<Move>, at: seq<nat>)
    requires Runs.IsRun(ss) && Init(ss[0]) && i <= j < |ss| && FileNumbers.StaysUp(ss, i, j)
    requires CachedRun(ss, i, j, capacity, ws, ms, at)
    ensures BlockCache.IsRun(ws, ms, capacity, Truth(ss, i, j))
  {
    hide Runs.IsRun, Init, Moved, CanMove, Truth;
    forall e | 0 <= e < |ms| ensures CanMove(ws[e], ms[e]) && ws[e + 1] == Moved(ws[e], ms[e], Truth(ss, i, j)) {
      LoadIsTrue(ss, i, j, ws[e], ms[e], at[e]);
    }
  }

  /**
   * While the store stays open, however flushes, compactions and unlinks interleave with the
   * calls, every answer for a block is what the file of that number holds there, at every
   * moment at which the file exists.
   */
  lemma CacheIsTransparent(ss: seq<State>, i: nat, j: nat, capacity: nat, ws: seq<World>, ms: seq<Move>, at: seq<nat>,
                           n: nat, id: nat, m: nat)
    requires Runs.IsRun(ss) && Init(ss[0]) && i <= j < |ss| && FileNumbers.StaysUp(ss, i, j)
    requires CachedRun(ss, i, j, capacity, ws, ms, at)
    requires n < |ws| && id in ws[n].calls && ws[n].calls[id].Answered?
    requires i <= m <= j && ws[n].calls[id].key.file in ss[m].disk.files
    ensures ws[n].calls[id].block == BlockAt(ss[m].disk.files[ws[n].calls[id].key.file], ws[n].calls[id].key.offset)
  {
    hide Runs.IsRun, Init, CachedRun, BlockCache.IsRun, BlockAt, WorldInv, Total;
    TruthRun(ss, i, j, capacity, ws, ms, at);
    AnswersAreTrue(ws, ms, capacity, Truth(ss, i, j), n);
    ContentIs(ss, i, j, ws[n].calls[id].key.file, m);
  }
}
