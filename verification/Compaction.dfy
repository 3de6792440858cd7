// What replacing a picked set of files by the garbage-collected merge of their
// contents does to the layers and to every read.
module Compaction {
  import opened Keys
  import opened Entries
  import opened Versions
  import opened Gc

  /** r lies entirely on one side of every picked file. */
  ghost predicate OneSide(r: FileMeta, I: set<FileMeta>) {
    (forall g :: g in I ==> LeftOf(r, g)) || (forall g :: g in I ==> LeftOf(g, r))
  }

  /**
   * What makes a set I of inputs safe to merge into level out. A file left behind
   * on the output level does not reach into the span of the inputs; one on a shallower
   * level is searched before each input it shares keys with; one on a deeper level is
   * searched after every input, and there is none when the job claims to be bottommost.
   */
  ghost predicate JobOk(F: set<FileMeta>, I: set<FileMeta>, out: nat, bottom: bool) {
    && I <= F
    && 1 <= out < MAX_LEVELS
    && (forall r :: r in F - I && r.level == out ==> OneSide(r, I))
    && (forall r, g :: r in F - I && g in I && r.level < out ==> Above(r, g) || LeftOf(r, g) || LeftOf(g, r))
    && (forall r, g :: r in F - I && g in I && r.level > out ==> !bottom && g.level <= out)
  }

  /** The output files O hold exactly the surviving versions of I, on level out. */
  ghost predicate OutputsOf(O: set<FileMeta>, I: set<FileMeta>, out: nat, bottom: bool, oldest: nat) {
    && (forall o :: o in O ==> FileOk(o) && o.level == out)
    && (forall o, p :: o in O && p in O && o.number == p.number ==> o == p)
    && (forall o, p :: o in O && p in O && o != p ==> LeftOf(o, p) || LeftOf(p, o))
    && (forall e :: e in StoredIn(O) <==> Survives(StoredIn(I), oldest, bottom, e))
  }

  ghost predicate FreshNumbers(O: set<FileMeta>, F: set<FileMeta>) {
    forall o, f :: o in O && f in F ==> o.number != f.number
  }

  ghost function Replace(F: set<FileMeta>, I: set<FileMeta>, O: set<FileMeta>): set<FileMeta> {
    F - I + O
  }

  lemma OutputFromInput(O: set<FileMeta>, I: set<FileMeta>, out: nat, bottom: bool, oldest: nat, o: FileMeta,
                        e: Entry) returns (g: FileMeta)
    requires OutputsOf(O, I, out, bottom, oldest) && o in O && e in o.table
    ensures g in I && e in g.table
    ensures Survives(StoredIn(I), oldest, bottom, e)
  {
    assert e in StoredIn(O);
    g :| g in I && e in g.table;
  }

  lemma SharedKeyNotDisjoint(f: FileMeta, g: FileMeta, x: Entry, y: Entry)
    requires FileOk(f) && FileOk(g) && x in f.table && y in g.table && x.key == y.key
    ensures !LeftOf(f, g) && !LeftOf(g, f)
  {
    KeyInRange(f, x);
    KeyInRange(g, y);
    KeyOrder();
  }

  /** All surviving versions of a key end up in the same output file. */
  lemma OutputHoldsKey(O: set<FileMeta>, I: set<FileMeta>, out: nat, bottom: bool, oldest: nat, o: FileMeta, x: Entry,
                       y: Entry)
    requires OutputsOf(O, I, out, bottom, oldest) && o in O && x in o.table
    requires Survives(StoredIn(I), oldest, bottom, y) && x.key == y.key
    ensures y in o.table
  {
    assert y in StoredIn(O);
    var p :| p in O && y in p.table;
    if o != p { SharedKeyNotDisjoint(o, p, x, y); }
  }

  /** What is newer than a survivor survives as well. */
  lemma SurvivorsUpwardClosed(S: set<Entry>, oldest: nat, bottom: bool, x: Entry, y: Entry)
    requires Functional(S) && Survives(S, oldest, bottom, x) && y in S && x.key == y.key && x.seqno <= y.seqno
    ensures Survives(S, oldest, bottom, y)
  {
  }

  /** A file left behind above the output level is still over the outputs. */
  lemma LeftBehindOverOutput(F: set<FileMeta>, I: set<FileMeta>, O: set<FileMeta>, out: nat, bottom: bool,
                             oldest: nat, r: FileMeta, o: FileMeta)
    requires FilesOk(F) && JobOk(F, I, out, bottom) && OutputsOf(O, I, out, bottom, oldest)
    requires r in F - I && o in O && Above(r, o)
    ensures Over(r.table, o.table)
  {
    forall x, y | x in r.table && y in o.table && x.key == y.key && x.seqno <= y.seqno ensures y in r.table {
      var g := OutputFromInput(O, I, out, bottom, oldest, o, y);
      SharedKeyNotDisjoint(r, g, x, y);
      assert Above(r, g);
      assert Over(r.table, g.table);
    }
  }

  /** The outputs are over every deeper file. */
  lemma OutputOverLeftBehind(F: set<FileMeta>, I: set<FileMeta>, O: set<FileMeta>, out: nat, bottom: bool,
                             oldest: nat, r: FileMeta, o: FileMeta)
    requires FilesOk(F) && JobOk(F, I, out, bottom) && OutputsOf(O, I, out, bottom, oldest) && Functional(StoredIn(I))
    requires r in F - I && o in O && Above(o, r)
    ensures Over(o.table, r.table)
  {
    assert forall g :: g in I ==> Above(g, r);
    forall x, y | x in o.table && y in r.table && x.key == y.key && x.seqno <= y.seqno ensures y in o.table {
      var g := OutputFromInput(O, I, out, bottom, oldest, o, x);
      assert Over(g.table, r.table);
      NewerStaysInOutput(I, O, out, bottom, oldest, o, g, x, y);
    }
  }

  lemma NewerStaysInOutput(I: set<FileMeta>, O: set<FileMeta>, out: nat, bottom: bool, oldest: nat, o: FileMeta,
                           g: FileMeta, x: Entry, y: Entry)
    requires OutputsOf(O, I, out, bottom, oldest) && Functional(StoredIn(I))
    requires o in O && x in o.table && g in I && y in g.table && x.key == y.key && x.seqno <= y.seqno
    ensures y in o.table
  {
    var _ := OutputFromInput(O, I, out, bottom, oldest, o, x);
    SurvivorsUpwardClosed(StoredIn(I), oldest, bottom, x, y);
    OutputHoldsKey(O, I, out, bottom, oldest, o, x, y);
  }

  lemma InputCovers(I: set<FileMeta>, e: Entry) returns (g: FileMeta)
    requires (forall f :: f in I ==> FileOk(f)) && e in StoredIn(I)
    ensures g in I && !Less(e.key, g.smallest) && !Less(g.largest, e.key)
  {
    g :| g in I && e in g.table;
    KeyInRange(g, e);
  }

  /** An output file starts inside one input's range and ends inside one input's range. */
  lemma OutputSpan(I: set<FileMeta>, o: FileMeta) returns (g: FileMeta, h: FileMeta)
    requires forall f :: f in I ==> FileOk(f)
    requires FileOk(o) && forall e :: e in o.table ==> e in StoredIn(I)
    ensures g in I && h in I && !Less(o.smallest, g.smallest) && !Less(h.largest, o.largest)
  {
    g := InputCovers(I, o.table[0]);
    h := InputCovers(I, o.table[|o.table| - 1]);
  }

  lemma OneSideKeepsApart(I: set<FileMeta>, r: FileMeta, o: FileMeta, g: FileMeta, h: FileMeta)
    requires OneSide(r, I)
    requires g in I && h in I && !Less(o.smallest, g.smallest) && !Less(h.largest, o.largest)
    ensures LeftOf(r, o) || LeftOf(o, r)
  {
    if LeftOf(r, g) {
      LessThenNotGreater(r.largest, g.smallest, o.smallest);
    } else {
      NotGreaterThenLess(o.largest, h.largest, r.smallest);
    }
  }

  lemma MemOverOutput(mem: seq<Entry>, F: set<FileMeta>, I: set<FileMeta>, O: set<FileMeta>, out: nat, bottom: bool,
                      oldest: nat, o: FileMeta)
    requires LayersOk(mem, F) && I <= F && OutputsOf(O, I, out, bottom, oldest) && o in O
    ensures Over(mem, o.table)
  {
    forall x, y | x in mem && y in o.table && x.key == y.key && x.seqno <= y.seqno ensures y in mem {
      var g := OutputFromInput(O, I, out, bottom, oldest, o, y);
      assert Over(mem, g.table);
    }
  }

  lemma StoredShrinks(F: set<FileMeta>, I: set<FileMeta>, O: set<FileMeta>, out: nat, bottom: bool, oldest: nat)
    requires I <= F && OutputsOf(O, I, out, bottom, oldest)
    ensures StoredIn(Replace(F, I, O)) <= StoredIn(F)
    ensures StoredIn(I) <= StoredIn(F)
  {
    forall e | e in StoredIn(Replace(F, I, O)) ensures e in StoredIn(F) {
      var f :| f in Replace(F, I, O) && e in f.table;
      if f in O { var _ := OutputFromInput(O, I, out, bottom, oldest, f, e); }
    }
  }

  lemma OutputApart(I: set<FileMeta>, O: set<FileMeta>, out: nat, bottom: bool, oldest: nat, r: FileMeta, o: FileMeta)
    requires forall f :: f in I ==> FileOk(f)
    requires OutputsOf(O, I, out, bottom, oldest) && o in O && OneSide(r, I)
    ensures LeftOf(r, o) || LeftOf(o, r)
  {
    forall e | e in o.table ensures e in StoredIn(I) { assert e in StoredIn(O); }
    var g, h := OutputSpan(I, o);
    OneSideKeepsApart(I, r, o, g, h);
  }

  /** Levels below L0 keep pairwise disjoint ranges. */
  lemma CommitKeepsDisjoint(F: set<FileMeta>, I: set<FileMeta>, O: set<FileMeta>, out: nat, bottom: bool, oldest: nat,
                            f: FileMeta, g: FileMeta)
    requires FilesOk(F) && JobOk(F, I, out, bottom) && OutputsOf(O, I, out, bottom, oldest)
    requires f in Replace(F, I, O) && g in Replace(F, I, O) && f.level == g.level && f.level >= 1 && f != g
    ensures LeftOf(f, g) || LeftOf(g, f)
  {
    if f in O && g !in O {
      OutputApart(I, O, out, bottom, oldest, g, f);
    } else if f !in O && g in O {
      OutputApart(I, O, out, bottom, oldest, f, g);
    }
  }

  /** Every file stays over the files searched after it. */
  lemma CommitKeepsRecency(F: set<FileMeta>, I: set<FileMeta>, O: set<FileMeta>, out: nat, bottom: bool, oldest: nat,
                           f: FileMeta, g: FileMeta)
    requires FilesOk(F) && JobOk(F, I, out, bottom) && OutputsOf(O, I, out, bottom, oldest) && Functional(StoredIn(I))
    requires f in Replace(F, I, O) && g in Replace(F, I, O) && Above(f, g)
    ensures Over(f.table, g.table)
  {
    if f in O && g !in O {
      OutputOverLeftBehind(F, I, O, out, bottom, oldest, g, f);
    } else if f !in O && g in O {
      LeftBehindOverOutput(F, I, O, out, bottom, oldest, f, g);
    }
  }

  /**
   * The level and recency invariants survive a commit: sorted disjoint levels, and every
   * layer over the layers below it.
   */
  lemma CommitKeepsLayers(mem: seq<Entry>, F: set<FileMeta>, I: set<FileMeta>, O: set<FileMeta>, out: nat,
                          bottom: bool, oldest: nat)
    requires LayersOk(mem, F) && JobOk(F, I, out, bottom)
    requires OutputsOf(O, I, out, bottom, oldest) && FreshNumbers(O, F)
    ensures LayersOk(mem, Replace(F, I, O))
  {
    var F' := Replace(F, I, O);
    StoredShrinks(F, I, O, out, bottom, oldest);
    assert Functional(StoredIn(I));
    forall f, g | f in F' && g in F' && Above(f, g) ensures Over(f.table, g.table) {
      CommitKeepsRecency(F, I, O, out, bottom, oldest, f, g);
    }
    forall f, g | f in F' && g in F' && f.level == g.level && f.level >= 1 && f != g
      ensures LeftOf(f, g) || LeftOf(g, f)
    {
      CommitKeepsDisjoint(F, I, O, out, bottom, oldest, f, g);
    }
    forall f | f in F' ensures Over(mem, f.table) {
      if f in O { MemOverOutput(mem, F, I, O, out, bottom, oldest, f); }
    }
  }

  // ------------------------------------------------------------------ reads

  /** A read bound the collection may not disturb: not below oldest, or above all inputs. */
  ghost predicate Protected(I: set<FileMeta>, oldest: nat, s: nat) {
    s >= oldest || forall e :: e in StoredIn(I) ==> e.seqno <= s
  }

  /** A visible version that is dropped while being the newest is a bottommost tombstone. */
  lemma DroppedNewestIsTombstone(S: set<Entry>, I: set<FileMeta>, oldest: nat, bottom: bool, k: Bytes, s: nat, n: Entry)
    requires StoredIn(I) <= S && IsNewest(S, k, s, Some(n)) && Functional(S) && Protected(I, oldest, s)
    requires n in StoredIn(I) && !Survives(StoredIn(I), oldest, bottom, n)
    ensures n.tombstone && bottom && IsNewest(StoredIn(I), k, oldest, Some(n))
  {
    forall e | e in StoredIn(I) && Visible(e, k, oldest) ensures e.seqno <= n.seqno {
      assert e in S && Visible(e, k, s);
    }
  }

  /**
   * If the newest visible version is a dropped tombstone, no older version of the key
   * becomes visible: whatever is left is a copy of the tombstone held by a shallower layer.
   */
  lemma NoResurrection(mem: seq<Entry>, F: set<FileMeta>, I: set<FileMeta>, O: set<FileMeta>, out: nat, bottom: bool,
                       oldest: nat, k: Bytes, s: nat, n: Entry, e: Entry)
    requires LayersOk(mem, F) && JobOk(F, I, out, bottom) && OutputsOf(O, I, out, bottom, oldest)
    requires IsNewest(Stored(mem, F), k, s, Some(n)) && bottom
    requires IsNewest(StoredIn(I), k, oldest, Some(n)) && n.tombstone
    requires e in Stored(mem, Replace(F, I, O)) && Visible(e, k, s)
    ensures n in Stored(mem, Replace(F, I, O))
  {
    StoredShrinks(F, I, O, out, bottom, oldest);
    assert e in Stored(mem, F) && e.seqno <= n.seqno;
    var g :| g in I && n in g.table;
    if e in mem {
      assert Over(mem, g.table);
    } else {
      var f :| f in Replace(F, I, O) && e in f.table;
      if f in O {
        OutputsHideTombstoned(I, O, out, bottom, oldest, k, n, f, e);
      } else {
        ShallowerHoldsTombstone(F, I, out, f, g, e, n);
        assert n in StoredIn(Replace(F, I, O));
      }
    }
  }

  lemma OutputsHideTombstoned(I: set<FileMeta>, O: set<FileMeta>, out: nat, bottom: bool, oldest: nat, k: Bytes,
                              n: Entry, f: FileMeta, e: Entry)
    requires OutputsOf(O, I, out, bottom, oldest) && Functional(StoredIn(I))
    requires IsNewest(StoredIn(I), k, oldest, Some(n)) && n.tombstone && bottom
    requires f in O && e in f.table && e.key == k
    ensures e.seqno > n.seqno
  {
    var _ := OutputFromInput(O, I, out, bottom, oldest, f, e);
  }

  lemma ShallowerHoldsTombstone(F: set<FileMeta>, I: set<FileMeta>, out: nat, f: FileMeta, g: FileMeta, e: Entry,
                                n: Entry)
    requires FilesOk(F) && JobOk(F, I, out, true)
    requires f in F - I && g in I && e in f.table && n in g.table && e.key == n.key && e.seqno <= n.seqno
    ensures n in f.table
  {
    SharedKeyNotDisjoint(f, g, e, n);
    assert Above(f, g);
  }

  /** Compaction preserves meaning: every protected read gives the answer it gave before. */
  lemma CommitPreservesReads(mem: seq<Entry>, F: set<FileMeta>, I: set<FileMeta>, O: set<FileMeta>, out: nat,
                             bottom: bool, oldest: nat, k: Bytes, s: nat)
    requires LayersOk(mem, F) && JobOk(F, I, out, bottom)
    requires OutputsOf(O, I, out, bottom, oldest) && Protected(I, oldest, s)
    ensures Read(Stored(mem, Replace(F, I, O)), k, s) == Read(Stored(mem, F), k, s)
  {
    var S, S' := Stored(mem, F), Stored(mem, Replace(F, I, O));
    StoredShrinks(F, I, O, out, bottom, oldest);
    var r := Newest(S, k, s);
    if r.None? {
      NewestUnique(S', k, s, None);
    } else if r.value in S' {
      NewestUnique(S', k, s, r);
    } else {
      var n := r.value;
      LostIsDropped(mem, F, I, O, out, bottom, oldest, n);
      DroppedNewestIsTombstone(S, I, oldest, bottom, k, s, n);
      forall e | e in S' ensures !Visible(e, k, s) {
        if Visible(e, k, s) { NoResurrection(mem, F, I, O, out, bottom, oldest, k, s, n, e); }
      }
      NewestUnique(S', k, s, None);
    }
  }

  lemma LostIsDropped(mem: seq<Entry>, F: set<FileMeta>, I: set<FileMeta>, O: set<FileMeta>, out: nat, bottom: bool,
                      oldest: nat, n: Entry)
    requires I <= F && OutputsOf(O, I, out, bottom, oldest)
    requires n in Stored(mem, F) && n !in Stored(mem, Replace(F, I, O))
    ensures n in StoredIn(I) && !Survives(StoredIn(I), oldest, bottom, n)
  {
    var f :| f in F && n in f.table;
    assert f !in I ==> f in Replace(F, I, O);
    assert StoredIn(O) <= StoredIn(Replace(F, I, O));
  }
}
