// Versioned entries, their (key ascending, sequence number descending) order,
// and what a read means over an unordered collection of versions.
module Entries {
  import opened Keys

  datatype Option<+T> = None | Some(value: T)

  /** UINT64_MAX: the snapshot bound of an ordinary read. */
  const MAX_SEQ: nat := 0xFFFF_FFFF_FFFF_FFFF

  datatype Entry = Entry(key: Bytes, value: Bytes, tombstone: bool, seqno: nat)

  /** key_less and the heap order: smaller key first, then the newer version. */
  predicate Before(a: Entry, b: Entry) {
    Less(a.key, b.key) || (a.key == b.key && a.seqno > b.seqno)
  }

  predicate Sorted(t: seq<Entry>) {
    forall i, j :: 0 <= i < j < |t| ==> !Before(t[j], t[i])
  }

  ghost function Elements(t: seq<Entry>): set<Entry> {
    set e | e in t
  }

  lemma BeforeAsymmetric(a: Entry, b: Entry)
    requires Before(a, b)
    ensures !Before(b, a)
  {
    KeyOrder();
  }

  lemma NotBeforeTransitive(a: Entry, b: Entry, c: Entry)
    requires !Before(b, a) && !Before(c, b)
    ensures !Before(c, a)
  {
    KeyOrder();
  }

  lemma TailSorted(t: seq<Entry>, n: nat)
    requires Sorted(t) && n <= |t|
    ensures Sorted(t[n..]) && Sorted(t[..n])
  {
  }

  /** What an entry takes on disk: a 17-byte header, the key and the value. */
  function EntryBytes(e: Entry): nat {
    17 + |e.key| + |e.value|
  }

  // ---------------------------------------------------------------- reads

  predicate Visible(e: Entry, k: Bytes, s: nat) {
    e.key == k && e.seqno <= s
  }

  /** r is the newest version of k in S that a read at s can see, None if there is none. */
  ghost predicate IsNewest(S: set<Entry>, k: Bytes, s: nat, r: Option<Entry>) {
    match r
    case None => forall e :: e in S ==> !Visible(e, k, s)
    case Some(n) => n in S && Visible(n, k, s) && forall e :: e in S && Visible(e, k, s) ==> e.seqno <= n.seqno
  }

  /** A sequence number names one version. */
  ghost predicate Functional(S: set<Entry>) {
    forall e, f :: e in S && f in S && e.seqno == f.seqno ==> e == f
  }

  lemma {:induction false} NewestExists(S: set<Entry>, k: Bytes, s: nat)
    ensures exists r :: IsNewest(S, k, s, r)
  {
    if forall e :: e in S ==> !Visible(e, k, s) {
      assert IsNewest(S, k, s, None);
    } else {
      var n :| n in S && Visible(n, k, s);
      NewestExists(S - {n}, k, s);
      var r :| IsNewest(S - {n}, k, s, r);
      if r.None? || r.value.seqno <= n.seqno {
        assert IsNewest(S, k, s, Some(n));
      } else {
        assert IsNewest(S, k, s, r);
      }
    }
  }

  ghost function Newest(S: set<Entry>, k: Bytes, s: nat): (r: Option<Entry>)
    ensures IsNewest(S, k, s, r)
  {
    NewestExists(S, k, s);
    var r :| IsNewest(S, k, s, r);
    r
  }

  lemma NewestUnique(S: set<Entry>, k: Bytes, s: nat, r: Option<Entry>)
    requires Functional(S) && IsNewest(S, k, s, r)
    ensures Newest(S, k, s) == r
  {
  }

  /** What a reader is told: a tombstone and no version at all look the same. */
  function Answer(r: Option<Entry>): Option<Bytes> {
    if r.Some? && !r.value.tombstone then Some(r.value.value) else None
  }

  /** The meaning of get(k) at snapshot s over the versions S. */
  ghost function Read(S: set<Entry>, k: Bytes, s: nat): Option<Bytes> {
    Answer(Newest(S, k, s))
  }

  // ------------------------------------------------- one sorted table

  /** Linear scan for the first version of k a read at s can see. */
  function Lookup(t: seq<Entry>, k: Bytes, s: nat): Option<Entry> {
    if t == [] then None
    else if Visible(t[0], k, s) then Some(t[0])
    else Lookup(t[1..], k, s)
  }

  /** How a memtable or a table reports what it found. */
  datatype Status = NotFound | Found(value: Bytes) | Deleted

  function StatusOf(r: Option<Entry>): Status {
    match r
    case None => NotFound
    case Some(e) => if e.tombstone then Deleted else Found(e.value)
  }

  lemma {:induction false} LookupConcat(a: seq<Entry>, b: seq<Entry>, k: Bytes, s: nat)
    ensures Lookup(a + b, k, s) == if Lookup(a, k, s).Some? then Lookup(a, k, s) else Lookup(b, k, s)
    decreases |a|
  {
    if a == [] {
      assert a + b == b;
    } else {
      assert (a + b)[1..] == a[1..] + b;
      LookupConcat(a[1..], b, k, s);
    }
  }

  lemma {:induction false} LookupNothing(t: seq<Entry>, k: Bytes, s: nat)
    requires forall e :: e in t ==> !Visible(e, k, s)
    ensures Lookup(t, k, s) == None
    decreases |t|
  {
    if t != [] {
      assert t[0] in t;
      LookupNothing(t[1..], k, s);
    }
  }

  lemma LookupMiss(t: seq<Entry>, k: Bytes, s: nat)
    requires forall e :: e in t ==> e.key != k
    ensures Lookup(t, k, s) == None
  {
    hide Lookup;
    LookupNothing(t, k, s);
  }

  lemma {:induction false} LookupFound(t: seq<Entry>, k: Bytes, s: nat)
    ensures Lookup(t, k, s).Some? ==> Lookup(t, k, s).value in t && Visible(Lookup(t, k, s).value, k, s)
    decreases |t|
  {
    if t != [] { LookupFound(t[1..], k, s); }
  }

  lemma {:induction false} LookupIsNewest(t: seq<Entry>, k: Bytes, s: nat)
    requires Sorted(t)
    ensures IsNewest(Elements(t), k, s, Lookup(t, k, s))
  {
    if t != [] {
      LookupIsNewest(t[1..], k, s);
      if Visible(t[0], k, s) {
        forall e | e in t && Visible(e, k, s) ensures e.seqno <= t[0].seqno {
          var j :| 0 <= j < |t| && t[j] == e;
          assert j > 0 ==> !Before(t[j], t[0]);
        }
      }
    }
  }

  // ------------------------------------------------- layered tables

  /**
   * The recency relation between a shallower table a and a deeper one b: a holds
   * every version in b that is at least as new as some version of that key in a.
   */
  ghost predicate Over(a: seq<Entry>, b: seq<Entry>) {
    forall x, y :: x in a && y in b && x.key == y.key && x.seqno <= y.seqno ==> y in a
  }

  ghost predicate Layered(ts: seq<seq<Entry>>) {
    && (forall i :: 0 <= i < |ts| ==> Sorted(ts[i]))
    && (forall i, j :: 0 <= i < j < |ts| ==> Over(ts[i], ts[j]))
  }

  ghost function Union(ts: seq<seq<Entry>>): set<Entry> {
    set i, e | 0 <= i < |ts| && e in ts[i] :: e
  }

  /** Search the tables in order and stop at the first hit. */
  function FirstHit(ts: seq<seq<Entry>>, k: Bytes, s: nat): Option<Entry> {
    if ts == [] then None
    else
      var r := Lookup(ts[0], k, s);
      if r.Some? then r else FirstHit(ts[1..], k, s)
  }

  /** Stopping at the first hit is right whenever the tables are layered. */
  lemma {:induction false} FirstHitIsNewest(ts: seq<seq<Entry>>, k: Bytes, s: nat)
    requires Layered(ts)
    ensures IsNewest(Union(ts), k, s, FirstHit(ts, k, s))
  {
    if ts != [] {
      LookupIsNewest(ts[0], k, s);
      var r := Lookup(ts[0], k, s);
      forall e | e in Union(ts) ensures e in ts[0] || e in Union(ts[1..]) {
        var i :| 0 <= i < |ts| && e in ts[i];
        assert i > 0 ==> e in ts[1..][i - 1];
      }
      if r.Some? {
        forall e | e in Union(ts) && Visible(e, k, s) ensures e.seqno <= r.value.seqno {
          var i :| 0 <= i < |ts| && e in ts[i];
          assert i > 0 ==> Over(ts[0], ts[i]);
          assert r.value.seqno <= e.seqno ==> e in Elements(ts[0]);
        }
        assert r.value in Union(ts);
      } else {
        FirstHitIsNewest(ts[1..], k, s);
        forall e | e in Union(ts[1..]) ensures e in Union(ts) {
          var i :| 0 <= i < |ts[1..]| && e in ts[1..][i];
          assert e in ts[i + 1];
        }
        forall e | e in ts[0] ensures !Visible(e, k, s) { assert e in Elements(ts[0]); }
      }
    }
  }

  // ------------------------------------------------- writing

  /** Memtable insertion: before the first entry that is not ahead of e. */
  function Insert(t: seq<Entry>, e: Entry): (r: seq<Entry>)
    ensures r != []
    ensures forall x :: x in r <==> x == e || x in t
  {
    if t != [] && Before(t[0], e) then [t[0]] + Insert(t[1..], e) else [e] + t
  }

  function InsertAll(t: seq<Entry>, es: seq<Entry>): (r: seq<Entry>)
    ensures forall x :: x in r <==> x in t || x in es
    decreases |es|
  {
    if es == [] then t else Insert(InsertAll(t, es[..|es| - 1]), es[|es| - 1])
  }

  lemma {:induction false} InsertSorted(t: seq<Entry>, e: Entry)
    requires Sorted(t)
    ensures Sorted(Insert(t, e))
  {
    hide Before;
    if t != [] && Before(t[0], e) {
      BeforeAsymmetric(t[0], e);
      InsertSorted(t[1..], e);
      var r := Insert(t[1..], e);
      forall j | 0 <= j < |r| ensures !Before(r[j], t[0]) {
        assert r[j] in r;
        if r[j] != e {
          var i :| 0 <= i < |t[1..]| && t[1..][i] == r[j];
          assert t[i + 1] == r[j];
        }
      }
    } else {
      forall j | 0 <= j < |t| ensures !Before(t[j], e) {
        if j > 0 { NotBeforeTransitive(e, t[0], t[j]); }
      }
    }
  }

  lemma {:induction false} InsertAllSorted(t: seq<Entry>, es: seq<Entry>)
    requires Sorted(t)
    ensures Sorted(InsertAll(t, es))
    decreases |es|
  {
    if es != [] {
      InsertAllSorted(t, es[..|es| - 1]);
      InsertSorted(InsertAll(t, es[..|es| - 1]), es[|es| - 1]);
    }
  }

  /** A version newer than everything stored is what its key reads as from then on ... */
  lemma ReadAfterWrite(S: set<Entry>, e: Entry, k: Bytes, s: nat)
    requires Functional(S) && (forall f :: f in S ==> f.seqno < e.seqno) && e.seqno <= s
    ensures Functional(S + {e})
    ensures Read(S + {e}, k, s) == if e.key == k then Answer(Some(e)) else Read(S, k, s)
  {
    if e.key == k {
      NewestUnique(S + {e}, k, s, Some(e));
    } else {
      NewestUnique(S + {e}, k, s, Newest(S, k, s));
    }
  }

  /** ... and an older snapshot does not see it. */
  lemma ReadBelowWrite(S: set<Entry>, e: Entry, k: Bytes, s: nat)
    requires Functional(S) && (forall f :: f in S ==> f.seqno < e.seqno) && e.seqno > s
    ensures Functional(S + {e})
    ensures Read(S + {e}, k, s) == Read(S, k, s)
  {
    NewestUnique(S + {e}, k, s, Newest(S, k, s));
  }
}
