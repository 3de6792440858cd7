// Byte strings and the order std::string gives them: unsigned bytes,
// lexicographic, a proper prefix first.
module Keys {

  type Bytes = seq<bv8>

  /** The first position at or after i where a and b differ, or where one of them ends. */
  function Mismatch(a: Bytes, b: Bytes, i: nat): (d: nat)
    requires i <= |a| && i <= |b|
    ensures i <= d <= |a| && d <= |b|
    ensures d < |a| && d < |b| ==> a[d] != b[d]
    ensures forall j :: i <= j < d ==> a[j] == b[j]
    decreases |a| - i
  {
    if i < |a| && i < |b| && a[i] == b[i] then Mismatch(a, b, i + 1) else i
  }

  predicate Less(a: Bytes, b: Bytes) {
    var d := Mismatch(a, b, 0);
    d < |b| && (d < |a| ==> a[d] < b[d])
  }

  lemma LessByWitness(a: Bytes, b: Bytes, d: nat)
    requires d <= |a| && d < |b|
    requires forall j :: 0 <= j < d ==> a[j] == b[j]
    requires d < |a| ==> a[d] < b[d]
    ensures Less(a, b)
  {
    assert Mismatch(a, b, 0) == d;
  }

  lemma LessTransitive(a: Bytes, b: Bytes, c: Bytes)
    requires Less(a, b) && Less(b, c)
    ensures Less(a, c)
  {
    var ab := Mismatch(a, b, 0);
    var bc := Mismatch(b, c, 0);
    LessByWitness(a, c, if ab < bc then ab else bc);
  }

  lemma LessTotal(a: Bytes, b: Bytes)
    ensures Less(a, b) || a == b || Less(b, a)
  {
    var d := Mismatch(a, b, 0);
    if d < |a| && (d < |b| ==> b[d] < a[d]) {
      LessByWitness(b, a, d);
    } else if d == |a| == |b| {
      assert a == b;
    }
  }

  lemma LessAsymmetric(a: Bytes, b: Bytes)
    requires Less(a, b)
    ensures a != b && !Less(b, a)
  {
    assert Mismatch(a, b, 0) == Mismatch(b, a, 0);
  }

  lemma LessIrreflexive(a: Bytes)
    ensures !Less(a, a)
  {
    if Less(a, a) { LessAsymmetric(a, a); }
  }

  /** Less is a strict total order, in the form the layers above use it. */
  lemma KeyOrder()
    ensures forall a, b :: Less(a, b) ==> a != b && !Less(b, a)
    ensures forall a, b :: Less(a, b) || a == b || Less(b, a)
    ensures forall a, b, c :: Less(a, b) && Less(b, c) ==> Less(a, c)
  {
    forall a, b ensures (Less(a, b) ==> a != b && !Less(b, a)) && (Less(a, b) || a == b || Less(b, a)) {
      LessTotal(a, b);
      if Less(a, b) { LessAsymmetric(a, b); }
    }
    forall a, b, c | Less(a, b) && Less(b, c) ensures Less(a, c) { LessTransitive(a, b, c); }
  }

  lemma LessThenNotGreater(a: Bytes, b: Bytes, c: Bytes)
    requires Less(a, b) && !Less(c, b)
    ensures Less(a, c)
  {
    LessTotal(b, c);
    if Less(b, c) { LessTransitive(a, b, c); }
  }

  lemma NotGreaterThenLess(a: Bytes, b: Bytes, c: Bytes)
    requires !Less(b, a) && Less(b, c)
    ensures Less(a, c)
  {
    LessTotal(a, b);
    if Less(a, b) { LessTransitive(a, b, c); }
  }

  lemma EmptyIsLeast(a: Bytes)
    ensures !Less(a, [])
    ensures a != [] ==> Less([], a)
  {
    if a != [] { LessByWitness([], a, 0); }
  }
}
