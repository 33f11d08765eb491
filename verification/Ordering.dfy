/** Ordered iteration. A `BTreeMap` visits its keys in ascending order; here
    that order is the strictly ascending sequence of a key set. */
module Ordering {
  import opened Primitives

  ghost predicate TotalOrder<T(!new)>(leq: (T, T) -> bool) {
    && (forall a :: leq(a, a))
    && (forall a, b :: leq(a, b) && leq(b, a) ==> a == b)
    && (forall a, b, c :: leq(a, b) && leq(b, c) ==> leq(a, c))
    && (forall a, b :: leq(a, b) || leq(b, a))
  }

  ghost predicate StrictlyAscending<T(!new)>(s: seq<T>, leq: (T, T) -> bool) {
    forall i, j :: 0 <= i < j < |s| ==> leq(s[i], s[j]) && s[i] != s[j]
  }

  ghost predicate BelowAll<T(!new)>(x: T, s: seq<T>, leq: (T, T) -> bool) {
    forall y :: y in s ==> leq(x, y) && x != y
  }

  lemma AscendingCons<T(!new)>(x: T, s: seq<T>, leq: (T, T) -> bool)
    requires StrictlyAscending(s, leq) && BelowAll(x, s, leq)
    ensures StrictlyAscending([x] + s, leq)
  {}

  /** The trigger keeps mere membership in `s` from unfolding the order. */
  predicate IsLeast<T(!new)>(m: T, s: set<T>, leq: (T, T) -> bool) {
    m in s && forall x {:trigger leq(m, x)} :: x in s ==> leq(m, x)
  }

  lemma LeastUnique<T(!new)>(s: set<T>, leq: (T, T) -> bool)
    requires TotalOrder(leq)
    ensures forall m, n :: IsLeast(m, s, leq) && IsLeast(n, s, leq) ==> m == n
  {
    forall m, n | IsLeast(m, s, leq) && IsLeast(n, s, leq) ensures m == n {
      assert leq(m, n) && leq(n, m);
    }
  }

  lemma {:induction false} LeastExists<T(!new)>(s: set<T>, leq: (T, T) -> bool)
    requires TotalOrder(leq) && s != {}
    ensures exists m :: IsLeast(m, s, leq)
    decreases |s|
  {
    var x :| x in s;
    if s == {x} {
      assert IsLeast(x, s, leq);
    } else {
      assert |s - {x}| == |s| - 1;
      LeastExists(s - {x}, leq);
      var m :| IsLeast(m, s - {x}, leq);
      assert IsLeast(if leq(m, x) then m else x, s, leq);
    }
  }

  /** The keys of a set in iteration order. */
  function Ascending<T(!new)>(s: set<T>, leq: (T, T) -> bool): seq<T>
    requires TotalOrder(leq)
  {
    if s == {} then []
    else
      LeastExists(s, leq);
      LeastUnique(s, leq);
      var m :| m in s && IsLeast(m, s, leq);
      [m] + Ascending(s - {m}, leq)
  }

  lemma {:induction false} AscendingFacts<T(!new)>(s: set<T>, leq: (T, T) -> bool)
    requires TotalOrder(leq)
    ensures StrictlyAscending(Ascending(s, leq), leq)
    ensures forall x :: x in Ascending(s, leq) <==> x in s
    ensures |Ascending(s, leq)| == |s|
  {
    if s != {} {
      LeastExists(s, leq);
      var m :| IsLeast(m, s, leq) && Ascending(s, leq) == [m] + Ascending(s - {m}, leq);
      AscendingFacts(s - {m}, leq);
      assert BelowAll(m, Ascending(s - {m}, leq), leq);
      AscendingCons(m, Ascending(s - {m}, leq), leq);
    }
  }

  /** A strictly ascending sequence is determined by its elements. */
  lemma {:induction false} AscendingUnique<T(!new)>(a: seq<T>, b: seq<T>, leq: (T, T) -> bool)
    requires TotalOrder(leq)
    requires StrictlyAscending(a, leq) && StrictlyAscending(b, leq)
    requires forall x :: x in a <==> x in b
    ensures a == b
  {
    assert b != [] ==> b[0] in b;
    if a != [] {
      assert a[0] in a && a[0] in b;
      assert b[0] in b && b[0] in a;
      assert leq(a[0], b[0]) && leq(b[0], a[0]);
      forall x ensures x in a[1..] <==> x in b[1..] {
        assert x in a[1..] <==> x in a && x != a[0];
        assert x in b[1..] <==> x in b && x != b[0];
      }
      AscendingUnique(a[1..], b[1..], leq);
      assert a == [a[0]] + a[1..] && b == [b[0]] + b[1..];
    }
  }

  // ---------------------------------------------------------------- bytes --

  predicate LexLeq(a: Bytes, b: Bytes) {
    a == [] || (b != [] && (a[0] < b[0] || (a[0] == b[0] && LexLeq(a[1..], b[1..]))))
  }

  predicate AddressLeq(a: Address, b: Address) {
    LexLeq(a.bytes, b.bytes)
  }

  lemma {:induction false} LexReflexive(a: Bytes)
    ensures LexLeq(a, a)
  {
    if a != [] { LexReflexive(a[1..]); }
  }

  lemma {:induction false} LexAntisymmetric(a: Bytes, b: Bytes)
    requires LexLeq(a, b) && LexLeq(b, a)
    ensures a == b
  {
    if a != [] {
      LexAntisymmetric(a[1..], b[1..]);
      assert a == [a[0]] + a[1..] && b == [b[0]] + b[1..];
    }
  }

  lemma {:induction false} LexTransitive(a: Bytes, b: Bytes, c: Bytes)
    requires LexLeq(a, b) && LexLeq(b, c)
    ensures LexLeq(a, c)
  {
    if a != [] && a[0] == b[0] == c[0] {
      LexTransitive(a[1..], b[1..], c[1..]);
    }
  }

  lemma {:induction false} LexTotal(a: Bytes, b: Bytes)
    ensures LexLeq(a, b) || LexLeq(b, a)
  {
    if a != [] && b != [] && a[0] == b[0] { LexTotal(a[1..], b[1..]); }
  }

  /** Where the two first differ, position `k`, the larger byte wins. */
  ghost predicate DifferFirstAt(a: Bytes, b: Bytes, k: nat) {
    k < |a| && k < |b| && a[..k] == b[..k] && a[k] != b[k]
  }

  /** Strings of one length are ordered by the first byte in which they differ. */
  lemma {:induction false} LexByFirstDifference(a: Bytes, b: Bytes, k: nat)
    requires DifferFirstAt(a, b, k)
    ensures LexLeq(a, b) <==> a[k] < b[k]
    decreases k
  {
    if k > 0 {
      assert a[0] == a[..k][0] == b[..k][0] == b[0];
      assert a[1..][..k - 1] == a[..k][1..] && b[1..][..k - 1] == b[..k][1..];
      LexByFirstDifference(a[1..], b[1..], k - 1);
    }
  }

  lemma {:induction false} FirstDifference(a: Bytes, b: Bytes) returns (k: nat)
    requires |a| == |b| && a != b
    ensures DifferFirstAt(a, b, k)
  {
    if a[0] != b[0] {
      k := 0;
    } else {
      assert a == [a[0]] + a[1..] && b == [b[0]] + b[1..];
      var n := FirstDifference(a[1..], b[1..]);
      k := n + 1;
      assert a[..k] == [a[0]] + a[1..][..n] && b[..k] == [b[0]] + b[1..][..n];
    }
  }

  lemma BytesOrder()
    ensures TotalOrder(LexLeq)
  {
    forall a ensures LexLeq(a, a) { LexReflexive(a); }
    forall a, b | LexLeq(a, b) && LexLeq(b, a) ensures a == b { LexAntisymmetric(a, b); }
    forall a, b, c | LexLeq(a, b) && LexLeq(b, c) ensures LexLeq(a, c) { LexTransitive(a, b, c); }
    forall a, b ensures LexLeq(a, b) || LexLeq(b, a) { LexTotal(a, b); }
  }

  lemma AddressOrder()
    ensures TotalOrder(AddressLeq)
  {
    BytesOrder();
  }

  predicate NatLeq(a: nat, b: nat) {
    a <= b
  }

  lemma NatOrder()
    ensures TotalOrder(NatLeq)
  {}

  function SortedAddresses(s: set<Address>): seq<Address> {
    AddressOrder();
    Ascending(s, AddressLeq)
  }

  lemma SortedAddressesFacts(s: set<Address>)
    ensures StrictlyAscending(SortedAddresses(s), AddressLeq)
    ensures forall x :: x in SortedAddresses(s) <==> x in s
    ensures |SortedAddresses(s)| == |s|
  {
    AddressOrder();
    AscendingFacts(s, AddressLeq);
  }

  function SortedHeights(s: set<nat>): seq<nat> {
    NatOrder();
    Ascending(s, NatLeq)
  }

  lemma SortedHeightsFacts(s: set<nat>)
    ensures forall i, j :: 0 <= i < j < |SortedHeights(s)| ==> SortedHeights(s)[i] < SortedHeights(s)[j]
    ensures forall x :: x in SortedHeights(s) <==> x in s
  {
    NatOrder();
    AscendingFacts(s, NatLeq);
    var r := SortedHeights(s);
    assert forall i, j :: 0 <= i < j < |r| ==> NatLeq(r[i], r[j]) && r[i] != r[j];
  }

  function SortedKeys(s: set<Bytes>): seq<Bytes> {
    BytesOrder();
    Ascending(s, LexLeq)
  }

  lemma SortedKeysFacts(s: set<Bytes>)
    ensures StrictlyAscending(SortedKeys(s), LexLeq)
    ensures forall x :: x in SortedKeys(s) <==> x in s
  {
    BytesOrder();
    AscendingFacts(s, LexLeq);
  }
}
