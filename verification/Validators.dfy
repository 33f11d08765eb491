/** The weighted validator set: round-robin proposer, quorum threshold and
    quorum intersection. */
module Validators {
  import opened Primitives
  import opened Ordering
  import opened Sums

  type ValidatorSet = map<Address, U64>

  /** Voting power of the listed addresses; unknown addresses count for nothing. */
  function Tally(vs: ValidatorSet, addrs: seq<Address>): nat {
    if addrs == [] then 0
    else (if addrs[0] in vs then vs[addrs[0]] else 0) + Tally(vs, addrs[1..])
  }

  function TotalPower(vs: ValidatorSet): nat {
    Tally(vs, SortedAddresses(vs.Keys))
  }

  function QuorumThreshold(vs: ValidatorSet): nat {
    TotalPower(vs) * 2 / 3 + 1
  }

  predicate IsQuorum(vs: ValidatorSet, voters: set<Address>) {
    QuorumThreshold(vs) <= Tally(vs, SortedAddresses(voters))
  }

  /** Round-robin over the sorted addresses. */
  function Proposer(vs: ValidatorSet, height: nat, round: nat): Option<Address> {
    if vs == map[] then None
    else
      SortedAddressesFacts(vs.Keys);
      Some(SortedAddresses(vs.Keys)[(height + round) % |vs.Keys|])
  }

  lemma ProposerIsValidator(vs: ValidatorSet, height: nat, round: nat)
    requires vs != map[]
    ensures Proposer(vs, height, round).Some? && Proposer(vs, height, round).value in vs
  {
    var s := SortedAddresses(vs.Keys);
    SortedAddressesFacts(vs.Keys);
    assert s[(height + round) % |vs.Keys|] in s;
  }

  lemma {:induction false} DistinctCount(addrs: seq<Address>)
    requires Distinct(addrs)
    ensures |Members(addrs)| == |addrs|
  {
    if addrs == [] {
      assert Members(addrs) == {};
    } else {
      DistinctCount(addrs[1..]);
      MembersTail(addrs);
      assert Members(addrs) == Members(addrs[1..]) + {addrs[0]};
    }
  }

  lemma BeforeInOrder(s: seq<Address>, n: nat, a: Address)
    requires StrictlyAscending(s, AddressLeq) && n < |s|
    ensures a in s && a != s[n] && AddressLeq(a, s[n]) <==> a in s[..n]
  {
    if a in s && a != s[n] && AddressLeq(a, s[n]) {
      var i :| 0 <= i < |s| && s[i] == a;
      assert n < i ==> AddressLeq(s[n], s[i]);
      if AddressLeq(s[n], a) { LexAntisymmetric(a.bytes, s[n].bytes); }
      assert s[..n][i] == a;
    }
    if a in s[..n] {
      var i :| 0 <= i < n && s[i] == a;
      assert AddressLeq(s[i], s[n]) && s[i] != s[n];
    }
  }

  /** Whose turn it is: the validator with (height + round) mod n others before it in
      address order. */
  lemma ProposerRank(vs: ValidatorSet, height: nat, round: nat, p: Address)
    requires Proposer(vs, height, round) == Some(p)
    ensures |set a | a in vs && a != p && AddressLeq(a, p)| == (height + round) % |vs|
  {
    var s := SortedAddresses(vs.Keys);
    SortedAddressesFacts(vs.Keys);
    var n := (height + round) % |vs.Keys|;
    forall a ensures a in vs && a != p && AddressLeq(a, p) <==> a in s[..n] { BeforeInOrder(s, n, a); }
    assert (set a | a in vs && a != p && AddressLeq(a, p)) == Members(s[..n]);
    DistinctPrefix(s, n);
    DistinctCount(s[..n]);
  }

  lemma DistinctPrefix(s: seq<Address>, n: nat)
    requires StrictlyAscending(s, AddressLeq) && n <= |s|
    ensures Distinct(s[..n])
  {
    assert forall i, j :: 0 <= i < j < |s| ==> AddressLeq(s[i], s[j]) && s[i] != s[j];
  }

  /** Within any |vs| consecutive heights every validator gets its turn ... */
  lemma ProposerTurn(vs: ValidatorSet, start: nat, a: Address) returns (h: nat)
    requires a in vs
    ensures start <= h < start + |vs| && Proposer(vs, h, 0) == Some(a)
  {
    var s := SortedAddresses(vs.Keys);
    SortedAddressesFacts(vs.Keys);
    var n := |vs.Keys|;
    assert a in s;
    var i :| 0 <= i < n && s[i] == a;
    h := NextWithResidue(start, i, n);
  }

  /** ... and only one. */
  lemma ProposerTurnUnique(vs: ValidatorSet, g: nat, h: nat)
    requires vs != map[] && g < h < g + |vs|
    ensures Proposer(vs, g, 0) != Proposer(vs, h, 0)
  {
    var s := SortedAddresses(vs.Keys);
    SortedAddressesFacts(vs.Keys);
    var n := |vs.Keys|;
    DistinctResidues(g, h, n);
    var i, j := g % n, h % n;
    assert i < j ==> AddressLeq(s[i], s[j]) && s[i] != s[j];
    assert j < i ==> AddressLeq(s[j], s[i]) && s[j] != s[i];
  }

  lemma NextWithResidue(start: nat, i: nat, n: nat) returns (h: nat)
    requires i < n
    ensures start <= h < start + n && h % n == i
  {
    var q, r := start / n, start % n;
    if i >= r {
      h := start + (i - r);
      assert h == q * n + i;
      Residue(h, q, i, n);
    } else {
      h := start + (i + n - r);
      assert h == (q + 1) * n + i;
      Residue(h, q + 1, i, n);
    }
  }

  lemma Residue(x: nat, q: nat, r: nat, n: nat)
    requires r < n && x == q * n + r
    ensures x % n == r
  {
    MultipleGap(x / n - q, n);
    assert (x / n - q) * n + x % n == r;
  }

  lemma DistinctResidues(g: nat, h: nat, n: nat)
    requires g < h < g + n
    ensures g % n != h % n
  {
    MultipleGap(h / n - g / n, n);
    assert (h / n - g / n) * n + h % n - g % n == h - g;
  }

  lemma MultipleGap(d: int, n: nat)
    ensures d >= 1 ==> d * n >= n
    ensures d <= -1 ==> d * n + n <= 0
    ensures d == 0 ==> d * n == 0
  {}

  // ---------------------------------------------------------- set semantics --

  ghost function Powers(vs: ValidatorSet, s: set<Address>): map<Address, nat> {
    map a | a in s && a in vs :: vs[a]
  }

  /** Voting power of a set of addresses. */
  ghost function PowerOf(vs: ValidatorSet, s: set<Address>): nat {
    Sum(Powers(vs, s))
  }

  ghost function Members(addrs: seq<Address>): set<Address> {
    set a | a in addrs
  }

  ghost predicate Distinct(addrs: seq<Address>) {
    forall i, j :: 0 <= i < j < |addrs| ==> addrs[i] != addrs[j]
  }

  lemma {:induction false} TallyIsPowerOf(vs: ValidatorSet, addrs: seq<Address>)
    requires Distinct(addrs)
    ensures Tally(vs, addrs) == PowerOf(vs, Members(addrs))
  {
    if addrs == [] {
      assert Powers(vs, Members(addrs)) == map[];
    } else {
      TallyIsPowerOf(vs, addrs[1..]);
      var m := Powers(vs, Members(addrs));
      MembersTail(addrs);
      assert Powers(vs, Members(addrs) - {addrs[0]}) == m - {addrs[0]};
      SumDrop(m, addrs[0]);
    }
  }

  lemma MembersTail(addrs: seq<Address>)
    requires Distinct(addrs) && addrs != []
    ensures Members(addrs[1..]) == Members(addrs) - {addrs[0]} && addrs[0] in Members(addrs)
  {
    forall a ensures a in addrs[1..] <==> a in addrs && a != addrs[0] {
      if a in addrs && a != addrs[0] {
        var i :| 0 <= i < |addrs| && addrs[i] == a;
        assert addrs[1..][i - 1] == a;
      }
    }
  }

  lemma TallyOfSet(vs: ValidatorSet, s: set<Address>)
    ensures Tally(vs, SortedAddresses(s)) == PowerOf(vs, s)
  {
    var addrs := SortedAddresses(s);
    SortedAddressesFacts(s);
    assert forall i, j :: 0 <= i < j < |addrs| ==> AddressLeq(addrs[i], addrs[j]) && addrs[i] != addrs[j];
    assert Members(addrs) == s;
    TallyIsPowerOf(vs, addrs);
  }

  lemma TotalIsPowerOfAll(vs: ValidatorSet)
    ensures TotalPower(vs) == PowerOf(vs, vs.Keys)
  {
    TallyOfSet(vs, vs.Keys);
  }

  lemma PowerSplit(vs: ValidatorSet, s: set<Address>, t: set<Address>)
    ensures PowerOf(vs, s) == PowerOf(vs, s - t) + PowerOf(vs, s * t)
  {
    var m := Powers(vs, s);
    SumSplit(m, t);
    assert m - t == Powers(vs, s - t);
    assert (map k | k in m && k in t :: m[k]) == Powers(vs, s * t);
  }

  lemma PowerMonotone(vs: ValidatorSet, s: set<Address>, t: set<Address>)
    requires s <= t
    ensures PowerOf(vs, s) <= PowerOf(vs, t)
  {
    SumMonotone(Powers(vs, s), Powers(vs, t));
  }

  lemma PowerWithinTotal(vs: ValidatorSet, s: set<Address>)
    ensures PowerOf(vs, s) <= TotalPower(vs)
  {
    TotalIsPowerOfAll(vs);
    SumMonotone(Powers(vs, s), Powers(vs, vs.Keys));
  }

  lemma Overlap(vs: ValidatorSet, q1: set<Address>, q2: set<Address>)
    ensures PowerOf(vs, q1) + PowerOf(vs, q2) <= TotalPower(vs) + PowerOf(vs, q1 * q2)
  {
    var union := q2 + (q1 - q2);
    PowerSplit(vs, q1, q2);
    PowerWithinTotal(vs, union);
    PowerSplit(vs, union, q2);
    assert union * q2 == q2 && union - q2 == q1 - q2;
  }

  lemma PositiveHasMember(vs: ValidatorSet, s: set<Address>)
    requires PowerOf(vs, s) > 0
    ensures exists a :: a in s && a in vs
  {
    assert Powers(vs, s) != map[];
    var a :| a in Powers(vs, s);
  }

  /** Two quorums share more power than any coalition below one third can hold. */
  lemma QuorumsIntersect(vs: ValidatorSet, q1: set<Address>, q2: set<Address>, faulty: set<Address>)
    requires QuorumThreshold(vs) <= PowerOf(vs, q1) && QuorumThreshold(vs) <= PowerOf(vs, q2)
    requires 3 * PowerOf(vs, faulty) < TotalPower(vs)
    ensures exists a :: a in q1 && a in q2 && a in vs && a !in faulty
  {
    var both := q1 * q2;
    Overlap(vs, q1, q2);
    PowerSplit(vs, both, faulty);
    PowerMonotone(vs, both * faulty, faulty);
    PositiveHasMember(vs, both - faulty);
    var a :| a in both - faulty && a in vs;
  }

  lemma QuorumMonotone(vs: ValidatorSet, voters: set<Address>, more: set<Address>)
    requires voters <= more && IsQuorum(vs, voters)
    ensures IsQuorum(vs, more)
  {
    TallyOfSet(vs, voters);
    TallyOfSet(vs, more);
    PowerMonotone(vs, voters, more);
  }

  lemma AllAreQuorum(vs: ValidatorSet)
    requires TotalPower(vs) > 0
    ensures IsQuorum(vs, vs.Keys)
  {
    TallyOfSet(vs, vs.Keys);
    TotalIsPowerOfAll(vs);
  }

  // --------------------------------------------------------- 64-bit exactness --

  /** `quorum_threshold` as the release build computes it, every step modulo 2^64. */
  function QuorumThreshold64(vs: ValidatorSet): nat {
    TotalPower(vs) % (U64_MAX + 1) * 2 % (U64_MAX + 1) / 3 + 1
  }

  /** The threshold is the least integer strictly above two thirds. */
  lemma ThresholdIsLeast(vs: ValidatorSet)
    ensures 2 * TotalPower(vs) < 3 * QuorumThreshold(vs)
    ensures forall q: nat :: 2 * TotalPower(vs) < 3 * q ==> QuorumThreshold(vs) <= q
  {}

  /** The machine computation is exact precisely when twice the total fits in u64. */
  lemma ThresholdExactIffFits(vs: ValidatorSet)
    ensures QuorumThreshold64(vs) == QuorumThreshold(vs) <==> TotalPower(vs) * 2 <= U64_MAX
  {
    ThresholdArithmetic(TotalPower(vs));
  }

  lemma ThresholdArithmetic(t: nat)
    ensures t % (U64_MAX + 1) * 2 % (U64_MAX + 1) / 3 + 1 == t * 2 / 3 + 1 <==> t * 2 <= U64_MAX
  {
    var a, b := t / (U64_MAX + 1), t % (U64_MAX + 1);
    var c, w := b * 2 / (U64_MAX + 1), b * 2 % (U64_MAX + 1);
    assert t * 2 == (2 * a + c) * (U64_MAX + 1) + w;
    assert w % 2 == 0 && w < U64_MAX;
    if t * 2 > U64_MAX {
      assert w / 3 < t * 2 / 3;
    }
  }

  /** The vote count of `has_quorum` as the release build sums it, modulo 2^64. */
  function Tally64(vs: ValidatorSet, addrs: seq<Address>): nat {
    if addrs == [] then 0
    else ((if addrs[0] in vs then vs[addrs[0]] else 0) + Tally64(vs, addrs[1..])) % (U64_MAX + 1)
  }

  predicate IsQuorum64(vs: ValidatorSet, voters: set<Address>) {
    QuorumThreshold64(vs) <= Tally64(vs, SortedAddresses(voters))
  }

  lemma {:induction false} TallyWraps(vs: ValidatorSet, addrs: seq<Address>)
    ensures Tally64(vs, addrs) == Tally(vs, addrs) % (U64_MAX + 1)
  {
    if addrs != [] {
      TallyWraps(vs, addrs[1..]);
      WrapOnce(if addrs[0] in vs then vs[addrs[0]] else 0, Tally(vs, addrs[1..]));
    }
  }

  lemma WrapOnce(p: nat, t: nat)
    ensures (p + t % (U64_MAX + 1)) % (U64_MAX + 1) == (p + t) % (U64_MAX + 1)
  {}

  /** When twice the total power fits in u64 neither side of the comparison wraps: the
      machine's answer is the exact one for every set of voters. */
  lemma QuorumExactWhenFits(vs: ValidatorSet, voters: set<Address>)
    requires TotalPower(vs) * 2 <= U64_MAX
    ensures Tally64(vs, SortedAddresses(voters)) == PowerOf(vs, voters)
    ensures IsQuorum64(vs, voters) <==> IsQuorum(vs, voters)
  {
    TallyWraps(vs, SortedAddresses(voters));
    TallyOfSet(vs, voters);
    PowerWithinTotal(vs, voters);
    ThresholdExactIffFits(vs);
  }

  /** Out of range the machine's threshold means nothing: at a total of 2^63 doubling
      wraps to zero, and the vote of any one validator with power is a quorum. */
  lemma WrappedThreshold(vs: ValidatorSet, a: Address)
    requires TotalPower(vs) == 0x8000_0000_0000_0000 && a in vs && vs[a] > 0
    ensures IsQuorum64(vs, {a})
  {
    TallyWraps(vs, SortedAddresses({a}));
    TallyOfSet(vs, {a});
    assert Powers(vs, {a}) == map[a := vs[a]];
    SumPut(map[], a, vs[a]);
    assert map[][a := vs[a]] == map[a := vs[a]];
  }
}
