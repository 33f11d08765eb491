/** Who can complete a quorum. A node records its own vote first and others one by one;
    the vote that turns the recorded voters into a quorum completes it. */
module Completers {
  import opened Primitives
  import opened Sums
  import opened Validators

  /** Which sets of voters are quorums. */
  type QuorumTest = set<Address> -> bool

  ghost function Quorums(vs: ValidatorSet): QuorumTest {
    voters => IsQuorum(vs, voters)
  }

  /** `q` turns a coalition of recorded voters into a quorum. */
  ghost predicate Pivotal(quorum: QuorumTest, coalition: set<Address>, q: Address) {
    q !in coalition && !quorum(coalition) && quorum(coalition + {q})
  }

  /** The vote of `q` can be the one that completes a quorum at node `k`, which always
      records its own vote first. */
  ghost predicate Completes(quorum: QuorumTest, k: Address, q: Address) {
    (q == k && quorum({k})) || exists c :: k in c && Pivotal(quorum, c, q)
  }

  /** Whoever completes a quorum at either node, it is one and the same trusted one. */
  ghost predicate SoleCompleter(quorum: QuorumTest, trusted: set<Address>, i: Address, j: Address) {
    forall x, y :: Completes(quorum, i, x) && Completes(quorum, j, y) ==> x == y && x in trusted
  }

  lemma CompletesItself(quorum: QuorumTest, k: Address)
    requires quorum({k})
    ensures Completes(quorum, k, k)
  {}

  lemma PivotalCompletes(quorum: QuorumTest, coalition: set<Address>, k: Address, q: Address)
    requires k in coalition && Pivotal(quorum, coalition, q)
    ensures Completes(quorum, k, q)
  {}

  lemma TwoCompleters(quorum: QuorumTest, trusted: set<Address>, i: Address, j: Address)
    returns (x: Address, y: Address)
    requires !SoleCompleter(quorum, trusted, i, j)
    ensures Completes(quorum, i, x) && Completes(quorum, j, y) && (x != y || x !in trusted)
  {
    x, y :| Completes(quorum, i, x) && Completes(quorum, j, y) && (x != y || x !in trusted);
  }

  lemma SameCompleter(quorum: QuorumTest, trusted: set<Address>, i: Address, j: Address, x: Address, y: Address)
    requires SoleCompleter(quorum, trusted, i, j) && Completes(quorum, i, x) && Completes(quorum, j, y)
    ensures x == y && x in trusted
  {}

  lemma PickMissing(voters: set<Address>, coalition: set<Address>) returns (q: Address)
    requires voters <= coalition && voters != coalition
    ensures q in coalition - voters && voters + {q} <= coalition && |coalition - (voters + {q})| < |coalition - voters|
  {
    assert coalition - voters != {};
    q :| q in coalition - voters;
    assert coalition - (voters + {q}) == (coalition - voters) - {q};
  }

  /** If all together are a quorum, somebody completes one at every node. */
  lemma {:induction false} SomeoneCompletes(quorum: QuorumTest, all: set<Address>, k: Address, voters: set<Address>)
    returns (q: Address)
    requires quorum(all) && k in voters && voters <= all && (voters == {k} || !quorum(voters))
    ensures Completes(quorum, k, q) && (q in all - voters || (q == k && voters == {k}))
    decreases |all - voters|
  {
    if quorum(voters) {
      q := k;
      CompletesItself(quorum, k);
    } else {
      q := PickMissing(voters, all);
      if quorum(voters + {q}) {
        PivotalCompletes(quorum, voters, k, q);
      } else {
        q := SomeoneCompletes(quorum, all, k, voters + {q});
      }
    }
  }

  // ------------------------------------------------------------- closed form --

  /** Quorums grow, and only members of `all` count. */
  ghost predicate Fair(quorum: QuorumTest, all: set<Address>) {
    && (forall u, v :: u <= v && quorum(u) ==> quorum(v))
    && (forall u :: quorum(u) <==> quorum(u * all))
  }

  /** No quorum does without `x`, and with `x` either node has one by itself. */
  ghost predicate Arbiter(quorum: QuorumTest, all: set<Address>, i: Address, j: Address, x: Address) {
    !quorum(all - {x}) && quorum({i, x}) && quorum({j, x})
  }

  /** Nobody but an arbiter completes a quorum. */
  lemma OnlyArbiterCompletes(quorum: QuorumTest, all: set<Address>, i: Address, x: Address, y: Address)
    requires Fair(quorum, all) && !quorum(all - {x}) && quorum({i, x}) && Completes(quorum, i, y)
    ensures y == x
  {
    if y == i && quorum({i}) {
      WithoutIsNone(quorum, all, x, {i});
    } else {
      var c :| i in c && Pivotal(quorum, c, y);
      WithoutIsNone(quorum, all, x, c + {y});
      assert x in c ==> {i, x} <= c;
    }
  }

  lemma WithoutIsNone(quorum: QuorumTest, all: set<Address>, x: Address, voters: set<Address>)
    requires Fair(quorum, all) && !quorum(all - {x}) && quorum(voters)
    ensures x in voters
  {
    assert x !in voters ==> voters * all <= all - {x};
  }

  lemma ArbiterIsSole(quorum: QuorumTest, all: set<Address>, trusted: set<Address>, i: Address, j: Address, x: Address)
    requires Fair(quorum, all) && Arbiter(quorum, all, i, j, x) && x in trusted
    ensures SoleCompleter(quorum, trusted, i, j)
  {
    forall y, z | Completes(quorum, i, y) && Completes(quorum, j, z) ensures y == z && y in trusted {
      OnlyArbiterCompletes(quorum, all, i, x, y);
      OnlyArbiterCompletes(quorum, all, j, x, z);
    }
  }

  /** A sole completer at node `k` makes a quorum with it alone. */
  lemma SoleNeedsOnlyNode(quorum: QuorumTest, all: set<Address>, k: Address, x: Address)
    requires Fair(quorum, all) && quorum(all) && k in all && x in all
    requires forall y :: Completes(quorum, k, y) ==> y == x
    ensures quorum({k, x})
  {
    if !quorum({k, x}) {
      assert {k} <= {k, x};
      var y := SomeoneCompletes(quorum, all, k, {k, x});
    }
  }

  /** Nothing is a quorum without a sole completer at another node. */
  lemma SoleIsNeeded(quorum: QuorumTest, all: set<Address>, k: Address, x: Address)
    requires Fair(quorum, all) && k in all && k != x && forall y :: Completes(quorum, k, y) ==> y == x
    ensures !quorum(all - {x})
  {
    if quorum(all - {x}) {
      var y := SomeoneCompletes(quorum, all - {x}, k, {k});
    }
  }

  lemma SoleIsArbiter(quorum: QuorumTest, all: set<Address>, trusted: set<Address>, i: Address, j: Address)
    returns (x: Address)
    requires Fair(quorum, all) && quorum(all) && i in all && j in all && i != j && SoleCompleter(quorum, trusted, i, j)
    ensures x in trusted && Arbiter(quorum, all, i, j, x)
  {
    x := SomeoneCompletes(quorum, all, i, {i});
    var z := SomeoneCompletes(quorum, all, j, {j});
    forall y | Completes(quorum, i, y) ensures y == x { SameCompleter(quorum, trusted, i, j, y, z); }
    SameCompleter(quorum, trusted, i, j, x, z);
    forall y | Completes(quorum, j, y) ensures y == x { SameCompleter(quorum, trusted, i, j, x, y); }
    SoleNeedsOnlyNode(quorum, all, i, x);
    SoleNeedsOnlyNode(quorum, all, j, x);
    SoleIsNeeded(quorum, all, if i != x then i else j, x);
  }

  // ----------------------------------------------------------- validator sets --

  lemma NotQuorumBelow(vs: ValidatorSet, voters: set<Address>, coalition: set<Address>)
    requires voters <= coalition && !IsQuorum(vs, coalition)
    ensures !IsQuorum(vs, voters)
  {
    if IsQuorum(vs, voters) { QuorumMonotone(vs, voters, coalition); }
  }

  lemma OnlyValidatorsCount(vs: ValidatorSet, voters: set<Address>)
    ensures IsQuorum(vs, voters) <==> IsQuorum(vs, voters * vs.Keys)
  {
    TallyOfSet(vs, voters);
    TallyOfSet(vs, voters * vs.Keys);
    assert Powers(vs, voters) == Powers(vs, voters * vs.Keys);
  }

  lemma PivotalAmong(quorum: QuorumTest, all: set<Address>, coalition: set<Address>, q: Address)
    requires Pivotal(quorum, coalition, q) && (quorum(coalition) <==> quorum(coalition * all))
    requires quorum(coalition + {q}) <==> quorum((coalition + {q}) * all)
    ensures q in all && Pivotal(quorum, coalition * all, q)
  {
    assert q !in all ==> (coalition + {q}) * all == coalition * all;
    assert q in all ==> (coalition + {q}) * all == coalition * all + {q};
  }

  /** A completing voter is a validator, and its coalition may be taken among them. */
  lemma PivotalAmongValidators(vs: ValidatorSet, coalition: set<Address>, q: Address)
    requires Pivotal(Quorums(vs), coalition, q)
    ensures q in vs && Pivotal(Quorums(vs), coalition * vs.Keys, q)
  {
    OnlyValidatorsCount(vs, coalition);
    OnlyValidatorsCount(vs, coalition + {q});
    PivotalAmong(Quorums(vs), vs.Keys, coalition, q);
  }

  lemma CompleterIsValidator(vs: ValidatorSet, k: Address, q: Address)
    requires Completes(Quorums(vs), k, q) && k in vs
    ensures q in vs
  {
    if !(q == k && IsQuorum(vs, {k})) {
      var c :| k in c && Pivotal(Quorums(vs), c, q);
      PivotalAmongValidators(vs, c, q);
    }
  }

  lemma PivotalMeansPower(vs: ValidatorSet, coalition: set<Address>, q: Address)
    requires Pivotal(Quorums(vs), coalition, q)
    ensures TotalPower(vs) > 0
  {
    TallyOfSet(vs, coalition + {q});
    PowerWithinTotal(vs, coalition + {q});
  }

  lemma QuorumsAreFair(vs: ValidatorSet)
    ensures Fair(Quorums(vs), vs.Keys)
  {
    forall u, v | u <= v && Quorums(vs)(u) ensures Quorums(vs)(v) { QuorumMonotone(vs, u, v); }
    forall u ensures Quorums(vs)(u) <==> Quorums(vs)(u * vs.Keys) { OnlyValidatorsCount(vs, u); }
  }

  /** An honest validator without which there is no quorum, and with which each of the
      two nodes has one. */
  ghost predicate HasArbiter(vs: ValidatorSet, honest: set<Address>, i: Address, j: Address) {
    exists x :: x in honest && !IsQuorum(vs, vs.Keys - {x}) && IsQuorum(vs, {i, x}) && IsQuorum(vs, {j, x})
  }

  /** One validator completes every quorum at both nodes exactly if it is an arbiter. */
  lemma SoleCompleterExactly(vs: ValidatorSet, honest: set<Address>, i: Address, j: Address)
    requires TotalPower(vs) > 0 && i in vs && j in vs && i != j
    ensures SoleCompleter(Quorums(vs), honest, i, j) <==> HasArbiter(vs, honest, i, j)
  {
    QuorumsAreFair(vs);
    AllAreQuorum(vs);
    if SoleCompleter(Quorums(vs), honest, i, j) {
      var x := SoleIsArbiter(Quorums(vs), vs.Keys, honest, i, j);
      ArbiterFound(vs, honest, i, j, x);
    }
    if HasArbiter(vs, honest, i, j) {
      var x := FindArbiter(vs, honest, i, j);
      ArbiterIsSole(Quorums(vs), vs.Keys, honest, i, j, x);
    }
  }

  lemma ArbiterFound(vs: ValidatorSet, honest: set<Address>, i: Address, j: Address, x: Address)
    requires x in honest && Arbiter(Quorums(vs), vs.Keys, i, j, x)
    ensures HasArbiter(vs, honest, i, j)
  {}

  lemma FindArbiter(vs: ValidatorSet, honest: set<Address>, i: Address, j: Address) returns (x: Address)
    requires HasArbiter(vs, honest, i, j)
    ensures x in honest && Arbiter(Quorums(vs), vs.Keys, i, j, x)
  {
    x :| x in honest && !IsQuorum(vs, vs.Keys - {x}) && IsQuorum(vs, {i, x}) && IsQuorum(vs, {j, x});
  }

  /** Without any power there is no quorum and nobody completes one. */
  lemma NoPowerNoCompleter(vs: ValidatorSet, k: Address, q: Address)
    requires TotalPower(vs) == 0
    ensures !Completes(Quorums(vs), k, q)
  {
    forall voters ensures !Quorums(vs)(voters) {
      TallyOfSet(vs, voters);
      PowerWithinTotal(vs, voters);
    }
  }

  /** Two quorums always meet. */
  lemma QuorumsMeet(vs: ValidatorSet, u: set<Address>, v: set<Address>)
    requires IsQuorum(vs, u) && IsQuorum(vs, v)
    ensures u * v != {}
  {
    TallyOfSet(vs, u);
    TallyOfSet(vs, v);
    Overlap(vs, u, v);
    assert Powers(vs, {}) == map[];
  }

  /** A validator that is a quorum by itself is an arbiter for any two nodes. */
  lemma DominantIsArbiter(vs: ValidatorSet, honest: set<Address>, i: Address, j: Address, z: Address)
    requires z in honest && IsQuorum(vs, {z})
    ensures HasArbiter(vs, honest, i, j)
  {
    QuorumMonotone(vs, {z}, {i, z});
    QuorumMonotone(vs, {z}, {j, z});
    if IsQuorum(vs, vs.Keys - {z}) { QuorumsMeet(vs, {z}, vs.Keys - {z}); }
  }

  // ------------------------------------------------------------ equal powers --

  ghost predicate EqualPowers(vs: ValidatorSet, w: nat) {
    w > 0 && forall a :: a in vs ==> vs[a] == w
  }

  lemma {:induction false} EqualPowerOf(vs: ValidatorSet, w: nat, s: set<Address>)
    requires EqualPowers(vs, w) && s <= vs.Keys
    ensures PowerOf(vs, s) == |s| * w
    decreases |s|
  {
    if s == {} {
      assert Powers(vs, s) == map[];
    } else {
      var a :| a in s;
      EqualPowerOf(vs, w, s - {a});
      assert Powers(vs, s - {a}) == Powers(vs, s) - {a};
      SumDrop(Powers(vs, s), a);
      assert |s| == |s - {a}| + 1;
      assert |s| * w == |s - {a}| * w + w;
    }
  }

  lemma {:induction false} CoalitionOfSize(s: set<Address>, j: Address, n: nat) returns (r: set<Address>)
    requires j in s && 1 <= n <= |s|
    ensures j in r && r <= s && |r| == n
    decreases |s|
  {
    if n == |s| {
      r := s;
    } else {
      assert |s - {j}| == |s| - 1;
      var a :| a in s - {j};
      assert |s - {a}| == |s| - 1;
      r := CoalitionOfSize(s - {a}, j, n);
    }
  }

  /** `m` of `n` equal powers make a quorum. */
  ghost predicate Enough(n: nat, w: nat, m: nat) {
    n * w * 2 / 3 + 1 <= m * w
  }

  /** Among equal powers two thirds, rounded down, are one short of a quorum. */
  lemma ShortByOne(n: nat, w: nat, m: nat)
    requires w > 0 && m == 2 * n / 3
    ensures !Enough(n, w, m) && Enough(n, w, m + 1)
  {
    var t := n * w;
    assert 3 * m <= 2 * n < 3 * (m + 1);
    Scaled(3 * m, 2 * n, w);
    Scaled(2 * n + 1, 3 * (m + 1), w);
    assert 3 * (m * w) <= 2 * t && 2 * t + w <= 3 * ((m + 1) * w);
  }

  lemma Scaled(a: nat, b: nat, w: nat)
    requires a <= b
    ensures a * w <= b * w
  {}

  lemma QuorumBySize(vs: ValidatorSet, w: nat, s: set<Address>)
    requires EqualPowers(vs, w) && s <= vs.Keys
    ensures IsQuorum(vs, s) <==> Enough(|vs.Keys|, w, |s|)
  {
    EqualPowerOf(vs, w, s);
    EqualPowerOf(vs, w, vs.Keys);
    TotalIsPowerOfAll(vs);
    TallyOfSet(vs, s);
  }

  /** Among equal powers every validator completes some quorum at every other. */
  lemma EqualPowersComplete(vs: ValidatorSet, w: nat, j: Address, p: Address)
    requires EqualPowers(vs, w) && j in vs && p in vs && j != p
    ensures Completes(Quorums(vs), j, p)
  {
    var coalition := OneShort(vs.Keys, j, p);
    QuorumBySize(vs, w, coalition);
    QuorumBySize(vs, w, coalition + {p});
    ShortByOne(|vs.Keys|, w, 2 * |vs.Keys| / 3);
    PivotalCompletes(Quorums(vs), coalition, j, p);
  }

  lemma OneShort(all: set<Address>, j: Address, p: Address) returns (coalition: set<Address>)
    requires j in all && p in all && j != p
    ensures j in coalition && p !in coalition && coalition <= all
    ensures |coalition| == 2 * |all| / 3 && |coalition + {p}| == 2 * |all| / 3 + 1
  {
    assert |{j, p}| == 2;
    SubsetSize({j, p}, all);
    assert |all - {p}| == |all| - 1;
    coalition := CoalitionOfSize(all - {p}, j, 2 * |all| / 3);
  }

  lemma {:induction false} SubsetSize(s: set<Address>, t: set<Address>)
    requires s <= t
    ensures |s| <= |t|
  {
    if s != {} {
      var a :| a in s;
      SubsetSize(s - {a}, t - {a});
    }
  }

  // ---------------------------------------------------- the case is not empty --

  /** Two nodes of power one, one of power two, and one without any. */
  function SmallSet(i: Address, j: Address, z: Address, p: Address): ValidatorSet {
    map[i := 1, j := 1, z := 2, p := 0]
  }

  lemma SmallPowers(i: Address, j: Address, z: Address, p: Address, voters: set<Address>)
    requires Distinct([i, j, z, p])
    ensures PowerOf(SmallSet(i, j, z, p), voters) ==
            (if i in voters then 1 else 0) + (if j in voters then 1 else 0) + (if z in voters then 2 else 0)
  {
    var vs := SmallSet(i, j, z, p);
    var m := Powers(vs, voters);
    var list := [i, j, z, p];
    assert list[0] == i && list[1] == j && list[2] == z && list[3] == p;
    SumDrop(m, i);
    SumDrop(m - {i}, j);
    SumDrop(m - {i} - {j}, z);
    SumDrop(m - {i} - {j} - {z}, p);
    assert m - {i} - {j} - {z} - {p} == map[];
  }

  /** There an honest `z` is an arbiter between `i` and `j`, though not a quorum. */
  lemma SmallSetHasArbiter(i: Address, j: Address, z: Address, p: Address, honest: set<Address>)
    requires Distinct([i, j, z, p]) && z in honest
    ensures HasArbiter(SmallSet(i, j, z, p), honest, i, j) && !IsQuorum(SmallSet(i, j, z, p), {z})
  {
    var vs := SmallSet(i, j, z, p);
    var list := [i, j, z, p];
    assert list[0] == i && list[1] == j && list[2] == z && list[3] == p;
    TotalIsPowerOfAll(vs);
    forall voters ensures IsQuorum(vs, voters) <==> PowerOf(vs, voters) >= 3 {
      TallyOfSet(vs, voters);
      SmallPowers(i, j, z, p, vs.Keys);
    }
    SmallPowers(i, j, z, p, vs.Keys - {z});
    SmallPowers(i, j, z, p, {i, z});
    SmallPowers(i, j, z, p, {j, z});
    SmallPowers(i, j, z, p, {z});
    assert !IsQuorum(vs, vs.Keys - {z}) && IsQuorum(vs, {i, z}) && IsQuorum(vs, {j, z});
  }
}
