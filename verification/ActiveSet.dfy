/** Selection of the active validator set from the on-chain records, and the
    exactness of quorum arithmetic on every reachable ledger. */
module ActiveSet {
  import opened Primitives
  import opened Ordering
  import opened Sums
  import opened LedgerModel
  import opened Conservation
  import opened Storage
  import opened Validators

  const ONE_PMX: nat := 1_000_000_000
  const MAX_SUPPLY: nat := 1_100_000_000 * ONE_PMX
  const MIN_ACTIVE_STAKE: nat := 100_000 * ONE_PMX
  const MAX_ACTIVE_VALIDATORS: nat := 100

  type Listing = seq<(Address, ValidatorRecord)>
  type Candidate = (Address, U64)

  predicate Eligible(r: ValidatorRecord) {
    r.status == Active && r.TotalStake() >= MIN_ACTIVE_STAKE
  }

  /** `total_stake().min(u64::MAX) as u64`. */
  function Power(r: ValidatorRecord): U64 {
    Min(r.TotalStake(), U64_MAX)
  }

  /** More power first, then the smaller address. */
  predicate RankLeq(x: Candidate, y: Candidate) {
    x.1 > y.1 || (x.1 == y.1 && AddressLeq(x.0, y.0))
  }

  function Candidates(records: Listing): seq<Candidate> {
    if records == [] then []
    else (if Eligible(records[0].1) then [(records[0].0, Power(records[0].1))] else []) + Candidates(records[1..])
  }

  function InsertByRank(x: Candidate, s: seq<Candidate>): seq<Candidate> {
    if s == [] then [x]
    else if RankLeq(x, s[0]) then [x] + s
    else [s[0]] + InsertByRank(x, s[1..])
  }

  function SortByRank(s: seq<Candidate>): seq<Candidate> {
    if s == [] then [] else InsertByRank(s[0], SortByRank(s[1..]))
  }

  function Selected(records: Listing): seq<Candidate> {
    var sorted := SortByRank(Candidates(records));
    if |sorted| <= MAX_ACTIVE_VALIDATORS then sorted else sorted[..MAX_ACTIVE_VALIDATORS]
  }

  function Collect(s: seq<Candidate>): ValidatorSet {
    if s == [] then map[] else Collect(s[..|s| - 1])[s[|s| - 1].0 := s[|s| - 1].1]
  }

  function ActiveValidators(records: Listing): ValidatorSet {
    Collect(Selected(records))
  }

  /** `update_validator_set`: an empty selection keeps the previous set. */
  function UpdatedSet(current: ValidatorSet, records: Listing): ValidatorSet {
    if ActiveValidators(records) == map[] then current else ActiveValidators(records)
  }

  // ---------------------------------------------------------------- sorting --

  lemma RankOrder()
    ensures TotalOrder(RankLeq)
  {
    AddressOrder();
  }

  ghost predicate DistinctAddresses(s: seq<Candidate>) {
    forall i, j :: 0 <= i < j < |s| ==> s[i].0 != s[j].0
  }

  ghost predicate DistinctOwners(records: Listing) {
    forall i, j :: 0 <= i < j < |records| ==> records[i].0 != records[j].0
  }

  lemma {:induction false} InsertMembers(x: Candidate, s: seq<Candidate>, y: Candidate)
    ensures y in InsertByRank(x, s) <==> y == x || y in s
    ensures |InsertByRank(x, s)| == |s| + 1
  {
    if s != [] {
      assert s == [s[0]] + s[1..];
      InsertMembers(x, s[1..], y);
    }
  }

  lemma {:induction false} InsertSorted(x: Candidate, s: seq<Candidate>)
    requires StrictlyAscending(s, RankLeq) && x !in s
    ensures StrictlyAscending(InsertByRank(x, s), RankLeq)
  {
    RankOrder();
    if s != [] {
      if RankLeq(x, s[0]) {
        assert forall i :: 0 < i < |s| ==> RankLeq(s[0], s[i]);
        assert forall i :: 0 <= i < |s| ==> s[i] in s;
      } else {
        InsertSorted(x, s[1..]);
        var r := InsertByRank(x, s[1..]);
        forall i | 0 <= i < |r| ensures RankLeq(s[0], r[i]) && s[0] != r[i] {
          InsertMembers(x, s[1..], r[i]);
          assert r[i] in r;
          assert s[0] in s;
        }
      }
    }
  }

  lemma {:induction false} SortMembers(s: seq<Candidate>, y: Candidate)
    ensures y in SortByRank(s) <==> y in s
    ensures |SortByRank(s)| == |s|
  {
    if s != [] {
      SortMembers(s[1..], y);
      InsertMembers(s[0], SortByRank(s[1..]), y);
    }
  }

  lemma {:induction false} SortSorted(s: seq<Candidate>)
    requires DistinctAddresses(s)
    ensures StrictlyAscending(SortByRank(s), RankLeq)
  {
    if s != [] {
      SortSorted(s[1..]);
      SortMembers(s[1..], s[0]);
      InsertSorted(s[0], SortByRank(s[1..]));
    }
  }

  lemma {:induction false} CandidateMembers(records: Listing, c: Candidate)
    ensures c in Candidates(records) <==>
            exists i :: 0 <= i < |records| && records[i].0 == c.0
                        && Eligible(records[i].1) && Power(records[i].1) == c.1
  {
    if records != [] {
      CandidateMembers(records[1..], c);
      if c in Candidates(records[1..]) {
        var i :| 0 <= i < |records[1..]| && records[1..][i].0 == c.0
                 && Eligible(records[1..][i].1) && Power(records[1..][i].1) == c.1;
        assert records[i + 1] == records[1..][i];
      }
      if i :| 0 <= i < |records| && records[i].0 == c.0 && Eligible(records[i].1) && Power(records[i].1) == c.1 {
        if i > 0 { assert records[1..][i - 1] == records[i]; }
      }
    }
  }

  lemma {:induction false} CandidatesDistinct(records: Listing)
    requires DistinctOwners(records)
    ensures DistinctAddresses(Candidates(records))
  {
    if records != [] {
      CandidatesDistinct(records[1..]);
      var rest := Candidates(records[1..]);
      forall j | 0 <= j < |rest| ensures rest[j].0 != records[0].0 {
        assert rest[j] in rest;
        CandidateMembers(records[1..], rest[j]);
      }
    }
  }

  lemma {:induction false} CollectAt(s: seq<Candidate>, i: nat)
    requires DistinctAddresses(s) && i < |s|
    ensures s[i].0 in Collect(s) && Collect(s)[s[i].0] == s[i].1
  {
    if i < |s| - 1 { CollectAt(s[..|s| - 1], i); }
  }

  lemma {:induction false} CollectOnly(s: seq<Candidate>, a: Address)
    requires a in Collect(s)
    ensures (a, Collect(s)[a]) in s
  {
    var init, last := s[..|s| - 1], s[|s| - 1];
    assert s == init + [last];
    if a == last.0 {
      assert last == (a, Collect(s)[a]);
    } else {
      CollectOnly(init, a);
    }
  }

  lemma {:induction false} CollectSize(s: seq<Candidate>)
    requires DistinctAddresses(s)
    ensures |Collect(s)| == |s|
  {
    if s != [] {
      var init, last := s[..|s| - 1], s[|s| - 1];
      CollectSize(init);
      if last.0 in Collect(init) { CollectOnly(init, last.0); }
      assert Collect(s).Keys == Collect(init).Keys + {last.0};
    }
  }

  lemma SortedDistinct(s: seq<Candidate>)
    requires DistinctAddresses(s)
    ensures DistinctAddresses(SortByRank(s))
  {
    SortSorted(s);
    var r := SortByRank(s);
    forall i, j | 0 <= i < j < |r| ensures r[i].0 != r[j].0 {
      SortMembers(s, r[i]);
      SortMembers(s, r[j]);
      assert r[i] in r && r[j] in r;
      var m :| 0 <= m < |s| && s[m] == r[i];
      var n :| 0 <= n < |s| && s[n] == r[j];
      assert RankLeq(r[i], r[j]) && r[i] != r[j];
    }
  }

  // ------------------------------------------------------------------ top-k --

  /** Some record of `a` is Active with at least 100 000 PMX of stake, and `p` is that
      stake, capped at what a u64 holds. */
  ghost predicate SelectedFrom(records: Listing, a: Address, p: U64) {
    exists i :: 0 <= i < |records| && records[i].0 == a && records[i].1.status == Active
                && records[i].1.selfStake + records[i].1.delegatedStake >= 100_000 * 1_000_000_000
                && p == Min(records[i].1.selfStake + records[i].1.delegatedStake, U64_MAX)
  }

  lemma SelectionFacts(records: Listing)
    requires DistinctOwners(records)
    ensures var sorted := SortByRank(Candidates(records));
            && StrictlyAscending(sorted, RankLeq)
            && DistinctAddresses(sorted) && DistinctAddresses(Selected(records))
  {
    CandidatesDistinct(records);
    SortSorted(Candidates(records));
    SortedDistinct(Candidates(records));
  }

  /** Every selected validator is an eligible record with its own power, and there
      are at most 100 of them. */
  lemma SelectedAreEligible(records: Listing, a: Address)
    requires DistinctOwners(records)
    ensures |ActiveValidators(records)| <= MAX_ACTIVE_VALIDATORS
    ensures a in ActiveValidators(records) ==> SelectedFrom(records, a, ActiveValidators(records)[a])
  {
    SelectionFacts(records);
    var s := Selected(records);
    CollectSize(s);
    if a in ActiveValidators(records) {
      var c := (a, ActiveValidators(records)[a]);
      CollectOnly(s, a);
      SortMembers(Candidates(records), c);
      CandidateMembers(records, c);
    }
  }

  lemma ExcludedRanksLast(records: Listing, i: nat, b: Address)
    requires DistinctOwners(records) && i < |records|
    requires Eligible(records[i].1) && records[i].0 !in ActiveValidators(records)
    ensures |ActiveValidators(records)| == MAX_ACTIVE_VALIDATORS
    ensures b in ActiveValidators(records) ==>
              RankLeq((b, ActiveValidators(records)[b]), (records[i].0, Power(records[i].1)))
  {
    SelectionFacts(records);
    var sorted := SortByRank(Candidates(records));
    var s := Selected(records);
    var x := (records[i].0, Power(records[i].1));
    CollectSize(s);
    CandidateMembers(records, x);
    SortMembers(Candidates(records), x);
    var n :| 0 <= n < |sorted| && sorted[n] == x;
    if n < |s| { CollectAt(s, n); }
    if b in ActiveValidators(records) {
      CollectOnly(s, b);
      var m :| 0 <= m < |s| && s[m] == (b, ActiveValidators(records)[b]);
      assert RankLeq(sorted[m], sorted[n]);
    }
  }

  /** An Active record with at least 100 000 PMX of stake is left out only when 100 are
      selected, each with more stake (capped at a u64), or as much and a smaller
      address. */
  lemma ExcludedAreOutranked(records: Listing, i: nat, b: Address)
    requires DistinctOwners(records) && i < |records| && records[i].0 !in ActiveValidators(records)
    requires records[i].1.status == Active
    requires records[i].1.selfStake + records[i].1.delegatedStake >= 100_000 * 1_000_000_000
    ensures |ActiveValidators(records)| == 100
    ensures b in ActiveValidators(records) ==>
              var left := Min(records[i].1.selfStake + records[i].1.delegatedStake, U64_MAX);
              || ActiveValidators(records)[b] > left
              || (ActiveValidators(records)[b] == left && b != records[i].0 && AddressLeq(b, records[i].0))
  {
    ExcludedRanksLast(records, i, b);
  }

  /** Any ordering of the same records selects the same set. */
  lemma SelectionIgnoresOrder(r1: Listing, r2: Listing)
    requires DistinctOwners(r1) && DistinctOwners(r2)
    requires forall x :: x in r1 <==> x in r2
    ensures ActiveValidators(r1) == ActiveValidators(r2)
  {
    SelectionFacts(r1);
    SelectionFacts(r2);
    var s1, s2 := SortByRank(Candidates(r1)), SortByRank(Candidates(r2));
    forall c ensures c in s1 <==> c in s2 {
      SortMembers(Candidates(r1), c);
      SortMembers(Candidates(r2), c);
      CandidateMembers(r1, c);
      CandidateMembers(r2, c);
      if c in s1 {
        var i :| 0 <= i < |r1| && r1[i].0 == c.0 && Eligible(r1[i].1) && Power(r1[i].1) == c.1;
        assert r1[i] in r2;
      }
      if c in s2 {
        var i :| 0 <= i < |r2| && r2[i].0 == c.0 && Eligible(r2[i].1) && Power(r2[i].1) == c.1;
        assert r2[i] in r1;
      }
    }
    RankOrder();
    AscendingUnique(s1, s2, RankLeq);
  }

  /** Some record is Active with at least 100 000 PMX of stake. */
  ghost predicate SomeoneQualifies(records: Listing) {
    exists i :: 0 <= i < |records| && records[i].1.status == Active
                && records[i].1.selfStake + records[i].1.delegatedStake >= 100_000 * 1_000_000_000
  }

  /** The update takes the selection exactly when some record qualifies, and otherwise
      keeps the set; so it never empties a set that has members. */
  lemma UpdateSelectsExactly(current: ValidatorSet, records: Listing)
    requires DistinctOwners(records)
    ensures UpdatedSet(current, records) == if SomeoneQualifies(records) then ActiveValidators(records) else current
    ensures SomeoneQualifies(records) <==> ActiveValidators(records) != map[]
    ensures current != map[] ==> UpdatedSet(current, records) != map[]
  {
    if SomeoneQualifies(records) {
      var i :| 0 <= i < |records| && records[i].1.status == Active
               && records[i].1.selfStake + records[i].1.delegatedStake >= 100_000 * 1_000_000_000;
      if ActiveValidators(records) == map[] { ExcludedRanksLast(records, i, records[i].0); }
    }
    if ActiveValidators(records) != map[] {
      var a :| a in ActiveValidators(records);
      SelectedAreEligible(records, a);
    }
  }

  // -------------------------------------------------- exactness of the quorum --

  lemma ListingFacts(validators: map<Address, ValidatorRecord>)
    ensures DistinctOwners(ListValidators(validators))
    ensures forall i :: 0 <= i < |ListValidators(validators)| ==>
              ListValidators(validators)[i].0 in validators &&
              ListValidators(validators)[i].1 == validators[ListValidators(validators)[i].0]
  {
    var keys := SortedAddresses(validators.Keys);
    SortedAddressesFacts(validators.Keys);
    assert forall i, j :: 0 <= i < j < |keys| ==> AddressLeq(keys[i], keys[j]) && keys[i] != keys[j];
    assert forall i :: 0 <= i < |keys| ==> keys[i] in keys;
  }

  ghost function Stakes(l: Ledger): map<Address, nat> {
    map v | v in l.validators :: l.validators[v].selfStake + l.validators[v].delegatedStake
  }

  lemma {:induction false} SumPointwise(m: map<Address, nat>, n: map<Address, nat>, t: map<Address, nat>)
    requires m.Keys == n.Keys == t.Keys && forall k :: k in m ==> t[k] == m[k] + n[k]
    ensures Sum(t) == Sum(m) + Sum(n)
    decreases |m|
  {
    if m != map[] {
      var k :| k in m;
      Smaller(m, k);
      SumRemove(m, k);
      SumRemove(n, k);
      SumRemove(t, k);
      SumPointwise(m - {k}, n - {k}, t - {k});
    }
  }

  lemma StakesWithinSupply(l: Ledger)
    ensures Sum(Stakes(l)) <= Supply(l)
  {
    SumPointwise(SelfStakes(l), DelegatedStakes(l), Stakes(l));
  }

  /** No clamp fires: the selected power is exactly the stake. */
  lemma PowerIsStake(l: Ledger, a: Address)
    requires Supply(l) <= MAX_SUPPLY && a in l.validators
    ensures Power(l.validators[a]) == l.validators[a].selfStake + l.validators[a].delegatedStake
  {
    StakesWithinSupply(l);
    assert a in Stakes(l);
    SumAtLeast(Stakes(l), a);
  }

  /** If the ledger holds at most MAX_SUPPLY, any set built from its records has
      exact powers, a total within MAX_SUPPLY, and a machine-computed threshold
      equal to the mathematical one. */
  lemma QuorumArithmeticExact(l: Ledger)
    requires Supply(l) <= MAX_SUPPLY
    ensures var s := ActiveValidators(ListValidators(l.validators));
            && (forall a :: a in s ==>
                  a in l.validators && s[a] == l.validators[a].selfStake + l.validators[a].delegatedStake)
            && TotalPower(s) <= MAX_SUPPLY
            && QuorumThreshold64(s) == QuorumThreshold(s)
            && (forall voters :: IsQuorum64(s, voters) <==> IsQuorum(s, voters))
  {
    var records := ListValidators(l.validators);
    var s := ActiveValidators(records);
    ListingFacts(l.validators);
    forall a | a in s ensures a in l.validators && s[a] == l.validators[a].selfStake + l.validators[a].delegatedStake {
      SelectedAreEligible(records, a);
      PowerIsStake(l, a);
    }
    TotalIsPowerOfAll(s);
    SumMonotone(Powers(s, s.Keys), Stakes(l));
    StakesWithinSupply(l);
    ThresholdExactIffFits(s);
    forall voters ensures IsQuorum64(s, voters) <==> IsQuorum(s, voters) { QuorumExactWhenFits(s, voters); }
  }

  /** From a genesis of at most MAX_SUPPLY this holds after every transaction list. */
  lemma QuorumExactOnReachableLedgers(env: Env, accounts: map<Address, Account>, txs: seq<Transaction>)
    requires Supply(Ledger(accounts, map[], map[])) <= 1_100_000_000 * 1_000_000_000
    ensures var l := ExecuteAll(env, Ledger(accounts, map[], map[]), txs);
            var s := ActiveValidators(ListValidators(l.validators));
            && Supply(l) <= MAX_SUPPLY
            && TotalPower(s) <= MAX_SUPPLY
            && QuorumThreshold64(s) == QuorumThreshold(s)
            && (forall voters :: IsQuorum64(s, voters) <==> IsQuorum(s, voters))
  {
    GenesisConsistent(accounts);
    SupplyConserved(env, Ledger(accounts, map[], map[]), txs);
    QuorumArithmeticExact(ExecuteAll(env, Ledger(accounts, map[], map[]), txs));
  }
}
