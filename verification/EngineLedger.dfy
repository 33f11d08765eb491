/** The engine's ledger and validator set over whole call sequences: what the
    finality engine executes is a list of transactions, so the ledger theorems hold
    of it, and its quorum arithmetic is exact. */
module EngineLedger {
  import opened Primitives
  import opened Ordering
  import opened LedgerModel
  import opened Conservation
  import opened Replay
  import opened Storage
  import opened Validators
  import opened ActiveSet
  import opened Finality
  import opened EngineSafety

  /** Building a block executes a prefix of its transactions: all of them, or up to
      and including the first that returns an error. */
  lemma {:induction false} BuildExecutesPrefix(env: Env, l: Ledger, txs: seq<Transaction>) returns (n: nat)
    ensures n <= |txs| && RunTransactions(env, l, txs).0 == ExecuteAll(env, l, txs[..n])
    ensures RunTransactions(env, l, txs).1 ==> n == |txs|
    ensures !RunTransactions(env, l, txs).1 ==>
              n > 0 && Execute(env, ExecuteAll(env, l, txs[..n - 1]), txs[n - 1]).outcome.Failed?
    decreases |txs|
  {
    n := 0;
    if txs != [] {
      var r := Execute(env, l, txs[0]);
      var m := 0;
      if !r.outcome.Failed? { m := BuildExecutesPrefix(env, r.ledger, txs[1..]); }
      n := m + 1;
      assert txs[..n][0] == txs[0] && txs[..n][1..] == txs[1..][..m];
      assert ExecuteAll(env, r.ledger, []) == r.ledger;
      if m > 0 { assert txs[..m][1..] == txs[1..][..m - 1]; }
    }
  }

  /** The ledger executed `txs`; the validator set stayed or was selected anew. */
  ghost predicate Executed(env: Env, e: Engine, e': Engine, txs: seq<Transaction>) {
    && e'.ledger == ExecuteAll(env, e.ledger, txs)
    && (e'.validators == e.validators || e'.validators == ActiveValidators(ListValidators(e'.ledger.validators)))
  }

  lemma BuildExecutes(env: Env, e: Engine, h: nat, all: seq<Transaction>, ts: nat) returns (txs: seq<Transaction>)
    ensures Executed(env, e, BuildBlock(env, e, h, all, ts).engine, txs)
  {
    var n := BuildExecutesPrefix(env, e.ledger, all);
    txs := all[..n];
    BuildSelectsExactly(env, e, h, all, ts);
  }

  /** Some validator record of the ledger is Active with at least 100 000 PMX of stake. */
  ghost predicate LedgerQualifies(l: Ledger) {
    exists a :: a in l.validators && l.validators[a].status == Active
                && l.validators[a].selfStake + l.validators[a].delegatedStake >= 100_000 * 1_000_000_000
  }

  lemma ListingQualifies(l: Ledger)
    ensures SomeoneQualifies(ListValidators(l.validators)) <==> LedgerQualifies(l)
    ensures DistinctOwners(ListValidators(l.validators))
  {
    var records := ListValidators(l.validators);
    ListingFacts(l.validators);
    if LedgerQualifies(l) {
      var a :| a in l.validators && l.validators[a].status == Active
               && l.validators[a].selfStake + l.validators[a].delegatedStake >= 100_000 * 1_000_000_000;
      var i := ListedAt(l.validators, a);
      assert records[i].1 == l.validators[a];
    }
  }

  lemma ListedAt(validators: map<Address, ValidatorRecord>, a: Address) returns (i: nat)
    requires a in validators
    ensures i < |ListValidators(validators)| && ListValidators(validators)[i] == (a, validators[a])
  {
    var keys := SortedAddresses(validators.Keys);
    SortedAddressesFacts(validators.Keys);
    assert a in keys;
    i :| 0 <= i < |keys| && keys[i] == a;
  }

  /** Building a block selects the validator set anew from the executed ledger exactly
      when some record there qualifies; on an error, or if none does, it keeps the set. */
  lemma BuildSelectsExactly(env: Env, e: Engine, h: nat, all: seq<Transaction>, ts: nat)
    ensures var r := BuildBlock(env, e, h, all, ts);
            && r.engine.ledger == RunTransactions(env, e.ledger, all).0
            && (r.result.Ok? <==> RunTransactions(env, e.ledger, all).1)
            && (r.result.Err? ==> r.result == Err(ExecutionFailed))
            && r.engine.validators ==
               (if r.result.Ok? && LedgerQualifies(r.engine.ledger)
                then ActiveValidators(ListValidators(r.engine.ledger.validators)) else e.validators)
  {
    var l := RunTransactions(env, e.ledger, all).0;
    ListingQualifies(l);
    UpdateSelectsExactly(e.validators, ListValidators(l.validators));
  }

  /** Proposing is refused exactly out of turn; in turn it builds, and a built block is
      recorded with its proposal and the node's own vote. */
  lemma ProposeExactly(env: Env, e: Engine, h: nat, all: seq<Transaction>, ts: nat)
    ensures var r, built := Propose(env, e, h, all, ts), BuildBlock(env, e, h, all, ts);
            if Proposer(e.validators, h, 0) != Some(e.local) then r == Reply(e, Err(NotProposer))
            else if built.result.Err? then r == built
            else
              && r.result == built.result
              && r.engine.ledger == built.engine.ledger && r.engine.validators == built.engine.validators
              && r.engine.height == e.height && r.engine.previousHash == e.previousHash
              && r.engine.finalized == e.finalized && r.engine.voted == e.voted + {(h, e.local)}
              && HoldsOwn(e, r.engine, h, r.result.value)
  {}

  /** Round `h` was given block `b`, its proposal and the node's own vote for it. */
  ghost predicate HoldsOwn(e: Engine, e': Engine, h: nat, b: Block) {
    && e'.rounds.Keys == e.rounds.Keys + {h}
    && (forall g :: g in e.rounds && g != h ==> e'.rounds[g] == e.rounds[g])
    && e'.rounds[h].block == Some(b)
    && e'.rounds[h].proposal == Some(Proposal(HeaderHash(b.header), h, 0, e.local))
    && e'.rounds[h].votes ==
       (if h in e.rounds then e.rounds[h].votes else map[])[e.local := Vote(HeaderHash(b.header), h, 0, e.local)]
    && e'.rounds[h].finalized == (h in e.rounds && e.rounds[h].finalized)
  }

  lemma ProposeKeepsBuilt(env: Env, e: Engine, h: nat, all: seq<Transaction>, ts: nat)
    requires Proposer(e.validators, h, 0) == Some(e.local)
    ensures var e', built := Propose(env, e, h, all, ts).engine, BuildBlock(env, e, h, all, ts).engine;
            e'.ledger == built.ledger && e'.validators == built.validators
  {}

  lemma ProposeExecutes(env: Env, e: Engine, h: nat, all: seq<Transaction>, ts: nat) returns (txs: seq<Transaction>)
    ensures Executed(env, e, Propose(env, e, h, all, ts).engine, txs)
  {
    if Proposer(e.validators, h, 0) == Some(e.local) {
      txs := BuildExecutes(env, e, h, all, ts);
      ProposeKeepsBuilt(env, e, h, all, ts);
    } else {
      txs := [];
    }
  }

  /** Everything but proposing leaves both alone. */
  lemma OthersExecuteNothing(genesis: Hash, env: Env, e: Engine, c: Call)
    requires Safe(genesis, e) && !c.CallPropose?
    ensures Perform(env, e, c).ledger == e.ledger && Perform(env, e, c).validators == e.validators
  {
    match c
    case CallFinalize(hash) => FinalizeAdvancesOrNot(genesis, e, hash);
    case CallFinalizePending => FinalizePendingReachesFixpoint(genesis, e);
    case CallHandleBlock(b) =>
    case CallHandleVote(v) =>
  }

  lemma CallEffect(genesis: Hash, env: Env, e: Engine, c: Call) returns (txs: seq<Transaction>)
    requires Safe(genesis, e)
    ensures Executed(env, e, Perform(env, e, c), txs)
  {
    if c.CallPropose? {
      txs := ProposeExecutes(env, e, c.height, c.txs, c.timestamp);
    } else {
      txs := [];
      OthersExecuteNothing(genesis, env, e, c);
    }
  }

  /** Powers add up to at most the maximum supply, and quorums are decided without
      wrap-around. */
  ghost predicate ExactQuorum(vs: ValidatorSet) {
    && TotalPower(vs) <= MAX_SUPPLY && QuorumThreshold64(vs) == QuorumThreshold(vs)
    && forall voters :: IsQuorum64(vs, voters) <==> IsQuorum(vs, voters)
  }

  ghost predicate Sound(vs0: ValidatorSet, e: Engine) {
    Consistent(e.ledger) && Supply(e.ledger) <= MAX_SUPPLY && (e.validators == vs0 || ExactQuorum(e.validators))
  }

  lemma CallSound(genesis: Hash, env: Env, vs0: ValidatorSet, e: Engine, c: Call) returns (txs: seq<Transaction>)
    requires Safe(genesis, e) && Sound(vs0, e)
    ensures Sound(vs0, Perform(env, e, c)) && Perform(env, e, c).ledger == ExecuteAll(env, e.ledger, txs)
  {
    txs := CallEffect(genesis, env, e, c);
    ExecutedSound(env, vs0, e, Perform(env, e, c), txs);
  }

  lemma ExecutedSound(env: Env, vs0: ValidatorSet, e: Engine, e': Engine, txs: seq<Transaction>)
    requires Sound(vs0, e) && Executed(env, e, e', txs)
    ensures Sound(vs0, e')
  {
    SupplyConserved(env, e.ledger, txs);
    if e'.validators != e.validators { SelectedIsExact(e'.ledger); }
  }

  lemma SelectedIsExact(l: Ledger)
    requires Supply(l) <= MAX_SUPPLY
    ensures ExactQuorum(ActiveValidators(ListValidators(l.validators)))
  {
    QuorumArithmeticExact(l);
  }

  /** Over every sequence of calls on a safe engine the ledger is the result of some
      list of transactions, supply plus burned fees is conserved, delegations stay
      consistent, and the validator set is the configured one or one whose quorum
      arithmetic is exact. */
  lemma {:induction false} EngineLedgerSound(genesis: Hash, env: Env, vs0: ValidatorSet, e: Engine, calls: seq<Call>)
    returns (txs: seq<Transaction>)
    requires Safe(genesis, e) && ProposesAbove(env, e, calls) && Sound(vs0, e)
    ensures var e' := PerformAll(env, e, calls);
            && Sound(vs0, e') && e'.ledger == ExecuteAll(env, e.ledger, txs)
            && Supply(e'.ledger) + FeesBurned(env, e.ledger, txs) == Supply(e.ledger)
    decreases |calls|
  {
    txs := [];
    if calls != [] {
      var now := CallSound(genesis, env, vs0, e, calls[0]);
      PerformSafe(genesis, env, e, calls[0]);
      var later := EngineLedgerSound(genesis, env, vs0, Perform(env, e, calls[0]), calls[1..]);
      txs := now + later;
      ExecuteAllAppend(env, e.ledger, now, later);
    }
    SupplyConserved(env, e.ledger, txs);
  }

  /** From genesis accounts within the maximum supply the above holds of every engine. */
  lemma GenesisSound(vs: ValidatorSet, local: Address, accounts: map<Address, Account>, genesis: Hash)
    requires Supply(Ledger(accounts, map[], map[])) <= MAX_SUPPLY
    ensures Sound(vs, NewEngine(local, vs, Ledger(accounts, map[], map[]), genesis))
    ensures Safe(genesis, NewEngine(local, vs, Ledger(accounts, map[], map[]), genesis))
  {
    GenesisConsistent(accounts);
    NewEngineSafe(local, vs, Ledger(accounts, map[], map[]), genesis);
  }
}
