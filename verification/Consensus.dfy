/** The engine as the node runs it: one object whose methods update its fields in
    place, each proved equal to its function in `Finality`. */
module Consensus {
  import opened Primitives
  import opened LedgerModel
  import opened Storage
  import opened Validators
  import opened ActiveSet
  import opened Finality
  import F = Finality

  class BftConsensus {
    const env: Env
    const localAddress: Address
    var validatorSet: ValidatorSet
    var state: Ledger
    var height: nat
    var previousHash: Hash
    var rounds: map<nat, RoundState>
    var finalized: map<nat, Block>
    var votedThisHeight: set<(nat, Address)>

    function View(): Engine
      reads this
    {
      Engine(localAddress, validatorSet, state, height, previousHash, rounds, finalized, votedThisHeight)
    }

    constructor (env: Env, local: Address, vs: ValidatorSet, ledger: Ledger, genesis: Hash)
      requires local in vs
      ensures this.env == env && View() == NewEngine(local, vs, ledger, genesis)
    {
      this.env := env;
      localAddress := local;
      validatorSet := vs;
      state := ledger;
      height := 0;
      previousHash := genesis;
      rounds := map[];
      finalized := map[];
      votedThisHeight := {};
    }

    method HandleBlock(b: Block) returns (r: Result<Vote, ConsensusError>)
      modifies this
      ensures Reply(View(), r) == F.HandleBlock(old(View()), b)
    {
      var proposal := ProposalOf(b);
      if !ValidProposal(View(), proposal) { return Err(InvalidProposal); }
      var h := proposal.height;
      var round := RoundOf(View(), h);
      round := round.(proposal := Some(proposal), block := Some(b));
      var key := (h, localAddress);
      if key !in votedThisHeight {
        var vote := Vote(proposal.blockHash, h, 0, localAddress);
        rounds := rounds[h := round.(votes := round.votes[localAddress := vote])];
        votedThisHeight := votedThisHeight + {key};
        r := Ok(vote);
      } else {
        rounds := rounds[h := round];
        r := Err(InvalidVote);
      }
    }

    method HandleVote(v: Vote) returns (r: Result<(), ConsensusError>)
      modifies this`rounds
      ensures Reply(View(), r) == F.HandleVote(old(View()), v)
    {
      if !ValidVote(View(), v) { return Err(InvalidVote); }
      var round := rounds[v.height];
      rounds := rounds[v.height := round.(votes := round.votes[v.voter := v])];
      r := Ok(());
    }

    method BuildBlock(h: nat, txs: seq<Transaction>, timestamp: nat) returns (r: Result<Block, ConsensusError>)
      modifies this`state, this`validatorSet
      ensures Reply(View(), r) == F.BuildBlock(env, old(View()), h, txs, timestamp)
    {
      var i := 0;
      while i < |txs|
        invariant 0 <= i <= |txs|
        invariant RunTransactions(env, old(state), txs) == RunTransactions(env, state, txs[i..])
        invariant View() == old(View()).(ledger := state)
      {
        var applied := Execute(env, state, txs[i]);
        state := applied.ledger;
        if applied.outcome.Failed? { return Err(ExecutionFailed); }
        i := i + 1;
      }
      validatorSet := UpdatedSet(validatorSet, ListValidators(state.validators));
      var header := BlockHeader(h, timestamp, previousHash, StateHash(state), TransactionsHash(txs), localAddress);
      r := Ok(Block(header, txs));
    }

    method Propose(h: nat, txs: seq<Transaction>, timestamp: nat) returns (r: Result<Block, ConsensusError>)
      modifies this
      ensures Reply(View(), r) == F.Propose(env, old(View()), h, txs, timestamp)
    {
      if Proposer(validatorSet, h, 0) != Some(localAddress) { return Err(NotProposer); }
      r := BuildBlock(h, txs, timestamp);
      if r.Err? { return; }
      var b := r.value;
      var round := RoundOf(View(), h);
      var vote := Vote(BlockHash(b), h, 0, localAddress);
      round := round.(proposal := Some(Proposal(BlockHash(b), h, 0, localAddress)), block := Some(b));
      rounds := rounds[h := round.(votes := round.votes[localAddress := vote])];
      votedThisHeight := votedThisHeight + {(h, localAddress)};
    }

    method TryFinalize(h: nat) returns (b: Option<Block>)
      modifies this
      ensures (View(), b) == F.TryFinalize(old(View()), h)
    {
      if !HasQuorum(View(), h) { return None; }
      var round := rounds[h];
      if round.finalized { return round.block; }
      rounds := rounds[h := round.(finalized := true)];
      b := round.block;
      if b.Some? {
        finalized := finalized[h := b.value];
        previousHash := BlockHash(b.value);
        height := h;
        votedThisHeight := set k | k in votedThisHeight && k.0 != h;
      }
    }

    method Finalize(hash: Hash) returns (b: Option<Block>)
      modifies this
      ensures (View(), b) == F.Finalize(old(View()), hash)
    {
      var h := height + 1;
      if h in rounds && rounds[h].proposal.Some? && rounds[h].proposal.value.blockHash == hash {
        FinalizeFires(View(), hash);
        b := TryFinalize(h);
      } else {
        FinalizeSkips(View(), hash);
        b := None;
      }
    }

    method FinalizePending() returns (last: Option<Block>)
      modifies this
      ensures (View(), last) == F.FinalizePending(old(View()))
    {
      var candidates := PendingHeights(View());
      last := None;
      var i := 0;
      while i < |candidates|
        invariant 0 <= i <= |candidates|
        invariant FinalizeEach(old(View()), candidates, None) == FinalizeEach(View(), candidates[i..], last)
      {
        var round := RoundOf(View(), candidates[i]);
        if round.proposal.Some? {
          var b := Finalize(round.proposal.value.blockHash);
          if b.Some? { last := b; }
        }
        i := i + 1;
      }
    }

    method OwnVote(h: nat) returns (v: Option<Vote>)
      ensures v == if localAddress in RoundOf(View(), h).votes
                   then Some(RoundOf(View(), h).votes[localAddress]) else None
    {
      if h !in rounds { return None; }
      v := if localAddress in rounds[h].votes then Some(rounds[h].votes[localAddress]) else None;
    }

    method OwnProposal(h: nat) returns (b: Option<Block>)
      ensures b == RoundOf(View(), h).block
    {
      b := if h in rounds then rounds[h].block else None;
    }
  }
}
