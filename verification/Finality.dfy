/** One node's finality engine: its state as a value and its operations as
    functions on that value. Hashes are symbolic: each constructor is the digest of
    its argument, so distinct arguments have distinct digests. */
module Finality {
  import opened Primitives
  import opened Ordering
  import opened LedgerModel
  import opened Storage
  import opened Validators
  import opened ActiveSet

  // ------------------------------------------------------------- data model --

  datatype Hash =
    | Digest(tag: nat)
    | HeaderHash(header: BlockHeader)
    | StateHash(ledger: Ledger)
    | TransactionsHash(txs: seq<Transaction>)

  datatype BlockHeader = BlockHeader(
    height: nat, timestamp: nat, previousHash: Hash, stateRoot: Hash, txRoot: Hash, proposer: Address)

  datatype Block = Block(header: BlockHeader, transactions: seq<Transaction>)

  /** `Block::hash` covers the header only. */
  function BlockHash(b: Block): Hash {
    HeaderHash(b.header)
  }

  datatype Proposal = Proposal(blockHash: Hash, height: nat, round: nat, proposer: Address)

  datatype Vote = Vote(blockHash: Hash, height: nat, round: nat, voter: Address)

  function ProposalOf(b: Block): Proposal {
    Proposal(BlockHash(b), b.header.height, 0, b.header.proposer)
  }

  datatype RoundState = RoundState(
    proposal: Option<Proposal>, block: Option<Block>, votes: map<Address, Vote>, finalized: bool)

  const EMPTY_ROUND := RoundState(None, None, map[], false)

  datatype ConsensusError = NotProposer | InvalidProposal | InvalidVote | ExecutionFailed

  datatype Engine = Engine(
    local: Address, validators: ValidatorSet, ledger: Ledger, height: nat, previousHash: Hash,
    rounds: map<nat, RoundState>, finalized: map<nat, Block>, voted: set<(nat, Address)>)

  datatype Reply<+T> = Reply(engine: Engine, result: Result<T, ConsensusError>)

  function NewEngine(local: Address, vs: ValidatorSet, ledger: Ledger, genesis: Hash): Engine {
    Engine(local, vs, ledger, 0, genesis, map[], map[], {})
  }

  function RoundOf(e: Engine, h: nat): RoundState {
    if h in e.rounds then e.rounds[h] else EMPTY_ROUND
  }

  // -------------------------------------------------------------- operations --

  predicate ValidProposal(e: Engine, p: Proposal) {
    && Proposer(e.validators, p.height, p.round) == Some(p.proposer)
    && e.height < p.height
  }

  function HandleBlock(e: Engine, b: Block): Reply<Vote> {
    var h := b.header.height;
    if !ValidProposal(e, ProposalOf(b)) then Reply(e, Err(InvalidProposal))
    else
      var round := RoundOf(e, h).(proposal := Some(ProposalOf(b)), block := Some(b));
      if (h, e.local) !in e.voted then
        var vote := Vote(BlockHash(b), h, 0, e.local);
        Reply(e.(rounds := e.rounds[h := round.(votes := round.votes[e.local := vote])],
                 voted := e.voted + {(h, e.local)}),
              Ok(vote))
      else
        Reply(e.(rounds := e.rounds[h := round]), Err(InvalidVote))
  }

  predicate ValidVote(e: Engine, v: Vote) {
    && e.height < v.height
    && v.voter in e.validators
    && v.height in e.rounds
    && e.rounds[v.height].proposal.Some?
    && e.rounds[v.height].proposal.value.blockHash == v.blockHash
  }

  function HandleVote(e: Engine, v: Vote): Reply<()> {
    if !ValidVote(e, v) then Reply(e, Err(InvalidVote))
    else
      var round := e.rounds[v.height];
      Reply(e.(rounds := e.rounds[v.height := round.(votes := round.votes[v.voter := v])]), Ok(()))
  }

  /** Execute a block's transactions until one returns an error; what ran stays. */
  function RunTransactions(env: Env, l: Ledger, txs: seq<Transaction>): (Ledger, bool)
    decreases |txs|
  {
    if txs == [] then (l, true)
    else
      var r := Execute(env, l, txs[0]);
      if r.outcome.Failed? then (r.ledger, false) else RunTransactions(env, r.ledger, txs[1..])
  }

  function BuildBlock(env: Env, e: Engine, height: nat, txs: seq<Transaction>, timestamp: nat): Reply<Block> {
    var (ledger, ok) := RunTransactions(env, e.ledger, txs);
    if !ok then Reply(e.(ledger := ledger), Err(ExecutionFailed))
    else
      var e1 := e.(ledger := ledger, validators := UpdatedSet(e.validators, ListValidators(ledger.validators)));
      var header := BlockHeader(height, timestamp, e.previousHash, StateHash(ledger), TransactionsHash(txs), e.local);
      Reply(e1, Ok(Block(header, txs)))
  }

  /** Store the freshly built block and vote for it. */
  function RecordOwnBlock(e: Engine, height: nat, b: Block): Engine {
    var vote := Vote(BlockHash(b), height, 0, e.local);
    var round := RoundOf(e, height);
    e.(rounds := e.rounds[height := RoundState(Some(Proposal(BlockHash(b), height, 0, e.local)), Some(b),
                                              round.votes[e.local := vote], round.finalized)],
       voted := e.voted + {(height, e.local)})
  }

  function Propose(env: Env, e: Engine, height: nat, txs: seq<Transaction>, timestamp: nat): Reply<Block> {
    if Proposer(e.validators, height, 0) != Some(e.local) then Reply(e, Err(NotProposer))
    else
      var built := BuildBlock(env, e, height, txs, timestamp);
      match built.result
      case Err(err) => built
      case Ok(b) => Reply(RecordOwnBlock(built.engine, height, b), Ok(b))
  }

  /** Recorded voters, whatever hash they voted for, hold quorum power. */
  predicate HasQuorum(e: Engine, h: nat) {
    h in e.rounds && IsQuorum(e.validators, e.rounds[h].votes.Keys)
  }

  function TryFinalize(e: Engine, h: nat): (Engine, Option<Block>) {
    if !HasQuorum(e, h) then (e, None)
    else if e.rounds[h].finalized then (e, e.rounds[h].block)
    else
      var e1 := e.(rounds := e.rounds[h := e.rounds[h].(finalized := true)]);
      match e.rounds[h].block
      case None => (e1, None)
      case Some(b) =>
        (e1.(finalized := e.finalized[h := b], previousHash := BlockHash(b), height := h,
             voted := set k | k in e.voted && k.0 != h),
         Some(b))
  }

  predicate NextHasHash(e: Engine, hash: Hash) {
    var n := e.height + 1;
    n in e.rounds && e.rounds[n].proposal.Some? && e.rounds[n].proposal.value.blockHash == hash
  }

  /** Only the next height is ever looked at. */
  function Finalize(e: Engine, hash: Hash): (Engine, Option<Block>) {
    if NextHasHash(e, hash) then TryFinalize(e, e.height + 1) else (e, None)
  }

  lemma FinalizeFires(e: Engine, hash: Hash)
    requires NextHasHash(e, hash)
    ensures Finalize(e, hash) == TryFinalize(e, e.height + 1)
  {}

  lemma FinalizeSkips(e: Engine, hash: Hash)
    requires !NextHasHash(e, hash)
    ensures Finalize(e, hash) == (e, None)
  {}

  function PendingHeights(e: Engine): seq<nat> {
    SortedHeights(set h | h in e.rounds && e.height < h && e.rounds[h].proposal.Some?)
  }

  function FinalizeEach(e: Engine, candidates: seq<nat>, last: Option<Block>): (Engine, Option<Block>)
    decreases |candidates|
  {
    if candidates == [] then (e, last)
    else
      var round := RoundOf(e, candidates[0]);
      if round.proposal.None? then FinalizeEach(e, candidates[1..], last)
      else
        var (e1, b) := Finalize(e, round.proposal.value.blockHash);
        FinalizeEach(e1, candidates[1..], if b.Some? then b else last)
  }

  function FinalizePending(e: Engine): (Engine, Option<Block>) {
    FinalizeEach(e, PendingHeights(e), None)
  }
}
