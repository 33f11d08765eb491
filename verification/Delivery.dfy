/** What handing messages to a node does, step by step, and what it leaves alone:
    the vocabulary in which particular runs of the network are put together. */
module Delivery {
  import opened Primitives
  import opened Validators
  import opened Finality
  import opened EngineSafety
  import opened Network
  import opened NetworkSafety

  function VoteFor(b: Block, q: Address): Vote {
    Vote(BlockHash(b), b.header.height, 0, q)
  }

  /** The engine holds `b`, or has finalized it. */
  ghost predicate OnBlock(e: Engine, b: Block) {
    b.header.height in e.rounds && e.rounds[b.header.height].block == Some(b)
  }

  /** The voters recorded for the height of `b`. */
  ghost function RecordedVoters(e: Engine, b: Block): set<Address>
    requires OnBlock(e, b)
  {
    e.rounds[b.header.height].votes.Keys
  }

  /** The engine is past `b`, or has recorded all these voters for its height. */
  ghost predicate Counted(e: Engine, b: Block, voters: set<Address>) {
    OnBlock(e, b) && (b.header.height <= e.height || voters <= RecordedVoters(e, b))
  }

  /** The network loop of `k` waits for a message, and `k` has seen nothing at the
      height of `b`. */
  ghost predicate Unseen(s: Net, k: Address, b: Block) {
    && k in s.nodes && !s.nodes[k].due
    && s.nodes[k].engine.height < b.header.height && b.header.height !in Rounds(s, k)
  }

  ghost predicate UnseenByAll(s: Net, b: Block) {
    forall k :: k in s.nodes ==> Unseen(s, k, b)
  }

  // ------------------------------------------------------------------ frames --

  /** At heights other than `h` no round was opened, and blocks and votes stayed. */
  ghost predicate Elsewhere(e: Engine, e': Engine, h: nat) {
    && e.rounds.Keys <= e'.rounds.Keys <= e.rounds.Keys + {h}
    && forall g :: g in e.rounds && g != h ==>
         e'.rounds[g].block == e.rounds[g].block && e'.rounds[g].votes == e.rounds[g].votes
  }

  /** A node moved at height `h` only, by its network loop. */
  ghost predicate Stays(n: Node, n': Node, h: nat) {
    && Elsewhere(n.engine, n'.engine, h) && n.engine.height <= n'.engine.height
    && n'.nextHeight == n.nextHeight && n'.lastProposed == n.lastProposed && (n'.due ==> n.due)
  }

  /** Only votes for height `h` were added. */
  ghost predicate MoreVotes(votes: set<Vote>, votes': set<Vote>, h: nat) {
    votes <= votes' && forall v :: v in votes' ==> v in votes || v.height == h
  }

  /** All nodes moved at height `h` only, and no new block was sent. */
  ghost predicate Within(s: Net, s': Net, h: nat) {
    && s'.nodes.Keys == s.nodes.Keys && MoreVotes(s.votes, s'.votes, h) && s'.blocks == s.blocks
    && forall k {:trigger Stays(s.nodes[k], s'.nodes[k], h)} :: k in s.nodes ==> Stays(s.nodes[k], s'.nodes[k], h)
  }

  /** No node but `k` moved, and the network loop of `k` waits again. */
  ghost predicate OnlyMoved(s: Net, s': Net, k: Address, h: nat) {
    && k in s.nodes && Within(s, s', h) && !s'.nodes[k].due
    && forall c :: c in s.nodes && c != k ==> s'.nodes[c] == s.nodes[c]
  }

  lemma StaysSame(n: Node, h: nat)
    ensures Stays(n, n, h)
  {}

  lemma StaysTrans(n: Node, n1: Node, n2: Node, h: nat)
    requires Stays(n, n1, h) && Stays(n1, n2, h)
    ensures Stays(n, n2, h)
  {}

  lemma WithinSame(s: Net, s': Net, h: nat)
    requires s'.nodes == s.nodes && s'.blocks == s.blocks && MoreVotes(s.votes, s'.votes, h)
    ensures Within(s, s', h)
  {
    forall k | k in s.nodes ensures Stays(s.nodes[k], s'.nodes[k], h) { StaysSame(s.nodes[k], h); }
  }

  lemma WithinTrans(s: Net, s1: Net, s2: Net, h: nat)
    requires Within(s, s1, h) && Within(s1, s2, h)
    ensures Within(s, s2, h)
  {
    forall k | k in s.nodes ensures Stays(s.nodes[k], s2.nodes[k], h) {
      assert Stays(s.nodes[k], s1.nodes[k], h) && Stays(s1.nodes[k], s2.nodes[k], h);
      StaysTrans(s.nodes[k], s1.nodes[k], s2.nodes[k], h);
    }
  }

  lemma MovedTrans(s: Net, s1: Net, s2: Net, k: Address, h: nat)
    requires OnlyMoved(s, s1, k, h) && OnlyMoved(s1, s2, k, h)
    ensures OnlyMoved(s, s2, k, h)
  {
    WithinTrans(s, s1, s2, h);
  }

  lemma MovedByPut(s: Net, s': Net, k: Address, n: Node, h: nat)
    requires k in s.nodes && s'.nodes == s.nodes[k := n] && Stays(s.nodes[k], n, h) && !n.due
    requires s'.blocks == s.blocks && MoreVotes(s.votes, s'.votes, h)
    ensures OnlyMoved(s, s', k, h)
  {
    forall c | c in s.nodes ensures Stays(s.nodes[c], s'.nodes[c], h) {
      if c != k { StaysSame(s.nodes[c], h); }
    }
  }

  lemma RunOne(cfg: Config, s: Net, step: Step)
    ensures Run(cfg, s, [step]) == Next(cfg, s, step)
  {
    assert Run(cfg, Next(cfg, s, step), []) == Next(cfg, s, step);
  }

  lemma RunTwo(cfg: Config, s: Net, step1: Step, step2: Step)
    ensures Run(cfg, s, [step1, step2]) == Next(cfg, Next(cfg, s, step1), step2)
  {
    assert [step1, step2][1..] == [step2];
    RunOne(cfg, Next(cfg, s, step1), step2);
  }

  lemma {:induction false} Enumerate(s: set<Address>) returns (r: seq<Address>)
    ensures Distinct(r) && forall a :: a in r <==> a in s
    decreases |s|
  {
    if s == {} {
      r := [];
    } else {
      var a :| a in s;
      assert |s - {a}| == |s| - 1;
      var rest := Enumerate(s - {a});
      r := [a] + rest;
    }
  }

  lemma EngineFacts(cfg: Config, s: Net, k: Address)
    requires NodesOk(cfg, s) && k in s.nodes
    ensures s.nodes[k].engine.validators == cfg.validators && ChainOk(s.nodes[k].engine)
  {
    assert NodeOk(cfg, k, s.nodes[k]);
  }

  // ------------------------------------------------------------- blocks in ----

  /** The height only rose, and every block and vote held is still there. */
  ghost predicate KeepsRounds(e: Engine, e': Engine) {
    && e.height <= e'.height && e'.rounds.Keys == e.rounds.Keys
    && forall h :: h in e.rounds ==> e'.rounds[h].block == e.rounds[h].block && e'.rounds[h].votes == e.rounds[h].votes
  }

  lemma FinalizeKeeps(genesis: Hash, e: Engine)
    requires Safe(genesis, e)
    ensures KeepsRounds(e, FinalizePending(e).0) && !Ready(FinalizePending(e).0, FinalizePending(e).0.height + 1)
  {
    FinalizePendingReachesFixpoint(genesis, e);
    assert RoundsAdvanced(e, FinalizePending(e).0, FinalizePending(e).0.height);
  }

  lemma ElsewhereThenKeeps(e: Engine, e1: Engine, e': Engine, h: nat)
    requires Elsewhere(e, e1, h) && KeepsRounds(e1, e')
    ensures Elsewhere(e, e', h)
  {}

  lemma PutElsewhere(e: Engine, e': Engine, h: nat, r: RoundState)
    requires e'.rounds == e.rounds[h := r]
    ensures Elsewhere(e, e', h)
  {}

  lemma HandleBlockElsewhere(e: Engine, b: Block)
    ensures Elsewhere(e, HandleBlock(e, b).engine, b.header.height) && HandleBlock(e, b).engine.height == e.height
    ensures HandleBlock(e, b).result.Ok? ==> HandleBlock(e, b).result.value.height == b.header.height
  {
    var e', h := HandleBlock(e, b).engine, b.header.height;
    if ValidProposal(e, ProposalOf(b)) {
      PutElsewhere(e, e', h, e'.rounds[h]);
    } else {
      assert e' == e;
    }
  }

  /** The step that hands block `b` to `k`, given what the engine answers. */
  lemma DeliverShape(cfg: Config, s: Net, k: Address, b: Block, r: Reply<Vote>)
    requires k in s.nodes && !s.nodes[k].due && b in s.blocks && HandleBlock(s.nodes[k].engine, b) == r
    ensures var s' := Next(cfg, s, StepDeliverBlock(k, b));
            && s' == SetDue(ReceiveBlock(s, k, b), k, true)
            && s'.nodes == s.nodes[k := s.nodes[k].(engine := r.engine, due := true)]
            && s'.blocks == s.blocks && s'.votes == s.votes + (if r.result.Ok? then {r.result.value} else {})
  {}

  lemma AfterShape(cfg: Config, s: Net, k: Address, e': Engine)
    requires k in s.nodes && s.nodes[k].due && FinalizePending(s.nodes[k].engine).0 == e'
    ensures var s' := Next(cfg, s, StepAfterBlock(k));
            && s' == SetDue(FinalizeAt(s, k), k, false)
            && s'.nodes == s.nodes[k := s.nodes[k].(engine := e', due := false)]
            && s'.blocks == s.blocks && s'.votes == s.votes
  {}

  /** Handing over a block and finalizing what is pending, given both answers. */
  lemma BlockShape(cfg: Config, s: Net, k: Address, b: Block, r: Reply<Vote>, e': Engine)
    requires k in s.nodes && !s.nodes[k].due && b in s.blocks && HandleBlock(s.nodes[k].engine, b) == r
    requires FinalizePending(r.engine).0 == e'
    ensures var s' := Run(cfg, s, [StepDeliverBlock(k, b), StepAfterBlock(k)]);
            && s'.nodes == s.nodes[k := s.nodes[k].(engine := e', due := false)]
            && s'.blocks == s.blocks && s'.votes == s.votes + (if r.result.Ok? then {r.result.value} else {})
  {
    DeliverShape(cfg, s, k, b, r);
    AfterShape(cfg, Next(cfg, s, StepDeliverBlock(k, b)), k, e');
    RunTwo(cfg, s, StepDeliverBlock(k, b), StepAfterBlock(k));
  }

  /** Whatever the block, the node moves at its height only. */
  lemma BlockMoves(cfg: Config, s: Net, k: Address, b: Block)
    requires k in s.nodes && !s.nodes[k].due && b in s.blocks && Safe(cfg.genesis, s.nodes[k].engine)
    ensures var s' := Run(cfg, s, [StepDeliverBlock(k, b), StepAfterBlock(k)]);
            var r := HandleBlock(s.nodes[k].engine, b);
            && OnlyMoved(s, s', k, b.header.height) && s'.nodes[k].engine == FinalizePending(r.engine).0
            && KeepsRounds(r.engine, s'.nodes[k].engine)
            && s'.votes == s.votes + (if r.result.Ok? then {r.result.value} else {})
  {
    var s' := Run(cfg, s, [StepDeliverBlock(k, b), StepAfterBlock(k)]);
    var e := s.nodes[k].engine;
    var r := HandleBlock(e, b);
    var e' := FinalizePending(r.engine).0;
    HandleBlockSafe(cfg.genesis, e, b);
    FinalizeKeeps(cfg.genesis, r.engine);
    BlockShape(cfg, s, k, b, r, e');
    HandleBlockElsewhere(e, b);
    ElsewhereThenKeeps(e, r.engine, e', b.header.height);
    MovedByPut(s, s', k, s.nodes[k].(engine := e', due := false), b.header.height);
  }

  /** Node `k`, unseen before, now holds `b` or is past it. */
  ghost predicate FreshlyOn(s: Net, k: Address, b: Block) {
    && k in s.nodes && !s.nodes[k].due
    && OnBlock(s.nodes[k].engine, b) && RecordedVoters(s.nodes[k].engine, b) == {k}
  }

  lemma OthersBlock(cfg: Config, s: Net, k: Address, b: Block)
    requires Inv(cfg, s) && b in s.blocks && Unseen(s, k, b) && ProposedBy(cfg, b.header.height, b.header.proposer)
    ensures NodeOk(cfg, k, s.nodes[k]) && b.header.proposer != k && ValidProposal(s.nodes[k].engine, ProposalOf(b))
  {
    OwnMessages(s, k);
  }

  lemma FirstBlockEffect(cfg: Config, k: Address, n: Node, b: Block)
    requires NodeOk(cfg, k, n) && ValidProposal(n.engine, ProposalOf(b)) && b.header.height !in n.engine.rounds
    requires b.header.proposer != k
    ensures var r := HandleBlock(n.engine, b);
            && Safe(cfg.genesis, n.engine) && r.result == Ok(VoteFor(b, k))
            && OnBlock(r.engine, b) && RecordedVoters(r.engine, b) == {k}
  {
    FirstBlock(cfg, k, n, b);
  }

  /** An idle node that receives its first block for a height votes for it. */
  lemma VoteOnBlock(cfg: Config, s: Net, k: Address, b: Block)
    requires Inv(cfg, s) && b in s.blocks && Unseen(s, k, b) && ProposedBy(cfg, b.header.height, b.header.proposer)
    ensures var s' := Run(cfg, s, [StepDeliverBlock(k, b), StepAfterBlock(k)]);
            && Inv(cfg, s') && OnlyMoved(s, s', k, b.header.height)
            && s'.votes == s.votes + {VoteFor(b, k)} && FreshlyOn(s', k, b)
  {
    RunInv(cfg, s, [StepDeliverBlock(k, b), StepAfterBlock(k)]);
    OthersBlock(cfg, s, k, b);
    FirstBlockEffect(cfg, k, s.nodes[k], b);
    BlockMoves(cfg, s, k, b);
  }

  /** The engine moved from `b` to `b'` with the same voters. */
  ghost predicate Switched(e: Engine, e': Engine, b: Block, b': Block) {
    OnBlock(e, b) && OnBlock(e', b') && RecordedVoters(e', b') == RecordedVoters(e, b)
  }

  lemma ReplaceEffect(cfg: Config, k: Address, e: Engine, b: Block, b': Block)
    requires Configured(cfg, k, e) && Safe(cfg.genesis, e) && OnBlock(e, b) && e.height < b.header.height
    requires b'.header.height == b.header.height && ProposedBy(cfg, b'.header.height, b'.header.proposer)
    ensures HandleBlock(e, b').result.Err? && Switched(e, HandleBlock(e, b').engine, b, b')
  {
    HandleKnownHeight(cfg.genesis, e, b');
  }

  /** A later block for an open height replaces the one held; the voters stay. */
  lemma ReplaceHeld(cfg: Config, s: Net, k: Address, b: Block, b': Block)
    requires Inv(cfg, s) && Listening(s, k, b) && s.nodes[k].engine.height < b.header.height && b' in s.blocks
    requires b'.header.height == b.header.height && ProposedBy(cfg, b'.header.height, b'.header.proposer)
    ensures var s' := Run(cfg, s, [StepDeliverBlock(k, b'), StepAfterBlock(k)]);
            && Inv(cfg, s') && OnlyMoved(s, s', k, b.header.height) && s'.votes == s.votes
            && Switched(s.nodes[k].engine, s'.nodes[k].engine, b, b')
  {
    RunInv(cfg, s, [StepDeliverBlock(k, b'), StepAfterBlock(k)]);
    SafeHere(cfg, s, k);
    ReplaceEffect(cfg, k, s.nodes[k].engine, b, b');
    BlockMoves(cfg, s, k, b');
  }

  lemma SafeHere(cfg: Config, s: Net, k: Address)
    requires NodesOk(cfg, s) && k in s.nodes
    ensures Configured(cfg, k, s.nodes[k].engine) && Safe(cfg.genesis, s.nodes[k].engine)
  {
    assert NodeOk(cfg, k, s.nodes[k]);
  }

  // -------------------------------------------------------------- votes in ----

  /** The network loop of `k` waits for a message and `k` is on `b`. */
  ghost predicate Listening(s: Net, k: Address, b: Block) {
    k in s.nodes && !s.nodes[k].due && OnBlock(s.nodes[k].engine, b)
  }

  lemma VoteShape(cfg: Config, s: Net, k: Address, v: Vote, e': Engine)
    requires k in s.nodes && !s.nodes[k].due && v in s.votes
    requires FinalizePending(HandleVote(s.nodes[k].engine, v).engine).0 == e'
    ensures var s' := Next(cfg, s, StepDeliverVote(k, v));
            && s'.nodes == s.nodes[k := s.nodes[k].(engine := e')] && s'.blocks == s.blocks && s'.votes == s.votes
  {}

  /** The vote was recorded in the round of the held block, if that is still open. */
  ghost predicate Recorded(e: Engine, e': Engine, b: Block, q: Address) {
    && OnBlock(e, b) && OnBlock(e', b) && Elsewhere(e, e', b.header.height)
    && RecordedVoters(e', b) == RecordedVoters(e, b) + (if e.height < b.header.height then {q} else {})
  }

  /** What handling a vote of `q` for `b` and finalizing does to an engine on `b`. */
  ghost predicate TookVote(e: Engine, e': Engine, b: Block, q: Address) {
    Recorded(e, e', b, q) && e.height <= e'.height && !Ready(e', e'.height + 1)
  }

  lemma HandleVoteEffect(cfg: Config, k: Address, e: Engine, b: Block, q: Address)
    requires Configured(cfg, k, e) && Safe(cfg.genesis, e) && OnBlock(e, b) && q in cfg.validators
    ensures var e' := HandleVote(e, VoteFor(b, q)).engine;
            Recorded(e, e', b, q) && e'.height == e.height && Safe(cfg.genesis, e')
  {
    HandleVoteSafe(cfg.genesis, e, VoteFor(b, q));
    assert RoundOk(e, b.header.height, e.rounds[b.header.height]);
  }

  lemma TakesVote(genesis: Hash, e: Engine, e1: Engine, b: Block, q: Address)
    requires Safe(genesis, e1) && Recorded(e, e1, b, q) && e1.height == e.height
    ensures TookVote(e, FinalizePending(e1).0, b, q)
  {
    FinalizeKeeps(genesis, e1);
    ElsewhereThenKeeps(e, e1, FinalizePending(e1).0, b.header.height);
  }

  lemma VoteCounted(cfg: Config, k: Address, e: Engine, b: Block, q: Address)
    requires Configured(cfg, k, e) && Safe(cfg.genesis, e) && OnBlock(e, b) && q in cfg.validators
    ensures TookVote(e, FinalizePending(HandleVote(e, VoteFor(b, q)).engine).0, b, q)
  {
    HandleVoteEffect(cfg, k, e, b, q);
    TakesVote(cfg.genesis, e, HandleVote(e, VoteFor(b, q)).engine, b, q);
  }

  lemma RecordVote(cfg: Config, s: Net, k: Address, b: Block, q: Address)
    requires Inv(cfg, s) && Listening(s, k, b) && q in cfg.validators && VoteFor(b, q) in s.votes
    ensures var s' := Next(cfg, s, StepDeliverVote(k, VoteFor(b, q)));
            && Inv(cfg, s') && OnlyMoved(s, s', k, b.header.height) && s'.votes == s.votes
            && TookVote(s.nodes[k].engine, s'.nodes[k].engine, b, q)
  {
    StepInv(cfg, s, StepDeliverVote(k, VoteFor(b, q)));
    SafeHere(cfg, s, k);
    VoteTaken(cfg, s, k, b, q);
  }

  lemma VoteTaken(cfg: Config, s: Net, k: Address, b: Block, q: Address)
    requires Listening(s, k, b) && q in cfg.validators && VoteFor(b, q) in s.votes
    requires Configured(cfg, k, s.nodes[k].engine) && Safe(cfg.genesis, s.nodes[k].engine)
    ensures var s' := Next(cfg, s, StepDeliverVote(k, VoteFor(b, q)));
            && OnlyMoved(s, s', k, b.header.height) && s'.votes == s.votes
            && TookVote(s.nodes[k].engine, s'.nodes[k].engine, b, q)
  {
    var s' := Next(cfg, s, StepDeliverVote(k, VoteFor(b, q)));
    var e' := FinalizePending(HandleVote(s.nodes[k].engine, VoteFor(b, q)).engine).0;
    VoteCounted(cfg, k, s.nodes[k].engine, b, q);
    VoteShape(cfg, s, k, VoteFor(b, q), e');
    MovedByPut(s, s', k, s.nodes[k].(engine := e'), b.header.height);
  }

  /** Node `k`, and no other, has counted these voters for `b`. */
  ghost predicate VotesTaken(s: Net, s': Net, k: Address, b: Block, voters: set<Address>) {
    && OnlyMoved(s, s', k, b.header.height) && s'.votes == s.votes && Counted(s'.nodes[k].engine, b, voters)
    && OnBlock(s.nodes[k].engine, b)
    && RecordedVoters(s'.nodes[k].engine, b) <= RecordedVoters(s.nodes[k].engine, b) + voters
    && !Ready(s'.nodes[k].engine, s'.nodes[k].engine.height + 1)
  }

  lemma OneMoreTaken(s: Net, s1: Net, s2: Net, k: Address, b: Block, voters: set<Address>, q: Address)
    requires VotesTaken(s, s1, k, b, voters) && OnlyMoved(s1, s2, k, b.header.height) && s2.votes == s1.votes
    requires TookVote(s1.nodes[k].engine, s2.nodes[k].engine, b, q)
    ensures VotesTaken(s, s2, k, b, voters + {q})
  {
    MovedTrans(s, s1, s2, k, b.header.height);
  }

  lemma FirstTaken(s: Net, s': Net, k: Address, b: Block, q: Address)
    requires OnlyMoved(s, s', k, b.header.height) && s'.votes == s.votes
    requires TookVote(s.nodes[k].engine, s'.nodes[k].engine, b, q)
    ensures VotesTaken(s, s', k, b, {q})
  {}

  /** Deliver the votes of the listed validators for `b` to node `k`. */
  lemma {:induction false} RecordVotes(cfg: Config, s: Net, k: Address, b: Block, qs: seq<Address>)
    returns (steps: seq<Step>)
    requires Inv(cfg, s) && Listening(s, k, b) && qs != []
    requires forall q :: q in qs ==> q in cfg.validators && VoteFor(b, q) in s.votes
    ensures Inv(cfg, Run(cfg, s, steps)) && VotesTaken(s, Run(cfg, s, steps), k, b, Members(qs))
    decreases |qs|
  {
    var n := |qs| - 1;
    var q, step := qs[n], StepDeliverVote(k, VoteFor(b, qs[n]));
    assert q in qs && Members(qs) == Members(qs[..n]) + {q} by { assert qs == qs[..n] + [q]; }
    if n == 0 {
      steps := [step];
      RunOne(cfg, s, step);
      RecordVote(cfg, s, k, b, q);
      FirstTaken(s, Next(cfg, s, step), k, b, q);
      assert Members(qs) == {q};
    } else {
      var before := RecordVotes(cfg, s, k, b, qs[..n]);
      var s1 := Run(cfg, s, before);
      RecordVote(cfg, s1, k, b, q);
      OneMoreTaken(s, s1, Next(cfg, s1, step), k, b, Members(qs[..n]), q);
      steps := before + [step];
      RunAppend(cfg, s, before, [step]);
      RunOne(cfg, s1, step);
    }
  }

  lemma RecordAll(cfg: Config, s: Net, k: Address, b: Block, voters: set<Address>) returns (steps: seq<Step>)
    requires Inv(cfg, s) && Listening(s, k, b) && voters <= cfg.validators.Keys && voters != {}
    requires forall q :: q in voters ==> VoteFor(b, q) in s.votes
    ensures Inv(cfg, Run(cfg, s, steps)) && VotesTaken(s, Run(cfg, s, steps), k, b, voters)
  {
    var qs := Enumerate(voters);
    assert Members(qs) == voters;
    assert qs != [] by { var q :| q in voters; assert q in qs; }
    steps := RecordVotes(cfg, s, k, b, qs);
  }

  // ------------------------------------------------------------ finalization --

  lemma CountedIsReady(e: Engine, h: nat, voters: set<Address>)
    requires h in e.rounds && e.rounds[h].block.Some?
    requires voters <= e.rounds[h].votes.Keys && IsQuorum(e.validators, voters)
    ensures Ready(e, h)
  {
    QuorumMonotone(e.validators, voters, e.rounds[h].votes.Keys);
  }

  lemma CountedIsPast(e: Engine, b: Block, voters: set<Address>)
    requires Counted(e, b, voters) && IsQuorum(e.validators, voters)
    requires b.header.height <= e.height + 1 && !Ready(e, e.height + 1)
    ensures b.header.height <= e.height
  {
    if e.height < b.header.height { CountedIsReady(e, b.header.height, voters); }
  }

  ghost predicate Finalized(s: Net, k: Address, b: Block) {
    k in s.nodes && b.header.height in FinalizedAt(s, k) && FinalizedAt(s, k)[b.header.height] == b
  }

  /** A node with a quorum counted and nothing left to finalize has finalized `b`. */
  lemma FinalHere(s: Net, k: Address, b: Block, voters: set<Address>)
    requires k in s.nodes && ChainOk(s.nodes[k].engine) && 1 <= b.header.height <= s.nodes[k].engine.height + 1
    requires Counted(s.nodes[k].engine, b, voters) && IsQuorum(s.nodes[k].engine.validators, voters)
    requires !Ready(s.nodes[k].engine, s.nodes[k].engine.height + 1)
    ensures Finalized(s, k, b)
  {
    CountedIsPast(s.nodes[k].engine, b, voters);
  }

  lemma TakenIsFinal(cfg: Config, s: Net, s': Net, k: Address, b: Block, voters: set<Address>)
    requires Inv(cfg, s') && VotesTaken(s, s', k, b, voters) && IsQuorum(cfg.validators, voters)
    requires 1 <= b.header.height <= s.nodes[k].engine.height + 1
    ensures Finalized(s', k, b)
  {
    assert Stays(s.nodes[k], s'.nodes[k], b.header.height);
    EngineFacts(cfg, s', k);
    FinalHere(s', k, b, voters);
  }

  /** A node right below `b` finalizes it once a quorum's votes for it are there. */
  lemma QuorumFinalizes(cfg: Config, s: Net, k: Address, b: Block, voters: set<Address>) returns (steps: seq<Step>)
    requires Inv(cfg, s) && Listening(s, k, b) && 1 <= b.header.height <= s.nodes[k].engine.height + 1
    requires IsQuorum(cfg.validators, voters) && voters <= cfg.validators.Keys && voters != {}
    requires forall q :: q in voters ==> VoteFor(b, q) in s.votes
    ensures var s' := Run(cfg, s, steps);
            && Inv(cfg, s') && OnlyMoved(s, s', k, b.header.height) && s'.votes == s.votes && Finalized(s', k, b)
            && !Ready(s'.nodes[k].engine, s'.nodes[k].engine.height + 1)
  {
    steps := RecordAll(cfg, s, k, b, voters);
    TakenIsFinal(cfg, s, Run(cfg, s, steps), k, b, voters);
  }

  // ---------------------------------------------------------- everybody votes --

  /** The listed nodes, and no others, have voted for `b`. */
  ghost predicate AllVoted(s: Net, s': Net, b: Block, ks: seq<Address>) {
    && Within(s, s', b.header.height)
    && (forall k :: k in ks ==> VoteFor(b, k) in s'.votes && FreshlyOn(s', k, b))
    && (forall c :: c in s.nodes && c !in ks ==> s'.nodes[c] == s.nodes[c])
  }

  lemma OneMoreVoted(s: Net, s1: Net, s': Net, b: Block, k: Address, ks: seq<Address>)
    requires ks != [] && k == ks[0] && k !in ks[1..] && OnlyMoved(s, s1, k, b.header.height)
    requires VoteFor(b, k) in s1.votes && FreshlyOn(s1, k, b) && AllVoted(s1, s', b, ks[1..])
    ensures AllVoted(s, s', b, ks)
  {
    WithinTrans(s, s1, s', b.header.height);
    forall c | c in ks ensures VoteFor(b, c) in s'.votes && FreshlyOn(s', c, b) {
      if c != k { assert c in ks[1..]; }
    }
  }

  /** Deliver `b` to every listed node: each of them votes for it. */
  lemma {:induction false} EverybodyVotes(cfg: Config, s: Net, b: Block, ks: seq<Address>) returns (steps: seq<Step>)
    requires Inv(cfg, s) && b in s.blocks && ProposedBy(cfg, b.header.height, b.header.proposer) && Distinct(ks)
    requires forall k :: k in ks ==> Unseen(s, k, b)
    ensures Inv(cfg, Run(cfg, s, steps)) && AllVoted(s, Run(cfg, s, steps), b, ks)
    decreases |ks|
  {
    if ks == [] {
      steps := [];
      WithinSame(s, s, b.header.height);
    } else {
      var k := ks[0];
      assert k in ks && k !in ks[1..];
      var two := [StepDeliverBlock(k, b), StepAfterBlock(k)];
      VoteOnBlock(cfg, s, k, b);
      var s1 := Run(cfg, s, two);
      forall c | c in ks[1..] ensures Unseen(s1, c, b) {
        assert c in ks && c != k && Unseen(s, c, b);
      }
      var rest := EverybodyVotes(cfg, s1, b, ks[1..]);
      steps := two + rest;
      RunAppend(cfg, s, two, rest);
      OneMoreVoted(s, s1, Run(cfg, s, steps), b, k, ks);
    }
  }

  lemma {:induction false} FaultyVotes(cfg: Config, s: Net, b: Block, qs: seq<Address>) returns (steps: seq<Step>)
    requires Inv(cfg, s) && forall q :: q in qs ==> q !in cfg.Honest()
    ensures var s' := Run(cfg, s, steps);
            && Inv(cfg, s') && s'.nodes == s.nodes && s'.blocks == s.blocks
            && MoreVotes(s.votes, s'.votes, b.header.height)
            && (forall q :: q in qs ==> VoteFor(b, q) in s'.votes)
    decreases |qs|
  {
    if qs == [] {
      steps := [];
    } else {
      assert qs[0] in qs;
      var step := StepFaultyVote(VoteFor(b, qs[0]));
      StepInv(cfg, s, step);
      var s1 := Next(cfg, s, step);
      assert s1.nodes == s.nodes && VoteFor(b, qs[0]) in s1.votes;
      var rest := FaultyVotes(cfg, s1, b, qs[1..]);
      steps := [step] + rest;
      assert steps[1..] == rest;
    }
  }

  /** All faulty validators vote for `b`. */
  lemma AllFaultyVote(cfg: Config, s: Net, b: Block) returns (steps: seq<Step>)
    requires Inv(cfg, s)
    ensures var s' := Run(cfg, s, steps);
            && Inv(cfg, s') && s'.nodes == s.nodes && Within(s, s', b.header.height)
            && (forall q :: q in cfg.validators && q !in cfg.Honest() ==> VoteFor(b, q) in s'.votes)
  {
    var faulty := Enumerate(cfg.validators.Keys - cfg.Honest());
    steps := FaultyVotes(cfg, s, b, faulty);
    WithinSame(s, Run(cfg, s, steps), b.header.height);
    forall q | q in cfg.validators && q !in cfg.Honest() ensures q in faulty {}
  }

  /** Two blocks of a faulty proposer enter the network. */
  lemma Equivocate(cfg: Config, s: Net, b: Block, b': Block)
    requires Inv(cfg, s) && b.header.proposer !in cfg.Honest() && b'.header.proposer !in cfg.Honest()
    ensures var s' := Run(cfg, s, [StepFaultyBlock(b), StepFaultyBlock(b')]);
            && Inv(cfg, s') && s'.nodes == s.nodes && s'.votes == s.votes && b in s'.blocks && b' in s'.blocks
  {
    RunInv(cfg, s, [StepFaultyBlock(b), StepFaultyBlock(b')]);
    RunTwo(cfg, s, StepFaultyBlock(b), StepFaultyBlock(b'));
  }

  /** A block of a faulty proposer enters the network. */
  lemma SendOne(cfg: Config, s: Net, b: Block)
    requires Inv(cfg, s) && b.header.proposer !in cfg.Honest()
    ensures var s' := Run(cfg, s, [StepFaultyBlock(b)]);
            && Inv(cfg, s') && s'.nodes == s.nodes && s'.votes == s.votes && s'.blocks == s.blocks + {b}
  {
    StepInv(cfg, s, StepFaultyBlock(b));
    RunOne(cfg, s, StepFaultyBlock(b));
  }

  /** A timestamp later than that of any block voted for. */
  lemma {:induction false} LaterThanAll(votes: set<Vote>) returns (ts: nat)
    ensures forall v :: v in votes && v.blockHash.HeaderHash? ==> v.blockHash.header.timestamp < ts
  {
    if votes == {} {
      ts := 0;
    } else {
      var v :| v in votes;
      ts := LaterThanAll(votes - {v});
      if v.blockHash.HeaderHash? && ts <= v.blockHash.header.timestamp { ts := v.blockHash.header.timestamp + 1; }
    }
  }

  // ------------------------------------------------- one height, two blocks ----

  /** Two blocks of one proposer for one height, both sent and unseen. */
  ghost predicate Rivals(cfg: Config, s: Net, b: Block, c: Block) {
    && b in s.blocks && c in s.blocks && UnseenByAll(s, b)
    && c.header.height == b.header.height && c.header.proposer == b.header.proposer
    && ProposedBy(cfg, b.header.height, b.header.proposer)
  }

  /** Node `j` has voted for `c` and every other honest node for `b`; each faulty
      validator has voted for both. */
  ghost predicate VotedApart(cfg: Config, s: Net, b: Block, c: Block, j: Address) {
    && (forall k :: k in s.nodes && k != j ==> FreshlyOn(s, k, b) && VoteFor(b, k) in s.votes)
    && (j in s.nodes ==> FreshlyOn(s, j, c) && VoteFor(c, j) in s.votes)
    && (forall q :: q in cfg.validators && q !in cfg.Honest() ==> VoteFor(b, q) in s.votes && VoteFor(c, q) in s.votes)
  }

  /** Hand `c` to node `j`, if it is one, and `b` to all others. */
  lemma HonestVotes(cfg: Config, s: Net, b: Block, c: Block, j: Address) returns (steps: seq<Step>)
    requires Inv(cfg, s) && Rivals(cfg, s, b, c)
    ensures var s' := Run(cfg, s, steps);
            && Inv(cfg, s') && Within(s, s', b.header.height)
            && (forall k :: k in s.nodes && k != j ==> FreshlyOn(s', k, b) && VoteFor(b, k) in s'.votes)
            && (j in s.nodes ==> FreshlyOn(s', j, c) && VoteFor(c, j) in s'.votes)
  {
    var others := Enumerate(s.nodes.Keys - {j});
    if j in s.nodes {
      var two := [StepDeliverBlock(j, c), StepAfterBlock(j)];
      assert Unseen(s, j, c) by { assert Unseen(s, j, b); }
      VoteOnBlock(cfg, s, j, c);
      var s1 := Run(cfg, s, two);
      forall k | k in others ensures Unseen(s1, k, b) { assert Unseen(s, k, b); }
      var rest := EverybodyVotes(cfg, s1, b, others);
      steps := two + rest;
      RunAppend(cfg, s, two, rest);
      BothVoted(s, s1, Run(cfg, s, steps), b, c, j, others);
    } else {
      steps := EverybodyVotes(cfg, s, b, others);
      forall k | k in s.nodes ensures k in others {}
    }
  }

  lemma BothVoted(s: Net, s1: Net, s': Net, b: Block, c: Block, j: Address, others: seq<Address>)
    requires j in s.nodes && (forall k :: k in others <==> k in s.nodes && k != j)
    requires c.header.height == b.header.height && OnlyMoved(s, s1, j, b.header.height)
    requires FreshlyOn(s1, j, c) && VoteFor(c, j) in s1.votes && AllVoted(s1, s', b, others)
    ensures Within(s, s', b.header.height)
    ensures forall k :: k in s.nodes && k != j ==> FreshlyOn(s', k, b) && VoteFor(b, k) in s'.votes
    ensures FreshlyOn(s', j, c) && VoteFor(c, j) in s'.votes
  {
    WithinTrans(s, s1, s', b.header.height);
  }

  lemma GatherVotes(cfg: Config, s: Net, b: Block, c: Block, j: Address) returns (steps: seq<Step>)
    requires Inv(cfg, s) && Rivals(cfg, s, b, c)
    ensures var s' := Run(cfg, s, steps);
            Inv(cfg, s') && Within(s, s', b.header.height) && VotedApart(cfg, s', b, c, j)
  {
    var steps1 := HonestVotes(cfg, s, b, c, j);
    var s1 := Run(cfg, s, steps1);
    var steps2 := AllFaultyVote(cfg, s1, b);
    var s2 := Run(cfg, s1, steps2);
    var steps3 := AllFaultyVote(cfg, s2, c);
    steps := steps1 + (steps2 + steps3);
    RunAppend(cfg, s, steps1, steps2 + steps3);
    RunAppend(cfg, s1, steps2, steps3);
    WithinTrans(s, s1, s2, b.header.height);
    WithinTrans(s, s2, Run(cfg, s, steps), b.header.height);
  }
}
