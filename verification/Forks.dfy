/** Forks in the strict sense: two honest nodes finalize blocks with different
    hashes at one height. Certificates of cast votes are unique, but a node counts
    every voter it has recorded for a height, also those whose vote was for a block
    since replaced. Only the vote that completes the quorum is for the block that is
    finalized; so what decides is who can complete a quorum at each node. */
module Forks {
  import opened Primitives
  import opened Validators
  import opened Completers
  import opened Finality
  import opened EngineSafety
  import opened Network
  import opened NetworkSafety
  import opened Delivery
  import opened Disagreement

  /** At both nodes one and the same honest validator completes every quorum. */
  ghost predicate OneCompleter(cfg: Config, i: Address, j: Address) {
    SoleCompleter(Quorums(cfg.validators), cfg.Honest(), i, j)
  }

  ghost predicate HashesAgreeAt(s: Net, a: Address, c: Address, h: nat) {
    a in s.nodes && c in s.nodes && h in FinalizedAt(s, a) && h in FinalizedAt(s, c) ==>
      BlockHash(FinalizedAt(s, a)[h]) == BlockHash(FinalizedAt(s, c)[h])
  }

  // ------------------------------------------------------- completing a quorum --

  /** Without a quorum recorded the engine is still below the block. */
  lemma StaysBelow(cfg: Config, s: Net, k: Address, b: Block, voters: set<Address>)
    requires NodesOk(cfg, s) && k in s.nodes && OnBlock(s.nodes[k].engine, b)
    requires RecordedVoters(s.nodes[k].engine, b) <= voters && !IsQuorum(cfg.validators, voters)
    ensures s.nodes[k].engine.height < b.header.height
  {
    var e, h := s.nodes[k].engine, b.header.height;
    assert NodeOk(cfg, k, s.nodes[k]);
    assert QuorumsOk(cfg, e);
    if h <= e.height { QuorumMonotone(cfg.validators, e.rounds[h].votes.Keys, voters); }
  }

  /** Node `k` stands right below `b`, has recorded exactly these voters, and waits. */
  ghost predicate Holding(s: Net, k: Address, b: Block, voters: set<Address>) {
    && Listening(s, k, b) && s.nodes[k].engine.height + 1 == b.header.height
    && RecordedVoters(s.nodes[k].engine, b) == voters
  }

  function SwitchAndVote(k: Address, b: Block, q: Address): seq<Step> {
    [StepDeliverBlock(k, b), StepAfterBlock(k)] + [StepDeliverVote(k, VoteFor(b, q))]
  }

  lemma SwitchHeld(cfg: Config, s: Net, k: Address, b: Block, b': Block, voters: set<Address>)
    requires Inv(cfg, s) && Holding(s, k, b, voters) && !IsQuorum(cfg.validators, voters) && b' in s.blocks
    requires b'.header.height == b.header.height && ProposedBy(cfg, b'.header.height, b'.header.proposer)
    ensures var s' := Run(cfg, s, [StepDeliverBlock(k, b'), StepAfterBlock(k)]);
            && Inv(cfg, s') && OnlyMoved(s, s', k, b.header.height) && s'.votes == s.votes
            && Holding(s', k, b', voters)
  {
    ReplaceHeld(cfg, s, k, b, b');
    var s' := Run(cfg, s, [StepDeliverBlock(k, b'), StepAfterBlock(k)]);
    StaysBelow(cfg, s', k, b', voters);
    assert Stays(s.nodes[k], s'.nodes[k], b.header.height);
  }

  /** Switch `k` to `b'` and hand it a vote for `b'`: if that makes a quorum `b'` is
      finalized, and otherwise one more voter is recorded. */
  lemma SwitchAndRecord(cfg: Config, s: Net, k: Address, b: Block, b': Block, voters: set<Address>, q: Address)
    requires Inv(cfg, s) && Holding(s, k, b, voters) && !IsQuorum(cfg.validators, voters)
    requires b' in s.blocks && b'.header.height == b.header.height >= 1
    requires ProposedBy(cfg, b'.header.height, b'.header.proposer)
    requires q in cfg.validators && VoteFor(b', q) in s.votes
    ensures var s' := Run(cfg, s, SwitchAndVote(k, b', q));
            && Inv(cfg, s') && OnlyMoved(s, s', k, b.header.height) && s'.votes == s.votes
            && (if IsQuorum(cfg.validators, voters + {q}) then Finalized(s', k, b')
                else Holding(s', k, b', voters + {q}))
  {
    var two, last := [StepDeliverBlock(k, b'), StepAfterBlock(k)], StepDeliverVote(k, VoteFor(b', q));
    SwitchHeld(cfg, s, k, b, b', voters);
    var s1 := Run(cfg, s, two);
    RecordVote(cfg, s1, k, b', q);
    var s2 := Next(cfg, s1, last);
    RunAppend(cfg, s, two, [last]);
    RunOne(cfg, s1, last);
    MovedTrans(s, s1, s2, k, b.header.height);
    AfterLastVote(cfg, s1, s2, k, b', voters, q);
  }

  lemma AfterLastVote(cfg: Config, s: Net, s': Net, k: Address, b: Block, voters: set<Address>, q: Address)
    requires Inv(cfg, s') && OnlyMoved(s, s', k, b.header.height) && b.header.height >= 1
    requires Holding(s, k, b, voters) && TookVote(s.nodes[k].engine, s'.nodes[k].engine, b, q)
    ensures if IsQuorum(cfg.validators, voters + {q}) then Finalized(s', k, b) else Holding(s', k, b, voters + {q})
  {
    EngineFacts(cfg, s', k);
    if IsQuorum(cfg.validators, voters + {q}) {
      FinalHere(s', k, b, voters + {q});
    } else {
      StaysBelow(cfg, s', k, b, voters + {q});
    }
  }

  /** Every validator has voted for one of the two blocks. */
  ghost predicate AllCast(cfg: Config, s: Net, b: Block, c: Block) {
    forall q :: q in cfg.validators ==> VoteFor(b, q) in s.votes || VoteFor(c, q) in s.votes
  }

  /** Two sent blocks of the proposer of one height. */
  ghost predicate Pair(cfg: Config, s: Net, b: Block, c: Block) {
    && b in s.blocks && c in s.blocks && c.header.height == b.header.height >= 1
    && ProposedBy(cfg, b.header.height, b.header.proposer) && ProposedBy(cfg, c.header.height, c.header.proposer)
  }

  ghost predicate Scene(cfg: Config, s: Net, b: Block, c: Block) {
    Inv(cfg, s) && Pair(cfg, s, b, c) && AllCast(cfg, s, b, c)
  }

  lemma SceneStays(cfg: Config, s: Net, s': Net, b: Block, c: Block)
    requires Scene(cfg, s, b, c) && Inv(cfg, s') && s'.blocks == s.blocks && s'.votes == s.votes
    ensures Scene(cfg, s', b, c)
  {}

  /** From `s`, node `k` alone moved, and without new votes. */
  ghost predicate MovedTo(cfg: Config, s: Net, s': Net, k: Address, b: Block, c: Block) {
    Scene(cfg, s', b, c) && OnlyMoved(s, s', k, b.header.height) && s'.votes == s.votes
  }

  lemma MovedToTrans(cfg: Config, s: Net, s1: Net, s2: Net, k: Address, b: Block, c: Block)
    requires MovedTo(cfg, s, s1, k, b, c) && MovedTo(cfg, s1, s2, k, b, c)
    ensures MovedTo(cfg, s, s2, k, b, c)
  {
    MovedTrans(s, s1, s2, k, b.header.height);
  }

  /** Record one more voter of a coalition that is no quorum. */
  lemma HoldOneMore(
    cfg: Config, s: Net, k: Address, b: Block, c: Block, cur: Block, voters: set<Address>, q: Address)
    returns (steps: seq<Step>, next: Block)
    requires Scene(cfg, s, b, c) && cur in {b, c} && Holding(s, k, cur, voters)
    requires q in cfg.validators && !IsQuorum(cfg.validators, voters + {q})
    ensures next in {b, c} && MovedTo(cfg, s, Run(cfg, s, steps), k, b, c)
    ensures Holding(Run(cfg, s, steps), k, next, voters + {q})
  {
    next := if VoteFor(b, q) in s.votes then b else c;
    NotQuorumBelow(cfg.validators, voters, voters + {q});
    SwitchAndRecord(cfg, s, k, cur, next, voters, q);
    steps := SwitchAndVote(k, next, q);
    SceneStays(cfg, s, Run(cfg, s, steps), b, c);
  }

  /** Make `k` record a coalition that is no quorum, switching blocks as needed. */
  lemma {:induction false} HoldCoalition(
    cfg: Config, s: Net, k: Address, b: Block, c: Block, cur: Block, voters: set<Address>, coalition: set<Address>)
    returns (steps: seq<Step>, now: Block)
    requires Scene(cfg, s, b, c) && cur in {b, c} && Holding(s, k, cur, voters)
    requires voters <= coalition <= cfg.validators.Keys && !IsQuorum(cfg.validators, coalition)
    ensures now in {b, c} && MovedTo(cfg, s, Run(cfg, s, steps), k, b, c)
    ensures Holding(Run(cfg, s, steps), k, now, coalition)
    decreases |coalition - voters|
  {
    if voters == coalition {
      steps, now := [], cur;
      MovedToSame(cfg, s, k, b, c);
    } else {
      var q := PickMissing(voters, coalition);
      NotQuorumBelow(cfg.validators, voters + {q}, coalition);
      var first, next := HoldOneMore(cfg, s, k, b, c, cur, voters, q);
      var s1 := Run(cfg, s, first);
      var rest, last := HoldCoalition(cfg, s1, k, b, c, next, voters + {q}, coalition);
      steps, now := first + rest, last;
      RunAppend(cfg, s, first, rest);
      MovedToTrans(cfg, s, s1, Run(cfg, s, steps), k, b, c);
    }
  }

  lemma MovedToSame(cfg: Config, s: Net, k: Address, b: Block, c: Block)
    requires Scene(cfg, s, b, c) && k in s.nodes && !s.nodes[k].due
    ensures MovedTo(cfg, s, s, k, b, c)
  {
    WithinSame(s, s, b.header.height);
  }

  lemma CompleteAlone(cfg: Config, s: Net, k: Address, b: Block, c: Block, target: Block) returns (steps: seq<Step>)
    requires Scene(cfg, s, b, c) && target in {b, c} && Listening(s, k, target)
    requires b.header.height <= s.nodes[k].engine.height + 1
    requires IsQuorum(cfg.validators, {k}) && VoteFor(target, k) in s.votes
    ensures MovedTo(cfg, s, Run(cfg, s, steps), k, b, c) && Finalized(Run(cfg, s, steps), k, target)
  {
    assert k in cfg.validators;
    steps := QuorumFinalizes(cfg, s, k, target, {k});
    SceneStays(cfg, s, Run(cfg, s, steps), b, c);
  }

  lemma CompleteWith(
    cfg: Config, s: Net, k: Address, b: Block, c: Block, cur: Block, target: Block, q: Address, coalition: set<Address>)
    returns (steps: seq<Step>)
    requires Scene(cfg, s, b, c) && cur in {b, c} && target in {b, c} && Holding(s, k, cur, {k})
    requires k in coalition && coalition <= cfg.validators.Keys && q in cfg.validators
    requires Pivotal(Quorums(cfg.validators), coalition, q) && VoteFor(target, q) in s.votes
    ensures MovedTo(cfg, s, Run(cfg, s, steps), k, b, c) && Finalized(Run(cfg, s, steps), k, target)
  {
    var steps1, now := HoldCoalition(cfg, s, k, b, c, cur, {k}, coalition);
    var s1 := Run(cfg, s, steps1);
    var last := SwitchAndVote(k, target, q);
    SwitchAndRecord(cfg, s1, k, now, target, coalition, q);
    SceneStays(cfg, s1, Run(cfg, s1, last), b, c);
    steps := steps1 + last;
    RunAppend(cfg, s, steps1, last);
    MovedToTrans(cfg, s, s1, Run(cfg, s, steps), k, b, c);
  }

  lemma FreshIsHolding(cfg: Config, s: Net, k: Address, b: Block, coalition: set<Address>)
    requires NodesOk(cfg, s) && FreshlyOn(s, k, b) && b.header.height <= s.nodes[k].engine.height + 1
    requires k in coalition && !IsQuorum(cfg.validators, coalition)
    ensures Holding(s, k, b, {k})
  {
    StaysBelow(cfg, s, k, b, coalition);
  }

  /** If `q` can complete a quorum at `k` and has voted for `target`, some run makes
      `k` finalize `target`. */
  lemma CompleteAt(cfg: Config, s: Net, k: Address, b: Block, c: Block, cur: Block, target: Block, q: Address)
    returns (steps: seq<Step>)
    requires Scene(cfg, s, b, c) && cur in {b, c} && target in {b, c} && k in cfg.validators
    requires FreshlyOn(s, k, cur) && b.header.height <= s.nodes[k].engine.height + 1
    requires Completes(Quorums(cfg.validators), k, q) && VoteFor(target, q) in s.votes && (q == k ==> cur == target)
    ensures MovedTo(cfg, s, Run(cfg, s, steps), k, b, c) && Finalized(Run(cfg, s, steps), k, target)
  {
    if q == k && IsQuorum(cfg.validators, {k}) {
      steps := CompleteAlone(cfg, s, k, b, c, target);
    } else {
      var any :| k in any && Pivotal(Quorums(cfg.validators), any, q);
      PivotalAmongValidators(cfg.validators, any, q);
      FreshIsHolding(cfg, s, k, cur, any);
      steps := CompleteWith(cfg, s, k, b, c, cur, target, q, any * cfg.validators.Keys);
    }
  }

  // ---------------------------------------------------------------- the fork --

  /** The block that node `k` was handed first. */
  function First(b: Block, c: Block, y: Address, k: Address): Block {
    if k == y then c else b
  }

  lemma ApartIsCast(cfg: Config, s: Net, b: Block, c: Block, y: Address)
    requires NodesOk(cfg, s) && VotedApart(cfg, s, b, c, y)
    ensures AllCast(cfg, s, b, c) && (y in cfg.validators ==> VoteFor(c, y) in s.votes)
    ensures forall x :: x in cfg.validators && (x != y || x !in cfg.Honest()) ==> VoteFor(b, x) in s.votes
    ensures forall k :: k in s.nodes ==> FreshlyOn(s, k, First(b, c, y, k))
  {
    forall q | q in cfg.Honest() ensures q in s.nodes {}
  }

  lemma OtherStaysFresh(s: Net, s': Net, k: Address, c: Address, h: nat, b: Block)
    requires OnlyMoved(s, s', k, h) && c != k && FreshlyOn(s, c, b)
    ensures FreshlyOn(s', c, b) && s'.nodes[c] == s.nodes[c]
  {}

  lemma OtherStaysFinal(s: Net, s': Net, k: Address, c: Address, h: nat, b: Block)
    requires OnlyMoved(s, s', k, h) && c != k && Finalized(s, c, b)
    ensures Finalized(s', c, b)
  {}

  /** Once everybody has voted, `x` completes `b` at node `i` and `y` completes `c` at
      node `j`. */
  lemma FinalizeApart(cfg: Config, s: Net, i: Address, j: Address, b: Block, c: Block, x: Address, y: Address)
    returns (steps: seq<Step>)
    requires Scene(cfg, s, b, c) && i != j && i in cfg.validators && j in cfg.validators
    requires FreshlyOn(s, i, First(b, c, y, i)) && FreshlyOn(s, j, First(b, c, y, j))
    requires b.header.height <= s.nodes[i].engine.height + 1 && b.header.height <= s.nodes[j].engine.height + 1
    requires Completes(Quorums(cfg.validators), i, x) && VoteFor(b, x) in s.votes && (x == i ==> x != y)
    requires Completes(Quorums(cfg.validators), j, y) && VoteFor(c, y) in s.votes
    ensures var s' := Run(cfg, s, steps);
            && Inv(cfg, s') && Within(s, s', b.header.height) && Finalized(s', i, b) && Finalized(s', j, c)
  {
    var steps1 := CompleteAt(cfg, s, i, b, c, First(b, c, y, i), b, x);
    var s1 := Run(cfg, s, steps1);
    OtherStaysFresh(s, s1, i, j, b.header.height, First(b, c, y, j));
    var steps2 := CompleteAt(cfg, s1, j, b, c, First(b, c, y, j), c, y);
    steps := steps1 + steps2;
    RunAppend(cfg, s, steps1, steps2);
    var s2 := Run(cfg, s, steps);
    WithinTrans(s, s1, s2, b.header.height);
    OtherStaysFinal(s1, s2, j, i, b.header.height, b);
  }

  /** Everybody votes on the two blocks, and then the two nodes finalize apart. */
  lemma ForkBetween(cfg: Config, s: Net, i: Address, j: Address, b: Block, c: Block, x: Address, y: Address)
    returns (steps: seq<Step>)
    requires Inv(cfg, s) && Rivals(cfg, s, b, c) && OpenHeight(s, b.header.height, i, j) && i != j
    requires Completes(Quorums(cfg.validators), i, x) && Completes(Quorums(cfg.validators), j, y)
    requires x != y || x !in cfg.Honest()
    ensures var s' := Run(cfg, s, steps);
            && Inv(cfg, s') && Within(s, s', b.header.height) && Finalized(s', i, b) && Finalized(s', j, c)
  {
    var h := b.header.height;
    var steps1 := GatherVotes(cfg, s, b, c, y);
    var s1 := Run(cfg, s, steps1);
    assert Stays(s.nodes[i], s1.nodes[i], h) && Stays(s.nodes[j], s1.nodes[j], h);
    assert i in cfg.Honest() && j in cfg.Honest();
    ApartIsCast(cfg, s1, b, c, y);
    CompleterIsValidator(cfg.validators, i, x);
    CompleterIsValidator(cfg.validators, j, y);
    assert Scene(cfg, s1, b, c);
    var steps2 := FinalizeApart(cfg, s1, i, j, b, c, x, y);
    steps := steps1 + steps2;
    RunAppend(cfg, s, steps1, steps2);
    WithinTrans(s, s1, Run(cfg, s, steps), h);
  }

  /** The nodes moved at height `h` only, and `i` and `j` finalized different hashes. */
  ghost predicate Forked(cfg: Config, s: Net, s': Net, i: Address, j: Address, h: nat) {
    && Inv(cfg, s') && s'.nodes.Keys == s.nodes.Keys && i in s'.nodes && j in s'.nodes
    && h in FinalizedAt(s', i) && h in FinalizedAt(s', j) && !HashesAgreeAt(s', i, j, h)
    && forall k {:trigger Stays(s.nodes[k], s'.nodes[k], h)} :: k in s.nodes ==> Stays(s.nodes[k], s'.nodes[k], h)
  }

  lemma FinalizedApartIsForked(cfg: Config, s: Net, s1: Net, s': Net, i: Address, j: Address, b: Block, c: Block)
    requires s1.nodes == s.nodes && Inv(cfg, s') && Within(s1, s', b.header.height)
    requires Finalized(s', i, b) && Finalized(s', j, c) && c.header != b.header && c.header.height == b.header.height
    ensures Forked(cfg, s, s', i, j, b.header.height)
  {}

  /** From any state in which a height lies open its faulty proposer can fork two
      nodes, unless one and the same honest validator completes every quorum at both. */
  lemma FaultyProposerForks(cfg: Config, s: Net, h: nat, i: Address, j: Address, p: Address) returns (steps: seq<Step>)
    requires Inv(cfg, s) && ProposedBy(cfg, h, p) && p !in cfg.Honest() && OpenHeight(s, h, i, j) && i != j
    requires !OneCompleter(cfg, i, j)
    ensures Forked(cfg, s, Run(cfg, s, steps), i, j, h)
  {
    var x, y := TwoCompleters(Quorums(cfg.validators), cfg.Honest(), i, j);
    var b, c := Forged(cfg, h, p, 0, []), Forged(cfg, h, p, 1, []);
    var two := [StepFaultyBlock(b), StepFaultyBlock(c)];
    SendRivals(cfg, s, b, c, i, j);
    var s1 := Run(cfg, s, two);
    var rest := ForkBetween(cfg, s1, i, j, b, c, x, y);
    steps := two + rest;
    RunAppend(cfg, s, two, rest);
    FinalizedApartIsForked(cfg, s, s1, Run(cfg, s, steps), i, j, b, c);
  }

  // ------------------------------------------------------ who completed it ----

  /** A voter that can complete quorums at `k` voted for the stored block. */
  ghost predicate Decided(cfg: Config, k: Address, r: RoundState) {
    && r.block.Some?
    && exists x :: Completes(Quorums(cfg.validators), k, x) && x in r.votes
                   && r.votes[x].blockHash == BlockHash(r.block.value)
  }

  /** An engine that stood right below `h` before it saw that height: its finalized
      block there was completed by a vote for it, and an open round has no quorum. An
      engine that owes a `finalize_pending` may also have one just completed. */
  ghost predicate Tracked(cfg: Config, k: Address, e: Engine, h: nat, owes: bool) {
    && h <= e.height + 1
    && (h in e.rounds ==>
          || (Decided(cfg, k, e.rounds[h]) && (h <= e.height || owes))
          || (e.height < h && !IsQuorum(cfg.validators, e.rounds[h].votes.Keys)))
  }

  ghost predicate TrackedNode(cfg: Config, s: Net, k: Address, h: nat) {
    k in s.nodes && Tracked(cfg, k, s.nodes[k].engine, h, s.nodes[k].due)
  }

  /** Block and votes of round `h`, if any, are the same. */
  ghost predicate SameRound(e: Engine, e': Engine, h: nat) {
    && (h in e.rounds <==> h in e'.rounds)
    && (h in e.rounds ==> e'.rounds[h].block == e.rounds[h].block && e'.rounds[h].votes == e.rounds[h].votes)
  }

  lemma TrackedFrame(cfg: Config, k: Address, e: Engine, e': Engine, h: nat, owes: bool, owes': bool)
    requires Tracked(cfg, k, e, h, owes) && SameRound(e, e', h) && e'.height == e.height && (owes ==> owes')
    ensures Tracked(cfg, k, e', h, owes')
  {}

  lemma DecidedSame(cfg: Config, k: Address, r: RoundState, r': RoundState)
    requires r'.block == r.block && r'.votes == r.votes
    ensures Decided(cfg, k, r') <==> Decided(cfg, k, r)
  {}

  /** A round is past exactly if it has a quorum, when nothing is left to finalize. */
  lemma PastIffQuorum(cfg: Config, e: Engine, h: nat)
    requires h in e.rounds && h <= e.height + 1 && e.rounds[h].block.Some? && e.validators == cfg.validators
    requires QuorumsOk(cfg, e) && !Ready(e, e.height + 1)
    ensures h <= e.height <==> IsQuorum(cfg.validators, e.rounds[h].votes.Keys)
  {
    if h <= e.height { assert IsQuorum(cfg.validators, e.rounds[h].votes.Keys); }
  }

  /** Finalizing settles what was owed. */
  lemma TrackedFinalize(cfg: Config, k: Address, e: Engine, e': Engine, h: nat, owes: bool)
    requires Tracked(cfg, k, e, h, true) && e.height <= e'.height && SameRound(e, e', h)
    requires h in e'.rounds ==> (h <= e'.height <==> IsQuorum(cfg.validators, e'.rounds[h].votes.Keys))
    ensures Tracked(cfg, k, e', h, owes)
  {
    if h in e'.rounds { DecidedSame(cfg, k, e.rounds[h], e'.rounds[h]); }
  }

  lemma TrackedBlock(cfg: Config, k: Address, n: Node, b: Block, h: nat)
    requires NodeOk(cfg, k, n) && Tracked(cfg, k, n.engine, h, false)
    ensures Tracked(cfg, k, HandleBlock(n.engine, b).engine, h, true)
  {
    var e := n.engine;
    var e' := HandleBlock(e, b).engine;
    if b.header.height != h || !ValidProposal(e, ProposalOf(b)) {
      TrackedFrame(cfg, k, e, e', h, false, true);
    } else if h in e.rounds {
      HandleKnownHeight(cfg.genesis, e, b);
    } else {
      HandleBlockSafe(cfg.genesis, e, b);
      assert e'.rounds[h].votes.Keys == {k};
      if IsQuorum(cfg.validators, {k}) { CompletesItself(Quorums(cfg.validators), k); }
    }
  }

  lemma TrackedVote(cfg: Config, k: Address, n: Node, v: Vote, h: nat)
    requires NodeOk(cfg, k, n) && Tracked(cfg, k, n.engine, h, false)
    ensures Tracked(cfg, k, HandleVote(n.engine, v).engine, h, true)
  {
    var e := n.engine;
    var e' := HandleVote(e, v).engine;
    if v.height != h || !ValidVote(e, v) {
      TrackedFrame(cfg, k, e, e', h, false, true);
    } else {
      var r := e.rounds[h];
      assert RoundOk(e, h, r) && RoundLocal(cfg, e, h, r);
      assert e'.rounds[h].votes.Keys == r.votes.Keys + {v.voter};
      if IsQuorum(cfg.validators, r.votes.Keys + {v.voter}) {
        assert v.voter in r.votes.Keys ==> r.votes.Keys + {v.voter} == r.votes.Keys;
        assert k in r.votes.Keys && Pivotal(Quorums(cfg.validators), r.votes.Keys, v.voter);
      }
    }
  }

  lemma FinalizeFacts(cfg: Config, k: Address, n: Node, h: nat)
    requires NodeOk(cfg, k, n) && h <= n.engine.height + 1
    ensures var e, e' := n.engine, FinalizePending(n.engine).0;
            && e.height <= e'.height && SameRound(e, e', h)
            && (h in e'.rounds ==> (h <= e'.height <==> IsQuorum(cfg.validators, e'.rounds[h].votes.Keys)))
  {
    var e := n.engine;
    var e' := FinalizePending(e).0;
    FinalizeKeeps(cfg.genesis, e);
    FinalizedNode(cfg, k, n);
    if h in e.rounds {
      assert RoundOk(e, h, e.rounds[h]);
      PastIffQuorum(cfg, e', h);
    }
  }

  lemma FinalizedNode(cfg: Config, k: Address, n: Node)
    requires NodeOk(cfg, k, n)
    ensures var e' := FinalizePending(n.engine).0; QuorumsOk(cfg, e') && e'.validators == cfg.validators
  {
    FinalizePendingReachesFixpoint(cfg.genesis, n.engine);
    AdvancedNode(cfg, k, n, FinalizePending(n.engine).0);
  }

  lemma FinalizeTracked(cfg: Config, k: Address, n: Node, h: nat, owes: bool)
    requires NodeOk(cfg, k, n) && Tracked(cfg, k, n.engine, h, true)
    ensures Tracked(cfg, k, FinalizePending(n.engine).0, h, owes)
  {
    FinalizeFacts(cfg, k, n, h);
    TrackedFinalize(cfg, k, n.engine, FinalizePending(n.engine).0, h, owes);
  }

  /** A node never proposes a height that is another's. */
  lemma ProposeTracked(cfg: Config, k: Address, n: Node, h: nat, ts: nat)
    requires NodeOk(cfg, k, n) && !ProposedBy(cfg, h, k)
    ensures var n' := ProposeOnce(cfg, n, ts);
            SameRound(n.engine, n'.engine, h) && n'.engine.height == n.engine.height && n'.due == n.due
  {
    KeepsDue(cfg, n, ts);
    if IsTurn(n) && n.lastProposed != Some(n.nextHeight) {
      ProposedNode(cfg, k, n, ts);
      assert n.nextHeight != h;
      var b := Block(BlockHeader(n.nextHeight, ts, n.engine.previousHash, StateHash(n.engine.ledger),
                                 TransactionsHash([]), k), []);
      RecordedElsewhere(n.engine, n.nextHeight, b, h);
    } else {
      assert ProposeOnce(cfg, n, ts) == n;
    }
  }

  lemma KeepsDue(cfg: Config, n: Node, ts: nat)
    ensures ProposeOnce(cfg, n, ts).due == n.due
  {}

  lemma RecordedElsewhere(e: Engine, g: nat, b: Block, h: nat)
    requires g != h
    ensures SameRound(e, RecordOwnBlock(e, g, b), h) && RecordOwnBlock(e, g, b).height == e.height
  {}

  lemma ProposeStepTracked(cfg: Config, s: Net, k: Address, h: nat, ts: nat)
    requires Inv(cfg, s) && TrackedNode(cfg, s, k, h) && !ProposedBy(cfg, h, k)
    ensures TrackedNode(cfg, Update(s, k, ProposeOnce(cfg, s.nodes[k], ts)), k, h)
  {
    var n := s.nodes[k];
    assert NodeOk(cfg, k, n);
    ProposeTracked(cfg, k, n, h, ts);
    TrackedFrame(cfg, k, n.engine, ProposeOnce(cfg, n, ts).engine, h, n.due, n.due);
  }

  lemma VoteStepTracked(cfg: Config, s: Net, k: Address, v: Vote, h: nat)
    requires Inv(cfg, s) && TrackedNode(cfg, s, k, h) && !s.nodes[k].due && v in s.votes
    ensures TrackedNode(cfg, FinalizeAt(ReceiveVote(s, k, v), k), k, h)
  {
    var s1 := ReceiveVote(s, k, v);
    assert NodeOk(cfg, k, s.nodes[k]);
    TrackedVote(cfg, k, s.nodes[k], v, h);
    DeliverVoteStep(cfg, s, k, v);
    assert NodeOk(cfg, k, s1.nodes[k]);
    FinalizeTracked(cfg, k, s1.nodes[k], h, false);
  }

  lemma BlockStepTracked(cfg: Config, s: Net, k: Address, b: Block, h: nat)
    requires Inv(cfg, s) && TrackedNode(cfg, s, k, h) && !s.nodes[k].due
    ensures TrackedNode(cfg, SetDue(ReceiveBlock(s, k, b), k, true), k, h)
  {
    assert NodeOk(cfg, k, s.nodes[k]);
    TrackedBlock(cfg, k, s.nodes[k], b, h);
  }

  lemma FinalizeStepTracked(cfg: Config, s: Net, k: Address, h: nat)
    requires Inv(cfg, s) && TrackedNode(cfg, s, k, h)
    ensures TrackedNode(cfg, FinalizeAt(s, k), k, h) && TrackedNode(cfg, SetDue(FinalizeAt(s, k), k, false), k, h)
  {
    assert NodeOk(cfg, k, s.nodes[k]);
    TrackedFrame(cfg, k, s.nodes[k].engine, s.nodes[k].engine, h, s.nodes[k].due, true);
    FinalizeTracked(cfg, k, s.nodes[k], h, false);
    var e' := FinalizePending(s.nodes[k].engine).0;
    TrackedFrame(cfg, k, e', e', h, false, s.nodes[k].due);
  }

  /** Only steps of the node itself touch it. */
  lemma OthersStep(cfg: Config, s: Net, k: Address, step: Step)
    requires k in s.nodes && (step.StepFaultyBlock? || step.StepFaultyVote? || step.node != k)
    ensures k in Next(cfg, s, step).nodes && Next(cfg, s, step).nodes[k] == s.nodes[k]
  {}

  lemma OwnStepTracked(cfg: Config, s: Net, k: Address, h: nat, step: Step)
    requires Inv(cfg, s) && TrackedNode(cfg, s, k, h) && !ProposedBy(cfg, h, k)
    requires !step.StepFaultyBlock? && !step.StepFaultyVote? && step.node == k
    ensures TrackedNode(cfg, Next(cfg, s, step), k, h)
  {
    match step
    case StepPropose(_, ts) => ProposeStepTracked(cfg, s, k, h, ts);
    case StepFinalizePending(_) => FinalizeStepTracked(cfg, s, k, h);
    case StepAfterBlock(_) => FinalizeStepTracked(cfg, s, k, h);
    case StepDeliverBlock(_, b) => if !s.nodes[k].due { BlockStepTracked(cfg, s, k, b, h); }
    case StepDeliverVote(_, v) => if !s.nodes[k].due && v in s.votes { VoteStepTracked(cfg, s, k, v, h); }
    case _ =>
  }

  lemma StepTracked(cfg: Config, s: Net, k: Address, h: nat, step: Step)
    requires Inv(cfg, s) && TrackedNode(cfg, s, k, h) && !ProposedBy(cfg, h, k)
    ensures TrackedNode(cfg, Next(cfg, s, step), k, h)
  {
    if !step.StepFaultyBlock? && !step.StepFaultyVote? && step.node == k {
      OwnStepTracked(cfg, s, k, h, step);
    } else {
      OthersStep(cfg, s, k, step);
    }
  }

  lemma {:induction false} RunTracked(cfg: Config, s: Net, k: Address, h: nat, steps: seq<Step>)
    requires Inv(cfg, s) && TrackedNode(cfg, s, k, h) && !ProposedBy(cfg, h, k)
    ensures TrackedNode(cfg, Run(cfg, s, steps), k, h)
    decreases |steps|
  {
    if steps != [] {
      StepInv(cfg, s, steps[0]);
      StepTracked(cfg, s, k, h, steps[0]);
      RunTracked(cfg, Next(cfg, s, steps[0]), k, h, steps[1..]);
    }
  }

  /** A tracked node that finalized `h` recorded a completing vote for its block. */
  lemma CompletedBy(cfg: Config, s: Net, k: Address, h: nat) returns (x: Address)
    requires Inv(cfg, s) && TrackedNode(cfg, s, k, h) && h in FinalizedAt(s, k)
    ensures Completes(Quorums(cfg.validators), k, x) && h in Rounds(s, k) && x in Rounds(s, k)[h].votes
    ensures Rounds(s, k)[h].votes[x].blockHash == BlockHash(FinalizedAt(s, k)[h])
  {
    EngineFacts(cfg, s, k);
    var r := Rounds(s, k)[h];
    assert Decided(cfg, k, r);
    x :| Completes(Quorums(cfg.validators), k, x) && x in r.votes && r.votes[x].blockHash == BlockHash(r.block.value);
  }

  /** A recorded vote in an honest name is the one its sender recorded. */
  lemma RecordedIsOwn(cfg: Config, s: Net, k: Address, h: nat, x: Address)
    requires Inv(cfg, s) && k in s.nodes && h in Rounds(s, k) && x in Rounds(s, k)[h].votes && x in cfg.Honest()
    ensures h in Rounds(s, x) && x in Rounds(s, x)[h].votes && Rounds(s, k)[h].votes[x] == Rounds(s, x)[h].votes[x]
  {
    var e := s.nodes[k].engine;
    assert RoundKnown(s, k, Rounds(s, k)[h]);
    SafeHere(cfg, s, k);
    assert RoundOk(e, h, e.rounds[h]);
    var v := Rounds(s, k)[h].votes[x];
    if v in s.votes { assert VoteAuthentic(s, v); }
  }

  /** If one and the same honest validator completes every quorum at both nodes, they
      finalize one hash. */
  lemma OneCompleterOneHash(cfg: Config, s: Net, i: Address, j: Address, h: nat)
    requires Inv(cfg, s) && TrackedNode(cfg, s, i, h) && TrackedNode(cfg, s, j, h) && OneCompleter(cfg, i, j)
    ensures HashesAgreeAt(s, i, j, h)
  {
    if h in FinalizedAt(s, i) && h in FinalizedAt(s, j) {
      var x := CompletedBy(cfg, s, i, h);
      var y := CompletedBy(cfg, s, j, h);
      SameCompleter(Quorums(cfg.validators), cfg.Honest(), i, j, x, y);
      RecordedIsOwn(cfg, s, i, h, x);
      RecordedIsOwn(cfg, s, j, h, x);
    }
  }

  lemma OpenIsTracked(cfg: Config, s: Net, h: nat, i: Address, j: Address)
    requires OpenHeight(s, h, i, j)
    ensures TrackedNode(cfg, s, i, h) && TrackedNode(cfg, s, j, h)
  {}

  /** Exactly when the code does not fork, for validators of any power: from any
      reachable state where `h` lies open before two honest nodes, every continuation
      has them finalize one hash at `h` if and only if the proposer of `h` is honest or
      some honest validator arbitrates between the two nodes: without it there is no
      quorum, and with it either node has one. (Without any power nothing is final.) */
  lemma NoForkExactly(cfg: Config, steps: seq<Step>, h: nat, i: Address, j: Address, p: Address)
    requires ProposedBy(cfg, h, p) && OpenHeight(RunFromGenesis(cfg, steps), h, i, j) && i != j
    ensures (forall more :: HashesAgreeAt(RunFromGenesis(cfg, steps + more), i, j, h)) <==>
            p in cfg.Honest() || TotalPower(cfg.validators) == 0 || HasArbiter(cfg.validators, cfg.Honest(), i, j)
  {
    var s := RunFromGenesis(cfg, steps);
    ReachableInv(cfg, steps);
    assert i in cfg.Honest() && j in cfg.Honest();
    OneCompleterExactly(cfg, i, j);
    if p in cfg.Honest() || OneCompleter(cfg, i, j) {
      forall more ensures HashesAgreeAt(RunFromGenesis(cfg, steps + more), i, j, h) {
        NoForkHolds(cfg, steps, more, h, i, j, p);
      }
    } else {
      var more := FaultyProposerForks(cfg, s, h, i, j, p);
      RunAppend(cfg, Init(cfg), steps, more);
      assert !HashesAgreeAt(RunFromGenesis(cfg, steps + more), i, j, h);
    }
  }

  /** One and the same honest validator completes every quorum at both nodes exactly if
      it is an arbiter, or if there is no quorum to complete. */
  lemma OneCompleterExactly(cfg: Config, i: Address, j: Address)
    requires i in cfg.validators && j in cfg.validators && i != j
    ensures OneCompleter(cfg, i, j) <==>
            TotalPower(cfg.validators) == 0 || HasArbiter(cfg.validators, cfg.Honest(), i, j)
  {
    if TotalPower(cfg.validators) > 0 {
      SoleCompleterExactly(cfg.validators, cfg.Honest(), i, j);
    } else {
      forall x ensures !Completes(Quorums(cfg.validators), i, x) { NoPowerNoCompleter(cfg.validators, i, x); }
    }
  }

  lemma NoForkHolds(cfg: Config, steps: seq<Step>, more: seq<Step>, h: nat, i: Address, j: Address, p: Address)
    requires ProposedBy(cfg, h, p) && OpenHeight(RunFromGenesis(cfg, steps), h, i, j)
    requires p in cfg.Honest() || OneCompleter(cfg, i, j)
    ensures HashesAgreeAt(RunFromGenesis(cfg, steps + more), i, j, h)
  {
    var s := RunFromGenesis(cfg, steps);
    ReachableInv(cfg, steps);
    if p in cfg.Honest() {
      AgreementHolds(cfg, steps + more, h, i, j, p);
    } else {
      assert i in cfg.Honest() && j in cfg.Honest();
      RunAppend(cfg, Init(cfg), steps, more);
      OpenIsTracked(cfg, s, h, i, j);
      RunTracked(cfg, s, i, h, more);
      RunTracked(cfg, s, j, h, more);
      RunInv(cfg, s, more);
      OneCompleterOneHash(cfg, Run(cfg, s, more), i, j, h);
    }
  }

  // ------------------------------------------------------------ special cases --

  /** A faulty proposer whose vote completes some coalition of one of the nodes forks. */
  lemma PivotalProposerForks(cfg: Config, s: Net, h: nat, i: Address, j: Address, p: Address, coalition: set<Address>)
    returns (steps: seq<Step>)
    requires Inv(cfg, s) && ProposedBy(cfg, h, p) && p !in cfg.Honest() && OpenHeight(s, h, i, j) && i != j
    requires j in coalition && Pivotal(Quorums(cfg.validators), coalition, p)
    ensures !HashesAgreeAt(Run(cfg, s, steps), i, j, h)
  {
    assert i in cfg.validators;
    PivotalLeavesTwo(cfg, i, j, p, coalition);
    steps := FaultyProposerForks(cfg, s, h, i, j, p);
  }

  lemma PivotalLeavesTwo(cfg: Config, i: Address, j: Address, p: Address, coalition: set<Address>)
    requires i in cfg.validators && p !in cfg.Honest() && j in coalition
    requires Pivotal(Quorums(cfg.validators), coalition, p)
    ensures !OneCompleter(cfg, i, j)
  {
    var quorum := Quorums(cfg.validators);
    PivotalMeansPower(cfg.validators, coalition, p);
    AllAreQuorum(cfg.validators);
    var x := SomeoneCompletes(quorum, cfg.validators.Keys, i, {i});
    PivotalCompletes(quorum, coalition, j, p);
    if OneCompleter(cfg, i, j) { SameCompleter(quorum, cfg.Honest(), i, j, x, p); }
  }

  /** Among validators of equal power no one escapes: two honest nodes before which a
      height lies open finalize one hash there in every continuation if and only if its
      proposer is honest, however small the share of faulty power. */
  lemma NoForkAmongEquals(cfg: Config, w: nat, steps: seq<Step>, h: nat, i: Address, j: Address, p: Address)
    requires EqualPowers(cfg.validators, w) && ProposedBy(cfg, h, p)
    requires OpenHeight(RunFromGenesis(cfg, steps), h, i, j) && i != j
    ensures (forall more :: HashesAgreeAt(RunFromGenesis(cfg, steps + more), i, j, h)) <==> p in cfg.Honest()
  {
    ReachableInv(cfg, steps);
    NoForkExactly(cfg, steps, h, i, j, p);
    if p !in cfg.Honest() {
      ProposerIsValidator(cfg.validators, h, 0);
      assert i in cfg.Honest() && j in cfg.Honest();
      OneCompleterExactly(cfg, i, j);
      EqualPowersComplete(cfg.validators, w, i, p);
      EqualPowersComplete(cfg.validators, w, j, p);
      assert !OneCompleter(cfg, i, j);
    }
  }
}
