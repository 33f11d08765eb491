/** Nodes that lag behind. A node one height short of `h - 1` records votes for `h`
    that it cannot act on yet; if its block for `h` is replaced meanwhile, it will
    finalize the replacement as soon as it has caught up. So from height 2 on an honest
    proposer is the only protection against forks. With that, this module says over all
    runs exactly when hashes agree and exactly when chain links hold. */
module Lagging {
  import opened Primitives
  import opened Validators
  import opened Completers
  import opened Finality
  import opened EngineSafety
  import opened Network
  import opened NetworkSafety
  import opened Delivery
  import opened Disagreement
  import opened Forks
  import opened Heights

  // ------------------------------------------------------------ falling behind --

  /** Two heights short of `h`, with nothing seen but `h` itself. */
  ghost predicate Short(n: Node, h: nat) {
    && !n.due && n.engine.height + 2 == h && Fresh(n, h - 1) && n.nextHeight <= h - 1
    && (forall r :: r in n.engine.rounds ==> r <= h) && h - 1 !in n.engine.rounds
  }

  lemma LevelIsShort(cfg: Config, k: Address, n: Node, n': Node, h: nat)
    requires h >= 2 && AtLevel(n, h - 2) && NodeOk(cfg, k, n) && Stays(n, n', h) && ChainOk(n'.engine)
    ensures Short(n', h)
  {
    assert n'.engine.height >= h - 1 ==> h - 1 in n'.engine.finalized;
  }

  ghost predicate AllShort(s: Net, h: nat) {
    forall k {:trigger Short(s.nodes[k], h)} :: k in s.nodes ==> Short(s.nodes[k], h)
  }

  lemma LevelStaysShort(cfg: Config, s: Net, s1: Net, s': Net, h: nat)
    requires h >= 2 && Lockstep(cfg, s, h - 2) && s1.nodes == s.nodes && Within(s1, s', h) && NodesOk(cfg, s')
    ensures AllShort(s', h)
  {
    forall k | k in s'.nodes ensures Short(s'.nodes[k], h) {
      assert AtLevel(s.nodes[k], h - 2) && NodeOk(cfg, k, s.nodes[k]) && Stays(s1.nodes[k], s'.nodes[k], h);
      EngineFacts(cfg, s', k);
      LevelIsShort(cfg, k, s.nodes[k], s'.nodes[k], h);
    }
  }

  /** Everybody has voted for `b` at `h`. Node `j` has recorded all those votes and now
      holds `c`, which nobody has voted for; the others still hold `b`. */
  ghost predicate Laid(cfg: Config, s: Net, h: nat, j: Address, b: Block, c: Block) {
    && Inv(cfg, s) && AllShort(s, h) && EveryoneVoted(cfg, s, b) && j in s.nodes
    && b.header.height == c.header.height == h && b.header != c.header
    && (forall i :: i in s.nodes && i != j ==> OnBlock(s.nodes[i].engine, b))
    && OnBlock(s.nodes[j].engine, c) && cfg.validators.Keys <= RecordedVoters(s.nodes[j].engine, c)
    && (forall v :: v in s.votes ==> v.blockHash != BlockHash(c))
  }

  /** Node `j` records every vote for `b` without being able to act on them. */
  lemma RecordAhead(cfg: Config, s: Net, j: Address, b: Block) returns (steps: seq<Step>)
    requires Inv(cfg, s) && Listening(s, j, b) && EveryoneVoted(cfg, s, b)
    ensures Inv(cfg, Run(cfg, s, steps)) && VotesTaken(s, Run(cfg, s, steps), j, b, cfg.validators.Keys)
  {
    assert j in cfg.validators;
    steps := RecordAll(cfg, s, j, b, cfg.validators.Keys);
  }

  /** Everybody votes for `b`, and `j` records all the votes. */
  ghost predicate Baited(cfg: Config, s: Net, h: nat, j: Address, b: Block) {
    && Inv(cfg, s) && AllShort(s, h) && EveryoneVoted(cfg, s, b) && b.header.height == h
    && (forall i :: i in s.nodes ==> OnBlock(s.nodes[i].engine, b))
    && j in s.nodes && cfg.validators.Keys <= RecordedVoters(s.nodes[j].engine, b)
  }

  lemma Bait(cfg: Config, s: Net, s0: Net, h: nat, j: Address, b: Block) returns (steps: seq<Step>)
    requires h >= 2 && Lockstep(cfg, s0, h - 2) && s.nodes == s0.nodes && Inv(cfg, s) && Rivals(cfg, s, b, b)
    requires b.header.height == h && j in s.nodes
    ensures Baited(cfg, Run(cfg, s, steps), h, j, b)
  {
    var steps1 := GatherVotes(cfg, s, b, b, j);
    var s1 := Run(cfg, s, steps1);
    OneHashForAll(cfg, s1, b, b, j);
    var steps2 := RecordAhead(cfg, s1, j, b);
    var s2 := Run(cfg, s1, steps2);
    WithinTrans(s, s1, s2, h);
    LevelStaysShort(cfg, s0, s, s2, h);
    assert Short(s2.nodes[j], h);
    steps := steps1 + steps2;
    RunAppend(cfg, s, steps1, steps2);
  }

  lemma ShortStays(n: Node, n': Node, h: nat)
    requires h >= 2 && Short(n, h) && Stays(n, n', h) && ChainOk(n'.engine)
    ensures Short(n', h)
  {
    assert n'.engine.height >= h - 1 ==> h - 1 in n'.engine.finalized;
  }

  lemma ReplaceBait(cfg: Config, s: Net, h: nat, j: Address, b: Block, c: Block)
    requires Baited(cfg, s, h, j, b) && h >= 2 && c in s.blocks && c.header.height == h && c.header != b.header
    requires ProposedBy(cfg, h, c.header.proposer) && forall v :: v in s.votes ==> v.blockHash != BlockHash(c)
    ensures Laid(cfg, Run(cfg, s, [StepDeliverBlock(j, c), StepAfterBlock(j)]), h, j, b, c)
  {
    var s' := Run(cfg, s, [StepDeliverBlock(j, c), StepAfterBlock(j)]);
    assert Short(s.nodes[j], h);
    ReplaceHeld(cfg, s, j, b, c);
    forall k | k in s'.nodes ensures Short(s'.nodes[k], h) {
      assert Short(s.nodes[k], h) && Stays(s.nodes[k], s'.nodes[k], h);
      EngineFacts(cfg, s', k);
      ShortStays(s.nodes[k], s'.nodes[k], h);
    }
  }

  /** Send a block later than any that was voted for, and hand it to `j`. */
  lemma SwapBait(cfg: Config, s: Net, h: nat, j: Address, p: Address, b: Block) returns (steps: seq<Step>, c: Block)
    requires Baited(cfg, s, h, j, b) && h >= 2 && ProposedBy(cfg, h, p) && p !in cfg.Honest()
    ensures Laid(cfg, Run(cfg, s, steps), h, j, b, c)
  {
    var ts := LaterThanAll(s.votes);
    c := Forged(cfg, h, p, ts, []);
    assert j in cfg.validators && VoteFor(b, j) in s.votes;
    SendOne(cfg, s, c);
    var s1 := Run(cfg, s, [StepFaultyBlock(c)]);
    var two := [StepDeliverBlock(j, c), StepAfterBlock(j)];
    ReplaceBait(cfg, s1, h, j, b, c);
    steps := [StepFaultyBlock(c)] + two;
    RunAppend(cfg, s, [StepFaultyBlock(c)], two);
  }

  lemma LayTrap(cfg: Config, s: Net, h: nat, j: Address, p: Address) returns (steps: seq<Step>, b: Block, c: Block)
    requires h >= 2 && Lockstep(cfg, s, h - 2) && ProposedBy(cfg, h, p) && p !in cfg.Honest() && j in s.nodes
    ensures Laid(cfg, Run(cfg, s, steps), h, j, b, c)
  {
    b := Forged(cfg, h, p, 0, []);
    SendOne(cfg, s, b);
    var s1 := Run(cfg, s, [StepFaultyBlock(b)]);
    LevelUnseen(cfg, s, s1, h, b);
    var steps1 := Bait(cfg, s1, s, h, j, b);
    var s2 := Run(cfg, s1, steps1);
    var steps2;
    steps2, c := SwapBait(cfg, s2, h, j, p, b);
    steps := [StepFaultyBlock(b)] + (steps1 + steps2);
    RunAppend(cfg, s, [StepFaultyBlock(b)], steps1 + steps2);
    RunAppend(cfg, s1, steps1, steps2);
  }

  // ------------------------------------------------------------- catching up ----

  /** Past `h` nothing has been seen, and no production loop has come further. */
  ghost predicate Quiet(n: Node, h: nat) {
    !n.due && n.nextHeight <= h && forall r :: r in n.engine.rounds ==> r <= h
  }

  /** Nodes `i` and `j` have finalized different hashes at `h`, and nobody is further. */
  ghost predicate ForkEnd(cfg: Config, s: Net, h: nat, i: Address, j: Address) {
    && Inv(cfg, s) && i in s.nodes && j in s.nodes && h in FinalizedAt(s, i) && h in FinalizedAt(s, j)
    && BlockHash(FinalizedAt(s, i)[h]) != BlockHash(FinalizedAt(s, j)[h])
    && forall k {:trigger Quiet(s.nodes[k], h)} :: k in s.nodes ==> Quiet(s.nodes[k], h)
  }

  lemma ShortIsEven(s: Net, h: nat)
    requires AllShort(s, h) && h >= 2
    ensures Even(s, h - 1)
  {
    forall k | k in s.nodes ensures Short(s.nodes[k], h) {}
  }

  /** After height `h - 1` is settled, `j` has finalized `c`. */
  lemma CatchUp(cfg: Config, s: Net, s': Net, h: nat, j: Address, a: Block, b: Block, c: Block)
    requires Laid(cfg, s, h, j, b, c) && h >= 2 && Inv(cfg, s') && Strides(s, s', h - 1) && Settled(s', a)
    requires a.header.height == h - 1 && TotalPower(cfg.validators) > 0
    ensures Finalized(s', j, c)
  {
    assert Stride(s.nodes[j], s'.nodes[j], h - 1) && Done(s'.nodes[j], a);
    EngineFacts(cfg, s', j);
    AllAreQuorum(cfg.validators);
    FinalHere(s', j, c, cfg.validators.Keys);
  }

  /** The others are right below `h` and on `b`. */
  lemma OthersKeepBait(cfg: Config, s: Net, s': Net, h: nat, i: Address, j: Address, a: Block, b: Block, c: Block)
    requires Laid(cfg, s, h, j, b, c) && h >= 2 && Inv(cfg, s') && Strides(s, s', h - 1) && Settled(s', a)
    requires a.header.height == h - 1 && i in s.nodes && i != j
    ensures Listening(s', i, b) && h <= s'.nodes[i].engine.height + 1
  {
    assert Stride(s.nodes[i], s'.nodes[i], h - 1) && Short(s.nodes[i], h) && Done(s'.nodes[i], a);
    EngineFacts(cfg, s', i);
  }

  lemma StaysQuiet(n: Node, n1: Node, n2: Node, h: nat)
    requires h >= 2 && Short(n, h) && Stride(n, n1, h - 1) && Stays(n1, n2, h)
    ensures Quiet(n2, h)
  {}

  /** Spring the trap: settle the height below, and finalize `b` at node `i`. */
  lemma SpringTrap(cfg: Config, s: Net, h: nat, i: Address, j: Address, b: Block, c: Block) returns (steps: seq<Step>)
    requires Laid(cfg, s, h, j, b, c) && h >= 2 && TotalPower(cfg.validators) > 0 && i in s.nodes && i != j
    ensures ForkEnd(cfg, Run(cfg, s, steps), h, i, j)
  {
    ShortIsEven(s, h);
    var steps1, a := Settle(cfg, s, h - 1);
    var s1 := Run(cfg, s, steps1);
    CatchUp(cfg, s, s1, h, j, a, b, c);
    OthersKeepBait(cfg, s, s1, h, i, j, a, b, c);
    var steps2 := EveryonesVoteFinalizes(cfg, s1, i, b);
    var s2 := Run(cfg, s1, steps2);
    OtherStaysFinal(s1, s2, i, j, h, c);
    forall k | k in s2.nodes ensures Quiet(s2.nodes[k], h) {
      assert Short(s.nodes[k], h) && Stride(s.nodes[k], s1.nodes[k], h - 1) && Stays(s1.nodes[k], s2.nodes[k], h);
      StaysQuiet(s.nodes[k], s1.nodes[k], s2.nodes[k], h);
    }
    steps := steps1 + steps2;
    RunAppend(cfg, s, steps1, steps2);
  }

  lemma ForkFromLevel(cfg: Config, s: Net, h: nat, i: Address, j: Address, p: Address) returns (steps: seq<Step>)
    requires h >= 2 && Lockstep(cfg, s, h - 2) && ProposedBy(cfg, h, p) && p !in cfg.Honest()
    requires TotalPower(cfg.validators) > 0 && i in s.nodes && j in s.nodes && i != j
    ensures ForkEnd(cfg, Run(cfg, s, steps), h, i, j)
  {
    var steps1, b, c := LayTrap(cfg, s, h, j, p);
    var s1 := Run(cfg, s, steps1);
    var steps2 := SpringTrap(cfg, s1, h, i, j, b, c);
    steps := steps1 + steps2;
    RunAppend(cfg, s, steps1, steps2);
  }

  /** From height 2 on a faulty proposer can always fork two nodes. */
  lemma LagFork(cfg: Config, h: nat, i: Address, j: Address, p: Address) returns (steps: seq<Step>)
    requires h >= 2 && ProposedBy(cfg, h, p) && p !in cfg.Honest() && TotalPower(cfg.validators) > 0
    requires i in cfg.Honest() && j in cfg.Honest() && i != j
    ensures ForkEnd(cfg, RunFromGenesis(cfg, steps), h, i, j)
  {
    var before := ReachLevel(cfg, h - 2);
    var rest := ForkFromLevel(cfg, RunFromGenesis(cfg, before), h, i, j, p);
    steps := before + rest;
    RunAppend(cfg, Init(cfg), before, rest);
  }

  lemma LevelUnseen(cfg: Config, s: Net, s': Net, h: nat, b: Block)
    requires h >= 2 && Lockstep(cfg, s, h - 2) && s'.nodes == s.nodes && b.header.height == h
    ensures UnseenByAll(s', b)
  {
    forall k | k in s'.nodes ensures Unseen(s', k, b) { assert AtLevel(s.nodes[k], h - 2); }
  }

  // ------------------------------------------------ hashes, over all runs ----

  /** What keeps two nodes on one hash at `h`. */
  ghost predicate HashSafe(cfg: Config, h: nat, i: Address, j: Address, p: Address) {
    p in cfg.Honest() || (h == 1 && OneCompleter(cfg, i, j))
  }

  lemma InitIsOpen(cfg: Config, i: Address, j: Address)
    requires i in cfg.Honest() && j in cfg.Honest()
    ensures OpenHeight(Init(cfg), 1, i, j) && RunFromGenesis(cfg, []) == Init(cfg)
  {}

  lemma HashesAlwaysAgree(cfg: Config, steps: seq<Step>, h: nat, i: Address, j: Address, p: Address)
    requires ProposedBy(cfg, h, p) && i in cfg.Honest() && j in cfg.Honest() && HashSafe(cfg, h, i, j, p)
    ensures HashesAgreeAt(RunFromGenesis(cfg, steps), i, j, h)
  {
    if p in cfg.Honest() {
      AgreementHolds(cfg, steps, h, i, j, p);
    } else {
      InitIsOpen(cfg, i, j);
      NoForkHolds(cfg, [], steps, 1, i, j, p);
      assert [] + steps == steps;
    }
  }

  lemma FirstFork(cfg: Config, i: Address, j: Address, p: Address) returns (steps: seq<Step>)
    requires ProposedBy(cfg, 1, p) && p !in cfg.Honest() && !OneCompleter(cfg, i, j)
    requires i in cfg.Honest() && j in cfg.Honest() && i != j
    ensures ForkEnd(cfg, RunFromGenesis(cfg, steps), 1, i, j)
  {
    InitIsOpen(cfg, i, j);
    InitInv(cfg);
    var s := Init(cfg);
    steps := FaultyProposerForks(cfg, s, 1, i, j, p);
    var s' := Run(cfg, s, steps);
    forall k | k in s'.nodes ensures Quiet(s'.nodes[k], 1) { assert Stays(s.nodes[k], s'.nodes[k], 1); }
  }

  lemma SomeFork(cfg: Config, h: nat, i: Address, j: Address, p: Address) returns (steps: seq<Step>)
    requires h >= 1 && ProposedBy(cfg, h, p) && TotalPower(cfg.validators) > 0 && !HashSafe(cfg, h, i, j, p)
    requires i in cfg.Honest() && j in cfg.Honest() && i != j
    ensures ForkEnd(cfg, RunFromGenesis(cfg, steps), h, i, j)
  {
    if h == 1 {
      steps := FirstFork(cfg, i, j, p);
    } else {
      steps := LagFork(cfg, h, i, j, p);
    }
  }

  /** Exactly when the code does not fork, over all runs and at every height: two
      honest nodes finalize one hash at `h` if and only if its proposer is honest or,
      at the first height only, some honest validator arbitrates between them. */
  lemma NoForkAtEveryHeight(cfg: Config, h: nat, i: Address, j: Address, p: Address)
    requires h >= 1 && ProposedBy(cfg, h, p) && TotalPower(cfg.validators) > 0
    requires i in cfg.Honest() && j in cfg.Honest() && i != j
    ensures (forall steps :: HashesAgreeAt(RunFromGenesis(cfg, steps), i, j, h)) <==>
            p in cfg.Honest() || (h == 1 && HasArbiter(cfg.validators, cfg.Honest(), i, j))
  {
    OneCompleterExactly(cfg, i, j);
    if HashSafe(cfg, h, i, j, p) {
      forall steps ensures HashesAgreeAt(RunFromGenesis(cfg, steps), i, j, h) {
        HashesAlwaysAgree(cfg, steps, h, i, j, p);
      }
    } else {
      var steps := SomeFork(cfg, h, i, j, p);
      assert !HashesAgreeAt(RunFromGenesis(cfg, steps), i, j, h);
    }
  }

  /** The arbiter is no idle case: here the proposer is faulty and yet no run forks the
      two nodes at the first height. */
  lemma ArbiterPreventsFork(cfg: Config, steps: seq<Step>, i: Address, j: Address, z: Address, p: Address)
    requires Distinct([i, j, z, p]) && cfg.validators == SmallSet(i, j, z, p) && cfg.faulty == {p}
    requires ProposedBy(cfg, 1, p)
    ensures HashesAgreeAt(RunFromGenesis(cfg, steps), i, j, 1)
  {
    var list := [i, j, z, p];
    assert list[0] == i && list[1] == j && list[2] == z && list[3] == p;
    SmallSetHasArbiter(i, j, z, p, cfg.Honest());
    OneCompleterExactly(cfg, i, j);
    HashesAlwaysAgree(cfg, steps, 1, i, j, p);
  }

  /** The usual bound does not help: among four or more validators of equal power the
      proposer of any height, faulty alone, can fork any two of the others there. */
  lemma OneFaultyProposerForks(cfg: Config, w: nat, h: nat, i: Address, j: Address, p: Address)
    requires EqualPowers(cfg.validators, w) && |cfg.validators.Keys| >= 4 && cfg.faulty == {p}
    requires h >= 1 && ProposedBy(cfg, h, p) && i in cfg.Honest() && j in cfg.Honest() && i != j
    ensures 3 * PowerOf(cfg.validators, cfg.faulty) < TotalPower(cfg.validators)
    ensures exists steps :: !HashesAgreeAt(RunFromGenesis(cfg, steps), i, j, h)
  {
    var vs := cfg.validators;
    ProposerIsValidator(vs, h, 0);
    OneIsBelowThird(vs, w, p);
    EqualPowersComplete(vs, w, i, p);
    EqualPowersComplete(vs, w, j, p);
    NotOneCompleter(cfg, i, j, p);
    var steps := SomeFork(cfg, h, i, j, p);
    assert !HashesAgreeAt(RunFromGenesis(cfg, steps), i, j, h);
  }

  lemma OneIsBelowThird(vs: ValidatorSet, w: nat, p: Address)
    requires EqualPowers(vs, w) && |vs.Keys| >= 4 && p in vs
    ensures 0 <= 3 * PowerOf(vs, {p}) < TotalPower(vs)
  {
    EqualPowerOf(vs, w, {p});
    EqualPowerOf(vs, w, vs.Keys);
    TotalIsPowerOfAll(vs);
    Scaled(4, |vs.Keys|, w);
  }

  lemma NotOneCompleter(cfg: Config, i: Address, j: Address, p: Address)
    requires p !in cfg.Honest()
    requires Completes(Quorums(cfg.validators), i, p) && Completes(Quorums(cfg.validators), j, p)
    ensures !OneCompleter(cfg, i, j)
  {
    if OneCompleter(cfg, i, j) { SameCompleter(Quorums(cfg.validators), cfg.Honest(), i, j, p, p); }
  }

  // ------------------------------------------------- links, over all runs ----

  /** What keeps the chain of node `i` linked at `h`: an honest proposer of `h` that
      shares the block below with `i`. */
  ghost predicate LinkSafe(cfg: Config, h: nat, i: Address, p: Address)
    requires h >= 1
  {
    && p in cfg.Honest()
    && (h == 1 || p == i || HonestProposer(cfg, h - 1) || (h == 2 && OneCompleter(cfg, i, p)))
  }

  /** A node's own proposal extends its own chain. */
  lemma OwnLinks(cfg: Config, s: Net, i: Address, h: nat)
    requires Inv(cfg, s) && i in s.nodes && h in FinalizedAt(s, i) && ProposedBy(cfg, h, i)
    ensures ChainLink(cfg, FinalizedAt(s, i), h)
  {
    StoredBlock(cfg, s, i, h);
    ProposerLinks(cfg, s, i, h);
  }

  /** If `i` and the proposer share the hash below, the link holds. */
  lemma SharedLinks(cfg: Config, s: Net, i: Address, h: nat, p: Address)
    requires Inv(cfg, s) && i in s.nodes && h in FinalizedAt(s, i) && h >= 2
    requires ProposedBy(cfg, h, p) && p in cfg.Honest() && HashesAgreeAt(s, i, p, h - 1)
    ensures ChainLink(cfg, FinalizedAt(s, i), h)
  {
    StoredBlock(cfg, s, i, h);
    ProposersBlock(cfg, s, i, h, p);
    ProposerLinks(cfg, s, p, h);
    EngineFacts(cfg, s, i);
  }

  lemma LinkAlways(cfg: Config, steps: seq<Step>, h: nat, i: Address, p: Address)
    requires h >= 1 && ProposedBy(cfg, h, p) && LinkSafe(cfg, h, i, p)
    ensures LinkedAt(cfg, RunFromGenesis(cfg, steps), i, h)
  {
    var s := RunFromGenesis(cfg, steps);
    ReachableInv(cfg, steps);
    if i in s.nodes && h in FinalizedAt(s, i) {
      assert HonestProposer(cfg, h);
      if h == 1 || HonestProposer(cfg, h - 1) {
        LinksBelow(cfg, steps, i, h);
      } else if p == i {
        OwnLinks(cfg, s, i, h);
      } else {
        ProposerIsValidator(cfg.validators, 1, 0);
        HashesAlwaysAgree(cfg, steps, 1, i, p, Proposer(cfg.validators, 1, 0).value);
        SharedLinks(cfg, s, i, h, p);
      }
    }
  }

  /** Above a fork the honest proposer's block does not fit the other node's chain. */
  lemma BreakAbove(cfg: Config, s: Net, h: nat, i: Address, p: Address) returns (steps: seq<Step>)
    requires h >= 2 && ForkEnd(cfg, s, h - 1, i, p) && ProposedBy(cfg, h, p) && TotalPower(cfg.validators) > 0
    ensures !LinkedAt(cfg, Run(cfg, s, steps), i, h)
  {
    ForkEndIsClear(cfg, s, h, i, p);
    var steps1, b := CanvassHonest(cfg, s, h, p);
    var s1 := Run(cfg, s, steps1);
    assert Stride(s.nodes[i], s1.nodes[i], h);
    var steps2 := EveryonesVoteFinalizes(cfg, s1, i, b);
    var s2 := Run(cfg, s1, steps2);
    assert Stays(s1.nodes[i], s2.nodes[i], h);
    EngineFacts(cfg, s2, i);
    Unfitting(cfg, s, s1, s2, h, i, p, b);
    steps := steps1 + steps2;
    RunAppend(cfg, s, steps1, steps2);
  }

  lemma HeightIsSeen(cfg: Config, s: Net, k: Address)
    requires NodesOk(cfg, s) && k in s.nodes
    ensures s.nodes[k].engine.height == 0 || s.nodes[k].engine.height in Rounds(s, k)
  {
    EngineFacts(cfg, s, k);
    assert s.nodes[k].engine.height > 0 ==> s.nodes[k].engine.height in s.nodes[k].engine.finalized;
  }

  lemma TipHere(cfg: Config, s: Net, k: Address)
    requires NodesOk(cfg, s) && k in s.nodes && FinalizedAt(s, k) != map[]
    ensures s.nodes[k].engine.height in FinalizedAt(s, k)
    ensures s.nodes[k].engine.previousHash == BlockHash(FinalizedAt(s, k)[s.nodes[k].engine.height])
    ensures forall h :: h in FinalizedAt(s, k) ==> h <= s.nodes[k].engine.height
  {
    SafeHere(cfg, s, k);
    var h :| h in FinalizedAt(s, k);
  }

  lemma ForkEndIsClear(cfg: Config, s: Net, h: nat, i: Address, p: Address)
    requires h >= 2 && ForkEnd(cfg, s, h - 1, i, p)
    ensures Clear(s, h) && s.nodes[p].engine.height + 1 == h && Fresh(s.nodes[p], h)
    ensures s.nodes[i].engine.height + 1 == h && ChainOk(s.nodes[i].engine)
    ensures s.nodes[p].engine.previousHash == BlockHash(FinalizedAt(s, p)[h - 1])
  {
    forall k | k in s.nodes ensures !s.nodes[k].due && s.nodes[k].engine.height < h && h !in Rounds(s, k) {
      HeightIsSeen(cfg, s, k);
      assert Quiet(s.nodes[k], h - 1);
    }
    assert Quiet(s.nodes[p], h - 1);
    EngineFacts(cfg, s, i);
    TipHere(cfg, s, p);
  }

  lemma Unfitting(cfg: Config, s: Net, s1: Net, s2: Net, h: nat, i: Address, p: Address, b: Block)
    requires h >= 2 && ForkEnd(cfg, s, h - 1, i, p) && ChainOk(s.nodes[i].engine)
    requires b == OwnBlock(s.nodes[p].engine, h)
    requires s.nodes[p].engine.previousHash == BlockHash(FinalizedAt(s, p)[h - 1])
    requires i in s1.nodes && Stride(s.nodes[i], s1.nodes[i], h)
    requires Finalized(s2, i, b) && Stays(s1.nodes[i], s2.nodes[i], h) && ChainOk(s2.nodes[i].engine)
    ensures !LinkedAt(cfg, s2, i, h)
  {
    BelowIsKept(s.nodes[i].engine, s1.nodes[i].engine, s2.nodes[i].engine, h);
    Mismatch(cfg, s2, h, i, b, FinalizedAt(s, i)[h - 1]);
  }

  lemma Mismatch(cfg: Config, s: Net, h: nat, i: Address, b: Block, below: Block)
    requires h >= 2 && b.header.height == h && Finalized(s, i, b) && b.header.previousHash != BlockHash(below)
    requires h - 1 in FinalizedAt(s, i) ==> FinalizedAt(s, i)[h - 1] == below
    ensures !LinkedAt(cfg, s, i, h)
  {}

  /** What was finalized below `h` is untouched by moves at `h`. */
  lemma BelowIsKept(e: Engine, e1: Engine, e2: Engine, h: nat)
    requires h >= 2 && h - 1 in e.finalized && ChainOk(e) && ChainOk(e2) && Elsewhere(e, e1, h) && Elsewhere(e1, e2, h)
    ensures h - 1 in e2.finalized ==> e2.finalized[h - 1] == e.finalized[h - 1]
  {}

  lemma LinkBreaks(cfg: Config, h: nat, i: Address, p: Address) returns (steps: seq<Step>)
    requires h >= 1 && ProposedBy(cfg, h, p) && TotalPower(cfg.validators) > 0 && i in cfg.Honest()
    requires !LinkSafe(cfg, h, i, p)
    ensures !LinkedAt(cfg, RunFromGenesis(cfg, steps), i, h)
  {
    var before, rest;
    if p in cfg.Honest() {
      HasProposer(cfg.validators, h - 1);
      var below := Proposer(cfg.validators, h - 1, 0).value;
      assert ProposedBy(cfg, h - 1, below);
      before := SomeFork(cfg, h - 1, i, p, below);
      rest := BreakAbove(cfg, RunFromGenesis(cfg, before), h, i, p);
    } else {
      before := ReachLevel(cfg, h - 1);
      LevelIsOpen(cfg, RunFromGenesis(cfg, before), h, i, i);
      rest := FaultyProposerBreaksLink(cfg, RunFromGenesis(cfg, before), h, i, p);
    }
    steps := before + rest;
    RunAppend(cfg, Init(cfg), before, rest);
  }

  lemma LinkSafeMeans(cfg: Config, h: nat, i: Address, p: Address)
    requires h >= 1 && TotalPower(cfg.validators) > 0 && i in cfg.Honest()
    ensures LinkSafe(cfg, h, i, p) <==>
            && p in cfg.Honest()
            && (h == 1 || p == i || HonestProposer(cfg, h - 1)
                || (h == 2 && HasArbiter(cfg.validators, cfg.Honest(), i, p)))
  {
    if p in cfg.Honest() && p != i { OneCompleterExactly(cfg, i, p); }
  }

  /** Exactly when the chain of a node is linked at `h` in every run: the proposer of
      `h` is honest, and it is the node itself, or shares the block below with it. */
  lemma LinkAtEveryHeight(cfg: Config, h: nat, i: Address, p: Address)
    requires h >= 1 && ProposedBy(cfg, h, p) && TotalPower(cfg.validators) > 0 && i in cfg.Honest()
    ensures (forall steps :: LinkedAt(cfg, RunFromGenesis(cfg, steps), i, h)) <==>
            && p in cfg.Honest()
            && (h == 1 || p == i || HonestProposer(cfg, h - 1)
                || (h == 2 && HasArbiter(cfg.validators, cfg.Honest(), i, p)))
  {
    LinkSafeMeans(cfg, h, i, p);
    if LinkSafe(cfg, h, i, p) {
      forall steps ensures LinkedAt(cfg, RunFromGenesis(cfg, steps), i, h) { LinkAlways(cfg, steps, h, i, p); }
    } else {
      var steps := LinkBreaks(cfg, h, i, p);
      assert !LinkedAt(cfg, RunFromGenesis(cfg, steps), i, h);
    }
  }
}
