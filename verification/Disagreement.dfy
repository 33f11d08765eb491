/** Agreement and chain links need an honest proposer. `handle_block` checks neither
    the body nor `previous_hash`, so a faulty proposer can make two honest nodes
    finalize different blocks, whatever the share of faulty power. Together with
    `NetworkSafety.Agreement` this says exactly when the code agrees. */
module Disagreement {
  import opened Primitives
  import opened LedgerModel
  import opened Validators
  import opened Finality
  import opened EngineSafety
  import opened Network
  import opened NetworkSafety
  import opened Delivery

  ghost predicate AgreeAt(s: Net, a: Address, c: Address, h: nat) {
    a in s.nodes && c in s.nodes && h in FinalizedAt(s, a) && h in FinalizedAt(s, c) ==>
      FinalizedAt(s, a)[h] == FinalizedAt(s, c)[h]
  }

  /** Height `h` lies open before every node: the two named ones stand right below
      it, nobody has seen it, and the network loops wait for a message. */
  ghost predicate OpenHeight(s: Net, h: nat, i: Address, j: Address) {
    && h >= 1 && i in s.nodes && j in s.nodes
    && s.nodes[i].engine.height == h - 1 && s.nodes[j].engine.height == h - 1
    && forall k :: k in s.nodes ==> !s.nodes[k].due && s.nodes[k].engine.height < h && h !in Rounds(s, k)
  }

  // ------------------------------------------------------------ split bodies --

  function Forged(cfg: Config, h: nat, p: Address, timestamp: nat, txs: seq<Transaction>): Block {
    Block(BlockHeader(h, timestamp, cfg.genesis, cfg.genesis, cfg.genesis, p), txs)
  }

  function NoTransfer(p: Address): Transaction {
    Transaction(p, p, 0, 0, 0, [], [], [])
  }

  /** Every validator has voted for the hash of `b`. */
  ghost predicate EveryoneVoted(cfg: Config, s: Net, b: Block) {
    forall q :: q in cfg.validators ==> VoteFor(b, q) in s.votes
  }

  /** Blocks with one header have one hash. */
  lemma OneHashForAll(cfg: Config, s: Net, b: Block, c: Block, j: Address)
    requires NodesOk(cfg, s) && VotedApart(cfg, s, b, c, j) && c.header == b.header
    ensures EveryoneVoted(cfg, s, b) && EveryoneVoted(cfg, s, c)
  {
    forall q ensures VoteFor(c, q) == VoteFor(b, q) {}
    forall q | q in cfg.validators ensures VoteFor(b, q) in s.votes {
      assert q in cfg.Honest() ==> q in s.nodes;
    }
  }

  /** A node right below `b` finalizes it once everybody has voted for it. */
  lemma EveryonesVoteFinalizes(cfg: Config, s: Net, k: Address, b: Block) returns (steps: seq<Step>)
    requires Inv(cfg, s) && Listening(s, k, b) && 1 <= b.header.height <= s.nodes[k].engine.height + 1
    requires EveryoneVoted(cfg, s, b) && TotalPower(cfg.validators) > 0
    ensures var s' := Run(cfg, s, steps);
            && Inv(cfg, s') && OnlyMoved(s, s', k, b.header.height) && s'.votes == s.votes && Finalized(s', k, b)
            && !Ready(s'.nodes[k].engine, s'.nodes[k].engine.height + 1)
  {
    AllAreQuorum(cfg.validators);
    assert k in cfg.validators;
    steps := QuorumFinalizes(cfg, s, k, b, cfg.validators.Keys);
  }

  /** Two blocks with one header, one body each: everybody votes for the common hash,
      and each of the two nodes finalizes the body it was handed. */
  lemma BodiesSplit(cfg: Config, s: Net, b: Block, c: Block, i: Address, j: Address) returns (steps: seq<Step>)
    requires Inv(cfg, s) && Rivals(cfg, s, b, c) && c.header == b.header && TotalPower(cfg.validators) > 0
    requires OpenHeight(s, b.header.height, i, j) && i != j
    ensures Finalized(Run(cfg, s, steps), i, b) && Finalized(Run(cfg, s, steps), j, c)
  {
    var h := b.header.height;
    var steps1 := GatherVotes(cfg, s, b, c, j);
    var s1 := Run(cfg, s, steps1);
    OneHashForAll(cfg, s1, b, c, j);
    assert Stays(s.nodes[i], s1.nodes[i], h) && Stays(s.nodes[j], s1.nodes[j], h);
    var steps2 := EveryonesVoteFinalizes(cfg, s1, i, b);
    var s2 := Run(cfg, s1, steps2);
    var steps3 := EveryonesVoteFinalizes(cfg, s2, j, c);
    steps := steps1 + (steps2 + steps3);
    RunAppend(cfg, s, steps1, steps2 + steps3);
    RunAppend(cfg, s1, steps2, steps3);
  }

  /** A faulty proposer sends two blocks for an open height. */
  lemma SendRivals(cfg: Config, s: Net, b: Block, c: Block, i: Address, j: Address)
    requires Inv(cfg, s) && b.header.proposer !in cfg.Honest() && ProposedBy(cfg, b.header.height, b.header.proposer)
    requires c.header.height == b.header.height && c.header.proposer == b.header.proposer
    requires OpenHeight(s, b.header.height, i, j)
    ensures var s' := Run(cfg, s, [StepFaultyBlock(b), StepFaultyBlock(c)]);
            && Inv(cfg, s') && s'.nodes == s.nodes && s'.votes == s.votes
            && Rivals(cfg, s', b, c) && OpenHeight(s', b.header.height, i, j)
  {
    Equivocate(cfg, s, b, c);
  }

  /** From any state in which a height lies open, its faulty proposer can make two
      nodes finalize different blocks there. */
  lemma FaultyProposerSplits(cfg: Config, s: Net, h: nat, i: Address, j: Address, p: Address) returns (steps: seq<Step>)
    requires Inv(cfg, s) && ProposedBy(cfg, h, p) && p !in cfg.Honest() && TotalPower(cfg.validators) > 0
    requires OpenHeight(s, h, i, j) && i != j
    ensures !AgreeAt(Run(cfg, s, steps), i, j, h)
  {
    var b, c := Forged(cfg, h, p, 0, []), Forged(cfg, h, p, 0, [NoTransfer(p)]);
    var two := [StepFaultyBlock(b), StepFaultyBlock(c)];
    SendRivals(cfg, s, b, c, i, j);
    var s1 := Run(cfg, s, two);
    var rest := BodiesSplit(cfg, s1, b, c, i, j);
    steps := two + rest;
    RunAppend(cfg, s, two, rest);
  }

  lemma AgreementHolds(cfg: Config, steps: seq<Step>, h: nat, i: Address, j: Address, p: Address)
    requires ProposedBy(cfg, h, p) && p in cfg.Honest()
    ensures AgreeAt(RunFromGenesis(cfg, steps), i, j, h)
  {
    var s := RunFromGenesis(cfg, steps);
    if i in s.nodes && j in s.nodes && h in FinalizedAt(s, i) && h in FinalizedAt(s, j) {
      Agreement(cfg, steps, i, j, h);
    }
  }

  /** Exactly when the code agrees: from any reachable state where `h` lies open
      before two honest nodes, every continuation keeps them in agreement at `h` if
      and only if the proposer of `h` is honest. */
  lemma AgreementExactlyWhenProposerHonest(cfg: Config, steps: seq<Step>, h: nat, i: Address, j: Address, p: Address)
    requires ProposedBy(cfg, h, p) && TotalPower(cfg.validators) > 0
    requires OpenHeight(RunFromGenesis(cfg, steps), h, i, j) && i != j
    ensures (forall more :: AgreeAt(RunFromGenesis(cfg, steps + more), i, j, h)) <==> p in cfg.Honest()
  {
    var s := RunFromGenesis(cfg, steps);
    ReachableInv(cfg, steps);
    if p in cfg.Honest() {
      forall more ensures AgreeAt(RunFromGenesis(cfg, steps + more), i, j, h) {
        AgreementHolds(cfg, steps + more, h, i, j, p);
      }
    } else {
      var more := FaultyProposerSplits(cfg, s, h, i, j, p);
      RunAppend(cfg, Init(cfg), steps, more);
      assert !AgreeAt(RunFromGenesis(cfg, steps + more), i, j, h);
    }
  }

  // ------------------------------------------------------------ broken links --

  ghost predicate LinkedAt(cfg: Config, s: Net, a: Address, h: nat) {
    a in s.nodes && h in FinalizedAt(s, a) ==> ChainLink(cfg, FinalizedAt(s, a), h)
  }

  /** A block whose header names a hash no chain can have below it. */
  function Unlinked(cfg: Config, h: nat, p: Address): Block {
    var wrong := if cfg.genesis == Digest(0) then Digest(1) else Digest(0);
    Block(BlockHeader(h, 0, wrong, cfg.genesis, cfg.genesis, p), [])
  }

  lemma UnlinkedBreaksLink(cfg: Config, s: Net, i: Address, h: nat, p: Address)
    requires h >= 1 && Finalized(s, i, Unlinked(cfg, h, p))
    ensures !LinkedAt(cfg, s, i, h)
  {}

  /** Nobody checks `previous_hash`: a faulty proposer breaks the chain of a node
      that stands right below its height. */
  lemma FaultyProposerBreaksLink(cfg: Config, s: Net, h: nat, i: Address, p: Address) returns (steps: seq<Step>)
    requires Inv(cfg, s) && ProposedBy(cfg, h, p) && p !in cfg.Honest() && TotalPower(cfg.validators) > 0
    requires OpenHeight(s, h, i, i)
    ensures !LinkedAt(cfg, Run(cfg, s, steps), i, h)
  {
    var b := Unlinked(cfg, h, p);
    var two := [StepFaultyBlock(b), StepFaultyBlock(b)];
    SendRivals(cfg, s, b, b, i, i);
    var s1 := Run(cfg, s, two);
    var steps1 := GatherVotes(cfg, s1, b, b, i);
    var s2 := Run(cfg, s1, steps1);
    OneHashForAll(cfg, s2, b, b, i);
    assert Stays(s1.nodes[i], s2.nodes[i], h);
    var steps2 := EveryonesVoteFinalizes(cfg, s2, i, b);
    steps := two + (steps1 + steps2);
    RunAppend(cfg, s, two, steps1 + steps2);
    RunAppend(cfg, s1, steps1, steps2);
    UnlinkedBreaksLink(cfg, Run(cfg, s, steps), i, h, p);
  }
}
