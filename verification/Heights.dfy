/** Runs that reach any height. All nodes can be brought to any height together, so
    what a faulty proposer can do at an open height it can do at every height; and
    one height further down it can do more, because a node that lags behind collects
    votes for a height it cannot finalize yet. */
module Heights {
  import opened Primitives
  import opened LedgerModel
  import opened Validators
  import opened Completers
  import opened Finality
  import opened EngineSafety
  import opened Network
  import opened NetworkSafety
  import opened Delivery
  import opened Disagreement
  import opened Forks

  // ------------------------------------------------------------------ frames --

  /** A node moved at height `g` only; its production loop may have come to `g`. */
  ghost predicate Stride(n: Node, n': Node, g: nat) {
    && Elsewhere(n.engine, n'.engine, g) && n.engine.height <= n'.engine.height && (n'.due ==> n.due)
    && (n'.nextHeight == n.nextHeight || n'.nextHeight == g)
  }

  ghost predicate Strides(s: Net, s': Net, g: nat) {
    && s'.nodes.Keys == s.nodes.Keys && MoreVotes(s.votes, s'.votes, g) && s.blocks <= s'.blocks
    && forall k {:trigger Stride(s.nodes[k], s'.nodes[k], g)} :: k in s.nodes ==> Stride(s.nodes[k], s'.nodes[k], g)
  }

  lemma StrideTrans(n: Node, n1: Node, n2: Node, g: nat)
    requires Stride(n, n1, g) && Stride(n1, n2, g)
    ensures Stride(n, n2, g)
  {}

  lemma StridesTrans(s: Net, s1: Net, s2: Net, g: nat)
    requires Strides(s, s1, g) && Strides(s1, s2, g)
    ensures Strides(s, s2, g)
  {
    forall k | k in s.nodes ensures Stride(s.nodes[k], s2.nodes[k], g) {
      assert Stride(s.nodes[k], s1.nodes[k], g) && Stride(s1.nodes[k], s2.nodes[k], g);
      StrideTrans(s.nodes[k], s1.nodes[k], s2.nodes[k], g);
    }
  }

  lemma WithinStrides(s: Net, s': Net, g: nat)
    requires Within(s, s', g)
    ensures Strides(s, s', g)
  {
    forall k | k in s.nodes ensures Stride(s.nodes[k], s'.nodes[k], g) {
      assert Stays(s.nodes[k], s'.nodes[k], g);
    }
  }

  lemma SameNodesStride(s: Net, s': Net, g: nat)
    requires s'.nodes == s.nodes && MoreVotes(s.votes, s'.votes, g) && s.blocks <= s'.blocks
    ensures Strides(s, s', g)
  {}

  // ------------------------------------------------- an honest proposer's turn --

  /** The production loop has not proposed `h` yet. */
  ghost predicate Fresh(n: Node, h: nat) {
    n.nextHeight < h || n.lastProposed == None
  }

  function OwnBlock(e: Engine, h: nat): Block {
    Block(BlockHeader(h, 0, e.previousHash, StateHash(e.ledger), TransactionsHash([]), e.local), [])
  }

  /** The node right below its turn, once its loop has come round. */
  lemma TickShape(cfg: Config, s: Net, p: Address, h: nat)
    requires Inv(cfg, s) && p in s.nodes && s.nodes[p].engine.height + 1 == h && Fresh(s.nodes[p], h)
    ensures var s' := Next(cfg, s, StepTick(p));
            && s'.nodes == s.nodes[p := s.nodes[p].(nextHeight := h, lastProposed := None)]
            && s'.blocks == s.blocks && s'.votes == s.votes
  {
    assert NodeOk(cfg, p, s.nodes[p]);
  }

  lemma ProposeShape(cfg: Config, s: Net, p: Address, h: nat)
    requires Inv(cfg, s) && p in s.nodes && ProposedBy(cfg, h, p) && h !in Rounds(s, p)
    requires s.nodes[p].nextHeight == h && s.nodes[p].lastProposed == None
    ensures var s' := Next(cfg, s, StepPropose(p, 0));
            var e := s.nodes[p].engine;
            && e.local == p
            && s'.nodes ==
               s.nodes[p := s.nodes[p].(engine := RecordOwnBlock(e, h, OwnBlock(e, h)), lastProposed := Some(h))]
            && s'.blocks == s.blocks && s'.votes == s.votes
  {
    assert NodeOk(cfg, p, s.nodes[p]);
    ProposedNode(cfg, p, s.nodes[p], 0);
    EmptyProposal(cfg, s.nodes[p].engine, h, 0);
  }

  lemma BroadcastShape(cfg: Config, s: Net, p: Address, h: nat, b: Block)
    requires Inv(cfg, s) && p in s.nodes && ProposedBy(cfg, h, p) && s.nodes[p].nextHeight == h && b.header.height == h
    requires OnBlock(s.nodes[p].engine, b) && p in RecordedVoters(s.nodes[p].engine, b)
    requires Rounds(s, p)[h].votes[p] == VoteFor(b, p)
    ensures var s' := Run(cfg, s, [StepBroadcastBlock(p), StepBroadcastVote(p)]);
            s'.nodes == s.nodes && s'.blocks == s.blocks + {b} && s'.votes == s.votes + {VoteFor(b, p)}
  {
    assert NodeOk(cfg, p, s.nodes[p]);
    RunTwo(cfg, s, StepBroadcastBlock(p), StepBroadcastVote(p));
  }

  lemma OwnBlockEffect(e: Engine, h: nat)
    requires h !in e.rounds
    ensures var b := OwnBlock(e, h);
            var e' := RecordOwnBlock(e, h, b);
            && OnBlock(e', b) && RecordedVoters(e', b) == {e.local}
            && e'.rounds[h].votes[e.local] == VoteFor(b, e.local)
            && Elsewhere(e, e', h) && e'.height == e.height
  {}

  function TurnSteps(p: Address): seq<Step> {
    [StepTick(p), StepPropose(p, 0)] + [StepBroadcastBlock(p), StepBroadcastVote(p)]
  }

  /** An honest proposer right below its height proposes, votes and sends both. */
  lemma TakesTurn(cfg: Config, s: Net, p: Address, h: nat)
    requires Inv(cfg, s) && p in s.nodes && ProposedBy(cfg, h, p) && h !in Rounds(s, p) && !s.nodes[p].due
    requires s.nodes[p].engine.height + 1 == h && Fresh(s.nodes[p], h)
    ensures var s' := Run(cfg, s, TurnSteps(p));
            var b := OwnBlock(s.nodes[p].engine, h);
            && Inv(cfg, s') && Strides(s, s', h) && s'.blocks == s.blocks + {b} && s'.votes == s.votes + {VoteFor(b, p)}
            && FreshlyOn(s', p, b) && b.header.proposer == p
            && (forall k :: k in s.nodes && k != p ==> s'.nodes[k] == s.nodes[k])
  {
    var e := s.nodes[p].engine;
    var b := OwnBlock(e, h);
    RunInv(cfg, s, TurnSteps(p));
    StepInv(cfg, s, StepTick(p));
    TickShape(cfg, s, p, h);
    var s1 := Next(cfg, s, StepTick(p));
    StepInv(cfg, s1, StepPropose(p, 0));
    ProposeShape(cfg, s1, p, h);
    var s2 := Next(cfg, s1, StepPropose(p, 0));
    OwnBlockEffect(e, h);
    BroadcastShape(cfg, s2, p, h, b);
    RunTwo(cfg, s, StepTick(p), StepPropose(p, 0));
    RunAppend(cfg, s, [StepTick(p), StepPropose(p, 0)], [StepBroadcastBlock(p), StepBroadcastVote(p)]);
    TurnStrides(s, Run(cfg, s, TurnSteps(p)), p, h, s2.nodes[p]);
  }

  lemma TurnStrides(s: Net, s': Net, p: Address, h: nat, n: Node)
    requires p in s.nodes && s'.nodes == s.nodes[p := n] && MoreVotes(s.votes, s'.votes, h) && s.blocks <= s'.blocks
    requires Elsewhere(s.nodes[p].engine, n.engine, h) && n.engine.height == s.nodes[p].engine.height
    requires n.due == s.nodes[p].due && n.nextHeight == h
    ensures Strides(s, s', h)
  {
    forall k | k in s.nodes ensures Stride(s.nodes[k], s'.nodes[k], h) {}
  }

  // --------------------------------------------------- settling one height ----

  /** Height `g` is unseen and every network loop waits. */
  ghost predicate Clear(s: Net, g: nat) {
    forall k :: k in s.nodes ==> !s.nodes[k].due && s.nodes[k].engine.height < g && g !in Rounds(s, k)
  }

  /** Every honest node is freshly on `b`, and every validator has voted for it. */
  ghost predicate Canvassed(cfg: Config, s: Net, b: Block) {
    (forall k :: k in s.nodes ==> FreshlyOn(s, k, b)) && EveryoneVoted(cfg, s, b)
  }

  /** The proposer holds its block; everybody else votes for it. */
  lemma CanvassOthers(cfg: Config, s: Net, p: Address, b: Block) returns (steps: seq<Step>)
    requires Inv(cfg, s) && b in s.blocks && ProposedBy(cfg, b.header.height, p) && b.header.proposer == p
    requires p in s.nodes && FreshlyOn(s, p, b) && VoteFor(b, p) in s.votes
    requires forall k :: k in s.nodes && k != p ==> Unseen(s, k, b)
    ensures var s' := Run(cfg, s, steps);
            Inv(cfg, s') && Within(s, s', b.header.height) && Canvassed(cfg, s', b)
  {
    var others := Enumerate(s.nodes.Keys - {p});
    var steps1 := EverybodyVotes(cfg, s, b, others);
    var s1 := Run(cfg, s, steps1);
    var steps2 := AllFaultyVote(cfg, s1, b);
    steps := steps1 + steps2;
    RunAppend(cfg, s, steps1, steps2);
    WithinTrans(s, s1, Run(cfg, s, steps), b.header.height);
    OthersCanvassed(cfg, s, s1, Run(cfg, s, steps), p, b, others);
  }

  lemma OthersCanvassed(cfg: Config, s: Net, s1: Net, s': Net, p: Address, b: Block, others: seq<Address>)
    requires NodesOk(cfg, s) && p in s.nodes && FreshlyOn(s, p, b) && VoteFor(b, p) in s.votes
    requires (forall k :: k in others <==> k in s.nodes && k != p) && AllVoted(s, s1, b, others)
    requires s'.nodes == s1.nodes && s1.votes <= s'.votes
    requires forall q :: q in cfg.validators && q !in cfg.Honest() ==> VoteFor(b, q) in s'.votes
    ensures Canvassed(cfg, s', b)
  {
    forall k | k in s'.nodes ensures FreshlyOn(s', k, b) {
      if k != p { assert k in others; }
    }
    forall q | q in cfg.validators ensures VoteFor(b, q) in s'.votes {
      if q in cfg.Honest() && q != p { assert q in others; }
    }
  }

  lemma CanvassHonest(cfg: Config, s: Net, g: nat, p: Address) returns (steps: seq<Step>, b: Block)
    requires Inv(cfg, s) && Clear(s, g) && ProposedBy(cfg, g, p) && p in s.nodes
    requires s.nodes[p].engine.height + 1 == g && Fresh(s.nodes[p], g)
    ensures var s' := Run(cfg, s, steps);
            && Inv(cfg, s') && Strides(s, s', g) && Canvassed(cfg, s', b) && b == OwnBlock(s.nodes[p].engine, g)
  {
    TakesTurn(cfg, s, p, g);
    b := OwnBlock(s.nodes[p].engine, g);
    var s1 := Run(cfg, s, TurnSteps(p));
    forall k | k in s1.nodes && k != p ensures Unseen(s1, k, b) { assert s1.nodes[k] == s.nodes[k]; }
    var rest := CanvassOthers(cfg, s1, p, b);
    steps := TurnSteps(p) + rest;
    RunAppend(cfg, s, TurnSteps(p), rest);
    WithinStrides(s1, Run(cfg, s, steps), g);
    StridesTrans(s, s1, Run(cfg, s, steps), g);
  }

  lemma CanvassFaulty(cfg: Config, s: Net, p: Address, b: Block) returns (steps: seq<Step>)
    requires Inv(cfg, s) && Clear(s, b.header.height) && ProposedBy(cfg, b.header.height, p) && p !in cfg.Honest()
    requires b.header.proposer == p
    ensures var s' := Run(cfg, s, steps);
            Inv(cfg, s') && Strides(s, s', b.header.height) && Canvassed(cfg, s', b)
  {
    var two := [StepFaultyBlock(b), StepFaultyBlock(b)];
    Equivocate(cfg, s, b, b);
    var s1 := Run(cfg, s, two);
    assert UnseenByAll(s1, b);
    var rest := GatherVotes(cfg, s1, b, b, p);
    steps := two + rest;
    RunAppend(cfg, s, two, rest);
    var s' := Run(cfg, s, steps);
    OneHashForAll(cfg, s', b, b, p);
    SentBefore(cfg, s, b);
    SameNodesStride(s, s1, b.header.height);
    WithinStrides(s1, s', b.header.height);
    StridesTrans(s, s1, s', b.header.height);
  }

  lemma SentBefore(cfg: Config, s: Net, b: Block)
    ensures s.blocks <= Run(cfg, s, [StepFaultyBlock(b), StepFaultyBlock(b)]).blocks
  {
    RunTwo(cfg, s, StepFaultyBlock(b), StepFaultyBlock(b));
  }

  /** The node has finalized `b` and has nothing pending. */
  ghost predicate Done(n: Node, b: Block) {
    && b.header.height in n.engine.finalized && n.engine.finalized[b.header.height] == b
    && !Ready(n.engine, n.engine.height + 1)
  }

  /** The listed nodes, and no others, are done with `b`. */
  ghost predicate AllFinal(s: Net, s': Net, b: Block, ks: seq<Address>) {
    && Within(s, s', b.header.height) && s'.votes == s.votes
    && (forall k :: k in ks ==> k in s'.nodes && Done(s'.nodes[k], b))
    && (forall c :: c in s.nodes && c !in ks ==> s'.nodes[c] == s.nodes[c])
  }

  lemma OneMoreFinal(s: Net, s1: Net, s': Net, b: Block, k: Address, ks: seq<Address>)
    requires ks != [] && k == ks[0] && k !in ks[1..] && OnlyMoved(s, s1, k, b.header.height) && s1.votes == s.votes
    requires Done(s1.nodes[k], b) && AllFinal(s1, s', b, ks[1..])
    ensures AllFinal(s, s', b, ks)
  {
    WithinTrans(s, s1, s', b.header.height);
    forall c | c in ks ensures c in s'.nodes && Done(s'.nodes[c], b) {
      if c != k { assert c in ks[1..]; }
    }
  }

  /** Nodes that are freshly on `b`, right below it or past it. */
  ghost predicate Waiting(s: Net, b: Block, ks: seq<Address>) {
    forall k :: k in ks ==> FreshlyOn(s, k, b) && b.header.height <= s.nodes[k].engine.height + 1
  }

  lemma FinalizeOne(cfg: Config, s: Net, b: Block, k: Address) returns (steps: seq<Step>)
    requires Inv(cfg, s) && EveryoneVoted(cfg, s, b) && TotalPower(cfg.validators) > 0 && b.header.height >= 1
    requires FreshlyOn(s, k, b) && b.header.height <= s.nodes[k].engine.height + 1
    ensures var s' := Run(cfg, s, steps);
            && Inv(cfg, s') && OnlyMoved(s, s', k, b.header.height) && s'.votes == s.votes
            && EveryoneVoted(cfg, s', b) && Done(s'.nodes[k], b)
  {
    steps := EveryonesVoteFinalizes(cfg, s, k, b);
  }

  lemma {:induction false} FinalizeAll(cfg: Config, s: Net, b: Block, ks: seq<Address>) returns (steps: seq<Step>)
    requires Inv(cfg, s) && EveryoneVoted(cfg, s, b) && TotalPower(cfg.validators) > 0 && b.header.height >= 1
    requires Distinct(ks) && Waiting(s, b, ks)
    ensures Inv(cfg, Run(cfg, s, steps)) && AllFinal(s, Run(cfg, s, steps), b, ks)
    decreases |ks|
  {
    if ks == [] {
      steps := [];
      WithinSame(s, s, b.header.height);
    } else {
      var k := ks[0];
      assert k in ks && k !in ks[1..];
      var first := FinalizeOne(cfg, s, b, k);
      var s1 := Run(cfg, s, first);
      OthersWait(s, s1, k, b, ks);
      var rest := FinalizeAll(cfg, s1, b, ks[1..]);
      steps := first + rest;
      RunAppend(cfg, s, first, rest);
      OneMoreFinal(s, s1, Run(cfg, s, steps), b, k, ks);
    }
  }

  lemma OthersWait(s: Net, s1: Net, k: Address, b: Block, ks: seq<Address>)
    requires ks != [] && k == ks[0] && k !in ks[1..] && OnlyMoved(s, s1, k, b.header.height) && Waiting(s, b, ks)
    ensures Waiting(s1, b, ks[1..])
  {
    forall c | c in ks[1..] ensures FreshlyOn(s1, c, b) && b.header.height <= s1.nodes[c].engine.height + 1 {
      assert c in ks && c != k;
    }
  }

  /** Everybody has finalized `b` and has nothing pending. */
  ghost predicate Settled(s: Net, b: Block) {
    forall k {:trigger Done(s.nodes[k], b)} :: k in s.nodes ==> Done(s.nodes[k], b)
  }

  lemma SettleCanvassed(cfg: Config, s: Net, b: Block) returns (steps: seq<Step>)
    requires Inv(cfg, s) && Canvassed(cfg, s, b) && TotalPower(cfg.validators) > 0 && b.header.height >= 1
    requires forall k :: k in s.nodes ==> b.header.height <= s.nodes[k].engine.height + 1
    ensures var s' := Run(cfg, s, steps);
            Inv(cfg, s') && Within(s, s', b.header.height) && s'.votes == s.votes && Settled(s', b)
  {
    var ks := Enumerate(s.nodes.Keys);
    assert Waiting(s, b, ks);
    steps := FinalizeAll(cfg, s, b, ks);
    var s' := Run(cfg, s, steps);
    forall k | k in s'.nodes ensures k in ks {}
  }

  /** Nobody has seen `g`, all stand right below it, and no loop has proposed it. */
  ghost predicate Even(s: Net, g: nat) {
    Clear(s, g) && forall k :: k in s.nodes ==> s.nodes[k].engine.height + 1 == g && Fresh(s.nodes[k], g)
  }

  /** From there all nodes can finalize some block at `g`, whoever proposes it. */
  lemma Settle(cfg: Config, s: Net, g: nat) returns (steps: seq<Step>, b: Block)
    requires Inv(cfg, s) && Even(s, g) && g >= 1 && TotalPower(cfg.validators) > 0
    ensures var s' := Run(cfg, s, steps);
            Inv(cfg, s') && Strides(s, s', g) && Settled(s', b) && b.header.height == g
  {
    var steps1;
    steps1, b := Canvass(cfg, s, g);
    var s1 := Run(cfg, s, steps1);
    forall k | k in s1.nodes ensures g <= s1.nodes[k].engine.height + 1 { assert Stride(s.nodes[k], s1.nodes[k], g); }
    var steps2 := SettleCanvassed(cfg, s1, b);
    steps := steps1 + steps2;
    RunAppend(cfg, s, steps1, steps2);
    WithinStrides(s1, Run(cfg, s, steps), g);
    StridesTrans(s, s1, Run(cfg, s, steps), g);
  }

  lemma Canvass(cfg: Config, s: Net, g: nat) returns (steps: seq<Step>, b: Block)
    requires Inv(cfg, s) && Even(s, g) && TotalPower(cfg.validators) > 0
    ensures var s' := Run(cfg, s, steps);
            Inv(cfg, s') && Strides(s, s', g) && Canvassed(cfg, s', b) && b.header.height == g
  {
    HasProposer(cfg.validators, g);
    var p := Proposer(cfg.validators, g, 0).value;
    if p in cfg.Honest() {
      steps, b := CanvassHonest(cfg, s, g, p);
    } else {
      b := Forged(cfg, g, p, 0, []);
      steps := CanvassFaulty(cfg, s, p, b);
    }
  }

  lemma HasProposer(vs: ValidatorSet, h: nat)
    requires TotalPower(vs) > 0
    ensures Proposer(vs, h, 0).Some?
  {
    TotalIsPowerOfAll(vs);
    assert vs == map[] ==> Powers(vs, vs.Keys) == map[];
    if vs != map[] { ProposerIsValidator(vs, h, 0); }
  }

  // ---------------------------------------------------------- every height ----

  /** All nodes stand at `g`, have seen nothing above it, and wait. */
  ghost predicate Lockstep(cfg: Config, s: Net, g: nat) {
    Inv(cfg, s) && forall k {:trigger AtLevel(s.nodes[k], g)} :: k in s.nodes ==> AtLevel(s.nodes[k], g)
  }

  ghost predicate AtLevel(n: Node, g: nat) {
    !n.due && n.engine.height == g && Fresh(n, g + 1) && forall r :: r in n.engine.rounds ==> r <= g
  }

  lemma LevelIsEven(cfg: Config, s: Net, g: nat)
    requires Lockstep(cfg, s, g)
    ensures Even(s, g + 1)
  {
    forall k | k in s.nodes ensures AtLevel(s.nodes[k], g) {}
  }

  /** A node done with height `g + 1` stands there. */
  lemma NextLevel(cfg: Config, k: Address, n: Node, n': Node, g: nat, b: Block)
    requires AtLevel(n, g) && Stride(n, n', g + 1) && Done(n', b) && b.header.height == g + 1
    requires NodeOk(cfg, k, n) && ChainOk(n'.engine)
    ensures AtLevel(n', g + 1)
  {
    assert n'.engine.height in n'.engine.finalized;
  }

  lemma AdvanceAll(cfg: Config, s: Net, g: nat) returns (steps: seq<Step>)
    requires Lockstep(cfg, s, g) && TotalPower(cfg.validators) > 0
    ensures Lockstep(cfg, Run(cfg, s, steps), g + 1)
  {
    LevelIsEven(cfg, s, g);
    var b;
    steps, b := Settle(cfg, s, g + 1);
    var s' := Run(cfg, s, steps);
    forall k | k in s'.nodes ensures AtLevel(s'.nodes[k], g + 1) {
      assert AtLevel(s.nodes[k], g) && NodeOk(cfg, k, s.nodes[k]);
      assert Stride(s.nodes[k], s'.nodes[k], g + 1) && Done(s'.nodes[k], b);
      EngineFacts(cfg, s', k);
      NextLevel(cfg, k, s.nodes[k], s'.nodes[k], g, b);
    }
  }

  /** Whatever the configuration, all honest nodes can reach any height together. */
  lemma {:induction false} ReachLevel(cfg: Config, g: nat) returns (steps: seq<Step>)
    requires TotalPower(cfg.validators) > 0
    ensures Lockstep(cfg, RunFromGenesis(cfg, steps), g)
  {
    if g == 0 {
      steps := [];
      InitInv(cfg);
      assert RunFromGenesis(cfg, steps) == Init(cfg);
      forall k | k in Init(cfg).nodes ensures AtLevel(Init(cfg).nodes[k], 0) {}
    } else {
      var before := ReachLevel(cfg, g - 1);
      var rest := AdvanceAll(cfg, RunFromGenesis(cfg, before), g - 1);
      steps := before + rest;
      RunAppend(cfg, Init(cfg), before, rest);
    }
  }

  lemma LevelIsOpen(cfg: Config, s: Net, h: nat, i: Address, j: Address)
    requires h >= 1 && Lockstep(cfg, s, h - 1) && i in cfg.Honest() && j in cfg.Honest()
    ensures OpenHeight(s, h, i, j)
  {
    forall k | k in s.nodes ensures AtLevel(s.nodes[k], h - 1) {}
  }

  /** Exactly when the code agrees, over all runs and at every height: two honest nodes
      hold the same block wherever they finalized `h` if and only if the proposer of
      `h` is honest. */
  lemma AgreementAtEveryHeight(cfg: Config, h: nat, i: Address, j: Address, p: Address)
    requires h >= 1 && ProposedBy(cfg, h, p) && TotalPower(cfg.validators) > 0
    requires i in cfg.Honest() && j in cfg.Honest() && i != j
    ensures (forall steps :: AgreeAt(RunFromGenesis(cfg, steps), i, j, h)) <==> p in cfg.Honest()
  {
    if p in cfg.Honest() {
      forall steps ensures AgreeAt(RunFromGenesis(cfg, steps), i, j, h) {
        AgreementHolds(cfg, steps, h, i, j, p);
      }
    } else {
      var steps := ReachLevel(cfg, h - 1);
      var s := RunFromGenesis(cfg, steps);
      LevelIsOpen(cfg, s, h, i, j);
      var more := FaultyProposerSplits(cfg, s, h, i, j, p);
      RunAppend(cfg, Init(cfg), steps, more);
      assert !AgreeAt(RunFromGenesis(cfg, steps + more), i, j, h);
    }
  }
}
