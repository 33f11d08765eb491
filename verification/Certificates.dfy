/** Is a finalized block backed by a quorum of votes for it? With an honest proposer
    always. Under a faulty one a node may finalize on voters whose votes were for a
    block since replaced; this module says over all runs exactly when that cannot
    happen. */
module Certificates {
  import opened Primitives
  import opened Validators
  import opened Completers
  import opened Finality
  import opened EngineSafety
  import opened Network
  import opened NetworkSafety
  import opened Delivery
  import opened Disagreement
  import opened Forks
  import opened Heights
  import opened Lagging

  /** The validators behind `hash` at `h` as node `a` can know: those that cast a vote
      for it, and `a` itself if its own vote is for it. */
  ghost function Backers(s: Net, a: Address, h: nat, hash: Hash): set<Address>
    requires a in s.nodes
  {
    Voters(s, h, hash) + (if OwnVoteIs(s, a, h, hash) then {a} else {})
  }

  ghost predicate OwnVoteIs(s: Net, a: Address, h: nat, hash: Hash)
    requires a in s.nodes
  {
    h in Rounds(s, a) && a in Rounds(s, a)[h].votes && Rounds(s, a)[h].votes[a].blockHash == hash
  }

  /** What node `a` finalized at `h`, if anything, is backed by a quorum. */
  ghost predicate CertifiedAt(cfg: Config, s: Net, a: Address, h: nat) {
    a in s.nodes && h in FinalizedAt(s, a) ==>
      IsQuorum(cfg.validators, Backers(s, a, h, BlockHash(FinalizedAt(s, a)[h])))
  }

  /** A recorded vote for a hash makes its voter a backer. */
  lemma RecordedBacks(cfg: Config, s: Net, a: Address, h: nat, q: Address)
    requires Inv(cfg, s) && a in s.nodes && h in Rounds(s, a) && q in Rounds(s, a)[h].votes
    ensures q in Backers(s, a, h, Rounds(s, a)[h].votes[q].blockHash)
  {
    var e := s.nodes[a].engine;
    SafeHere(cfg, s, a);
    assert RoundOk(e, h, e.rounds[h]) && RoundKnown(s, a, Rounds(s, a)[h]);
  }

  // ---------------------------------------------------------- always certified --

  lemma HonestIsCertified(cfg: Config, s: Net, a: Address, h: nat, p: Address)
    requires Inv(cfg, s) && ProposedBy(cfg, h, p) && p in cfg.Honest()
    ensures CertifiedAt(cfg, s, a, h)
  {
    if a in s.nodes && h in FinalizedAt(s, a) {
      CertifiedInState(cfg, s, a, h, p);
      var votes, hash := Rounds(s, a)[h].votes, BlockHash(FinalizedAt(s, a)[h]);
      forall q | q in votes ensures q in Backers(s, a, h, hash) { RecordedBacks(cfg, s, a, h, q); }
      QuorumMonotone(cfg.validators, votes.Keys, Backers(s, a, h, hash));
    }
  }

  /** Next to a validator that is a quorum by itself nobody else completes one. */
  lemma DominantCompletes(vs: ValidatorSet, k: Address, x: Address, d: Address)
    requires IsQuorum(vs, {d}) && Completes(Quorums(vs), k, x)
    ensures x == d
  {
    QuorumsAreFair(vs);
    QuorumMonotone(vs, {d}, {k, d});
    if IsQuorum(vs, vs.Keys - {d}) { QuorumsMeet(vs, {d}, vs.Keys - {d}); }
    OnlyArbiterCompletes(Quorums(vs), vs.Keys, k, d, x);
  }

  lemma DominantCertifies(cfg: Config, s: Net, a: Address, h: nat, d: Address)
    requires Inv(cfg, s) && TrackedNode(cfg, s, a, h) && IsQuorum(cfg.validators, {d})
    ensures CertifiedAt(cfg, s, a, h)
  {
    if h in FinalizedAt(s, a) {
      var x := CompletedBy(cfg, s, a, h);
      DominantCompletes(cfg.validators, a, x, d);
      RecordedBacks(cfg, s, a, h, x);
      QuorumMonotone(cfg.validators, {d}, Backers(s, a, h, BlockHash(FinalizedAt(s, a)[h])));
    }
  }

  lemma AlwaysCertified(cfg: Config, steps: seq<Step>, h: nat, i: Address, p: Address)
    requires ProposedBy(cfg, h, p) && i in cfg.Honest()
    requires p in cfg.Honest() || (h == 1 && exists d :: IsQuorum(cfg.validators, {d}))
    ensures CertifiedAt(cfg, RunFromGenesis(cfg, steps), i, h)
  {
    ReachableInv(cfg, steps);
    if p in cfg.Honest() {
      HonestIsCertified(cfg, RunFromGenesis(cfg, steps), i, h, p);
    } else {
      var d :| IsQuorum(cfg.validators, {d});
      InitIsOpen(cfg, i, i);
      InitInv(cfg);
      OpenIsTracked(cfg, Init(cfg), 1, i, i);
      RunTracked(cfg, Init(cfg), i, 1, steps);
      DominantCertifies(cfg, RunFromGenesis(cfg, steps), i, 1, d);
    }
  }

  // ------------------------------------------------- finalized without backing --

  /** If `i` voted for another hash, only the casters back this one. */
  lemma OnlyCastersBack(cfg: Config, s: Net, i: Address, b: Block, c: Block)
    requires Inv(cfg, s) && i in s.nodes && VoteFor(b, i) in s.votes && b.header.height == c.header.height
    requires b.header != c.header
    ensures Backers(s, i, c.header.height, BlockHash(c)) == Voters(s, c.header.height, BlockHash(c))
  {
    assert VoteAuthentic(s, VoteFor(b, i));
  }

  lemma NobodyIsNoQuorum(vs: ValidatorSet)
    ensures !IsQuorum(vs, {})
  {
    TallyOfSet(vs, {});
    assert Powers(vs, {}) == map[];
  }

  /** A lagging node finalizes a block nobody voted for. */
  lemma LagUncertified(cfg: Config, h: nat, i: Address, p: Address) returns (steps: seq<Step>)
    requires h >= 2 && ProposedBy(cfg, h, p) && p !in cfg.Honest() && i in cfg.Honest()
    requires TotalPower(cfg.validators) > 0
    ensures !CertifiedAt(cfg, RunFromGenesis(cfg, steps), i, h)
  {
    var steps0 := ReachLevel(cfg, h - 2);
    var s0 := RunFromGenesis(cfg, steps0);
    var steps1, b, c := LayTrap(cfg, s0, h, i, p);
    var s1 := Run(cfg, s0, steps1);
    var steps2 := SettleUncertified(cfg, s1, h, i, b, c);
    steps := steps0 + (steps1 + steps2);
    RunAppend(cfg, Init(cfg), steps0, steps1 + steps2);
    RunAppend(cfg, s0, steps1, steps2);
  }

  lemma SettleUncertified(cfg: Config, s: Net, h: nat, i: Address, b: Block, c: Block) returns (steps: seq<Step>)
    requires Laid(cfg, s, h, i, b, c) && h >= 2 && TotalPower(cfg.validators) > 0
    ensures !CertifiedAt(cfg, Run(cfg, s, steps), i, h)
  {
    ShortIsEven(s, h);
    var a;
    steps, a := Settle(cfg, s, h - 1);
    var s' := Run(cfg, s, steps);
    CatchUp(cfg, s, s', h, i, a, b, c);
    assert i in cfg.validators;
    OnlyCastersBack(cfg, s', i, b, c);
    assert Voters(s', h, BlockHash(c)) == {};
    NobodyIsNoQuorum(cfg.validators);
  }

  /** Everybody but `x` votes for `b`, and `x` alone for `c`. */
  ghost predicate Lonely(cfg: Config, s: Net, i: Address, b: Block, c: Block, x: Address) {
    && Scene(cfg, s, b, c) && FreshlyOn(s, i, b) && b.header.height <= s.nodes[i].engine.height + 1
    && VoteFor(b, i) in s.votes && VoteFor(c, x) in s.votes && b.header != c.header
    && forall v :: v in s.votes && v.blockHash == BlockHash(c) ==> v.voter == x
  }

  /** Everybody but `x` votes for `b`; a faulty `x` does too. */
  lemma VotesButOne(cfg: Config, s: Net, b: Block, x: Address) returns (steps: seq<Step>)
    requires Inv(cfg, s) && b in s.blocks && ProposedBy(cfg, b.header.height, b.header.proposer) && UnseenByAll(s, b)
    ensures var s' := Run(cfg, s, steps);
            && Inv(cfg, s') && Within(s, s', b.header.height)
            && (forall k :: k in s.nodes && k != x ==> FreshlyOn(s', k, b))
            && (x in s.nodes ==> s'.nodes[x] == s.nodes[x])
            && (forall q :: q in cfg.validators && (q != x || q !in cfg.Honest()) ==> VoteFor(b, q) in s'.votes)
  {
    var others := Enumerate(s.nodes.Keys - {x});
    var steps1 := EverybodyVotes(cfg, s, b, others);
    var s1 := Run(cfg, s, steps1);
    var steps2 := AllFaultyVote(cfg, s1, b);
    steps := steps1 + steps2;
    RunAppend(cfg, s, steps1, steps2);
    WithinTrans(s, s1, Run(cfg, s, steps), b.header.height);
    forall k | k in s.nodes && k != x ensures k in others {}
    forall q | q in cfg.Honest() ensures q in s.nodes {}
  }

  /** Then `x` votes for `c`, which is new to all. */
  lemma LoneVote(cfg: Config, s: Net, c: Block, x: Address) returns (steps: seq<Step>)
    requires Inv(cfg, s) && c in s.blocks && ProposedBy(cfg, c.header.height, c.header.proposer)
    requires x in s.nodes ==> Unseen(s, x, c)
    ensures var s' := Run(cfg, s, steps);
            && Inv(cfg, s') && s'.blocks == s.blocks && s'.votes == s.votes + {VoteFor(c, x)}
            && s'.nodes.Keys == s.nodes.Keys && (forall k :: k in s.nodes && k != x ==> s'.nodes[k] == s.nodes[k])
  {
    if x in s.nodes {
      steps := [StepDeliverBlock(x, c), StepAfterBlock(x)];
      VoteOnBlock(cfg, s, x, c);
    } else {
      steps := [StepFaultyVote(VoteFor(c, x))];
      StepInv(cfg, s, steps[0]);
      RunOne(cfg, s, steps[0]);
    }
  }

  /** From an open height the proposer can bring about such a state. */
  lemma MakeLonely(cfg: Config, s: Net, h: nat, i: Address, p: Address, x: Address)
    returns (steps: seq<Step>, b: Block, c: Block)
    requires Inv(cfg, s) && OpenHeight(s, h, i, i) && ProposedBy(cfg, h, p) && p !in cfg.Honest() && i != x
    ensures Lonely(cfg, Run(cfg, s, steps), i, b, c, x) && c.header.height == h
  {
    b := Forged(cfg, h, p, 0, []);
    SendOne(cfg, s, b);
    var s1 := Run(cfg, s, [StepFaultyBlock(b)]);
    assert UnseenByAll(s1, b);
    var steps1 := VotesButOne(cfg, s1, b, x);
    var s2 := Run(cfg, s1, steps1);
    assert Stays(s1.nodes[i], s2.nodes[i], h) && i in cfg.Honest();
    var steps2;
    steps2, c := AddLonely(cfg, s2, h, i, p, b, x);
    steps := [StepFaultyBlock(b)] + (steps1 + steps2);
    RunAppend(cfg, s, [StepFaultyBlock(b)], steps1 + steps2);
    RunAppend(cfg, s1, steps1, steps2);
  }

  lemma AddLonely(cfg: Config, s: Net, h: nat, i: Address, p: Address, b: Block, x: Address)
    returns (steps: seq<Step>, c: Block)
    requires Inv(cfg, s) && b in s.blocks && b == Forged(cfg, h, p, 0, []) && h >= 1
    requires ProposedBy(cfg, h, p) && p !in cfg.Honest() && i != x && i in cfg.Honest()
    requires FreshlyOn(s, i, b) && h <= s.nodes[i].engine.height + 1
    requires x in s.nodes ==> !s.nodes[x].due && s.nodes[x].engine.height < h && h !in Rounds(s, x)
    requires forall q :: q in cfg.validators && (q != x || q !in cfg.Honest()) ==> VoteFor(b, q) in s.votes
    ensures Lonely(cfg, Run(cfg, s, steps), i, b, c, x) && c.header.height == h
  {
    var ts := LaterThanAll(s.votes);
    c := Forged(cfg, h, p, ts, []);
    assert VoteFor(b, i) in s.votes;
    SendOne(cfg, s, c);
    var s1 := Run(cfg, s, [StepFaultyBlock(c)]);
    var rest := LoneVote(cfg, s1, c, x);
    steps := [StepFaultyBlock(c)] + rest;
    RunAppend(cfg, s, [StepFaultyBlock(c)], rest);
    var s' := Run(cfg, s, steps);
    assert AllCast(cfg, s', b, c);
  }

  /** The lone voter completes a quorum at `i`, which so finalizes `c`. */
  lemma LonelyUncertified(cfg: Config, s: Net, i: Address, b: Block, c: Block, x: Address, coalition: set<Address>)
    returns (steps: seq<Step>)
    requires Lonely(cfg, s, i, b, c, x) && i in coalition && coalition <= cfg.validators.Keys && x in cfg.validators
    requires Pivotal(Quorums(cfg.validators), coalition, x) && !IsQuorum(cfg.validators, {x})
    ensures !CertifiedAt(cfg, Run(cfg, s, steps), i, c.header.height)
  {
    FreshIsHolding(cfg, s, i, b, coalition);
    steps := CompleteWith(cfg, s, i, b, c, b, c, x, coalition);
    var s' := Run(cfg, s, steps);
    OnlyCastersBack(cfg, s', i, b, c);
    assert Voters(s', c.header.height, BlockHash(c)) <= {x};
    NotQuorumBelow(cfg.validators, Voters(s', c.header.height, BlockHash(c)), {x});
  }

  /** Without a validator that is a quorum by itself, some validator completes one at
      every node only together with others. */
  lemma SomeCoalition(vs: ValidatorSet, k: Address) returns (coalition: set<Address>, x: Address)
    requires TotalPower(vs) > 0 && k in vs && forall d :: !IsQuorum(vs, {d})
    ensures k in coalition && coalition <= vs.Keys && x in vs && Pivotal(Quorums(vs), coalition, x)
  {
    AllAreQuorum(vs);
    x := SomeoneCompletes(Quorums(vs), vs.Keys, k, {k});
    var any := CoalitionOf(Quorums(vs), k, x);
    PivotalAmongValidators(vs, any, x);
    coalition := any * vs.Keys;
  }

  lemma CoalitionOf(quorum: QuorumTest, k: Address, x: Address) returns (c: set<Address>)
    requires Completes(quorum, k, x) && !quorum({k})
    ensures k in c && Pivotal(quorum, c, x)
  {
    c :| k in c && Pivotal(quorum, c, x);
  }

  lemma FirstUncertified(cfg: Config, i: Address, p: Address) returns (steps: seq<Step>)
    requires ProposedBy(cfg, 1, p) && p !in cfg.Honest() && TotalPower(cfg.validators) > 0 && i in cfg.Honest()
    requires forall d :: !IsQuorum(cfg.validators, {d})
    ensures !CertifiedAt(cfg, RunFromGenesis(cfg, steps), i, 1)
  {
    var coalition, x := SomeCoalition(cfg.validators, i);
    InitIsOpen(cfg, i, i);
    InitInv(cfg);
    var steps1, b, c := MakeLonely(cfg, Init(cfg), 1, i, p, x);
    var s1 := RunFromGenesis(cfg, steps1);
    var steps2 := LonelyUncertified(cfg, s1, i, b, c, x, coalition);
    steps := steps1 + steps2;
    RunAppend(cfg, Init(cfg), steps1, steps2);
  }

  /** Exactly when finality means a quorum of votes, over all runs and at every height:
      what a node finalizes at `h` is always backed by a quorum of votes for it if and
      only if the proposer of `h` is honest or, at the first height only, some validator
      is a quorum by itself. */
  lemma CertifiedAtEveryHeight(cfg: Config, h: nat, i: Address, p: Address)
    requires h >= 1 && ProposedBy(cfg, h, p) && TotalPower(cfg.validators) > 0 && i in cfg.Honest()
    ensures (forall steps :: CertifiedAt(cfg, RunFromGenesis(cfg, steps), i, h)) <==>
            p in cfg.Honest() || (h == 1 && exists d :: IsQuorum(cfg.validators, {d}))
  {
    if p in cfg.Honest() || (h == 1 && exists d :: IsQuorum(cfg.validators, {d})) {
      forall steps ensures CertifiedAt(cfg, RunFromGenesis(cfg, steps), i, h) { AlwaysCertified(cfg, steps, h, i, p); }
    } else {
      var steps;
      if h == 1 { steps := FirstUncertified(cfg, i, p); } else { steps := LagUncertified(cfg, h, i, p); }
      assert !CertifiedAt(cfg, RunFromGenesis(cfg, steps), i, h);
    }
  }
}
