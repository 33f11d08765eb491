/** What every run of the network keeps: agreement, chain integrity and unique
    vote certificates. */
module NetworkSafety {
  import opened Primitives
  import opened Ordering
  import opened LedgerModel
  import opened Storage
  import opened Validators
  import opened ActiveSet
  import opened Finality
  import opened EngineSafety
  import opened Network

  // ------------------------------------------------------- one node's state --

  ghost predicate ProposedBy(cfg: Config, h: nat, p: Address) {
    Proposer(cfg.validators, h, 0) == Some(p)
  }

  /** The header link an honest proposer writes. */
  ghost predicate Linked(cfg: Config, e: Engine, b: Block) {
    var h := b.header.height;
    && 1 <= h <= e.height + 1
    && (h == 1 ==> b.header.previousHash == cfg.genesis)
    && (h > 1 ==> h - 1 in e.finalized && b.header.previousHash == BlockHash(e.finalized[h - 1]))
  }

  ghost predicate RoundLocal(cfg: Config, e: Engine, h: nat, r: RoundState) {
    && r.block.Some? && ProposedBy(cfg, h, r.block.value.header.proposer)
    && e.local in r.votes && r.votes.Keys <= cfg.validators.Keys
    && (ProposedBy(cfg, h, e.local) ==> Linked(cfg, e, r.block.value))
    && (forall p :: ProposedBy(cfg, h, p) && p in cfg.Honest() ==> Unanimous(r))
  }

  /** Every recorded vote is for the stored block. */
  ghost predicate Unanimous(r: RoundState) {
    r.block.Some? && forall q :: q in r.votes ==> r.votes[q].blockHash == BlockHash(r.block.value)
  }

  /** A node has no block of its own above the one it last proposed. */
  ghost predicate TurnOk(cfg: Config, n: Node) {
    && 1 <= n.nextHeight <= n.engine.height + 1
    && forall h :: h in n.engine.rounds && n.nextHeight <= h && ProposedBy(cfg, h, n.engine.local) ==>
         h == n.nextHeight && n.lastProposed == Some(h)
  }

  ghost predicate Configured(cfg: Config, a: Address, e: Engine) {
    e.local == a && a in cfg.validators && e.validators == cfg.validators && e.ledger.validators == map[]
  }

  ghost predicate RoundsLocal(cfg: Config, e: Engine) {
    forall h {:trigger RoundLocal(cfg, e, h, e.rounds[h])} :: h in e.rounds ==> RoundLocal(cfg, e, h, e.rounds[h])
  }

  /** Every finalized round holds votes of quorum power. */
  ghost predicate QuorumsOk(cfg: Config, e: Engine) {
    forall h {:trigger IsQuorum(cfg.validators, e.rounds[h].votes.Keys)} ::
      h in e.rounds && h <= e.height ==> IsQuorum(cfg.validators, e.rounds[h].votes.Keys)
  }

  ghost predicate NodeOk(cfg: Config, a: Address, n: Node) {
    && Configured(cfg, a, n.engine) && Safe(cfg.genesis, n.engine) && TurnOk(cfg, n)
    && RoundsLocal(cfg, n.engine) && QuorumsOk(cfg, n.engine)
  }

  // ------------------------------------------------------------- whole state --

  function Rounds(s: Net, a: Address): map<nat, RoundState>
    requires a in s.nodes
  {
    s.nodes[a].engine.rounds
  }

  /** A block in an honest validator's name is the one it holds for that height. */
  ghost predicate BlockAuthentic(s: Net, b: Block) {
    b.header.proposer in s.nodes ==>
      b.header.height in Rounds(s, b.header.proposer) &&
      Rounds(s, b.header.proposer)[b.header.height].block == Some(b)
  }

  /** A vote in an honest validator's name is the one it recorded for itself. */
  ghost predicate VoteAuthentic(s: Net, v: Vote) {
    v.voter in s.nodes ==>
      v.height in Rounds(s, v.voter) &&
      v.voter in Rounds(s, v.voter)[v.height].votes &&
      Rounds(s, v.voter)[v.height].votes[v.voter] == v
  }

  /** What a node stores it made itself or received. */
  ghost predicate RoundKnown(s: Net, a: Address, r: RoundState) {
    && (r.block.Some? ==> r.block.value in s.blocks || r.block.value.header.proposer == a)
    && (forall q :: q in r.votes ==> r.votes[q] in s.votes || q == a)
  }

  ghost predicate NodesOk(cfg: Config, s: Net) {
    && s.nodes.Keys == cfg.Honest()
    && forall a {:trigger NodeOk(cfg, a, s.nodes[a])} :: a in s.nodes ==> NodeOk(cfg, a, s.nodes[a])
  }

  ghost predicate BlocksOk(s: Net) {
    forall b {:trigger BlockAuthentic(s, b)} :: b in s.blocks ==> BlockAuthentic(s, b)
  }

  ghost predicate VotesOk(s: Net) {
    forall v {:trigger VoteAuthentic(s, v)} :: v in s.votes ==> VoteAuthentic(s, v)
  }

  ghost predicate StoresOk(s: Net) {
    forall a, h {:trigger RoundKnown(s, a, Rounds(s, a)[h])} ::
      a in s.nodes && h in Rounds(s, a) ==> RoundKnown(s, a, Rounds(s, a)[h])
  }

  ghost predicate Inv(cfg: Config, s: Net) {
    NodesOk(cfg, s) && BlocksOk(s) && VotesOk(s) && StoresOk(s)
  }

  lemma InitInv(cfg: Config)
    ensures Inv(cfg, Init(cfg))
  {
    forall a | a in cfg.Honest() ensures NodeOk(cfg, a, NewNode(cfg, a)) {
      NewEngineSafe(a, cfg.validators, Ledger(cfg.accounts, map[], map[]), cfg.genesis);
    }
  }

  /** If the proposer of `h` is honest, whoever stores a block for `h` stores the
      proposer's. */
  lemma ProposersBlock(cfg: Config, s: Net, a: Address, h: nat, p: Address)
    requires Inv(cfg, s) && a in s.nodes && h in Rounds(s, a) && ProposedBy(cfg, h, p) && p in cfg.Honest()
    ensures h in Rounds(s, p) && Rounds(s, a)[h].block == Rounds(s, p)[h].block
  {
    var e := s.nodes[a].engine;
    assert NodeOk(cfg, a, s.nodes[a]);
    assert RoundLocal(cfg, e, h, e.rounds[h]) && RoundOk(e, h, e.rounds[h]);
    assert RoundKnown(s, a, Rounds(s, a)[h]);
    var b := e.rounds[h].block.value;
    assert b.header.proposer == p && b.header.height == h;
    if b in s.blocks { assert BlockAuthentic(s, b); }
  }

  // ------------------------------------------------------------- preservation --

  /** The rounds of node `a` account for every message in its name. */
  ghost predicate HoldsOwnBlocks(a: Address, rounds: map<nat, RoundState>, blocks: set<Block>) {
    forall b :: b in blocks && b.header.proposer == a ==>
      b.header.height in rounds && rounds[b.header.height].block == Some(b)
  }

  ghost predicate HoldsOwnVotes(a: Address, rounds: map<nat, RoundState>, votes: set<Vote>) {
    forall v :: v in votes && v.voter == a ==>
      v.height in rounds && a in rounds[v.height].votes && rounds[v.height].votes[a] == v
  }

  lemma BlocksStep(s: Net, s': Net, a: Address, n: Node)
    requires BlocksOk(s) && a in s.nodes && s'.nodes == s.nodes[a := n]
    requires HoldsOwnBlocks(a, n.engine.rounds, s'.blocks)
    requires forall b :: b in s'.blocks ==> b in s.blocks || b.header.proposer == a
    ensures BlocksOk(s')
  {
    forall b | b in s'.blocks ensures BlockAuthentic(s', b) {
      if b.header.proposer != a { assert BlockAuthentic(s, b); }
    }
  }

  lemma VotesStep(s: Net, s': Net, a: Address, n: Node)
    requires VotesOk(s) && a in s.nodes && s'.nodes == s.nodes[a := n]
    requires HoldsOwnVotes(a, n.engine.rounds, s'.votes)
    requires forall v :: v in s'.votes ==> v in s.votes || v.voter == a
    ensures VotesOk(s')
  {
    forall v | v in s'.votes ensures VoteAuthentic(s', v) {
      if v.voter != a { assert VoteAuthentic(s, v); }
    }
  }

  ghost predicate StoreOk(s: Net, a: Address, rounds: map<nat, RoundState>) {
    forall h {:trigger RoundKnown(s, a, rounds[h])} :: h in rounds ==> RoundKnown(s, a, rounds[h])
  }

  lemma StoresStep(s: Net, s': Net, a: Address, n: Node)
    requires StoresOk(s) && a in s.nodes && s'.nodes == s.nodes[a := n]
    requires s.blocks <= s'.blocks && s.votes <= s'.votes && StoreOk(s', a, n.engine.rounds)
    ensures StoresOk(s')
  {
    forall c, h | c in s'.nodes && h in Rounds(s', c) ensures RoundKnown(s', c, Rounds(s', c)[h]) {
      if c != a { assert RoundKnown(s, c, Rounds(s, c)[h]); }
    }
  }

  lemma NodesStep(cfg: Config, s: Net, s': Net, a: Address, n: Node)
    requires NodesOk(cfg, s) && a in s.nodes && s'.nodes == s.nodes[a := n] && NodeOk(cfg, a, n)
    ensures NodesOk(cfg, s')
  {
    assert s'.nodes.Keys == s.nodes.Keys;
  }

  lemma OwnMessages(s: Net, a: Address)
    requires BlocksOk(s) && VotesOk(s) && a in s.nodes
    ensures HoldsOwnBlocks(a, Rounds(s, a), s.blocks)
    ensures HoldsOwnVotes(a, Rounds(s, a), s.votes)
  {
    forall b | b in s.blocks && b.header.proposer == a
      ensures b.header.height in Rounds(s, a) && Rounds(s, a)[b.header.height].block == Some(b)
    {
      assert BlockAuthentic(s, b);
    }
    forall v | v in s.votes && v.voter == a
      ensures v.height in Rounds(s, a) && a in Rounds(s, a)[v.height].votes && Rounds(s, a)[v.height].votes[a] == v
    {
      assert VoteAuthentic(s, v);
    }
  }

  // -- node-local effect of each engine operation ---------------------------

  /** A round keeps its local facts while its block and votes stay and the chain
      only extends. */
  lemma RoundLocalFrame(cfg: Config, e: Engine, e': Engine, h: nat, r: RoundState, r': RoundState)
    requires RoundLocal(cfg, e, h, r) && r'.block == r.block && r'.votes == r.votes && Extends(e, e')
    ensures RoundLocal(cfg, e', h, r')
  {
    if ProposedBy(cfg, h, e.local) { assert Linked(cfg, e, r.block.value); }
    if Unanimous(r) { assert Unanimous(r'); }
  }

  /** Only open rounds changed. */
  lemma QuorumsFrame(cfg: Config, e: Engine, e': Engine)
    requires QuorumsOk(cfg, e) && e'.height == e.height
    requires forall h :: h in e'.rounds && h <= e.height ==> h in e.rounds && e'.rounds[h] == e.rounds[h]
    ensures QuorumsOk(cfg, e')
  {
    forall h | h in e'.rounds && h <= e'.height ensures IsQuorum(cfg.validators, e'.rounds[h].votes.Keys) {
      assert IsQuorum(cfg.validators, e.rounds[h].votes.Keys);
    }
  }

  /** One open round was put; the rest keeps its local facts. */
  lemma RoundsLocalPut(cfg: Config, e: Engine, e': Engine, h: nat, r: RoundState)
    requires RoundsLocal(cfg, e) && QuorumsOk(cfg, e) && e'.rounds == e.rounds[h := r] && e.height < h
    requires e'.height == e.height && e'.local == e.local && e'.finalized == e.finalized && RoundLocal(cfg, e', h, r)
    ensures RoundsLocal(cfg, e') && QuorumsOk(cfg, e')
  {
    QuorumsFrame(cfg, e, e');
    forall g | g in e'.rounds ensures RoundLocal(cfg, e', g, e'.rounds[g]) {
      if g != h { RoundLocalFrame(cfg, e, e', g, e.rounds[g], e'.rounds[g]); }
    }
  }

  /** First block for a height, from another proposer: store it and vote. */
  lemma FirstBlock(cfg: Config, a: Address, n: Node, b: Block)
    requires NodeOk(cfg, a, n) && ValidProposal(n.engine, ProposalOf(b)) && b.header.height !in n.engine.rounds
    requires b.header.proposer != a
    ensures var e' := HandleBlock(n.engine, b).engine;
            var v := Vote(BlockHash(b), b.header.height, 0, a);
            && NodeOk(cfg, a, n.(engine := e'))
            && HandleBlock(n.engine, b).result == Ok(v)
            && e'.rounds ==
               n.engine.rounds[b.header.height := RoundState(Some(ProposalOf(b)), Some(b), map[a := v], false)]
  {
    var e, h := n.engine, b.header.height;
    HandleBlockSafe(cfg.genesis, e, b);
    var e' := HandleBlock(e, b).engine;
    RoundsLocalPut(cfg, e, e', h, e'.rounds[h]);
  }

  /** A second block of a faulty proposer replaces the stored one. */
  lemma ReplacedBlock(cfg: Config, a: Address, n: Node, b: Block)
    requires NodeOk(cfg, a, n) && ValidProposal(n.engine, ProposalOf(b)) && b.header.height in n.engine.rounds
    requires b.header.proposer !in cfg.Honest() && a in cfg.Honest()
    ensures NodeOk(cfg, a, n.(engine := HandleBlock(n.engine, b).engine))
  {
    var e, h := n.engine, b.header.height;
    HandleBlockSafe(cfg.genesis, e, b);
    HandleKnownHeight(cfg.genesis, e, b);
    var e' := HandleBlock(e, b).engine;
    assert RoundLocal(cfg, e, h, e.rounds[h]);
    RoundsLocalPut(cfg, e, e', h, e'.rounds[h]);
  }

  lemma RecordedVote(cfg: Config, a: Address, n: Node, v: Vote)
    requires NodeOk(cfg, a, n) && ValidVote(n.engine, v)
    ensures NodeOk(cfg, a, n.(engine := HandleVote(n.engine, v).engine))
  {
    var e, h := n.engine, v.height;
    HandleVoteSafe(cfg.genesis, e, v);
    var e' := HandleVote(e, v).engine;
    assert RoundOk(e, h, e.rounds[h]) && RoundLocal(cfg, e, h, e.rounds[h]);
    assert Unanimous(e.rounds[h]) ==> Unanimous(e'.rounds[h]);
    RoundsLocalPut(cfg, e, e', h, e'.rounds[h]);
  }

  lemma AdvancedQuorums(cfg: Config, e: Engine, e': Engine)
    requires QuorumsOk(cfg, e) && e.validators == cfg.validators
    requires Advanced(e, e', e'.height) && MaximalRun(e, e'.height)
    ensures QuorumsOk(cfg, e')
  {
    forall h | h in e'.rounds && h <= e'.height ensures IsQuorum(cfg.validators, e'.rounds[h].votes.Keys) {
      if h <= e.height { assert IsQuorum(cfg.validators, e.rounds[h].votes.Keys); } else { assert Ready(e, h); }
    }
  }

  lemma AdvancedNode(cfg: Config, a: Address, n: Node, e': Engine)
    requires NodeOk(cfg, a, n) && Advanced(n.engine, e', e'.height) && MaximalRun(n.engine, e'.height)
    ensures NodeOk(cfg, a, n.(engine := e'))
  {
    AdvancedQuorums(cfg, n.engine, e');
    AdvancedSafe(cfg.genesis, n.engine, e', e'.height);
    forall g | g in e'.rounds ensures RoundLocal(cfg, e', g, e'.rounds[g]) {
      RoundLocalFrame(cfg, n.engine, e', g, n.engine.rounds[g], e'.rounds[g]);
    }
  }

  lemma TickedNode(cfg: Config, a: Address, n: Node)
    requires NodeOk(cfg, a, n)
    ensures NodeOk(cfg, a, Tick(n)) && Tick(n).engine == n.engine
  {}

  /** Proposing with no transactions and no records keeps ledger and validators. */
  lemma EmptyProposal(cfg: Config, e: Engine, h: nat, ts: nat)
    requires e.ledger.validators == map[] && Proposer(e.validators, h, 0) == Some(e.local)
    ensures var b := Block(BlockHeader(h, ts, e.previousHash, StateHash(e.ledger), TransactionsHash([]), e.local), []);
            Propose(cfg.env, e, h, [], ts) == Reply(RecordOwnBlock(e, h, b), Ok(b))
  {
    assert ListValidators(e.ledger.validators) == [] by { SortedAddressesFacts(e.ledger.validators.Keys); }
    UpdateWithoutRecords(e.validators);
  }

  lemma UpdateWithoutRecords(vs: ValidatorSet)
    ensures UpdatedSet(vs, []) == vs
  {
    assert ActiveSet.Candidates([]) == [];
  }

  /** A node whose turn has come has not seen its height and is right below it. */
  lemma TurnIsFresh(cfg: Config, a: Address, n: Node)
    requires NodeOk(cfg, a, n) && IsTurn(n) && n.lastProposed != Some(n.nextHeight)
    ensures n.nextHeight !in n.engine.rounds && n.engine.height == n.nextHeight - 1
  {
    assert n.nextHeight <= n.engine.height ==> n.nextHeight in n.engine.finalized;
  }

  lemma OwnRoundsLocal(cfg: Config, e: Engine, b: Block)
    requires RoundsLocal(cfg, e) && QuorumsOk(cfg, e) && Linked(cfg, e, b) && e.height < b.header.height
    requires b.header.height !in e.rounds && b.header.proposer == e.local && ProposedBy(cfg, b.header.height, e.local)
    requires e.local in cfg.validators
    ensures RoundsLocal(cfg, RecordOwnBlock(e, b.header.height, b))
    ensures QuorumsOk(cfg, RecordOwnBlock(e, b.header.height, b))
  {
    var h := b.header.height;
    var e' := RecordOwnBlock(e, h, b);
    assert Unanimous(e'.rounds[h]);
    RoundsLocalPut(cfg, e, e', h, e'.rounds[h]);
  }

  lemma OwnBlockNode(cfg: Config, a: Address, n: Node, b: Block)
    requires NodeOk(cfg, a, n) && n.nextHeight !in n.engine.rounds && n.engine.height + 1 == n.nextHeight
    requires b.header.height == n.nextHeight && b.header.proposer == a && b.header.previousHash == n.engine.previousHash
    requires ProposedBy(cfg, n.nextHeight, a)
    ensures NodeOk(cfg, a, n.(engine := RecordOwnBlock(n.engine, n.nextHeight, b), lastProposed := Some(n.nextHeight)))
  {
    RecordOwnBlockSafe(cfg.genesis, n.engine, n.nextHeight, b);
    OwnRoundsLocal(cfg, n.engine, b);
  }

  lemma ProposedNode(cfg: Config, a: Address, n: Node, ts: nat)
    requires NodeOk(cfg, a, n) && IsTurn(n) && n.lastProposed != Some(n.nextHeight)
    ensures var h := n.nextHeight;
            var e := n.engine;
            var b := Block(BlockHeader(h, ts, e.previousHash, StateHash(e.ledger), TransactionsHash([]), a), []);
            var n' := ProposeOnce(cfg, n, ts);
            && NodeOk(cfg, a, n')
            && n'.engine == RecordOwnBlock(n.engine, h, b)
            && h !in n.engine.rounds
  {
    var e, h := n.engine, n.nextHeight;
    var b := Block(BlockHeader(h, ts, e.previousHash, StateHash(e.ledger), TransactionsHash([]), a), []);
    TurnIsFresh(cfg, a, n);
    EmptyProposal(cfg, e, h, ts);
    OwnBlockNode(cfg, a, n, b);
  }

  // -- every step keeps the invariant -----------------------------------------

  /** A change of one node that leaves its blocks and votes as they are. */
  ghost predicate SameContents(r: map<nat, RoundState>, r': map<nat, RoundState>) {
    && r'.Keys == r.Keys
    && forall h :: h in r ==> r'[h].block == r[h].block && r'[h].votes == r[h].votes
  }

  /** Node `a` moves to `n`; everything in its name is still held by its rounds. */
  ghost predicate Accounted(s: Net, a: Address, n: Node) {
    && HoldsOwnBlocks(a, n.engine.rounds, s.blocks)
    && HoldsOwnVotes(a, n.engine.rounds, s.votes)
    && StoreOk(s, a, n.engine.rounds)
  }

  /** The messages of `s'` are those of `s` plus some in the name of `a`. */
  ghost predicate SentBy(s: Net, s': Net, a: Address) {
    && s.blocks <= s'.blocks && s.votes <= s'.votes
    && (forall b :: b in s'.blocks ==> b in s.blocks || b.header.proposer == a)
    && (forall v :: v in s'.votes ==> v in s.votes || v.voter == a)
  }

  lemma NodeStep(cfg: Config, s: Net, s': Net, a: Address, n: Node)
    requires Inv(cfg, s) && a in s.nodes && NodeOk(cfg, a, n)
    requires s'.nodes == s.nodes[a := n] && SentBy(s, s', a) && Accounted(s', a, n)
    ensures Inv(cfg, s')
  {
    BlocksStep(s, s', a, n);
    VotesStep(s, s', a, n);
    StoresStep(s, s', a, n);
    NodesStep(cfg, s, s', a, n);
  }

  lemma QuietStep(cfg: Config, s: Net, a: Address, n: Node)
    requires Inv(cfg, s) && a in s.nodes && NodeOk(cfg, a, n) && SameContents(Rounds(s, a), n.engine.rounds)
    ensures Inv(cfg, Update(s, a, n))
  {
    var s' := Update(s, a, n);
    OwnMessages(s, a);
    forall h | h in n.engine.rounds ensures RoundKnown(s', a, n.engine.rounds[h]) {
      assert RoundKnown(s, a, Rounds(s, a)[h]);
    }
    NodeStep(cfg, s, s', a, n);
  }

  lemma FinalizePendingStep(cfg: Config, s: Net, a: Address)
    requires Inv(cfg, s) && a in s.nodes
    ensures Inv(cfg, FinalizeAt(s, a))
  {
    var n := s.nodes[a];
    assert NodeOk(cfg, a, n);
    FinalizePendingReachesFixpoint(cfg.genesis, n.engine);
    AdvancedStep(cfg, s, a, FinalizePending(n.engine).0);
  }

  lemma AdvancedStep(cfg: Config, s: Net, a: Address, e': Engine)
    requires Inv(cfg, s) && a in s.nodes && Advanced(s.nodes[a].engine, e', e'.height)
    requires MaximalRun(s.nodes[a].engine, e'.height)
    ensures Inv(cfg, Update(s, a, s.nodes[a].(engine := e')))
  {
    assert NodeOk(cfg, a, s.nodes[a]);
    AdvancedNode(cfg, a, s.nodes[a], e');
    QuietStep(cfg, s, a, s.nodes[a].(engine := e'));
  }

  lemma DueStep(cfg: Config, s: Net, a: Address, due: bool)
    requires Inv(cfg, s) && a in s.nodes
    ensures Inv(cfg, SetDue(s, a, due))
  {
    assert NodeOk(cfg, a, s.nodes[a]);
    QuietStep(cfg, s, a, s.nodes[a].(due := due));
  }

  lemma TickStep(cfg: Config, s: Net, a: Address)
    requires Inv(cfg, s) && a in s.nodes
    ensures Inv(cfg, Update(s, a, Tick(s.nodes[a])))
  {
    assert NodeOk(cfg, a, s.nodes[a]);
    TickedNode(cfg, a, s.nodes[a]);
    QuietStep(cfg, s, a, Tick(s.nodes[a]));
  }

  lemma VoteAccounted(cfg: Config, s: Net, a: Address, v: Vote)
    requires Inv(cfg, s) && a in s.nodes && v in s.votes && ValidVote(s.nodes[a].engine, v)
    ensures var n' := s.nodes[a].(engine := HandleVote(s.nodes[a].engine, v).engine);
            Accounted(Update(s, a, n'), a, n')
  {
    var n := s.nodes[a];
    var n' := n.(engine := HandleVote(n.engine, v).engine);
    assert VoteAuthentic(s, v);
    OwnMessages(s, a);
    forall h | h in n'.engine.rounds ensures RoundKnown(Update(s, a, n'), a, n'.engine.rounds[h]) {
      assert RoundKnown(s, a, Rounds(s, a)[h]);
    }
  }

  lemma DeliverVoteStep(cfg: Config, s: Net, a: Address, v: Vote)
    requires Inv(cfg, s) && a in s.nodes && v in s.votes
    ensures Inv(cfg, ReceiveVote(s, a, v))
  {
    var n := s.nodes[a];
    assert NodeOk(cfg, a, n);
    var n' := n.(engine := HandleVote(n.engine, v).engine);
    if ValidVote(n.engine, v) {
      RecordedVote(cfg, a, n, v);
      VoteAccounted(cfg, s, a, v);
      NodeStep(cfg, s, Update(s, a, n'), a, n');
    } else {
      QuietStep(cfg, s, a, n');
    }
  }

  lemma ProposalAccounted(cfg: Config, s: Net, a: Address, h: nat, b: Block, n': Node)
    requires Inv(cfg, s) && a in s.nodes && h !in Rounds(s, a) && s.nodes[a].engine.local == a && b.header.proposer == a
    requires n'.engine == RecordOwnBlock(s.nodes[a].engine, h, b)
    ensures Accounted(Update(s, a, n'), a, n')
  {
    OwnMessages(s, a);
    forall g | g in n'.engine.rounds ensures RoundKnown(Update(s, a, n'), a, n'.engine.rounds[g]) {
      if g != h { assert RoundKnown(s, a, Rounds(s, a)[g]); }
    }
  }

  lemma ProposeStep(cfg: Config, s: Net, a: Address, ts: nat)
    requires Inv(cfg, s) && a in s.nodes
    ensures Inv(cfg, Update(s, a, ProposeOnce(cfg, s.nodes[a], ts)))
  {
    var n := s.nodes[a];
    assert NodeOk(cfg, a, n);
    var n' := ProposeOnce(cfg, n, ts);
    if IsTurn(n) && n.lastProposed != Some(n.nextHeight) {
      ProposedNode(cfg, a, n, ts);
      var e, h := n.engine, n.nextHeight;
      var b := Block(BlockHeader(h, ts, e.previousHash, StateHash(e.ledger), TransactionsHash([]), a), []);
      ProposalAccounted(cfg, s, a, h, b, n');
      NodeStep(cfg, s, Update(s, a, n'), a, n');
    } else {
      QuietStep(cfg, s, a, n');
    }
  }

  lemma FirstBlockAccounted(cfg: Config, s: Net, a: Address, b: Block, n': Node)
    requires Inv(cfg, s) && a in s.nodes && b in s.blocks && b.header.height !in Rounds(s, a)
    requires var v := Vote(BlockHash(b), b.header.height, 0, a);
             n'.engine.rounds ==
             Rounds(s, a)[b.header.height := RoundState(Some(ProposalOf(b)), Some(b), map[a := v], false)]
    ensures var v := Vote(BlockHash(b), b.header.height, 0, a);
            Accounted(Update(s, a, n').(votes := s.votes + {v}), a, n')
  {
    var v := Vote(BlockHash(b), b.header.height, 0, a);
    var s' := Update(s, a, n').(votes := s.votes + {v});
    OwnMessages(s, a);
    forall g | g in n'.engine.rounds ensures RoundKnown(s', a, n'.engine.rounds[g]) {
      if g != b.header.height { assert RoundKnown(s, a, Rounds(s, a)[g]); }
    }
  }

  /** First delivery of a block to a node that has not seen its height. */
  lemma FirstDelivery(cfg: Config, s: Net, a: Address, b: Block)
    requires Inv(cfg, s) && a in s.nodes && b in s.blocks
    requires ValidProposal(s.nodes[a].engine, ProposalOf(b)) && b.header.height !in Rounds(s, a)
    ensures Inv(cfg, ReceiveBlock(s, a, b))
    ensures Vote(BlockHash(b), b.header.height, 0, a) in ReceiveBlock(s, a, b).votes
  {
    var n := s.nodes[a];
    assert NodeOk(cfg, a, n);
    OwnMessages(s, a);
    FirstBlock(cfg, a, n, b);
    var n' := n.(engine := HandleBlock(n.engine, b).engine);
    FirstBlockAccounted(cfg, s, a, b, n');
    NodeStep(cfg, s, ReceiveBlock(s, a, b), a, n');
  }

  lemma ReplacementAccounted(cfg: Config, s: Net, a: Address, b: Block, n': Node)
    requires Inv(cfg, s) && a in s.nodes && b in s.blocks && b.header.height in Rounds(s, a)
    requires b.header.proposer !in cfg.Honest() && ProposedBy(cfg, b.header.height, b.header.proposer)
    requires var h := b.header.height;
             n'.engine.rounds == Rounds(s, a)[h := Rounds(s, a)[h].(proposal := Some(ProposalOf(b)), block := Some(b))]
    ensures Accounted(Update(s, a, n'), a, n')
  {
    OwnMessages(s, a);
    OwnHeightsOnly(cfg, s, a, b.header.height);
    forall g | g in n'.engine.rounds ensures RoundKnown(Update(s, a, n'), a, n'.engine.rounds[g]) {
      assert RoundKnown(s, a, Rounds(s, a)[g]);
    }
  }

  lemma LaterDelivery(cfg: Config, s: Net, a: Address, b: Block)
    requires Inv(cfg, s) && a in s.nodes && b in s.blocks
    requires ValidProposal(s.nodes[a].engine, ProposalOf(b)) && b.header.height in Rounds(s, a)
    ensures Inv(cfg, ReceiveBlock(s, a, b))
  {
    var n := s.nodes[a];
    assert NodeOk(cfg, a, n);
    HandleKnownHeight(cfg.genesis, n.engine, b);
    var n' := n.(engine := HandleBlock(n.engine, b).engine);
    assert ReceiveBlock(s, a, b) == Update(s, a, n');
    if b.header.proposer in cfg.Honest() {
      ProposersBlock(cfg, s, a, b.header.height, b.header.proposer);
      assert BlockAuthentic(s, b);
      HandleSameBlock(cfg.genesis, n.engine, b);
      QuietStep(cfg, s, a, n');
    } else {
      ReplacedBlock(cfg, a, n, b);
      ReplacementAccounted(cfg, s, a, b, n');
      NodeStep(cfg, s, Update(s, a, n'), a, n');
    }
  }

  /** Blocks in a node's own name are for heights it proposes. */
  lemma OwnHeightsOnly(cfg: Config, s: Net, a: Address, h: nat)
    requires Inv(cfg, s) && a in s.nodes
    ensures forall b :: b in s.blocks && b.header.proposer == a && b.header.height == h ==> ProposedBy(cfg, h, a)
  {
    OwnMessages(s, a);
    assert NodeOk(cfg, a, s.nodes[a]);
    var e := s.nodes[a].engine;
    assert h in e.rounds ==> RoundLocal(cfg, e, h, e.rounds[h]);
  }

  lemma DeliverBlockStep(cfg: Config, s: Net, a: Address, b: Block)
    requires Inv(cfg, s) && a in s.nodes && b in s.blocks
    ensures Inv(cfg, ReceiveBlock(s, a, b))
  {
    if !ValidProposal(s.nodes[a].engine, ProposalOf(b)) {
      assert NodeOk(cfg, a, s.nodes[a]);
      QuietStep(cfg, s, a, s.nodes[a]);
    } else if b.header.height in Rounds(s, a) {
      LaterDelivery(cfg, s, a, b);
    } else {
      FirstDelivery(cfg, s, a, b);
    }
  }

  lemma BroadcastBlockStep(cfg: Config, s: Net, a: Address)
    requires Inv(cfg, s) && a in s.nodes
    ensures Inv(cfg, s.(blocks := s.blocks + OwnProposal(s.nodes[a])))
  {
    var n := s.nodes[a];
    var e, h := n.engine, n.nextHeight;
    assert NodeOk(cfg, a, n);
    OwnMessages(s, a);
    assert h in e.rounds ==> RoundOk(e, h, e.rounds[h]) && RoundLocal(cfg, e, h, e.rounds[h]);
    var s' := s.(blocks := s.blocks + OwnProposal(n));
    assert s.nodes == s.nodes[a := n];
    BlocksStep(s, s', a, n);
    assert VotesOk(s') by { forall v | v in s.votes ensures VoteAuthentic(s', v) { assert VoteAuthentic(s, v); } }
    MoreMessages(s, s');
  }

  lemma BroadcastVoteStep(cfg: Config, s: Net, a: Address)
    requires Inv(cfg, s) && a in s.nodes
    ensures Inv(cfg, s.(votes := s.votes + OwnVote(s.nodes[a])))
  {
    var n := s.nodes[a];
    var e, h := n.engine, n.nextHeight;
    assert NodeOk(cfg, a, n);
    OwnMessages(s, a);
    assert h in e.rounds ==> RoundOk(e, h, e.rounds[h]) && RoundLocal(cfg, e, h, e.rounds[h]);
    var s' := s.(votes := s.votes + OwnVote(n));
    assert s.nodes == s.nodes[a := n];
    VotesStep(s, s', a, n);
    assert BlocksOk(s') by { forall b | b in s.blocks ensures BlockAuthentic(s', b) { assert BlockAuthentic(s, b); } }
    MoreMessages(s, s');
  }

  lemma MoreMessages(s: Net, s': Net)
    requires StoresOk(s) && s'.nodes == s.nodes && s.blocks <= s'.blocks && s.votes <= s'.votes
    ensures StoresOk(s')
  {
    forall c, h | c in s'.nodes && h in Rounds(s', c) ensures RoundKnown(s', c, Rounds(s', c)[h]) {
      assert RoundKnown(s, c, Rounds(s, c)[h]);
    }
  }

  lemma FaultyStep(cfg: Config, s: Net, s': Net)
    requires Inv(cfg, s) && s'.nodes == s.nodes && s.blocks <= s'.blocks && s.votes <= s'.votes
    requires forall b :: b in s'.blocks ==> b in s.blocks || b.header.proposer !in cfg.Honest()
    requires forall v :: v in s'.votes ==> v in s.votes || v.voter !in cfg.Honest()
    ensures Inv(cfg, s')
  {
    forall b | b in s'.blocks ensures BlockAuthentic(s', b) {
      if b in s.blocks { assert BlockAuthentic(s, b); }
    }
    forall v | v in s'.votes ensures VoteAuthentic(s', v) {
      if v in s.votes { assert VoteAuthentic(s, v); }
    }
    MoreMessages(s, s');
  }

  lemma StepInv(cfg: Config, s: Net, step: Step)
    requires Inv(cfg, s)
    ensures Inv(cfg, Next(cfg, s, step))
  {
    match step
    case StepFaultyBlock(b) => FaultyStep(cfg, s, Next(cfg, s, step));
    case StepFaultyVote(v) => FaultyStep(cfg, s, Next(cfg, s, step));
    case StepPropose(a, ts) => if a in s.nodes { ProposeStep(cfg, s, a, ts); }
    case StepBroadcastBlock(a) => if a in s.nodes { BroadcastBlockStep(cfg, s, a); }
    case StepBroadcastVote(a) => if a in s.nodes { BroadcastVoteStep(cfg, s, a); }
    case StepFinalizePending(a) => if a in s.nodes { FinalizePendingStep(cfg, s, a); }
    case StepTick(a) => if a in s.nodes { TickStep(cfg, s, a); }
    case StepDeliverBlock(a, b) => if a in s.nodes && b in s.blocks { BlockHandled(cfg, s, a, b); }
    case StepAfterBlock(a) => if a in s.nodes { AfterBlock(cfg, s, a); }
    case StepDeliverVote(a, v) => if a in s.nodes && v in s.votes { VoteHandled(cfg, s, a, v); }
  }

  lemma BlockHandled(cfg: Config, s: Net, a: Address, b: Block)
    requires Inv(cfg, s) && a in s.nodes && b in s.blocks
    ensures Inv(cfg, SetDue(ReceiveBlock(s, a, b), a, true))
  {
    DeliverBlockStep(cfg, s, a, b);
    DueStep(cfg, ReceiveBlock(s, a, b), a, true);
  }

  lemma AfterBlock(cfg: Config, s: Net, a: Address)
    requires Inv(cfg, s) && a in s.nodes
    ensures Inv(cfg, SetDue(FinalizeAt(s, a), a, false))
  {
    FinalizePendingStep(cfg, s, a);
    DueStep(cfg, FinalizeAt(s, a), a, false);
  }

  lemma VoteHandled(cfg: Config, s: Net, a: Address, v: Vote)
    requires Inv(cfg, s) && a in s.nodes && v in s.votes
    ensures Inv(cfg, FinalizeAt(ReceiveVote(s, a, v), a))
  {
    DeliverVoteStep(cfg, s, a, v);
    FinalizePendingStep(cfg, ReceiveVote(s, a, v), a);
  }

  lemma {:induction false} RunInv(cfg: Config, s: Net, steps: seq<Step>)
    requires Inv(cfg, s)
    ensures Inv(cfg, Run(cfg, s, steps))
    decreases |steps|
  {
    if steps != [] {
      StepInv(cfg, s, steps[0]);
      RunInv(cfg, Next(cfg, s, steps[0]), steps[1..]);
    }
  }

  lemma ReachableInv(cfg: Config, steps: seq<Step>)
    ensures Inv(cfg, RunFromGenesis(cfg, steps))
  {
    InitInv(cfg);
    RunInv(cfg, Init(cfg), steps);
  }

  // ------------------------------------------------------------ main theorems --

  function FinalizedAt(s: Net, a: Address): map<nat, Block>
    requires a in s.nodes
  {
    s.nodes[a].engine.finalized
  }

  /** Agreement: in every run, two honest nodes that finalized a height with an
      honest proposer hold the same block there. */
  lemma Agreement(cfg: Config, steps: seq<Step>, a: Address, c: Address, h: nat)
    requires var s := RunFromGenesis(cfg, steps);
             && a in s.nodes && c in s.nodes && h in FinalizedAt(s, a) && h in FinalizedAt(s, c)
    requires HonestProposer(cfg, h)
    ensures var s := RunFromGenesis(cfg, steps);
            FinalizedAt(s, a)[h] == FinalizedAt(s, c)[h]
  {
    var s := RunFromGenesis(cfg, steps);
    ReachableInv(cfg, steps);
    AgreementInState(cfg, s, a, c, h);
  }

  lemma AgreementInState(cfg: Config, s: Net, a: Address, c: Address, h: nat)
    requires Inv(cfg, s) && a in s.nodes && c in s.nodes && h in FinalizedAt(s, a) && h in FinalizedAt(s, c)
    requires HonestProposer(cfg, h)
    ensures FinalizedAt(s, a)[h] == FinalizedAt(s, c)[h]
  {
    var p :| ProposedBy(cfg, h, p) && p in cfg.Honest();
    assert NodeOk(cfg, a, s.nodes[a]) && NodeOk(cfg, c, s.nodes[c]);
    ProposersBlock(cfg, s, a, h, p);
    ProposersBlock(cfg, s, c, h, p);
  }

  ghost predicate HonestProposer(cfg: Config, h: nat) {
    exists p :: ProposedBy(cfg, h, p) && p in cfg.Honest()
  }

  /** The block at `h` is for that height and names the hash of the one below it, or
      the genesis hash. */
  ghost predicate ChainLink(cfg: Config, chain: map<nat, Block>, h: nat) {
    && h >= 1 && h in chain && chain[h].header.height == h
    && (h == 1 ==> chain[h].header.previousHash == cfg.genesis)
    && (h > 1 ==> h - 1 in chain && chain[h].header.previousHash == BlockHash(chain[h - 1]))
  }

  /** A finalized block at a height with an honest proposer links to the block the
      same node finalized below it, if that height had an honest proposer too. */
  lemma LinksBelow(cfg: Config, steps: seq<Step>, a: Address, h: nat)
    requires HonestProposer(cfg, h) && (h > 1 ==> HonestProposer(cfg, h - 1))
    requires var s := RunFromGenesis(cfg, steps); a in s.nodes && h in FinalizedAt(s, a)
    ensures ChainLink(cfg, FinalizedAt(RunFromGenesis(cfg, steps), a), h)
  {
    ReachableInv(cfg, steps);
    ChainLinkInState(cfg, RunFromGenesis(cfg, steps), a, h);
  }

  /** With honest proposers every node's finalized blocks are hash-linked, one to
      the next, down to the genesis hash. */
  lemma ChainIntegrity(cfg: Config, steps: seq<Step>, a: Address)
    requires a in RunFromGenesis(cfg, steps).nodes
    requires forall h :: h in FinalizedAt(RunFromGenesis(cfg, steps), a) ==> HonestProposer(cfg, h)
    ensures var chain := FinalizedAt(RunFromGenesis(cfg, steps), a);
            forall h :: h in chain ==> ChainLink(cfg, chain, h)
  {
    var s := RunFromGenesis(cfg, steps);
    ReachableInv(cfg, steps);
    assert NodeOk(cfg, a, s.nodes[a]);
    forall h | h in FinalizedAt(s, a) ensures ChainLink(cfg, FinalizedAt(s, a), h) {
      assert h > 1 ==> h - 1 in FinalizedAt(s, a);
      ChainLinkInState(cfg, s, a, h);
    }
  }

  lemma ChainLinkInState(cfg: Config, s: Net, a: Address, h: nat)
    requires HonestProposer(cfg, h) && (h > 1 ==> HonestProposer(cfg, h - 1))
    requires Inv(cfg, s) && a in s.nodes && h in FinalizedAt(s, a)
    ensures ChainLink(cfg, FinalizedAt(s, a), h)
  {
    StoredBlock(cfg, s, a, h);
    var p := FinalizedAt(s, a)[h].header.proposer;
    ProposersBlock(cfg, s, a, h, p);
    ProposerLinks(cfg, s, p, h);
    if h > 1 {
      StoredBlock(cfg, s, p, h - 1);
      assert h - 1 in FinalizedAt(s, a) by { assert NodeOk(cfg, a, s.nodes[a]); }
      AgreementInState(cfg, s, a, p, h - 1);
    }
  }

  /** A finalized block is the stored one, for its height, by that height's proposer. */
  lemma StoredBlock(cfg: Config, s: Net, a: Address, h: nat)
    requires Inv(cfg, s) && a in s.nodes && h in FinalizedAt(s, a)
    ensures h >= 1 && h in Rounds(s, a) && Rounds(s, a)[h].block == Some(FinalizedAt(s, a)[h])
    ensures FinalizedAt(s, a)[h].header.height == h && ProposedBy(cfg, h, FinalizedAt(s, a)[h].header.proposer)
  {
    var e := s.nodes[a].engine;
    assert NodeOk(cfg, a, s.nodes[a]);
    assert RoundOk(e, h, e.rounds[h]) && RoundLocal(cfg, e, h, e.rounds[h]);
  }

  lemma ProposerLinks(cfg: Config, s: Net, p: Address, h: nat)
    requires Inv(cfg, s) && p in s.nodes && h in Rounds(s, p) && ProposedBy(cfg, h, p)
    ensures Rounds(s, p)[h].block.Some? && Linked(cfg, s.nodes[p].engine, Rounds(s, p)[h].block.value)
  {
    var e := s.nodes[p].engine;
    assert NodeOk(cfg, p, s.nodes[p]);
    assert RoundLocal(cfg, e, h, e.rounds[h]);
  }

  /** Engines here decide quorums with exact sums. That is what the 64-bit code decides,
      in every run, as long as twice the configured power fits in u64. */
  lemma MachineDecidesAlike(cfg: Config, steps: seq<Step>, a: Address, h: nat)
    requires TotalPower(cfg.validators) * 2 <= U64_MAX && a in RunFromGenesis(cfg, steps).nodes
    ensures var e := RunFromGenesis(cfg, steps).nodes[a].engine;
            HasQuorum(e, h) <==> h in e.rounds && IsQuorum64(e.validators, e.rounds[h].votes.Keys)
  {
    var s := RunFromGenesis(cfg, steps);
    ReachableInv(cfg, steps);
    assert NodeOk(cfg, a, s.nodes[a]);
    if h in Rounds(s, a) { QuorumExactWhenFits(cfg.validators, Rounds(s, a)[h].votes.Keys); }
  }

  /** Finality is backed: a block finalized at a height with an honest proposer has
      recorded votes of quorum power, every one of them for that very block. */
  lemma FinalityIsCertified(cfg: Config, steps: seq<Step>, a: Address, h: nat, p: Address)
    requires ProposedBy(cfg, h, p) && p in cfg.Honest()
    requires var s := RunFromGenesis(cfg, steps); a in s.nodes && h in FinalizedAt(s, a)
    ensures var s := RunFromGenesis(cfg, steps);
            && h in Rounds(s, a)
            && IsQuorum(cfg.validators, Rounds(s, a)[h].votes.Keys)
            && forall q :: q in Rounds(s, a)[h].votes ==>
                 && Rounds(s, a)[h].votes[q].voter == q
                 && Rounds(s, a)[h].votes[q].blockHash == BlockHash(FinalizedAt(s, a)[h])
                 && (Rounds(s, a)[h].votes[q] in s.votes || q == a)
  {
    var s := RunFromGenesis(cfg, steps);
    ReachableInv(cfg, steps);
    CertifiedInState(cfg, s, a, h, p);
  }

  lemma CertifiedInState(cfg: Config, s: Net, a: Address, h: nat, p: Address)
    requires Inv(cfg, s) && a in s.nodes && h in FinalizedAt(s, a) && ProposedBy(cfg, h, p) && p in cfg.Honest()
    ensures h in Rounds(s, a)
    ensures IsQuorum(cfg.validators, Rounds(s, a)[h].votes.Keys)
    ensures forall q :: q in Rounds(s, a)[h].votes ==>
              && Rounds(s, a)[h].votes[q].voter == q
              && Rounds(s, a)[h].votes[q].blockHash == BlockHash(FinalizedAt(s, a)[h])
              && (Rounds(s, a)[h].votes[q] in s.votes || q == a)
  {
    var e := s.nodes[a].engine;
    assert NodeOk(cfg, a, s.nodes[a]);
    assert RoundOk(e, h, e.rounds[h]) && RoundLocal(cfg, e, h, e.rounds[h]);
    assert IsQuorum(cfg.validators, e.rounds[h].votes.Keys);
    assert RoundKnown(s, a, Rounds(s, a)[h]);
  }

  /** In every run recorded voters are members of the configured set. */
  lemma RecordedVotersAreValidators(cfg: Config, steps: seq<Step>, a: Address, h: nat)
    requires var s := RunFromGenesis(cfg, steps); a in s.nodes && h in Rounds(s, a)
    ensures Rounds(RunFromGenesis(cfg, steps), a)[h].votes.Keys <= cfg.validators.Keys
  {
    var s := RunFromGenesis(cfg, steps);
    var e := s.nodes[a].engine;
    ReachableInv(cfg, steps);
    assert NodeOk(cfg, a, s.nodes[a]);
    assert RoundLocal(cfg, e, h, e.rounds[h]);
  }

  /** What `own_vote` hands out for broadcast: in every run a node that holds a round has
      voted in it, for that height and in its own name, and no other vote of its for
      that height is ever sent. */
  lemma OwnVoteIsTheOnlyOne(cfg: Config, steps: seq<Step>, a: Address, h: nat)
    requires var s := RunFromGenesis(cfg, steps); a in s.nodes && h in Rounds(s, a)
    ensures var s := RunFromGenesis(cfg, steps);
            && a in Rounds(s, a)[h].votes
            && Rounds(s, a)[h].votes[a].voter == a && Rounds(s, a)[h].votes[a].height == h
            && forall w :: w in s.votes && w.voter == a && w.height == h ==> w == Rounds(s, a)[h].votes[a]
  {
    var s := RunFromGenesis(cfg, steps);
    var e := s.nodes[a].engine;
    ReachableInv(cfg, steps);
    assert NodeOk(cfg, a, s.nodes[a]);
    assert RoundOk(e, h, e.rounds[h]) && RoundLocal(cfg, e, h, e.rounds[h]);
    forall w | w in s.votes && w.voter == a && w.height == h ensures w == Rounds(s, a)[h].votes[a] {
      assert VoteAuthentic(s, w);
    }
  }

  /** What `own_proposal` hands out for broadcast at a node's own height: its one block
      there, in its name and linked to its own chain; no other is ever sent. */
  lemma OwnProposalIsTheOnlyOne(cfg: Config, steps: seq<Step>, a: Address, h: nat)
    requires var s := RunFromGenesis(cfg, steps); a in s.nodes && h in Rounds(s, a) && ProposedBy(cfg, h, a)
    ensures var s := RunFromGenesis(cfg, steps);
            && Rounds(s, a)[h].block.Some?
            && var b := Rounds(s, a)[h].block.value;
               && b.header.height == h && b.header.proposer == a && Linked(cfg, s.nodes[a].engine, b)
               && forall c :: c in s.blocks && c.header.proposer == a && c.header.height == h ==> c == b
  {
    var s := RunFromGenesis(cfg, steps);
    var e := s.nodes[a].engine;
    ReachableInv(cfg, steps);
    assert NodeOk(cfg, a, s.nodes[a]);
    assert RoundOk(e, h, e.rounds[h]) && RoundLocal(cfg, e, h, e.rounds[h]);
    forall c | c in s.blocks && c.header.proposer == a && c.header.height == h
      ensures Rounds(s, a)[h].block == Some(c)
    {
      assert BlockAuthentic(s, c);
    }
  }

  /** An honest validator never casts votes for two hashes at one height. */
  lemma HonestVotesOnce(cfg: Config, steps: seq<Step>, v: Vote, w: Vote)
    requires var s := RunFromGenesis(cfg, steps); v in s.votes && w in s.votes
    requires v.voter == w.voter && v.voter in cfg.Honest() && v.height == w.height
    ensures v == w
  {
    var s := RunFromGenesis(cfg, steps);
    ReachableInv(cfg, steps);
    assert VoteAuthentic(s, v) && VoteAuthentic(s, w);
  }

  /** The validators that cast a vote for `hash` at height `h`. */
  ghost function Voters(s: Net, h: nat, hash: Hash): set<Address> {
    set v | v in s.votes && v.height == h && v.blockHash == hash :: v.voter
  }

  /** Even with equivocating proposers and voters, while faulty power is below one
      third no two hashes at one height both gather a quorum of cast votes. */
  lemma CertificatesAreUnique(cfg: Config, steps: seq<Step>, h: nat, x: Hash, y: Hash)
    requires 3 * PowerOf(cfg.validators, cfg.faulty) < TotalPower(cfg.validators)
    requires var s := RunFromGenesis(cfg, steps);
             IsQuorum(cfg.validators, Voters(s, h, x)) && IsQuorum(cfg.validators, Voters(s, h, y))
    ensures x == y
  {
    var s := RunFromGenesis(cfg, steps);
    TallyOfSet(cfg.validators, Voters(s, h, x));
    TallyOfSet(cfg.validators, Voters(s, h, y));
    QuorumsIntersect(cfg.validators, Voters(s, h, x), Voters(s, h, y), cfg.faulty);
    var a :| a in Voters(s, h, x) && a in Voters(s, h, y) && a in cfg.validators && a !in cfg.faulty;
    var v :| v in s.votes && v.height == h && v.blockHash == x && v.voter == a;
    var w :| w in s.votes && w.height == h && w.blockHash == y && w.voter == a;
    HonestVotesOnce(cfg, steps, v, w);
  }
}
