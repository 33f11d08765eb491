/** Many nodes over an asynchronous network. Each step is one critical section of
    a node's block-production or network-event loop, or an action of the faulty
    validators. The network loop handles one message at a time: after a block it
    owes one `finalize_pending` before it takes the next message, while a vote is
    handled and followed by `finalize_pending` under one lock. A message once sent
    stays available: delivering it late, twice, out of order or never are all runs.
    Origins are authentic: no one sends a block or a vote in an honest validator's
    name. */
module Network {
  import opened Primitives
  import opened LedgerModel
  import opened Validators
  import opened Finality

  datatype Config = Config(
    env: Env, validators: ValidatorSet, faulty: set<Address>, genesis: Hash, accounts: map<Address, Account>)
  {
    function Honest(): set<Address> {
      validators.Keys - faulty
    }
  }

  /** A node: its engine, the two variables of its production loop, and whether its
      network loop still owes a `finalize_pending`. */
  datatype Node = Node(engine: Engine, nextHeight: nat, lastProposed: Option<nat>, due: bool)

  datatype Net = Net(nodes: map<Address, Node>, blocks: set<Block>, votes: set<Vote>)

  datatype Step =
    | StepPropose(node: Address, timestamp: nat)
    | StepBroadcastBlock(node: Address)
    | StepBroadcastVote(node: Address)
    | StepFinalizePending(node: Address)
    | StepTick(node: Address)
    | StepDeliverBlock(node: Address, block: Block)
    | StepAfterBlock(node: Address)
    | StepDeliverVote(node: Address, vote: Vote)
    | StepFaultyBlock(block: Block)
    | StepFaultyVote(vote: Vote)

  function NewNode(cfg: Config, a: Address): Node {
    Node(NewEngine(a, cfg.validators, Ledger(cfg.accounts, map[], map[]), cfg.genesis), 1, None, false)
  }

  function Init(cfg: Config): Net {
    Net(map a | a in cfg.Honest() :: NewNode(cfg, a), {}, {})
  }

  // ------------------------------------------------- one node's local steps --

  predicate IsTurn(n: Node) {
    Proposer(n.engine.validators, n.nextHeight, 0) == Some(n.engine.local)
  }

  /** Build the proposal once per height. */
  function ProposeOnce(cfg: Config, n: Node, timestamp: nat): Node {
    if !IsTurn(n) || n.lastProposed == Some(n.nextHeight) then n
    else
      var r := Propose(cfg.env, n.engine, n.nextHeight, [], timestamp);
      if r.result.Err? then n.(engine := r.engine)
      else n.(engine := r.engine, lastProposed := Some(n.nextHeight))
  }

  /** The end of a production-loop iteration: follow the engine's height. */
  function Tick(n: Node): Node {
    if n.engine.height >= n.nextHeight then n.(nextHeight := n.engine.height + 1, lastProposed := None) else n
  }

  function OwnProposal(n: Node): set<Block> {
    if !IsTurn(n) then {}
    else match RoundOf(n.engine, n.nextHeight).block case Some(b) => {b} case None => {}
  }

  function OwnVote(n: Node): set<Vote> {
    if !IsTurn(n) then {}
    else
      var votes := RoundOf(n.engine, n.nextHeight).votes;
      if n.engine.local in votes then {votes[n.engine.local]} else {}
  }

  // ------------------------------------------------------------------- steps --

  function Update(s: Net, a: Address, n: Node): Net {
    s.(nodes := s.nodes[a := n])
  }

  function ReceiveBlock(s: Net, a: Address, b: Block): Net
    requires a in s.nodes
  {
    var r := HandleBlock(s.nodes[a].engine, b);
    var s' := Update(s, a, s.nodes[a].(engine := r.engine));
    if r.result.Ok? then s'.(votes := s.votes + {r.result.value}) else s'
  }

  function ReceiveVote(s: Net, a: Address, v: Vote): Net
    requires a in s.nodes
  {
    Update(s, a, s.nodes[a].(engine := HandleVote(s.nodes[a].engine, v).engine))
  }

  function FinalizeAt(s: Net, a: Address): Net
    requires a in s.nodes
  {
    Update(s, a, s.nodes[a].(engine := FinalizePending(s.nodes[a].engine).0))
  }

  function SetDue(s: Net, a: Address, due: bool): Net
    requires a in s.nodes
  {
    Update(s, a, s.nodes[a].(due := due))
  }

  function Next(cfg: Config, s: Net, step: Step): Net {
    match step
    case StepFaultyBlock(b) =>
      if b.header.proposer in cfg.Honest() then s else s.(blocks := s.blocks + {b})
    case StepFaultyVote(v) =>
      if v.voter in cfg.Honest() then s else s.(votes := s.votes + {v})
    case StepPropose(a, ts) => if a in s.nodes then Update(s, a, ProposeOnce(cfg, s.nodes[a], ts)) else s
    case StepBroadcastBlock(a) => if a in s.nodes then s.(blocks := s.blocks + OwnProposal(s.nodes[a])) else s
    case StepBroadcastVote(a) => if a in s.nodes then s.(votes := s.votes + OwnVote(s.nodes[a])) else s
    case StepFinalizePending(a) => if a in s.nodes && IsTurn(s.nodes[a]) then FinalizeAt(s, a) else s
    case StepTick(a) => if a in s.nodes then Update(s, a, Tick(s.nodes[a])) else s
    case StepDeliverBlock(a, b) =>
      if a in s.nodes && !s.nodes[a].due && b in s.blocks then SetDue(ReceiveBlock(s, a, b), a, true) else s
    case StepAfterBlock(a) => if a in s.nodes && s.nodes[a].due then SetDue(FinalizeAt(s, a), a, false) else s
    case StepDeliverVote(a, v) =>
      if a in s.nodes && !s.nodes[a].due && v in s.votes then FinalizeAt(ReceiveVote(s, a, v), a) else s
  }

  function Run(cfg: Config, s: Net, steps: seq<Step>): Net
    decreases |steps|
  {
    if steps == [] then s else Run(cfg, Next(cfg, s, steps[0]), steps[1..])
  }

  function RunFromGenesis(cfg: Config, steps: seq<Step>): Net {
    Run(cfg, Init(cfg), steps)
  }

  lemma {:induction false} RunAppend(cfg: Config, s: Net, xs: seq<Step>, ys: seq<Step>)
    ensures Run(cfg, s, xs + ys) == Run(cfg, Run(cfg, s, xs), ys)
    decreases |xs|
  {
    if xs == [] {
      assert xs + ys == ys;
    } else {
      RunAppend(cfg, Next(cfg, s, xs[0]), xs[1..], ys);
      assert (xs + ys)[0] == xs[0] && (xs + ys)[1..] == xs[1..] + ys;
    }
  }
}
