/** What one engine keeps over every sequence of calls, with arbitrary and even
    conflicting blocks and votes. */
module EngineSafety {
  import opened Primitives
  import opened Ordering
  import opened LedgerModel
  import opened Validators
  import opened Finality

  // --------------------------------------------------------------- invariant --

  ghost predicate RoundOk(e: Engine, h: nat, r: RoundState) {
    && 1 <= h
    && r.block.Some? && r.block.value.header.height == h
    && r.proposal == Some(ProposalOf(r.block.value))
    && (r.finalized <==> h <= e.height)
    && (forall a :: a in r.votes ==> r.votes[a].voter == a && r.votes[a].height == h)
  }

  ghost predicate RoundsOk(e: Engine) {
    forall h {:trigger RoundOk(e, h, e.rounds[h])} :: h in e.rounds ==> RoundOk(e, h, e.rounds[h])
  }

  /** `finalized` covers exactly 1..=height, with the blocks the rounds hold. */
  ghost predicate ChainOk(e: Engine) {
    && (forall h :: h in e.finalized <==> 1 <= h <= e.height)
    && (forall h :: h in e.finalized ==> h in e.rounds && e.rounds[h].block == Some(e.finalized[h]))
  }

  ghost predicate TipOk(genesis: Hash, e: Engine) {
    if e.height == 0 then e.previousHash == genesis
    else e.height in e.finalized && e.previousHash == BlockHash(e.finalized[e.height])
  }

  /** The vote guard holds exactly the open rounds. */
  ghost predicate GuardOk(e: Engine) {
    forall k :: k in e.voted <==> k.1 == e.local && k.0 in e.rounds && e.height < k.0
  }

  ghost predicate Safe(genesis: Hash, e: Engine) {
    RoundsOk(e) && ChainOk(e) && TipOk(genesis, e) && GuardOk(e)
  }

  /** Finality: nothing finalized is ever changed or dropped. */
  ghost predicate Extends(e: Engine, e': Engine) {
    && e.height <= e'.height
    && e'.local == e.local
    && forall h :: h in e.finalized ==> h in e'.finalized && e'.finalized[h] == e.finalized[h]
  }

  lemma NewEngineSafe(local: Address, vs: ValidatorSet, ledger: Ledger, genesis: Hash)
    ensures Safe(genesis, NewEngine(local, vs, ledger, genesis))
  {}

  // ------------------------------------------------------------ single calls --

  lemma RoundsOkPut(e: Engine, e': Engine, h: nat, r: RoundState)
    requires RoundsOk(e) && e'.height == e.height && e'.rounds == e.rounds[h := r] && RoundOk(e', h, r)
    ensures RoundsOk(e')
  {
    forall g | g in e'.rounds ensures RoundOk(e', g, e'.rounds[g]) {
      if g != h { assert RoundOk(e, g, e.rounds[g]); }
    }
  }

  lemma HandleBlockSafe(genesis: Hash, e: Engine, b: Block)
    requires Safe(genesis, e)
    ensures var r := HandleBlock(e, b);
            && Safe(genesis, r.engine)
            && r.engine.height == e.height && r.engine.finalized == e.finalized && r.engine.local == e.local
            && (r.result.Ok? <==> ValidProposal(e, ProposalOf(b)) && b.header.height !in e.rounds)
  {
    var h := b.header.height;
    var e' := HandleBlock(e, b).engine;
    if ValidProposal(e, ProposalOf(b)) {
      assert (h, e.local) in e.voted <==> h in e.rounds;
      assert h in e.rounds ==> RoundOk(e, h, e.rounds[h]);
      RoundsOkPut(e, e', h, e'.rounds[h]);
    }
  }

  /** A block for a height already voted on only replaces the stored block. */
  lemma HandleKnownHeight(genesis: Hash, e: Engine, b: Block)
    requires Safe(genesis, e) && b.header.height in e.rounds
    ensures HandleBlock(e, b).result.Err?
    ensures HandleBlock(e, b).engine ==
            if ValidProposal(e, ProposalOf(b))
            then e.(rounds := e.rounds[b.header.height :=
                      e.rounds[b.header.height].(proposal := Some(ProposalOf(b)), block := Some(b))])
            else e
  {
    assert e.height < b.header.height ==> (b.header.height, e.local) in e.voted;
  }

  lemma HandleSameBlock(genesis: Hash, e: Engine, b: Block)
    requires Safe(genesis, e) && b.header.height in e.rounds && e.rounds[b.header.height].block == Some(b)
    ensures HandleBlock(e, b).engine == e
  {
    var h := b.header.height;
    HandleKnownHeight(genesis, e, b);
    assert RoundOk(e, h, e.rounds[h]);
    assert e.rounds[h := e.rounds[h]] == e.rounds;
  }

  lemma HandleVoteSafe(genesis: Hash, e: Engine, v: Vote)
    requires Safe(genesis, e)
    ensures var e' := HandleVote(e, v).engine;
            Safe(genesis, e') && e'.height == e.height && e'.finalized == e.finalized && e'.local == e.local
  {
    var e' := HandleVote(e, v).engine;
    if ValidVote(e, v) {
      assert RoundOk(e, v.height, e.rounds[v.height]);
      RoundsOkPut(e, e', v.height, e'.rounds[v.height]);
    }
  }

  /** Exactly which votes are accepted: those for a height still open, of a member of the
      set, for the block held there. Such a vote becomes the voter's, and nothing else
      changes; any other changes nothing. */
  lemma HandleVoteExactly(genesis: Hash, e: Engine, v: Vote)
    requires Safe(genesis, e)
    ensures var r := HandleVote(e, v);
            && (r.result.Ok? <==>
                  && e.height < v.height && v.voter in e.validators && v.height in e.rounds
                  && e.rounds[v.height].block.Some?
                  && HeaderHash(e.rounds[v.height].block.value.header) == v.blockHash)
            && (r.result.Err? ==> r == Reply(e, Err(InvalidVote)))
            && (r.result.Ok? ==>
                  var round := e.rounds[v.height];
                  r.engine == e.(rounds := e.rounds[v.height := round.(votes := round.votes[v.voter := v])]))
  {
    if v.height in e.rounds { assert RoundOk(e, v.height, e.rounds[v.height]); }
  }

  /** Exactly what a block does: one not by its height's proposer, or for a height already
      passed, is refused and changes nothing; the first for a height is stored and voted
      for; a later one replaces block and proposal and gets no vote. */
  lemma HandleBlockExactly(genesis: Hash, e: Engine, b: Block)
    requires Safe(genesis, e)
    ensures var r, h, hash := HandleBlock(e, b), b.header.height, HeaderHash(b.header);
            var proposal := Some(Proposal(hash, h, 0, b.header.proposer));
            if Proposer(e.validators, h, 0) != Some(b.header.proposer) || h <= e.height
            then r == Reply(e, Err(InvalidProposal))
            else if h in e.rounds then
              r == Reply(e.(rounds := e.rounds[h := e.rounds[h].(proposal := proposal, block := Some(b))]),
                         Err(InvalidVote))
            else
              var vote := Vote(hash, h, 0, e.local);
              r == Reply(e.(rounds := e.rounds[h := RoundState(proposal, Some(b), map[e.local := vote], false)],
                            voted := e.voted + {(h, e.local)}),
                         Ok(vote))
  {
    var h := b.header.height;
    assert e.height < h ==> ((h, e.local) in e.voted <==> h in e.rounds);
  }

  lemma RecordOwnBlockSafe(genesis: Hash, e: Engine, h: nat, b: Block)
    requires Safe(genesis, e) && e.height < h
    requires b.header.height == h && b.header.proposer == e.local
    ensures Safe(genesis, RecordOwnBlock(e, h, b))
  {
    var e' := RecordOwnBlock(e, h, b);
    assert h in e.rounds ==> RoundOk(e, h, e.rounds[h]);
    RoundsOkPut(e, e', h, e'.rounds[h]);
  }

  /** Safety does not depend on the ledger or the validator set. */
  ghost predicate SameChain(e: Engine, e': Engine) {
    && e'.local == e.local && e'.height == e.height && e'.previousHash == e.previousHash
    && e'.rounds == e.rounds && e'.finalized == e.finalized && e'.voted == e.voted
  }

  lemma SameChainSafe(genesis: Hash, e: Engine, e': Engine)
    requires Safe(genesis, e) && SameChain(e, e')
    ensures Safe(genesis, e')
  {
    forall h | h in e'.rounds ensures RoundOk(e', h, e'.rounds[h]) { assert RoundOk(e, h, e.rounds[h]); }
  }

  /** A built block names this node, extends the tip and commits to its transactions
      and to the ledger they lead to; building touches neither chain nor rounds. */
  lemma BuildBlockEffect(env: Env, e: Engine, h: nat, txs: seq<Transaction>, ts: nat)
    ensures var r := BuildBlock(env, e, h, txs, ts);
            && SameChain(e, r.engine)
            && (r.result.Ok? ==>
                  var b := r.result.value;
                  && b.header.height == h && b.header.proposer == e.local && b.header.previousHash == e.previousHash
                  && b.header.timestamp == ts
                  && b.transactions == txs
                  && b.header.stateRoot == StateHash(r.engine.ledger)
                  && b.header.txRoot == TransactionsHash(b.transactions))
  {}

  /** Proposing keeps the engine safe exactly when it is above the current height
      or is refused. */
  lemma ProposeSafeExactly(genesis: Hash, env: Env, e: Engine, h: nat, txs: seq<Transaction>, ts: nat)
    requires Safe(genesis, e)
    ensures var r := Propose(env, e, h, txs, ts);
            && (Safe(genesis, r.engine) <==> e.height < h || r.result.Err?)
            && r.engine.height == e.height && r.engine.finalized == e.finalized && r.engine.local == e.local
  {
    var r := Propose(env, e, h, txs, ts);
    var built := BuildBlock(env, e, h, txs, ts);
    BuildBlockEffect(env, e, h, txs, ts);
    SameChainSafe(genesis, e, built.engine);
    if r.result.Ok? {
      assert r.engine == RecordOwnBlock(built.engine, h, built.result.value);
      if e.height < h {
        RecordOwnBlockSafe(genesis, built.engine, h, built.result.value);
      } else {
        assert (h, e.local) in r.engine.voted;
      }
    }
  }

  // ------------------------------------------------------------ finalization --

  predicate Ready(e: Engine, h: nat) {
    HasQuorum(e, h) && e.rounds[h].block.Some?
  }

  /** Height `h` is finalized on the way from `e` to height `n`. */
  predicate Between(e: Engine, n: nat, h: nat) {
    e.height < h <= n
  }

  ghost predicate RoundsAdvanced(e: Engine, e': Engine, n: nat) {
    && e'.rounds.Keys == e.rounds.Keys
    && forall h :: h in e.rounds ==>
         e'.rounds[h] == (if Between(e, n, h) then e.rounds[h].(finalized := true) else e.rounds[h])
  }

  ghost predicate ChainAdvanced(e: Engine, e': Engine, n: nat) {
    && (forall h :: h in e'.finalized <==> h in e.finalized || Between(e, n, h))
    && (forall h :: h in e'.finalized ==>
          if Between(e, n, h) then h in e.rounds && e.rounds[h].block == Some(e'.finalized[h])
          else e'.finalized[h] == e.finalized[h])
  }

  /** `e'` is `e` once every height up to `n` has been finalized, and nothing else:
      the relation fixes every field. */
  ghost predicate Advanced(e: Engine, e': Engine, n: nat) {
    && e.height <= n && e'.height == n
    && e'.local == e.local && e'.validators == e.validators && e'.ledger == e.ledger
    && RoundsAdvanced(e, e', n) && ChainAdvanced(e, e', n)
    && (forall k :: k in e'.voted <==> k in e.voted && !Between(e, n, k.0))
    && e'.previousHash == (if n == e.height then e.previousHash
                           else if n in e'.finalized then BlockHash(e'.finalized[n]) else e.previousHash)
  }

  lemma AdvancedUnique(e: Engine, e1: Engine, e2: Engine, n: nat)
    requires Advanced(e, e1, n) && Advanced(e, e2, n)
    ensures e1 == e2
  {
    assert e1.rounds == e2.rounds;
    assert e1.finalized.Keys == e2.finalized.Keys;
    assert e1.finalized == e2.finalized;
    assert e1.voted == e2.voted;
  }

  lemma AdvancedNowhere(e: Engine)
    ensures Advanced(e, e, e.height)
  {}

  lemma TryFinalizeAdvances(e: Engine, h: nat)
    requires h == e.height + 1 && HasQuorum(e, h) && !e.rounds[h].finalized && e.rounds[h].block.Some?
    ensures Advanced(e, TryFinalize(e, h).0, h) && TryFinalize(e, h).1 == e.rounds[h].block
  {
    var e' := TryFinalize(e, h).0;
    AdvancesByOne(e, e', h, e.rounds[h].block.value);
  }

  lemma AdvancesByOne(e: Engine, e': Engine, h: nat, b: Block)
    requires h == e.height + 1 && h in e.rounds && e.rounds[h].block == Some(b)
    requires e'.rounds == e.rounds[h := e.rounds[h].(finalized := true)]
    requires e'.finalized == e.finalized[h := b]
    ensures RoundsAdvanced(e, e', h) && ChainAdvanced(e, e', h)
  {}

  lemma FinalizeIdle(e: Engine, hash: Hash)
    requires !NextHasHash(e, hash) || !HasQuorum(e, e.height + 1)
    ensures Finalize(e, hash) == (e, None)
  {}

  /** A different height has a different hash. */
  lemma HashTellsHeight(e: Engine, c: nat)
    requires RoundsOk(e) && c in e.rounds
    ensures e.rounds[c].proposal.Some? && e.rounds[c].block.Some? && (e.height < c ==> !e.rounds[c].finalized)
    ensures NextHasHash(e, e.rounds[c].proposal.value.blockHash) <==> c == e.height + 1
  {
    var n := e.height + 1;
    assert RoundOk(e, c, e.rounds[c]);
    assert n in e.rounds ==> RoundOk(e, n, e.rounds[n]);
  }

  lemma FinalizeNext(e: Engine, hash: Hash)
    requires NextHasHash(e, hash) && HasQuorum(e, e.height + 1)
    requires !e.rounds[e.height + 1].finalized && e.rounds[e.height + 1].block.Some?
    ensures Advanced(e, Finalize(e, hash).0, e.height + 1) && Finalize(e, hash).1 == e.rounds[e.height + 1].block
  {
    FinalizeFires(e, hash);
    TryFinalizeAdvances(e, e.height + 1);
  }

  /** Finalizing with the hash of round `c` works exactly on the next height with a
      quorum. */
  lemma FinalizeEffect(genesis: Hash, e: Engine, c: nat)
    requires Safe(genesis, e) && c in e.rounds && e.height < c
    ensures e.rounds[c].proposal.Some?
    ensures var r := Finalize(e, e.rounds[c].proposal.value.blockHash);
            if c == e.height + 1 && HasQuorum(e, c) then Advanced(e, r.0, c) && r.1 == e.rounds[c].block
            else r == (e, None)
  {
    HashTellsHeight(e, c);
    if c == e.height + 1 && HasQuorum(e, c) {
      FinalizeNext(e, e.rounds[c].proposal.value.blockHash);
    } else {
      FinalizeIdle(e, e.rounds[c].proposal.value.blockHash);
    }
  }

  lemma AdvancedSafe(genesis: Hash, e: Engine, e': Engine, n: nat)
    requires Safe(genesis, e) && Advanced(e, e', n)
    ensures Safe(genesis, e') && Extends(e, e')
  {
    forall h | h in e'.rounds ensures RoundOk(e', h, e'.rounds[h]) { assert RoundOk(e, h, e.rounds[h]); }
    forall h | h in e'.finalized ensures h in e'.rounds && e'.rounds[h].block == Some(e'.finalized[h]) {
      assert h in e.finalized || Between(e, n, h);
    }
  }

  lemma AdvancedCompose(e: Engine, e1: Engine, e2: Engine, m: nat, n: nat)
    requires Advanced(e, e1, m) && Advanced(e1, e2, n)
    requires n != m ==> n in e2.finalized
    requires m in e1.finalized || m == e.height
    ensures Advanced(e, e2, n)
  {
    assert forall h :: Between(e, n, h) <==> Between(e, m, h) || Between(e1, n, h);
    RoundsCompose(e, e1, e2, m, n);
    ChainCompose(e, e1, e2, m, n);
  }

  lemma RoundsCompose(e: Engine, e1: Engine, e2: Engine, m: nat, n: nat)
    requires e1.height == m && e.height <= m <= n && RoundsAdvanced(e, e1, m) && RoundsAdvanced(e1, e2, n)
    ensures RoundsAdvanced(e, e2, n)
  {}

  lemma ChainCompose(e: Engine, e1: Engine, e2: Engine, m: nat, n: nat)
    requires e1.height == m && e.height <= m <= n && RoundsAdvanced(e, e1, m)
    requires ChainAdvanced(e, e1, m) && ChainAdvanced(e1, e2, n)
    ensures ChainAdvanced(e, e2, n)
  {
    forall h ensures h in e2.finalized <==> h in e.finalized || Between(e, n, h) {
      assert h in e1.finalized <==> h in e.finalized || Between(e, m, h);
      assert h in e2.finalized <==> h in e1.finalized || Between(e1, n, h);
    }
  }

  lemma AdvancedKeepsReady(e: Engine, e': Engine, n: nat, h: nat)
    requires Advanced(e, e', n)
    ensures HasQuorum(e', h) <==> HasQuorum(e, h)
    ensures Ready(e', h) <==> Ready(e, h)
  {}

  /** No candidate is the next height: the rest of the pass changes nothing. */
  lemma {:induction false} PassIsStuck(genesis: Hash, e: Engine, cs: seq<nat>, last: Option<Block>)
    requires Safe(genesis, e)
    requires forall i :: 0 <= i < |cs| ==> cs[i] in e.rounds && e.height < cs[i]
    requires forall i :: 0 <= i < |cs| ==> !(cs[i] == e.height + 1 && HasQuorum(e, cs[i]))
    ensures FinalizeEach(e, cs, last) == (e, last)
    decreases |cs|
  {
    if cs != [] {
      assert RoundOk(e, cs[0], e.rounds[cs[0]]);
      FinalizeEffect(genesis, e, cs[0]);
      PassIsStuck(genesis, e, cs[1..], last);
    }
  }

  ghost predicate Candidates(e: Engine, cs: seq<nat>) {
    && (forall i, j :: 0 <= i < j < |cs| ==> cs[i] < cs[j])
    && (forall h :: h in cs <==> h in e.rounds && e.height < h)
  }

  lemma CandidatesHead(e: Engine, cs: seq<nat>)
    requires Candidates(e, cs)
    ensures e.height + 1 in e.rounds <==> cs != [] && cs[0] == e.height + 1
    ensures forall i :: 0 <= i < |cs| ==> cs[i] in e.rounds && e.height < cs[i]
  {
    forall i | 0 <= i < |cs| ensures cs[i] in e.rounds && e.height < cs[i] { assert cs[i] in cs; }
    if e.height + 1 in e.rounds {
      assert e.height + 1 in cs;
      var i :| 0 <= i < |cs| && cs[i] == e.height + 1;
      assert cs[0] in cs;
    }
  }

  lemma CandidatesTail(e: Engine, e': Engine, cs: seq<nat>)
    requires Candidates(e, cs) && cs != [] && cs[0] == e.height + 1
    requires e'.height == e.height + 1 && e'.rounds.Keys == e.rounds.Keys
    ensures Candidates(e', cs[1..])
  {
    assert cs == [cs[0]] + cs[1..];
    forall h ensures h in cs[1..] <==> h in e'.rounds && e'.height < h {
      assert h in cs <==> h in e.rounds && e.height < h;
      if h in cs[1..] { var i :| 0 <= i < |cs| - 1 && cs[i + 1] == h; }
    }
  }

  /** A run of heights that are ready one after the other, and not one more. */
  ghost predicate MaximalRun(e: Engine, n: nat) {
    && e.height <= n
    && (forall h :: e.height < h <= n ==> Ready(e, h))
    && !Ready(e, n + 1)
  }

  /** What one pass must deliver: the maximal run finalized, and its last block. */
  ghost predicate RunDone(e: Engine, e': Engine, b: Option<Block>, last: Option<Block>) {
    && MaximalRun(e, e'.height) && Advanced(e, e', e'.height)
    && (if e'.height == e.height then b == last
        else e'.height in e'.finalized && b == Some(e'.finalized[e'.height]))
  }

  lemma RunGrows(e: Engine, e1: Engine, n: nat)
    requires Ready(e, e.height + 1) && e1.height == e.height + 1 && MaximalRun(e1, n)
    requires forall h :: Ready(e1, h) <==> Ready(e, h)
    ensures MaximalRun(e, n)
  {
    forall h | e.height < h <= n ensures Ready(e, h) {
      assert h != e.height + 1 ==> Ready(e1, h);
    }
  }

  lemma RunContinues(e: Engine, e1: Engine, e2: Engine, b: Option<Block>, last: Option<Block>)
    requires Ready(e, e.height + 1) && Advanced(e, e1, e.height + 1)
    requires RunDone(e1, e2, b, e.rounds[e.height + 1].block)
    ensures RunDone(e, e2, b, last)
  {
    var m := e.height + 1;
    forall h ensures Ready(e1, h) <==> Ready(e, h) { AdvancedKeepsReady(e, e1, m, h); }
    RunGrows(e, e1, e2.height);
    assert Between(e, m, m);
    assert m in e1.finalized && e.rounds[m].block == Some(e1.finalized[m]);
    AdvancedCompose(e, e1, e2, m, e2.height);
    if e2.height == m { AdvancedKeepsTip(e1, e2); }
  }

  lemma AdvancedKeepsTip(e: Engine, e': Engine)
    requires Advanced(e, e', e.height) && e.height in e.finalized
    ensures e.height in e'.finalized && e'.finalized[e.height] == e.finalized[e.height]
  {}

  /** One ascending pass over the candidates finalizes the maximal run. */
  lemma {:induction false} PassFinalizesRun(genesis: Hash, e: Engine, cs: seq<nat>, last: Option<Block>)
    requires Safe(genesis, e) && Candidates(e, cs)
    ensures RunDone(e, FinalizeEach(e, cs, last).0, FinalizeEach(e, cs, last).1, last)
    decreases |cs|
  {
    CandidatesHead(e, cs);
    var next := e.height + 1;
    if HasQuorum(e, next) {
      assert RoundOk(e, next, e.rounds[next]);
      FinalizeEffect(genesis, e, next);
      var e1 := Finalize(e, e.rounds[next].proposal.value.blockHash).0;
      AdvancedSafe(genesis, e, e1, next);
      CandidatesTail(e, e1, cs);
      PassFinalizesRun(genesis, e1, cs[1..], e.rounds[next].block);
      var r := FinalizeEach(e1, cs[1..], e.rounds[next].block);
      RunContinues(e, e1, r.0, r.1, last);
      assert FinalizeEach(e, cs, last) == r;
    } else {
      PassIsStuck(genesis, e, cs, last);
      AdvancedNowhere(e);
    }
  }

  /** `finalize_pending` reaches its fixpoint in one pass: it finalizes exactly the
      maximal run of ready heights above the current one, returns the block of the
      highest (or nothing), and leaves no ready next height. */
  lemma FinalizePendingReachesFixpoint(genesis: Hash, e: Engine)
    requires Safe(genesis, e)
    ensures RunDone(e, FinalizePending(e).0, FinalizePending(e).1, None)
    ensures !Ready(FinalizePending(e).0, FinalizePending(e).0.height + 1)
    ensures Safe(genesis, FinalizePending(e).0) && Extends(e, FinalizePending(e).0)
  {
    PendingAreCandidates(genesis, e);
    PassFinalizesRun(genesis, e, PendingHeights(e), None);
    RunLeavesNothingReady(e, FinalizePending(e).0);
    AdvancedSafe(genesis, e, FinalizePending(e).0, FinalizePending(e).0.height);
  }

  lemma RunLeavesNothingReady(e: Engine, e': Engine)
    requires MaximalRun(e, e'.height) && Advanced(e, e', e'.height)
    ensures !Ready(e', e'.height + 1)
  {
    AdvancedKeepsReady(e, e', e'.height, e'.height + 1);
  }

  lemma PendingAreCandidates(genesis: Hash, e: Engine)
    requires Safe(genesis, e)
    ensures Candidates(e, PendingHeights(e))
  {
    var pending := set h | h in e.rounds && e.height < h && e.rounds[h].proposal.Some?;
    SortedHeightsFacts(pending);
    forall h | h in e.rounds ensures e.rounds[h].proposal.Some? { assert RoundOk(e, h, e.rounds[h]); }
  }

  lemma FinalizeAdvancesOrNot(genesis: Hash, e: Engine, hash: Hash)
    requires Safe(genesis, e)
    ensures Finalize(e, hash).0 == e || Advanced(e, Finalize(e, hash).0, e.height + 1)
  {
    var n := e.height + 1;
    if n in e.rounds { FinalizeEffect(genesis, e, n); }
  }

  /** `finalize` itself moves the height by at most one. */
  lemma FinalizeSafe(genesis: Hash, e: Engine, hash: Hash)
    requires Safe(genesis, e)
    ensures Safe(genesis, Finalize(e, hash).0) && Extends(e, Finalize(e, hash).0)
    ensures e.height <= Finalize(e, hash).0.height <= e.height + 1
  {
    FinalizeAdvancesOrNot(genesis, e, hash);
    if Finalize(e, hash).0 != e { AdvancedSafe(genesis, e, Finalize(e, hash).0, e.height + 1); }
  }

  // -------------------------------------------------------------- whole runs --

  datatype Call =
    | CallPropose(height: nat, txs: seq<Transaction>, timestamp: nat)
    | CallHandleBlock(block: Block)
    | CallHandleVote(vote: Vote)
    | CallFinalize(hash: Hash)
    | CallFinalizePending

  function Perform(env: Env, e: Engine, c: Call): Engine {
    match c
    case CallPropose(h, txs, ts) => Propose(env, e, h, txs, ts).engine
    case CallHandleBlock(b) => HandleBlock(e, b).engine
    case CallHandleVote(v) => HandleVote(e, v).engine
    case CallFinalize(hash) => Finalize(e, hash).0
    case CallFinalizePending => FinalizePending(e).0
  }

  function PerformAll(env: Env, e: Engine, calls: seq<Call>): Engine
    decreases |calls|
  {
    if calls == [] then e else PerformAll(env, Perform(env, e, calls[0]), calls[1..])
  }

  /** Every proposal made along the way is above the height of the moment. */
  predicate ProposesAbove(env: Env, e: Engine, calls: seq<Call>)
    decreases |calls|
  {
    calls == [] ||
    ((calls[0].CallPropose? ==> e.height < calls[0].height)
     && ProposesAbove(env, Perform(env, e, calls[0]), calls[1..]))
  }

  lemma PerformSafe(genesis: Hash, env: Env, e: Engine, c: Call)
    requires Safe(genesis, e) && (c.CallPropose? ==> e.height < c.height)
    ensures Safe(genesis, Perform(env, e, c)) && Extends(e, Perform(env, e, c))
  {
    match c
    case CallPropose(h, txs, ts) => ProposeSafeExactly(genesis, env, e, h, txs, ts);
    case CallHandleBlock(b) => HandleBlockSafe(genesis, e, b);
    case CallHandleVote(v) => HandleVoteSafe(genesis, e, v);
    case CallFinalize(hash) => FinalizeSafe(genesis, e, hash);
    case CallFinalizePending => FinalizePendingReachesFixpoint(genesis, e);
  }

  /** Over every sequence of calls the engine stays safe and only extends what it
      finalized. */
  lemma {:induction false} EngineStaysSafe(genesis: Hash, env: Env, e: Engine, calls: seq<Call>)
    requires Safe(genesis, e) && ProposesAbove(env, e, calls)
    ensures Safe(genesis, PerformAll(env, e, calls)) && Extends(e, PerformAll(env, e, calls))
    decreases |calls|
  {
    if calls != [] {
      PerformSafe(genesis, env, e, calls[0]);
      EngineStaysSafe(genesis, env, Perform(env, e, calls[0]), calls[1..]);
    }
  }
}
