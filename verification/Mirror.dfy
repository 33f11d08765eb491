/** The simple transfer executor and the RPC account mirror, compared with the
    block executor on empty-payload transactions. */
module Mirror {
  import opened Primitives
  import opened LedgerModel
  import opened Conservation
  import opened Replay

  predicate Succeeds(o: Outcome) {
    o.Completed? && o.success
  }

  ghost predicate SameAccounts(m: map<Address, Account>, n: map<Address, Account>) {
    forall a :: AccountOf(m, a) == AccountOf(n, a)
  }

  // ------------------------------------------------------- native executor --

  /** A no-op transfer from an account that does not exist: only the block
      executor, which defaults missing accounts, accepts it. */
  predicate FromNowhere(env: Env, l: Ledger, tx: Transaction) {
    Verified(env, tx) && tx.sender !in l.accounts && tx.nonce == 0 && tx.fee == 0 && tx.amount == 0
  }

  /** Both executors accept the same empty-payload transactions, except exactly
      the no-op transfers from missing accounts. */
  lemma ExecutorsAcceptAlike(env: Env, l: Ledger, tx: Transaction)
    requires tx.payload == []
    ensures (Succeeds(Execute(env, l, tx).outcome) <==> Succeeds(ExecuteNative(env, l, tx).outcome))
       <==> !FromNowhere(env, l, tx)
  {}

  /** When both accept, every address ends with the same balance and nonce, and
      the staking tables with the same contents. */
  lemma ExecutorsAgree(env: Env, l: Ledger, tx: Transaction)
    requires tx.payload == []
    requires Succeeds(Execute(env, l, tx).outcome) && Succeeds(ExecuteNative(env, l, tx).outcome)
    ensures SameAccounts(Execute(env, l, tx).ledger.accounts, ExecuteNative(env, l, tx).ledger.accounts)
    ensures Execute(env, l, tx).ledger.validators == ExecuteNative(env, l, tx).ledger.validators
    ensures Execute(env, l, tx).ledger.delegations == ExecuteNative(env, l, tx).ledger.delegations
  {}

  // ------------------------------------------------------------ RPC mirror --

  predicate MirrorActs(m: map<Address, Account>, tx: Transaction) {
    && AccountOf(m, tx.sender).nonce == tx.nonce
    && Cap128(tx.amount + tx.fee) <= AccountOf(m, tx.sender).balance
  }

  function MirrorTx(m: map<Address, Account>, tx: Transaction): map<Address, Account> {
    var sender := AccountOf(m, tx.sender);
    var total := Cap128(tx.amount + tx.fee);
    if sender.nonce != tx.nonce then m
    else if sender.balance < total then m
    else
      var nonce := if sender.nonce < U64_MAX then sender.nonce + 1 else U64_MAX;
      var m1 := m[tx.sender := Account(sender.balance - total, nonce)];
      var recipient := AccountOf(m1, tx.recipient);
      m1[tx.recipient := recipient.(balance := Cap128(recipient.balance + tx.amount))]
  }

  function MirrorAll(m: map<Address, Account>, txs: seq<Transaction>): map<Address, Account>
    decreases |txs|
  {
    if txs == [] then m else MirrorAll(MirrorTx(m, txs[0]), txs[1..])
  }

  lemma {:induction false} MirrorAllAppend(m: map<Address, Account>, txs: seq<Transaction>, tx: Transaction)
    ensures MirrorAll(m, txs + [tx]) == MirrorTx(MirrorAll(m, txs), tx)
    decreases |txs|
  {
    if txs == [] {
      assert txs + [tx] == [tx];
    } else {
      MirrorAllAppend(MirrorTx(m, txs[0]), txs[1..], tx);
      assert (txs + [tx])[0] == txs[0] && (txs + [tx])[1..] == txs[1..] + [tx];
    }
  }

  class RpcAccounts {
    var accounts: map<Address, Account>

    constructor (genesis: map<Address, Account>)
      ensures accounts == genesis
    {
      accounts := genesis;
    }

    /** `ingest_block`: replay a block's transactions into the RPC accounts. */
    method IngestBlock(txs: seq<Transaction>)
      modifies this
      ensures accounts == MirrorAll(old(accounts), txs)
    {
      var i := 0;
      while i < |txs|
        invariant 0 <= i <= |txs|
        invariant accounts == MirrorAll(old(accounts), txs[..i])
      {
        var tx := txs[i];
        MirrorAllAppend(old(accounts), txs[..i], tx);
        assert txs[..i + 1] == txs[..i] + [tx];
        var sender := AccountOf(accounts, tx.sender);
        var total := Cap128(tx.amount + tx.fee);
        i := i + 1;
        if sender.nonce != tx.nonce { continue; }
        if sender.balance < total { continue; }
        var nonce := if sender.nonce < U64_MAX then sender.nonce + 1 else U64_MAX;
        accounts := accounts[tx.sender := Account(sender.balance - total, nonce)];
        var recipient := AccountOf(accounts, tx.recipient);
        accounts := accounts[tx.recipient := recipient.(balance := Cap128(recipient.balance + tx.amount))];
      }
      assert txs[..|txs|] == txs;
    }
  }

  /** Applying the transfer changes no balance. */
  predicate MovesNothing(tx: Transaction) {
    || (tx.fee == 0 && (tx.amount == 0 || tx.sender == tx.recipient))
    || (tx.sender == tx.recipient && tx.amount == U128_MAX)
  }

  /** The mirror applies the transfer exactly when consensus charges it, and the
      sender can pay amount and fee. At the last nonce, where the mirror's counter
      saturates and the executor's wraps, nothing may happen at all. */
  predicate Tracks(env: Env, accounts: map<Address, Account>, tx: Transaction) {
    if AccountOf(accounts, tx.sender).nonce == U64_MAX
    then !Charges(env, accounts, tx) && (MirrorActs(accounts, tx) ==> MovesNothing(tx))
    else if MirrorActs(accounts, tx)
    then Charges(env, accounts, tx) && tx.amount + tx.fee <= AccountOf(accounts, tx.sender).balance
    else !Charges(env, accounts, tx)
  }

  lemma ExecuteTransferEffect(env: Env, l: Ledger, tx: Transaction)
    requires Consistent(l) && Supply(l) <= U128_MAX && tx.payload == []
    requires Charges(env, l.accounts, tx)
    ensures var l' := Execute(env, l, tx).ledger;
            var s := AccountOf(l.accounts, tx.sender);
            var moved := if tx.amount + tx.fee <= s.balance then tx.amount else 0;
            forall a :: AccountOf(l'.accounts, a).balance ==
                        AccountOf(l.accounts, a).balance
                        - (if a == tx.sender then tx.fee + moved else 0)
                        + (if a == tx.recipient then moved else 0)
  {
    TakeFeeEffect(l, tx);
    assert Execute(env, l, tx) == Transfer(TakeFee(l, tx), tx);
    TransferMoves(TakeFee(l, tx), tx);
  }

  lemma TransferMoves(l: Ledger, tx: Transaction)
    requires Consistent(l) && Supply(l) <= U128_MAX
    ensures var l' := Transfer(l, tx).ledger;
            var moved := if tx.amount <= AccountOf(l.accounts, tx.sender).balance then tx.amount else 0;
            forall a :: AccountOf(l'.accounts, a).balance ==
                        AccountOf(l.accounts, a).balance
                        - (if a == tx.sender then moved else 0)
                        + (if a == tx.recipient then moved else 0)
  {
    TransferFits(l, tx);
  }

  lemma MirrorTransferEffect(m: map<Address, Account>, tx: Transaction)
    requires MirrorActs(m, tx) && AccountOf(m, tx.sender).nonce < U64_MAX
    requires tx.amount + tx.fee <= U128_MAX
    requires tx.sender != tx.recipient ==> AccountOf(m, tx.recipient).balance + tx.amount <= U128_MAX
    ensures forall a :: AccountOf(MirrorTx(m, tx), a) ==
                        Account(AccountOf(m, a).balance
                                - (if a == tx.sender then tx.fee + tx.amount else 0)
                                + (if a == tx.recipient then tx.amount else 0),
                                AccountOf(m, a).nonce + (if a == tx.sender then 1 else 0))
  {}

  /** Acting on one side only leaves the sender's nonces one apart. */
  lemma MirrorActsAlone(env: Env, l: Ledger, m: map<Address, Account>, tx: Transaction)
    requires SameAccounts(m, l.accounts) && NonceOf(l, tx.sender) < U64_MAX
    requires MirrorActs(l.accounts, tx) <==> !Charges(env, l.accounts, tx)
    ensures !SameAccounts(MirrorTx(m, tx), Execute(env, l, tx).ledger.accounts)
  {
    ExecuteNonce(env, l, tx, tx.sender);
    assert AccountOf(MirrorTx(m, tx), tx.sender).nonce != NonceOf(Execute(env, l, tx).ledger, tx.sender);
  }

  lemma BothActFunded(env: Env, l: Ledger, m: map<Address, Account>, tx: Transaction)
    requires Consistent(l) && Supply(l) <= U128_MAX && tx.payload == []
    requires SameAccounts(m, l.accounts) && NonceOf(l, tx.sender) < U64_MAX
    requires MirrorActs(l.accounts, tx) && Charges(env, l.accounts, tx)
    requires tx.amount + tx.fee <= AccountOf(l.accounts, tx.sender).balance
    ensures SameAccounts(MirrorTx(m, tx), Execute(env, l, tx).ledger.accounts)
  {
    var l' := Execute(env, l, tx).ledger;
    if tx.sender != tx.recipient { TwoBalancesWithinSupply(l, tx.sender, tx.recipient); }
    MirrorTransferEffect(m, tx);
    ExecuteTransferEffect(env, l, tx);
    forall a ensures AccountOf(MirrorTx(m, tx), a) == AccountOf(l'.accounts, a) {
      ExecuteNonce(env, l, tx, a);
    }
  }

  /** The corner the saturating total opens: the sender holds the whole u128
      range, and the mirror moves money consensus refused to move. */
  lemma BothActUnfunded(env: Env, l: Ledger, m: map<Address, Account>, tx: Transaction)
    requires Consistent(l) && Supply(l) <= U128_MAX && tx.payload == []
    requires SameAccounts(m, l.accounts) && NonceOf(l, tx.sender) < U64_MAX
    requires MirrorActs(l.accounts, tx) && Charges(env, l.accounts, tx)
    requires tx.amount + tx.fee > AccountOf(l.accounts, tx.sender).balance
    ensures !SameAccounts(MirrorTx(m, tx), Execute(env, l, tx).ledger.accounts)
  {
    var l' := Execute(env, l, tx).ledger;
    var m' := MirrorTx(m, tx);
    ExecuteTransferEffect(env, l, tx);
    assert AccountOf(l.accounts, tx.sender).balance == U128_MAX;
    assert AccountOf(l'.accounts, tx.sender).balance == U128_MAX - tx.fee < tx.amount;
    if tx.sender != tx.recipient {
      TwoBalancesWithinSupply(l, tx.sender, tx.recipient);
      assert AccountOf(m', tx.recipient).balance == tx.amount > 0 == AccountOf(l'.accounts, tx.recipient).balance;
    } else {
      assert AccountOf(m', tx.sender).balance == tx.amount;
    }
  }

  /** At the last nonce the mirror's counter stays where it is. */
  lemma MirrorAtLastNonce(m: map<Address, Account>, tx: Transaction)
    requires AccountOf(m, tx.sender).nonce == U64_MAX && MirrorActs(m, tx)
    requires tx.sender != tx.recipient ==>
               AccountOf(m, tx.sender).balance + AccountOf(m, tx.recipient).balance <= U128_MAX
    ensures SameAccounts(MirrorTx(m, tx), m) <==> MovesNothing(tx)
    ensures AccountOf(MirrorTx(m, tx), tx.sender).nonce == U64_MAX
  {
    var m' := MirrorTx(m, tx);
    if MovesNothing(tx) {
      forall a ensures AccountOf(m', a) == AccountOf(m, a) {}
    } else {
      assert AccountOf(m', tx.sender).balance != AccountOf(m, tx.sender).balance;
    }
  }

  lemma LastNonceStep(env: Env, l: Ledger, m: map<Address, Account>, tx: Transaction)
    requires Supply(l) <= U128_MAX && SameAccounts(m, l.accounts) && NonceOf(l, tx.sender) == U64_MAX
    ensures SameAccounts(MirrorTx(m, tx), Execute(env, l, tx).ledger.accounts) <==> Tracks(env, l.accounts, tx)
  {
    ExecuteNonce(env, l, tx, tx.sender);
    if tx.sender != tx.recipient { TwoBalancesWithinSupply(l, tx.sender, tx.recipient); }
    if MirrorActs(m, tx) { MirrorAtLastNonce(m, tx); } else { assert MirrorTx(m, tx) == m; }
    if Charges(env, l.accounts, tx) {
      assert AccountOf(MirrorTx(m, tx), tx.sender).nonce != NonceOf(Execute(env, l, tx).ledger, tx.sender);
    } else {
      SameThrough(MirrorTx(m, tx), m, l.accounts);
    }
  }

  lemma SameThrough(x: map<Address, Account>, m: map<Address, Account>, n: map<Address, Account>)
    requires SameAccounts(m, n)
    ensures SameAccounts(x, n) <==> SameAccounts(x, m)
  {
    forall a ensures AccountOf(x, a) == AccountOf(n, a) <==> AccountOf(x, a) == AccountOf(m, a) {
      assert AccountOf(m, a) == AccountOf(n, a);
    }
  }

  /** One empty-payload transaction keeps the mirror equal to the consensus
      accounts exactly when it `Tracks`. */
  lemma MirrorStep(env: Env, l: Ledger, m: map<Address, Account>, tx: Transaction)
    requires Consistent(l) && Supply(l) <= U128_MAX && tx.payload == [] && SameAccounts(m, l.accounts)
    ensures SameAccounts(MirrorTx(m, tx), Execute(env, l, tx).ledger.accounts) <==> Tracks(env, l.accounts, tx)
  {
    if NonceOf(l, tx.sender) == U64_MAX {
      LastNonceStep(env, l, m, tx);
    } else if MirrorActs(l.accounts, tx) != Charges(env, l.accounts, tx) {
      MirrorActsAlone(env, l, m, tx);
    } else if Charges(env, l.accounts, tx) {
      if tx.amount + tx.fee <= AccountOf(l.accounts, tx.sender).balance {
        BothActFunded(env, l, m, tx);
      } else {
        BothActUnfunded(env, l, m, tx);
      }
    } else {
      ExecuteNonce(env, l, tx, tx.sender);
      assert MirrorTx(m, tx) == m;
    }
  }

  ghost predicate SyncedThroughout(env: Env, l: Ledger, m: map<Address, Account>, txs: seq<Transaction>)
    decreases |txs|
  {
    && SameAccounts(m, l.accounts)
    && (txs != [] ==> SyncedThroughout(env, Execute(env, l, txs[0]).ledger, MirrorTx(m, txs[0]), txs[1..]))
  }

  predicate AllTrack(env: Env, l: Ledger, txs: seq<Transaction>)
    decreases |txs|
  {
    txs == [] || (Tracks(env, l.accounts, txs[0]) && AllTrack(env, Execute(env, l, txs[0]).ledger, txs[1..]))
  }

  /** Replaying any list of empty-payload transactions keeps the RPC accounts
      equal to consensus after every transaction exactly when all of them track;
      and then the final accounts agree at every address. */
  lemma {:induction false} MirrorTracksConsensus(env: Env, l: Ledger, m: map<Address, Account>, txs: seq<Transaction>)
    requires Consistent(l) && Supply(l) <= U128_MAX
    requires forall i :: 0 <= i < |txs| ==> txs[i].payload == []
    requires SameAccounts(m, l.accounts)
    ensures SyncedThroughout(env, l, m, txs) <==> AllTrack(env, l, txs)
    ensures AllTrack(env, l, txs) ==> SameAccounts(MirrorAll(m, txs), ExecuteAll(env, l, txs).accounts)
    decreases |txs|
  {
    if txs != [] {
      var tx := txs[0];
      MirrorStep(env, l, m, tx);
      if Tracks(env, l.accounts, tx) {
        var l1 := Execute(env, l, tx).ledger;
        NoOverflowWithinRange(env, l, tx);
        ExecuteConservesExactly(env, l, tx);
        MirrorTracksConsensus(env, l1, MirrorTx(m, tx), txs[1..]);
      }
    }
  }

  /** Stale-nonce repeats always track, and so does every verified, funded one below
      the last nonce. */
  lemma FundedOrStaleTracks(env: Env, accounts: map<Address, Account>, tx: Transaction)
    requires AccountOf(accounts, tx.sender).nonce != tx.nonce ||
             (Verified(env, tx) && tx.amount + tx.fee <= AccountOf(accounts, tx.sender).balance && tx.nonce < U64_MAX)
    ensures Tracks(env, accounts, tx)
  {}
}
