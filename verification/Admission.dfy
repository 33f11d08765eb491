/** Whose signature moves whose money: which transactions the executors admit, what the
    staking operations demand and store, and that nobody loses anything without having
    signed for it. */
module Admission {
  import opened Primitives
  import opened LedgerModel
  import opened Replay

  // -------------------------------------------------------------- signatures --

  /** Both executors refuse a transaction for its signature, changing nothing, exactly
      when its key or signature has the wrong length, the key does not hash to the
      sender, or the signature does not verify. */
  lemma RefusedForSignatureExactly(env: Env, l: Ledger, tx: Transaction)
    ensures Execute(env, l, tx) == Applied(l, Failed(InvalidSignature)) <==>
            || |tx.publicKey| != 32 || |tx.signature| != 64
            || env.addressOf(tx.publicKey) != tx.sender || !env.signed(tx)
    ensures ExecuteNative(env, l, tx) == Applied(l, Failed(InvalidSignature)) <==>
            || |tx.publicKey| != 32 || |tx.signature| != 64
            || env.addressOf(tx.publicKey) != tx.sender || !env.signed(tx)
  {}

  /** Past that, the nonce decides first and then the fee; what passes is charged both,
      whatever happens next. */
  lemma ChargedExactly(env: Env, l: Ledger, tx: Transaction)
    requires |tx.publicKey| == 32 && |tx.signature| == 64 && env.addressOf(tx.publicKey) == tx.sender && env.signed(tx)
    ensures var r, sender := Execute(env, l, tx), AccountOf(l.accounts, tx.sender);
            && (sender.nonce != tx.nonce ==> r == Applied(l, Completed(false, 0, "invalid nonce")))
            && (sender.nonce == tx.nonce && sender.balance < tx.fee ==>
                  r == Applied(l, Completed(false, 0, "insufficient balance for fee")))
            && (sender.nonce == tx.nonce && tx.fee <= sender.balance ==>
                  NonceOf(r.ledger, tx.sender) == if tx.nonce == U64_MAX then 0 else tx.nonce + 1)
  {
    ExecuteNonce(env, l, tx, tx.sender);
  }

  /** The list holds no transaction with a key of `a` and a valid signature. */
  ghost predicate NotSignedBy(env: Env, txs: seq<Transaction>, a: Address) {
    forall tx :: tx in txs ==>
      !(|tx.publicKey| == 32 && |tx.signature| == 64 && env.addressOf(tx.publicKey) == a && env.signed(tx))
  }

  /** Of what belongs to `a` nothing was lost: balance, nonce, own stake and delegations. */
  ghost predicate LosesNothing(l: Ledger, l': Ledger, a: Address) {
    && AccountOf(l.accounts, a).balance <= AccountOf(l'.accounts, a).balance
    && AccountOf(l.accounts, a).nonce == AccountOf(l'.accounts, a).nonce
    && (a in l.validators <==> a in l'.validators)
    && (a in l.validators ==> l'.validators[a].selfStake == l.validators[a].selfStake)
    && forall v :: DelegationOf(l', (a, v)) == DelegationOf(l, (a, v))
  }

  lemma StakeLosesNothing(l: Ledger, sender: Address, op: StakingOperation, a: Address)
    requires a != sender
    ensures LosesNothing(l, Stake(l, sender, op).ledger, a)
  {}

  lemma TransferLosesNothing(l: Ledger, tx: Transaction, a: Address)
    requires a != tx.sender
    ensures LosesNothing(l, Transfer(l, tx).ledger, a)
  {}

  lemma OthersLoseNothing(env: Env, l: Ledger, tx: Transaction, a: Address)
    requires a != tx.sender
    ensures LosesNothing(l, Dispatch(env, l, tx).ledger, a)
  {
    if tx.payload == [] {
      TransferLosesNothing(l, tx, a);
    } else if DecodePayload(env, tx.payload).Some? {
      StakeLosesNothing(l, tx.sender, DecodePayload(env, tx.payload).value, a);
    }
  }

  lemma UnsignedStep(env: Env, l: Ledger, tx: Transaction, a: Address)
    requires NotSignedBy(env, [tx], a)
    ensures LosesNothing(l, Execute(env, l, tx).ledger, a)
  {
    assert tx in [tx];
    if Charges(env, l.accounts, tx) { OthersLoseNothing(env, TakeFee(l, tx), tx, a); }
  }

  lemma LosesNothingTrans(l: Ledger, l1: Ledger, l2: Ledger, a: Address)
    requires LosesNothing(l, l1, a) && LosesNothing(l1, l2, a)
    ensures LosesNothing(l, l2, a)
  {
    forall v ensures DelegationOf(l2, (a, v)) == DelegationOf(l, (a, v)) {
      assert DelegationOf(l1, (a, v)) == DelegationOf(l, (a, v));
    }
  }

  /** Over every list, an address that signed none of the transactions loses neither
      balance, stake nor nonce. */
  lemma {:induction false} UnsignedLosesNothing(env: Env, l: Ledger, txs: seq<Transaction>, a: Address)
    requires NotSignedBy(env, txs, a)
    ensures LosesNothing(l, ExecuteAll(env, l, txs), a)
    decreases |txs|
  {
    if txs != [] {
      assert txs[0] in txs;
      UnsignedStep(env, l, txs[0], a);
      UnsignedLosesNothing(env, Execute(env, l, txs[0]).ledger, txs[1..], a);
      LosesNothingTrans(l, Execute(env, l, txs[0]).ledger, ExecuteAll(env, l, txs), a);
    }
  }

  // ----------------------------------------------------------------- outcomes --

  /** What a charged transaction answers, by its payload. An empty one is a transfer; one
      that begins with byte one is a staking operation and must parse; any other is
      refused, and then as for an operation that does not parse only the fee is gone. */
  lemma OutcomesExactly(env: Env, l: Ledger, tx: Transaction)
    requires |tx.publicKey| == 32 && |tx.signature| == 64 && env.addressOf(tx.publicKey) == tx.sender && env.signed(tx)
    requires AccountOf(l.accounts, tx.sender).nonce == tx.nonce && tx.fee <= AccountOf(l.accounts, tx.sender).balance
    ensures var r, paid := Execute(env, l, tx), TakeFee(l, tx);
            var left := AccountOf(l.accounts, tx.sender).balance - tx.fee;
            if tx.payload == [] then
              if tx.amount > left then r == Applied(paid, Completed(false, 0, "insufficient balance for transfer"))
              else if tx.amount > 0 && tx.recipient != tx.sender
                      && AccountOf(l.accounts, tx.recipient).balance + tx.amount > U128_MAX
              then r.outcome == Failed(Storage)
              else r.outcome == Completed(true, 21_000, "ok")
            else if tx.payload[0] != 1 then r == Applied(paid, Completed(false, 0, "invalid contract"))
            else if |tx.payload| < 2 || env.parse(tx.payload[1..]).None? then
              r == Applied(paid, Failed(InvalidContract))
            else r == Stake(paid, tx.sender, env.parse(tx.payload[1..]).value)
  {}

  /** The same of the simple executor, which debits amount and fee at once, knows no
      account it was not given, and loses the debit if the credit overflows. */
  lemma NativeOutcomesExactly(env: Env, l: Ledger, tx: Transaction)
    requires |tx.publicKey| == 32 && |tx.signature| == 64 && env.addressOf(tx.publicKey) == tx.sender && env.signed(tx)
    ensures var r, sender := ExecuteNative(env, l, tx), AccountOf(l.accounts, tx.sender);
            if sender.nonce != tx.nonce then r == Applied(l, Completed(false, 0, "invalid nonce"))
            else if tx.amount + tx.fee > U128_MAX then r == Applied(l, Failed(InsufficientBalance))
            else if sender.balance < tx.amount + tx.fee then
              r == Applied(l, Completed(false, 0, "insufficient balance"))
            else if tx.sender !in l.accounts then r == Applied(l, Failed(Storage))
            else
              var left := AccountOf(r.ledger.accounts, tx.sender);
              && r.outcome ==
                 (if tx.recipient != tx.sender && AccountOf(l.accounts, tx.recipient).balance + tx.amount > U128_MAX
                  then Failed(Storage) else Completed(true, 21_000, "ok"))
              && left.nonce == (if tx.nonce == U64_MAX then 0 else tx.nonce + 1)
              && left.balance + tx.fee + (if tx.recipient == tx.sender then 0 else tx.amount) == sender.balance
              && (tx.recipient != tx.sender ==>
                    AccountOf(r.ledger.accounts, tx.recipient) ==
                    AccountOf(l.accounts, tx.recipient).(balance :=
                      AccountOf(l.accounts, tx.recipient).balance + if r.outcome.Completed? then tx.amount else 0))
              && (forall a :: a != tx.sender && a != tx.recipient ==>
                    AccountOf(r.ledger.accounts, a) == AccountOf(l.accounts, a))
              && r.ledger.validators == l.validators && r.ledger.delegations == l.delegations
  {}

  // ----------------------------------------------------------------- payloads --

  /** Encoding puts the prefix byte before the body, and decoding undoes it. */
  function EncodePayload(ser: StakingOperation -> Bytes, op: StakingOperation): Bytes {
    [1] + ser(op)
  }

  lemma PayloadRoundTrip(env: Env, ser: StakingOperation -> Bytes, op: StakingOperation)
    requires ser(op) != [] && env.parse(ser(op)) == Some(op)
    ensures DecodePayload(env, EncodePayload(ser, op)) == Some(op)
  {
    assert EncodePayload(ser, op)[1..] == ser(op);
  }

  /** Which payloads are operations: those that begin with byte one and have a body that
      parses. */
  lemma DecodesExactly(env: Env, payload: Bytes, op: StakingOperation)
    ensures DecodePayload(env, payload) == Some(op) <==>
            exists body: Bytes :: body != [] && payload == [1] + body && env.parse(body) == Some(op)
  {
    if |payload| >= 2 && payload[0] == 1 { assert payload == [1] + payload[1..]; }
    forall body: Bytes | body != [] && payload == [1] + body ensures payload[1..] == body {}
  }

  // -------------------------------------------------------- staking operations --

  /** Registering succeeds exactly for a new validator with a key, at most 100%
      commission and a self-stake of at least 10 000 base units that it can pay; it
      then takes the stake and stores an active record without delegations. */
  lemma RegisterExactly(l: Ledger, sender: Address, pubkey: Bytes, bps: nat, selfStake: U128)
    ensures var r := Register(l, sender, pubkey, bps, selfStake);
            && (r.outcome.Completed? <==>
                  && pubkey != [] && bps <= 10_000 && selfStake >= 10_000
                  && sender !in l.validators && selfStake <= AccountOf(l.accounts, sender).balance)
            && (r.outcome.Failed? ==> r.ledger == l)
            && (r.outcome.Failed? ==>
                  r.outcome.error ==
                  if pubkey != [] && bps <= 10_000 && selfStake >= 10_000 && sender !in l.validators
                  then InsufficientBalance else InvalidContract)
            && (r.outcome.Completed? ==>
                  && r.outcome == Completed(true, 50_000, "validator registered")
                  && r.ledger.delegations == l.delegations
                  && AccountOf(r.ledger.accounts, sender).balance + selfStake == AccountOf(l.accounts, sender).balance
                  && r.ledger.validators.Keys == l.validators.Keys + {sender}
                  && (forall v :: v in l.validators ==> r.ledger.validators[v] == l.validators[v])
                  && var record := r.ledger.validators[sender];
                     && record.address == sender && record.consensusPubkey == pubkey && record.commissionBps == bps
                     && record.selfStake == selfStake && record.delegatedStake == 0 && record.status == Active
                     && record.jailedUntil == 0 && record.pendingRewards == 0)
  {}

  /** Delegating succeeds exactly for a positive amount the sender has, to a validator
      that is active; the record keeps everything but its delegated stake. */
  lemma DelegateExactly(l: Ledger, sender: Address, validator: Address, amount: U128)
    ensures var r := DelegateTo(l, sender, validator, amount);
            && (r.outcome.Completed? <==>
                  && amount >= 1 && validator in l.validators && l.validators[validator].status == Active
                  && amount <= AccountOf(l.accounts, sender).balance)
            && (r.outcome.Failed? ==> r.ledger == l)
            && (r.outcome.Failed? ==>
                  r.outcome.error ==
                  if amount >= 1 && validator in l.validators && l.validators[validator].status == Active
                  then InsufficientBalance else InvalidContract)
            && (r.outcome.Completed? ==>
                  && r.outcome == Completed(true, 30_000, "delegated")
                  && AccountOf(r.ledger.accounts, sender).balance + amount == AccountOf(l.accounts, sender).balance
                  && r.ledger.validators.Keys == l.validators.Keys
                  && (forall v :: v in l.validators && v != validator ==> r.ledger.validators[v] == l.validators[v])
                  && OnlyDelegatedStake(l.validators[validator], r.ledger.validators[validator])
                  && (forall p :: p != (sender, validator) ==> DelegationOf(r.ledger, p) == DelegationOf(l, p)))
  {}

  /** Undelegating succeeds exactly up to the stored amount from a known validator,
      whatever its status. */
  lemma UndelegateExactly(l: Ledger, sender: Address, validator: Address, amount: U128)
    ensures var r := UndelegateFrom(l, sender, validator, amount);
            && (r.outcome.Completed? <==>
                  && (sender, validator) in l.delegations && amount <= l.delegations[(sender, validator)].amount
                  && validator in l.validators)
            && (r.outcome.Failed? ==> r.ledger == l)
            && (r.outcome.Failed? ==>
                  r.outcome.error ==
                  if (sender, validator) in l.delegations && l.delegations[(sender, validator)].amount < amount
                  then InsufficientBalance else InvalidContract)
            && (r.outcome.Completed? ==>
                  && r.outcome == Completed(true, 30_000, "undelegated")
                  && r.ledger.validators.Keys == l.validators.Keys
                  && (forall v :: v in l.validators && v != validator ==> r.ledger.validators[v] == l.validators[v])
                  && OnlyDelegatedStake(l.validators[validator], r.ledger.validators[validator])
                  && DelegationOf(r.ledger, (sender, validator)).amount + amount ==
                     DelegationOf(l, (sender, validator)).amount
                  && (forall p :: p != (sender, validator) ==> DelegationOf(r.ledger, p) == DelegationOf(l, p)))
  {}

  /** The records differ in their delegated stake at most. */
  ghost predicate OnlyDelegatedStake(r: ValidatorRecord, r': ValidatorRecord) {
    && r'.address == r.address && r'.consensusPubkey == r.consensusPubkey && r'.selfStake == r.selfStake
    && r'.commissionBps == r.commissionBps && r'.status == r.status && r'.jailedUntil == r.jailedUntil
    && r'.pendingRewards == r.pendingRewards
  }
}
