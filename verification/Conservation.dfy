/** Conservation of value and consistency of delegations, over every list of
    transactions. */
module Conservation {
  import opened Primitives
  import opened Sums
  import opened LedgerModel

  // ------------------------------------------------------------- measures --

  ghost function Balances(l: Ledger): map<Address, nat> {
    map a | a in l.accounts :: l.accounts[a].balance
  }

  ghost function SelfStakes(l: Ledger): map<Address, nat> {
    map v | v in l.validators :: l.validators[v].selfStake
  }

  ghost function DelegatedStakes(l: Ledger): map<Address, nat> {
    map v | v in l.validators :: l.validators[v].delegatedStake
  }

  /** Everything the ledger holds: balances, self-stakes and delegated stakes. */
  ghost function Supply(l: Ledger): nat {
    Sum(Balances(l)) + Sum(SelfStakes(l)) + Sum(DelegatedStakes(l))
  }

  ghost function AmountsTo(ds: map<(Address, Address), Delegation>, v: Address): map<(Address, Address), nat> {
    map p | p in ds && p.1 == v :: ds[p].amount
  }

  /** What the stored delegations say validator `v` received. */
  ghost function DelegatedTo(ds: map<(Address, Address), Delegation>, v: Address): nat {
    Sum(AmountsTo(ds, v))
  }

  /** Every stored delegation is positive and names an existing record, and each
      record's `delegated_stake` is the sum of its stored delegations. */
  ghost predicate Consistent(l: Ledger) {
    && (forall p :: p in l.delegations ==> p.1 in l.validators && 0 < l.delegations[p].amount)
    && (forall v :: v in l.validators ==> l.validators[v].delegatedStake == DelegatedTo(l.delegations, v))
  }

  // ------------------------------------------------------- effects of puts --

  lemma SupplyPutAccount(l: Ledger, a: Address, acc: Account)
    ensures Supply(PutAccount(l, a, acc)) == Supply(l) - AccountOf(l.accounts, a).balance + acc.balance
  {
    var l' := PutAccount(l, a, acc);
    assert Balances(l') == Balances(l)[a := acc.balance];
    assert SelfStakes(l') == SelfStakes(l) && DelegatedStakes(l') == DelegatedStakes(l);
    SumPut(Balances(l), a, acc.balance);
  }

  lemma SupplyPutValidator(l: Ledger, v: Address, r: ValidatorRecord)
    ensures v in l.validators ==>
              Supply(PutValidator(l, v, r)) ==
              Supply(l) - l.validators[v].selfStake - l.validators[v].delegatedStake + r.selfStake + r.delegatedStake
    ensures v !in l.validators ==> Supply(PutValidator(l, v, r)) == Supply(l) + r.selfStake + r.delegatedStake
  {
    var l' := PutValidator(l, v, r);
    assert Balances(l') == Balances(l);
    assert SelfStakes(l') == SelfStakes(l)[v := r.selfStake];
    assert DelegatedStakes(l') == DelegatedStakes(l)[v := r.delegatedStake];
    SumPut(SelfStakes(l), v, r.selfStake);
    SumPut(DelegatedStakes(l), v, r.delegatedStake);
  }

  lemma SupplyIgnoresDelegations(l: Ledger, l': Ledger)
    requires l'.accounts == l.accounts && l'.validators == l.validators
    ensures Supply(l') == Supply(l)
  {
    assert Balances(l') == Balances(l) && SelfStakes(l') == SelfStakes(l) && DelegatedStakes(l') == DelegatedStakes(l);
  }

  lemma DelegatedToPut(ds: map<(Address, Address), Delegation>, p: (Address, Address), d: Delegation, v: Address)
    ensures DelegatedTo(ds[p := d], v) ==
            if v != p.1 then DelegatedTo(ds, v)
            else DelegatedTo(ds, v) - (if p in ds then ds[p].amount else 0) + d.amount
  {
    if v == p.1 {
      assert AmountsTo(ds[p := d], v) == AmountsTo(ds, v)[p := d.amount];
      SumPut(AmountsTo(ds, v), p, d.amount);
    } else {
      assert AmountsTo(ds[p := d], v) == AmountsTo(ds, v);
    }
  }

  lemma DelegatedToDrop(ds: map<(Address, Address), Delegation>, p: (Address, Address), v: Address)
    requires p in ds
    ensures DelegatedTo(ds - {p}, v) == DelegatedTo(ds, v) - (if v == p.1 then ds[p].amount else 0)
  {
    if v == p.1 {
      assert AmountsTo(ds - {p}, v) == AmountsTo(ds, v) - {p};
      SumDrop(AmountsTo(ds, v), p);
    } else {
      assert AmountsTo(ds - {p}, v) == AmountsTo(ds, v);
    }
  }

  lemma DelegationWithinStake(l: Ledger, p: (Address, Address))
    requires Consistent(l) && p in l.delegations
    ensures l.delegations[p].amount <= l.validators[p.1].delegatedStake
  {
    assert p in AmountsTo(l.delegations, p.1);
    SumAtLeast(AmountsTo(l.delegations, p.1), p);
  }

  /** Any balance together with any record's stake is bounded by the supply. */
  lemma PartsWithinSupply(l: Ledger, a: Address, v: Address)
    requires v in l.validators
    ensures AccountOf(l.accounts, a).balance + l.validators[v].delegatedStake <= Supply(l)
  {
    if a in l.accounts {
      assert a in Balances(l);
      SumAtLeast(Balances(l), a);
    }
    assert v in DelegatedStakes(l);
    SumAtLeast(DelegatedStakes(l), v);
  }

  lemma {:induction false} TwoBalancesWithinSupply(l: Ledger, a: Address, b: Address)
    requires a != b
    ensures AccountOf(l.accounts, a).balance + AccountOf(l.accounts, b).balance <= Supply(l)
  {
    var m := Balances(l);
    SumDrop(m, a);
    SumDrop(m - {a}, b);
  }

  // ------------------------------------------------------ one operation ----

  lemma RegisterKeepsSupply(l: Ledger, sender: Address, pubkey: Bytes, bps: nat, selfStake: U128)
    ensures Supply(Register(l, sender, pubkey, bps, selfStake).ledger) == Supply(l)
  {
    var account := AccountOf(l.accounts, sender);
    if Register(l, sender, pubkey, bps, selfStake).outcome.Completed? {
      var acc := account.(balance := account.balance - selfStake);
      SupplyPutAccount(l, sender, acc);
      SupplyPutValidator(PutAccount(l, sender, acc), sender,
                         ValidatorRecord(sender, pubkey, selfStake, 0, bps, Active, 0, 0));
    }
  }

  lemma RegisterKeepsConsistent(l: Ledger, sender: Address, pubkey: Bytes, bps: nat, selfStake: U128)
    requires Consistent(l)
    ensures Consistent(Register(l, sender, pubkey, bps, selfStake).ledger)
  {
    if sender !in l.validators {
      assert AmountsTo(l.delegations, sender) == map[];
      assert DelegatedTo(l.delegations, sender) == 0;
    }
  }

  /** `delegated_stake += amount` would wrap. */
  predicate DelegateOverflows(l: Ledger, validator: Address, amount: U128) {
    validator in l.validators && l.validators[validator].delegatedStake + amount > U128_MAX
  }

  lemma DelegateSupply(l: Ledger, sender: Address, validator: Address, amount: U128)
    ensures var r := DelegateTo(l, sender, validator, amount);
            && (r.outcome.Failed? ==> r.ledger == l)
            && (r.outcome.Completed? ==>
                  (Supply(r.ledger) == Supply(l) <==> !DelegateOverflows(l, validator, amount)))
  {
    var r := DelegateTo(l, sender, validator, amount);
    if r.outcome.Completed? {
      var debited, raised := Debited(AccountOf(l.accounts, sender), amount), Raised(l.validators[validator], amount);
      var l1 := PutAccount(l, sender, debited);
      SupplyPutAccount(l, sender, debited);
      SupplyPutValidator(l1, validator, raised);
      SupplyIgnoresDelegations(PutValidator(l1, validator, raised), r.ledger);
    }
  }

  lemma DelegateKeepsConsistent(l: Ledger, sender: Address, validator: Address, amount: U128)
    requires Consistent(l) && !DelegateOverflows(l, validator, amount)
    ensures Consistent(DelegateTo(l, sender, validator, amount).ledger)
  {
    var r := DelegateTo(l, sender, validator, amount);
    if r.outcome.Completed? {
      var p := (sender, validator);
      var held := DelegationOf(l, p);
      if p in l.delegations { DelegationWithinStake(l, p); }
      var raised := held.(amount := held.amount + amount);
      assert r.ledger.delegations == l.delegations[p := raised];
      ConsistentPut(l, r.ledger, p, raised);
    }
  }

  /** Storing a delegation keeps consistency when its record moves with it. */
  lemma ConsistentPut(l: Ledger, l': Ledger, p: (Address, Address), d: Delegation)
    requires Consistent(l) && p.1 in l.validators && 0 < d.amount
    requires l'.delegations == l.delegations[p := d]
    requires l'.validators.Keys == l.validators.Keys
    requires forall v :: v in l.validators && v != p.1 ==> l'.validators[v] == l.validators[v]
    requires l'.validators[p.1].delegatedStake ==
             l.validators[p.1].delegatedStake - DelegationOf(l, p).amount + d.amount
    ensures Consistent(l')
  {
    forall v | v in l'.validators ensures l'.validators[v].delegatedStake == DelegatedTo(l'.delegations, v) {
      DelegatedToPut(l.delegations, p, d, v);
    }
  }

  lemma ConsistentDrop(l: Ledger, l': Ledger, p: (Address, Address))
    requires Consistent(l) && p in l.delegations
    requires l'.delegations == l.delegations - {p}
    requires l'.validators.Keys == l.validators.Keys
    requires forall v :: v in l.validators && v != p.1 ==> l'.validators[v] == l.validators[v]
    requires l'.validators[p.1].delegatedStake == l.validators[p.1].delegatedStake - l.delegations[p].amount
    ensures Consistent(l')
  {
    forall v | v in l'.validators ensures l'.validators[v].delegatedStake == DelegatedTo(l'.delegations, v) {
      DelegatedToDrop(l.delegations, p, v);
    }
  }

  /** `balance += amount` would wrap. */
  predicate UndelegateOverflows(l: Ledger, sender: Address, amount: U128) {
    AccountOf(l.accounts, sender).balance + amount > U128_MAX
  }

  /** On a consistent ledger the record of a stored delegation exists and covers
      it, so undelegating fails only for a missing or too small delegation and the
      saturating subtraction is exact. */
  lemma UndelegateIsExact(l: Ledger, sender: Address, validator: Address, amount: U128)
    requires Consistent(l)
    ensures var r := UndelegateFrom(l, sender, validator, amount);
            && (r.outcome.Failed? ==> r.ledger == l)
            && (r.outcome.Completed? <==>
                  (sender, validator) in l.delegations && amount <= l.delegations[(sender, validator)].amount)
            && (r.outcome.Completed? ==>
                  && validator in l.validators
                  && Lowered(l.validators[validator], amount).delegatedStake + amount ==
                     l.validators[validator].delegatedStake)
  {
    if (sender, validator) in l.delegations { DelegationWithinStake(l, (sender, validator)); }
  }

  lemma UndelegateSupply(l: Ledger, sender: Address, validator: Address, amount: U128)
    requires Consistent(l)
    requires UndelegateFrom(l, sender, validator, amount).outcome.Completed?
    ensures Supply(UndelegateFrom(l, sender, validator, amount).ledger) == Supply(l) <==>
            !UndelegateOverflows(l, sender, amount)
  {
    UndelegateIsExact(l, sender, validator, amount);
    var r := UndelegateFrom(l, sender, validator, amount);
    var lowered, paid := Lowered(l.validators[validator], amount), Paid(AccountOf(l.accounts, sender), amount);
    var l1 := PutValidator(l, validator, lowered);
    SupplyPutValidator(l, validator, lowered);
    SupplyPutAccount(l1, sender, paid);
    SupplyIgnoresDelegations(PutAccount(l1, sender, paid), r.ledger);
  }

  lemma UndelegateKeepsConsistent(l: Ledger, sender: Address, validator: Address, amount: U128)
    requires Consistent(l)
    ensures Consistent(UndelegateFrom(l, sender, validator, amount).ledger)
  {
    var p := (sender, validator);
    var r := UndelegateFrom(l, sender, validator, amount);
    UndelegateIsExact(l, sender, validator, amount);
    if r.outcome.Completed? {
      var held := l.delegations[p];
      if held.amount == amount {
        ConsistentDrop(l, r.ledger, p);
      } else {
        ConsistentPut(l, r.ledger, p, held.(amount := held.amount - amount));
      }
    }
  }

  /** The recipient's `checked_add` fails after the sender has been debited. */
  predicate TransferOverflows(l: Ledger, tx: Transaction) {
    && 0 < tx.amount <= AccountOf(l.accounts, tx.sender).balance
    && tx.recipient != tx.sender
    && AccountOf(l.accounts, tx.recipient).balance + tx.amount > U128_MAX
  }

  lemma ConsistentIgnoresAccounts(l: Ledger, l': Ledger)
    requires Consistent(l) && l'.validators == l.validators && l'.delegations == l.delegations
    ensures Consistent(l')
  {}

  lemma TransferSupply(l: Ledger, tx: Transaction)
    ensures Supply(Transfer(l, tx).ledger) == Supply(l) <==> !TransferOverflows(l, tx)
  {
    var sender := AccountOf(l.accounts, tx.sender);
    if 0 < tx.amount <= sender.balance {
      var acc := sender.(balance := sender.balance - tx.amount);
      var l1 := PutAccount(l, tx.sender, acc);
      SupplyPutAccount(l, tx.sender, acc);
      var recipient := AccountOf(l1.accounts, tx.recipient);
      if recipient.balance + tx.amount <= U128_MAX {
        var credited := recipient.(balance := recipient.balance + tx.amount);
        SupplyPutAccount(l1, tx.recipient, credited);
        assert Transfer(l, tx).ledger == PutAccount(l1, tx.recipient, credited);
      } else {
        assert Transfer(l, tx).ledger == l1;
      }
    } else {
      assert Transfer(l, tx).ledger == l;
    }
  }

  lemma TransferEffect(l: Ledger, tx: Transaction)
    requires Consistent(l)
    ensures Supply(Transfer(l, tx).ledger) == Supply(l) <==> !TransferOverflows(l, tx)
    ensures Consistent(Transfer(l, tx).ledger)
  {
    TransferSupply(l, tx);
    TransferKeepsStakes(l, tx);
    ConsistentIgnoresAccounts(l, Transfer(l, tx).ledger);
  }

  lemma TransferKeepsStakes(l: Ledger, tx: Transaction)
    ensures Transfer(l, tx).ledger.validators == l.validators && Transfer(l, tx).ledger.delegations == l.delegations
  {}

  // ---------------------------------------------------- one transaction ----

  predicate StakeOverflows(l: Ledger, sender: Address, op: StakingOperation) {
    Stake(l, sender, op).outcome.Completed? &&
    match op
    case RegisterValidator(_, _, _) => false
    case Delegate(validator, amount) => DelegateOverflows(l, validator, amount)
    case Undelegate(_, amount) => UndelegateOverflows(l, sender, amount)
  }

  lemma StakeEffect(l: Ledger, sender: Address, op: StakingOperation)
    requires Consistent(l)
    ensures Supply(Stake(l, sender, op).ledger) == Supply(l) <==> !StakeOverflows(l, sender, op)
    ensures !StakeOverflows(l, sender, op) ==> Consistent(Stake(l, sender, op).ledger)
  {
    match op
    case RegisterValidator(pubkey, bps, selfStake) =>
      RegisterKeepsSupply(l, sender, pubkey, bps, selfStake);
      RegisterKeepsConsistent(l, sender, pubkey, bps, selfStake);
    case Delegate(validator, amount) =>
      DelegateSupply(l, sender, validator, amount);
      if !DelegateOverflows(l, validator, amount) {
        DelegateKeepsConsistent(l, sender, validator, amount);
      }
    case Undelegate(validator, amount) =>
      UndelegateIsExact(l, sender, validator, amount);
      UndelegateKeepsConsistent(l, sender, validator, amount);
      if UndelegateFrom(l, sender, validator, amount).outcome.Completed? {
        UndelegateSupply(l, sender, validator, amount);
      }
  }

  predicate DispatchOverflows(env: Env, l: Ledger, tx: Transaction) {
    if tx.payload == [] then TransferOverflows(l, tx)
    else
      var op := DecodePayload(env, tx.payload);
      op.Some? && StakeOverflows(l, tx.sender, op.value)
  }

  lemma DispatchEffect(env: Env, l: Ledger, tx: Transaction)
    requires Consistent(l)
    ensures Supply(Dispatch(env, l, tx).ledger) == Supply(l) <==> !DispatchOverflows(env, l, tx)
    ensures !DispatchOverflows(env, l, tx) ==> Consistent(Dispatch(env, l, tx).ledger)
  {
    if tx.payload == [] {
      assert Dispatch(env, l, tx) == Transfer(l, tx);
      TransferEffect(l, tx);
    } else if DecodePayload(env, tx.payload).Some? {
      var op := DecodePayload(env, tx.payload).value;
      assert Dispatch(env, l, tx) == Stake(l, tx.sender, op);
      StakeEffect(l, tx.sender, op);
    } else {
      assert Dispatch(env, l, tx).ledger == l;
    }
  }

  /** The only ways a transaction can lose or create value: an addition that
      leaves the u128 range once the fee has been taken. */
  predicate Overflows(env: Env, l: Ledger, tx: Transaction) {
    Charges(env, l.accounts, tx) && DispatchOverflows(env, TakeFee(l, tx), tx)
  }

  function FeeBurned(env: Env, l: Ledger, tx: Transaction): nat {
    if Charges(env, l.accounts, tx) then tx.fee else 0
  }

  lemma TakeFeeEffect(l: Ledger, tx: Transaction)
    requires Consistent(l) && tx.fee <= AccountOf(l.accounts, tx.sender).balance
    ensures Consistent(TakeFee(l, tx)) && Supply(TakeFee(l, tx)) + tx.fee == Supply(l)
  {
    var sender := AccountOf(l.accounts, tx.sender);
    SupplyPutAccount(l, tx.sender, Account(sender.balance - tx.fee, WrapSucc64(sender.nonce)));
  }

  /** One transaction, whatever it returns, conserves supply plus burned fee
      exactly when none of its additions overflows. */
  lemma ExecuteConservesExactly(env: Env, l: Ledger, tx: Transaction)
    requires Consistent(l)
    ensures var l' := Execute(env, l, tx).ledger;
            && (Supply(l') + FeeBurned(env, l, tx) == Supply(l) <==> !Overflows(env, l, tx))
            && (!Overflows(env, l, tx) ==> Consistent(l'))
  {
    if Charges(env, l.accounts, tx) {
      TakeFeeEffect(l, tx);
      DispatchEffect(env, TakeFee(l, tx), tx);
    }
  }

  lemma UndelegateFits(l: Ledger, sender: Address, validator: Address, amount: U128)
    requires Consistent(l) && Supply(l) <= U128_MAX
    requires UndelegateFrom(l, sender, validator, amount).outcome.Completed?
    ensures !UndelegateOverflows(l, sender, amount)
  {
    DelegationWithinStake(l, (sender, validator));
    PartsWithinSupply(l, sender, validator);
  }

  lemma DelegateFits(l: Ledger, sender: Address, validator: Address, amount: U128)
    requires Supply(l) <= U128_MAX
    requires DelegateTo(l, sender, validator, amount).outcome.Completed?
    ensures !DelegateOverflows(l, validator, amount)
  {
    PartsWithinSupply(l, sender, validator);
  }

  lemma TransferFits(l: Ledger, tx: Transaction)
    requires Supply(l) <= U128_MAX
    ensures !TransferOverflows(l, tx)
  {
    if tx.sender != tx.recipient { TwoBalancesWithinSupply(l, tx.sender, tx.recipient); }
  }

  lemma DispatchFits(env: Env, l: Ledger, tx: Transaction)
    requires Consistent(l) && Supply(l) <= U128_MAX
    ensures !DispatchOverflows(env, l, tx)
  {
    if DispatchOverflows(env, l, tx) {
      if tx.payload == [] {
        TransferFits(l, tx);
      } else {
        match DecodePayload(env, tx.payload).value
        case Delegate(validator, amount) => DelegateFits(l, tx.sender, validator, amount);
        case Undelegate(validator, amount) => UndelegateFits(l, tx.sender, validator, amount);
        case RegisterValidator(_, _, _) =>
      }
    }
  }

  /** A supply that fits in u128 rules every overflow out. */
  lemma NoOverflowWithinRange(env: Env, l: Ledger, tx: Transaction)
    requires Consistent(l) && Supply(l) <= U128_MAX
    ensures !Overflows(env, l, tx)
  {
    if Charges(env, l.accounts, tx) {
      TakeFeeEffect(l, tx);
      DispatchFits(env, TakeFee(l, tx), tx);
    }
  }

  // ------------------------------------------------------------ whole runs --

  function FeesBurned(env: Env, l: Ledger, txs: seq<Transaction>): nat
    decreases |txs|
  {
    if txs == [] then 0
    else FeeBurned(env, l, txs[0]) + FeesBurned(env, Execute(env, l, txs[0]).ledger, txs[1..])
  }

  /** Over every list of transactions, failed ones included, supply plus burned
      fees never changes and delegations stay consistent with the records. */
  lemma {:induction false} SupplyConserved(env: Env, l: Ledger, txs: seq<Transaction>)
    requires Consistent(l) && Supply(l) <= U128_MAX
    ensures Supply(ExecuteAll(env, l, txs)) + FeesBurned(env, l, txs) == Supply(l)
    ensures Consistent(ExecuteAll(env, l, txs))
    decreases |txs|
  {
    if txs != [] {
      NoOverflowWithinRange(env, l, txs[0]);
      ExecuteConservesExactly(env, l, txs[0]);
      SupplyConserved(env, Execute(env, l, txs[0]).ledger, txs[1..]);
    }
  }

  /** A genesis ledger holds accounts only. */
  lemma GenesisConsistent(accounts: map<Address, Account>)
    ensures Consistent(Ledger(accounts, map[], map[]))
    ensures Supply(Ledger(accounts, map[], map[])) == Sum(Balances(Ledger(accounts, map[], map[])))
  {
    var l := Ledger(accounts, map[], map[]);
    assert SelfStakes(l) == map[] && DelegatedStakes(l) == map[];
  }

  /** The range condition is needed: a transfer whose credit overflows returns an
      error after the debit, and the amount is gone. */
  lemma CreditOverflowLosesValue(env: Env, tx: Transaction)
    requires Verified(env, tx) && tx.payload == [] && tx.sender != tx.recipient
    requires tx.nonce == 0 && tx.fee == 0 && tx.amount == 1
    ensures var l := Ledger(map[tx.sender := Account(1, 0), tx.recipient := Account(U128_MAX, 0)], map[], map[]);
            && Execute(env, l, tx).outcome == Failed(Storage)
            && Supply(Execute(env, l, tx).ledger) == Supply(l) - 1
  {
    var l := Ledger(map[tx.sender := Account(1, 0), tx.recipient := Account(U128_MAX, 0)], map[], map[]);
    var l1 := TakeFee(l, tx);
    SupplyPutAccount(l, tx.sender, Account(1, 1));
    SupplyPutAccount(l1, tx.sender, Account(0, 1));
  }

  // ------------------------------------------------------- draining stakes --

  /** Withdraw the listed delegations in full, one after the other. */
  function WithdrawAll(l: Ledger, order: seq<(Address, Address)>): Ledger
    decreases |order|
  {
    if order == [] then l
    else
      var p := order[0];
      var r := UndelegateFrom(l, p.0, p.1, DelegationOf(l, p).amount);
      WithdrawAll(r.ledger, order[1..])
  }

  /** Every withdrawal in the list succeeds. */
  ghost predicate AllSucceed(l: Ledger, order: seq<(Address, Address)>)
    decreases |order|
  {
    order == [] ||
    var p := order[0];
    var r := UndelegateFrom(l, p.0, p.1, DelegationOf(l, p).amount);
    r.outcome == Completed(true, 30_000, "undelegated") && AllSucceed(r.ledger, order[1..])
  }

  ghost function AmountsBy(ds: map<(Address, Address), Delegation>, a: Address): map<(Address, Address), nat> {
    map p | p in ds && p.0 == a :: ds[p].amount
  }

  ghost function DelegatedBy(ds: map<(Address, Address), Delegation>, a: Address): nat {
    Sum(AmountsBy(ds, a))
  }

  ghost predicate Enumerates(order: seq<(Address, Address)>, ds: map<(Address, Address), Delegation>) {
    && (forall i, j :: 0 <= i < j < |order| ==> order[i] != order[j])
    && (forall p :: p in order <==> p in ds)
  }

  lemma DelegatedByDrop(ds: map<(Address, Address), Delegation>, p: (Address, Address), a: Address)
    requires p in ds
    ensures DelegatedBy(ds - {p}, a) == DelegatedBy(ds, a) - (if a == p.0 then ds[p].amount else 0)
  {
    if a == p.0 {
      assert AmountsBy(ds - {p}, a) == AmountsBy(ds, a) - {p};
      SumDrop(AmountsBy(ds, a), p);
    } else {
      assert AmountsBy(ds - {p}, a) == AmountsBy(ds, a);
    }
  }

  lemma WithdrawOne(l: Ledger, d: Address, v: Address)
    requires Consistent(l) && Supply(l) <= U128_MAX && (d, v) in l.delegations
    ensures var r := UndelegateFrom(l, d, v, l.delegations[(d, v)].amount);
            && r.outcome == Completed(true, 30_000, "undelegated")
            && Consistent(r.ledger) && Supply(r.ledger) == Supply(l)
            && r.ledger.delegations == l.delegations - {(d, v)}
            && r.ledger.validators.Keys == l.validators.Keys
            && r.ledger.accounts.Keys == l.accounts.Keys + {d}
            && forall a :: AccountOf(r.ledger.accounts, a).balance ==
                           AccountOf(l.accounts, a).balance + (if a == d then l.delegations[(d, v)].amount else 0)
  {
    var amount := l.delegations[(d, v)].amount;
    UndelegateIsExact(l, d, v, amount);
    UndelegateFits(l, d, v, amount);
    UndelegateSupply(l, d, v, amount);
    UndelegateKeepsConsistent(l, d, v, amount);
  }

  lemma EnumeratesTail(order: seq<(Address, Address)>, ds: map<(Address, Address), Delegation>)
    requires order != [] && Enumerates(order, ds)
    ensures order[0] in ds && Enumerates(order[1..], ds - {order[0]})
  {
    assert order[0] in order;
    forall q ensures q in order[1..] <==> q in ds - {order[0]} {
      assert q in order[1..] <==> q in order && q != order[0];
    }
  }

  lemma NothingDelegated(l: Ledger)
    requires Consistent(l) && l.delegations == map[]
    ensures forall v :: v in l.validators ==> l.validators[v].delegatedStake == 0
    ensures forall a :: DelegatedBy(l.delegations, a) == 0
  {
    forall v | v in l.validators ensures l.validators[v].delegatedStake == 0 {
      assert AmountsTo(l.delegations, v) == map[];
    }
    forall a ensures DelegatedBy(l.delegations, a) == 0 {
      assert AmountsBy(l.delegations, a) == map[];
    }
  }

  /** In any order, withdrawing every delegation succeeds, pays each delegator
      exactly what it had delegated, and leaves no delegated stake behind. */
  lemma {:induction false} WithdrawAllPaysInFull(l: Ledger, order: seq<(Address, Address)>)
    requires Consistent(l) && Supply(l) <= U128_MAX && Enumerates(order, l.delegations)
    ensures AllSucceed(l, order)
    ensures var l' := WithdrawAll(l, order);
            && l'.delegations == map[]
            && l'.validators.Keys == l.validators.Keys
            && (forall v :: v in l'.validators ==> l'.validators[v].delegatedStake == 0)
            && (forall a :: AccountOf(l'.accounts, a).balance ==
                            AccountOf(l.accounts, a).balance + DelegatedBy(l.delegations, a))
    decreases |order|
  {
    if order == [] {
      assert l.delegations == map[];
      NothingDelegated(l);
    } else {
      var p := order[0];
      EnumeratesTail(order, l.delegations);
      assert p == (p.0, p.1);
      WithdrawOne(l, p.0, p.1);
      var l1 := UndelegateFrom(l, p.0, p.1, l.delegations[p].amount).ledger;
      WithdrawAllPaysInFull(l1, order[1..]);
      var l' := WithdrawAll(l, order);
      assert l' == WithdrawAll(l1, order[1..]);
      forall a ensures AccountOf(l'.accounts, a).balance ==
                       AccountOf(l.accounts, a).balance + DelegatedBy(l.delegations, a)
      {
        DelegatedByDrop(l.delegations, p, a);
      }
    }
  }
}
