/** The executors as they run: read, check and write the state store step by
    step. Each is proved equal to its function on the typed tables. */
module Executors {
  import opened Primitives
  import opened LedgerModel
  import opened Storage

  class StakingExecutor {
    static method Register(store: StateStore, sender: Address, pubkey: Bytes, commissionBps: nat, selfStake: U128)
      returns (o: Outcome)
      requires store.Valid()
      modifies store
      ensures store.Valid()
      ensures Applied(store.tables, o) ==
              LedgerModel.Register(old(store.tables), sender, pubkey, commissionBps, selfStake)
    {
      if pubkey == [] { return Failed(InvalidContract); }
      if commissionBps > 10_000 { return Failed(InvalidContract); }
      if selfStake < MIN_SELF_STAKE { return Failed(InvalidContract); }
      var existing := store.ValidatorRecordOf(sender);
      if existing.value.Some? { return Failed(InvalidContract); }
      if store.Balance(sender) < selfStake { return Failed(InsufficientBalance); }
      var account := AccountOf(store.accounts, sender);
      store.SetAccount(sender, account.(balance := account.balance - selfStake));
      store.SetValidatorRecord(sender, ValidatorRecord(sender, pubkey, selfStake, 0, commissionBps, Active, 0, 0));
      o := Completed(true, 50_000, "validator registered");
    }

    static method Delegate(store: StateStore, sender: Address, validator: Address, amount: U128) returns (o: Outcome)
      requires store.Valid()
      modifies store
      ensures store.Valid()
      ensures Applied(store.tables, o) == DelegateTo(old(store.tables), sender, validator, amount)
    {
      if amount < MIN_DELEGATION { return Failed(InvalidContract); }
      var found := store.ValidatorRecordOf(validator);
      if found.value.None? { return Failed(InvalidContract); }
      var record := found.value.value;
      if record.status != Active { return Failed(InvalidContract); }
      if store.Balance(sender) < amount { return Failed(InsufficientBalance); }
      var account := AccountOf(store.accounts, sender);
      store.SetAccount(sender, account.(balance := account.balance - amount));
      store.SetValidatorRecord(validator, record.(delegatedStake := WrapAdd128(record.delegatedStake, amount)));
      var stored := store.DelegationBetween(sender, validator);
      var delegation := match stored.value case Some(d) => d case None => DEFAULT_DELEGATION;
      store.SetDelegation(sender, validator, delegation.(amount := WrapAdd128(delegation.amount, amount)));
      o := Completed(true, 30_000, "delegated");
    }

    static method Undelegate(store: StateStore, sender: Address, validator: Address, amount: U128) returns (o: Outcome)
      requires store.Valid()
      modifies store
      ensures store.Valid()
      ensures Applied(store.tables, o) == UndelegateFrom(old(store.tables), sender, validator, amount)
    {
      var stored := store.DelegationBetween(sender, validator);
      if stored.value.None? { return Failed(InvalidContract); }
      var delegation := stored.value.value;
      if delegation.amount < amount { return Failed(InsufficientBalance); }
      var found := store.ValidatorRecordOf(validator);
      if found.value.None? { return Failed(InvalidContract); }
      var record := found.value.value;
      var stake := if record.delegatedStake < amount then 0 else record.delegatedStake - amount;
      store.SetValidatorRecord(validator, record.(delegatedStake := stake));
      if delegation.amount - amount == 0 {
        store.DeleteDelegation(sender, validator);
      } else {
        store.SetDelegation(sender, validator, delegation.(amount := delegation.amount - amount));
      }
      var account := AccountOf(store.accounts, sender);
      store.SetAccount(sender, account.(balance := WrapAdd128(account.balance, amount)));
      o := Completed(true, 30_000, "undelegated");
    }

    static method Execute(env: Env, store: StateStore, tx: Transaction) returns (o: Outcome)
      requires store.Valid()
      modifies store
      ensures store.Valid()
      ensures Applied(store.tables, o) ==
              match DecodePayload(env, tx.payload)
              case None => Applied(old(store.tables), Failed(InvalidContract))
              case Some(op) => Stake(old(store.tables), tx.sender, op)
    {
      match DecodePayload(env, tx.payload)
      case None => o := Failed(InvalidContract);
      case Some(RegisterValidator(pubkey, bps, selfStake)) =>
        o := Register(store, tx.sender, pubkey, bps, selfStake);
      case Some(Delegate(validator, amount)) => o := Delegate(store, tx.sender, validator, amount);
      case Some(Undelegate(validator, amount)) => o := Undelegate(store, tx.sender, validator, amount);
    }
  }

  class BlockExecutor {
    static method Execute(env: Env, store: StateStore, tx: Transaction) returns (o: Outcome)
      requires store.Valid()
      modifies store
      ensures store.Valid()
      ensures Applied(store.tables, o) == LedgerModel.Execute(env, old(store.tables), tx)
    {
      if !Verified(env, tx) { return Failed(InvalidSignature); }
      if store.Nonce(tx.sender) != tx.nonce { return Completed(false, 0, "invalid nonce"); }
      if store.Balance(tx.sender) < tx.fee { return Completed(false, 0, "insufficient balance for fee"); }
      var sender := AccountOf(store.accounts, tx.sender);
      store.SetAccount(tx.sender, Account(sender.balance - tx.fee, WrapSucc64(sender.nonce)));
      if tx.payload == [] {
        if tx.amount > 0 {
          sender := AccountOf(store.accounts, tx.sender);
          if sender.balance < tx.amount { return Completed(false, 0, "insufficient balance for transfer"); }
          store.SetAccount(tx.sender, sender.(balance := sender.balance - tx.amount));
          var moved := store.TransferAmountOnly(tx.recipient, tx.amount);
          if moved.Err? { return Failed(Storage); }
        }
        o := Completed(true, 21_000, "ok");
      } else if tx.payload[0] == STAKING_PREFIX {
        o := StakingExecutor.Execute(env, store, tx);
      } else {
        o := Completed(false, 0, "invalid contract");
      }
    }
  }

  class NativeExecutor {
    static method Execute(env: Env, store: StateStore, tx: Transaction) returns (o: Outcome)
      requires store.Valid()
      modifies store
      ensures store.Valid()
      ensures Applied(store.tables, o) == ExecuteNative(env, old(store.tables), tx)
    {
      if !Verified(env, tx) { return Failed(InvalidSignature); }
      if store.Nonce(tx.sender) != tx.nonce { return Completed(false, 0, "invalid nonce"); }
      if tx.amount + tx.fee > U128_MAX { return Failed(InsufficientBalance); }
      if store.Balance(tx.sender) < tx.amount + tx.fee { return Completed(false, 0, "insufficient balance"); }
      var moved := store.Transfer(tx.sender, tx.recipient, tx.amount, tx.fee);
      if moved.Err? { return Failed(Storage); }
      o := Completed(true, 21_000, "ok");
    }
  }
}
