/** The ledger as three typed tables, and the transaction semantics as functions
    on it. Library calls (Ed25519, BLAKE3, serde) are the fields of an `Env`;
    every theorem holds for every `Env`. */
module LedgerModel {
  import opened Primitives

  // ------------------------------------------------------------ data model --

  datatype Account = Account(balance: U128, nonce: U64)

  const DEFAULT_ACCOUNT := Account(0, 0)

  datatype ValidatorStatus = Active | Jailed | Unbonding

  datatype ValidatorRecord = ValidatorRecord(
    address: Address, consensusPubkey: Bytes, selfStake: U128, delegatedStake: U128,
    commissionBps: nat, status: ValidatorStatus, jailedUntil: U64, pendingRewards: U128)
  {
    function TotalStake(): U128 {
      Cap128(selfStake + delegatedStake)
    }
  }

  datatype Delegation = Delegation(amount: U128, unbonding: bool, unbondEndHeight: U64)

  const DEFAULT_DELEGATION := Delegation(0, false, 0)

  datatype Ledger = Ledger(
    accounts: map<Address, Account>,
    validators: map<Address, ValidatorRecord>,
    delegations: map<(Address, Address), Delegation>)  // keyed by (delegator, validator)

  datatype StakingOperation =
    | RegisterValidator(consensusPubkey: Bytes, commissionBps: nat, selfStake: U128)
    | Delegate(validator: Address, amount: U128)
    | Undelegate(validator: Address, amount: U128)

  datatype Transaction = Transaction(
    sender: Address, recipient: Address, amount: U128, nonce: U64, fee: U128,
    publicKey: Bytes, signature: Bytes, payload: Bytes)

  datatype VmError = InvalidSignature | InvalidContract | InsufficientBalance | Storage

  datatype Outcome =
    | Completed(success: bool, gasUsed: nat, message: string)
    | Failed(error: VmError)

  datatype Applied = Applied(ledger: Ledger, outcome: Outcome)

  datatype Env = Env(
    addressOf: Bytes -> Address,             // BLAKE3 of a public key
    signed: Transaction -> bool,             // Ed25519 over the signing hash
    parse: Bytes -> Option<StakingOperation>) // serde_json of a payload body

  const MIN_SELF_STAKE: nat := 10_000
  const MIN_DELEGATION: nat := 1
  const STAKING_PREFIX: Byte := 1

  // --------------------------------------------------------------- lookups --

  function AccountOf(accounts: map<Address, Account>, a: Address): Account {
    if a in accounts then accounts[a] else DEFAULT_ACCOUNT
  }

  function DelegationOf(l: Ledger, p: (Address, Address)): Delegation {
    if p in l.delegations then l.delegations[p] else DEFAULT_DELEGATION
  }

  function PutAccount(l: Ledger, a: Address, acc: Account): Ledger {
    l.(accounts := l.accounts[a := acc])
  }

  function PutValidator(l: Ledger, a: Address, r: ValidatorRecord): Ledger {
    l.(validators := l.validators[a := r])
  }

  function PutDelegation(l: Ledger, p: (Address, Address), d: Delegation): Ledger {
    l.(delegations := l.delegations[p := d])
  }

  function DropDelegation(l: Ledger, p: (Address, Address)): Ledger {
    l.(delegations := l.delegations - {p})
  }

  // --------------------------------------------------------------- staking --

  function Register(l: Ledger, sender: Address, pubkey: Bytes, commissionBps: nat, selfStake: U128): Applied {
    if pubkey == [] || commissionBps > 10_000 || selfStake < MIN_SELF_STAKE || sender in l.validators then
      Applied(l, Failed(InvalidContract))
    else
      var account := AccountOf(l.accounts, sender);
      if account.balance < selfStake then Applied(l, Failed(InsufficientBalance))
      else
        var debited := PutAccount(l, sender, account.(balance := account.balance - selfStake));
        var record := ValidatorRecord(sender, pubkey, selfStake, 0, commissionBps, Active, 0, 0);
        Applied(PutValidator(debited, sender, record), Completed(true, 50_000, "validator registered"))
  }

  function Raised(r: ValidatorRecord, amount: U128): ValidatorRecord {
    r.(delegatedStake := WrapAdd128(r.delegatedStake, amount))
  }

  /** `saturating_sub` on the record's delegated stake. */
  function Lowered(r: ValidatorRecord, amount: U128): ValidatorRecord {
    r.(delegatedStake := if r.delegatedStake < amount then 0 else r.delegatedStake - amount)
  }

  function Debited(acc: Account, amount: U128): Account
    requires amount <= acc.balance
  {
    acc.(balance := acc.balance - amount)
  }

  function Paid(acc: Account, amount: U128): Account {
    acc.(balance := WrapAdd128(acc.balance, amount))
  }

  function DelegateTo(l: Ledger, sender: Address, validator: Address, amount: U128): Applied {
    if amount < MIN_DELEGATION || validator !in l.validators || l.validators[validator].status != Active then
      Applied(l, Failed(InvalidContract))
    else if AccountOf(l.accounts, sender).balance < amount then Applied(l, Failed(InsufficientBalance))
    else
      var held := DelegationOf(l, (sender, validator));
      Applied(Ledger(l.accounts[sender := Debited(AccountOf(l.accounts, sender), amount)],
                     l.validators[validator := Raised(l.validators[validator], amount)],
                     l.delegations[(sender, validator) := held.(amount := WrapAdd128(held.amount, amount))]),
              Completed(true, 30_000, "delegated"))
  }

  /** The delegation table once `amount` of entry `p` has been withdrawn. */
  function Withdrawn(ds: map<(Address, Address), Delegation>, p: (Address, Address), amount: U128)
    : map<(Address, Address), Delegation>
    requires p in ds && amount <= ds[p].amount
  {
    if ds[p].amount == amount then ds - {p} else ds[p := ds[p].(amount := ds[p].amount - amount)]
  }

  function UndelegateFrom(l: Ledger, sender: Address, validator: Address, amount: U128): Applied {
    var p := (sender, validator);
    if p !in l.delegations then Applied(l, Failed(InvalidContract))
    else if l.delegations[p].amount < amount then Applied(l, Failed(InsufficientBalance))
    else if validator !in l.validators then Applied(l, Failed(InvalidContract))
    else
      Applied(Ledger(l.accounts[sender := Paid(AccountOf(l.accounts, sender), amount)],
                     l.validators[validator := Lowered(l.validators[validator], amount)],
                     Withdrawn(l.delegations, p, amount)),
              Completed(true, 30_000, "undelegated"))
  }

  function DecodePayload(env: Env, payload: Bytes): Option<StakingOperation> {
    if |payload| < 2 || payload[0] != STAKING_PREFIX then None else env.parse(payload[1..])
  }

  function Stake(l: Ledger, sender: Address, op: StakingOperation): Applied {
    match op
    case RegisterValidator(pubkey, bps, selfStake) => Register(l, sender, pubkey, bps, selfStake)
    case Delegate(validator, amount) => DelegateTo(l, sender, validator, amount)
    case Undelegate(validator, amount) => UndelegateFrom(l, sender, validator, amount)
  }

  // -------------------------------------------------------- block executor --

  predicate Verified(env: Env, tx: Transaction) {
    && |tx.publicKey| == 32
    && |tx.signature| == 64
    && env.addressOf(tx.publicKey) == tx.sender
    && env.signed(tx)
  }

  /** The transaction passes the three checks that precede the fee debit. */
  predicate Charges(env: Env, accounts: map<Address, Account>, tx: Transaction) {
    && Verified(env, tx)
    && AccountOf(accounts, tx.sender).nonce == tx.nonce
    && tx.fee <= AccountOf(accounts, tx.sender).balance
  }

  function TakeFee(l: Ledger, tx: Transaction): Ledger
    requires tx.fee <= AccountOf(l.accounts, tx.sender).balance
  {
    var sender := AccountOf(l.accounts, tx.sender);
    PutAccount(l, tx.sender, Account(sender.balance - tx.fee, WrapSucc64(sender.nonce)))
  }

  /** `transfer_amount_only`: the one checked addition of the ledger. */
  function Credit(l: Ledger, to: Address, amount: U128): Result<Ledger, VmError> {
    var recipient := AccountOf(l.accounts, to);
    if recipient.balance + amount > U128_MAX then Err(Storage)
    else Ok(PutAccount(l, to, recipient.(balance := recipient.balance + amount)))
  }

  function Transfer(l: Ledger, tx: Transaction): Applied {
    var sender := AccountOf(l.accounts, tx.sender);
    if tx.amount == 0 then Applied(l, Completed(true, 21_000, "ok"))
    else if sender.balance < tx.amount then
      Applied(l, Completed(false, 0, "insufficient balance for transfer"))
    else
      var debited := PutAccount(l, tx.sender, sender.(balance := sender.balance - tx.amount));
      match Credit(debited, tx.recipient, tx.amount)
      case Ok(l') => Applied(l', Completed(true, 21_000, "ok"))
      case Err(e) => Applied(debited, Failed(e))
  }

  function Dispatch(env: Env, l: Ledger, tx: Transaction): Applied {
    if tx.payload == [] then Transfer(l, tx)
    else if tx.payload[0] == STAKING_PREFIX then
      match DecodePayload(env, tx.payload)
      case None => Applied(l, Failed(InvalidContract))
      case Some(op) => Stake(l, tx.sender, op)
    else Applied(l, Completed(false, 0, "invalid contract"))
  }

  function Execute(env: Env, l: Ledger, tx: Transaction): Applied {
    if !Verified(env, tx) then Applied(l, Failed(InvalidSignature))
    else if AccountOf(l.accounts, tx.sender).nonce != tx.nonce then
      Applied(l, Completed(false, 0, "invalid nonce"))
    else if AccountOf(l.accounts, tx.sender).balance < tx.fee then
      Applied(l, Completed(false, 0, "insufficient balance for fee"))
    else Dispatch(env, TakeFee(l, tx), tx)
  }

  /** The ledger after a list of transactions, whatever each of them returned. */
  function ExecuteAll(env: Env, l: Ledger, txs: seq<Transaction>): Ledger
    decreases |txs|
  {
    if txs == [] then l
    else ExecuteAll(env, Execute(env, l, txs[0]).ledger, txs[1..])
  }

  // ------------------------------------------------------- native executor --

  function ExecuteNative(env: Env, l: Ledger, tx: Transaction): Applied {
    var sender := AccountOf(l.accounts, tx.sender);
    var total := tx.amount + tx.fee;
    if !Verified(env, tx) then Applied(l, Failed(InvalidSignature))
    else if sender.nonce != tx.nonce then Applied(l, Completed(false, 0, "invalid nonce"))
    else if total > U128_MAX then Applied(l, Failed(InsufficientBalance))
    else if sender.balance < total then Applied(l, Completed(false, 0, "insufficient balance"))
    else if tx.sender !in l.accounts then Applied(l, Failed(Storage))
    else
      var debited := PutAccount(l, tx.sender, Account(sender.balance - total, WrapSucc64(sender.nonce)));
      match Credit(debited, tx.recipient, tx.amount)
      case Ok(l') => Applied(l', Completed(true, 21_000, "ok"))
      case Err(e) => Applied(debited, Failed(e))
  }
}
