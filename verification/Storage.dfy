/** The state store: accounts in one ordered map, validator records and
    delegations as encoded bytes in a second one under prefixed keys. The store
    refines the three typed tables of `LedgerModel`. */
module Storage {
  import opened Primitives
  import opened Ordering
  import opened LedgerModel

  // ------------------------------------------------------------------ keys --

  const VALIDATOR_PREFIX: Bytes := [0x76, 0x61, 0x6c, 0x3a]   // "val:"
  const DELEGATION_PREFIX: Bytes := [0x64, 0x6c, 0x67, 0x3a]  // "dlg:"
  const ACCOUNT_PREFIX: Bytes := [0x61, 0x63, 0x63, 0x3a]     // "acc:"

  function ValidatorKey(a: Address): Bytes {
    VALIDATOR_PREFIX + a.bytes
  }

  function DelegationKey(p: (Address, Address)): Bytes {
    DELEGATION_PREFIX + p.0.bytes + p.1.bytes
  }

  function AccountKey(a: Address): Bytes {
    ACCOUNT_PREFIX + a.bytes
  }

  predicate StartsWith(k: Bytes, prefix: Bytes) {
    |prefix| <= |k| && k[..|prefix|] == prefix
  }

  predicate IsValidatorKey(k: Bytes) {
    |k| == 36 && StartsWith(k, VALIDATOR_PREFIX)
  }

  predicate IsDelegationKey(k: Bytes) {
    |k| == 68 && StartsWith(k, DELEGATION_PREFIX)
  }

  function KeyAddress(k: Bytes): Address
    requires |k| == 36
  {
    Address(k[4..])
  }

  /** Key builders have left inverses and pairwise distinct prefixes: they are
      injective and their images are disjoint. */
  lemma KeysAreDistinct(a: Address, b: Address, p: (Address, Address), q: (Address, Address))
    ensures IsValidatorKey(ValidatorKey(a)) && KeyAddress(ValidatorKey(a)) == a
    ensures |AccountKey(a)| == 36 && KeyAddress(AccountKey(a)) == a
    ensures IsDelegationKey(DelegationKey(p))
    ensures ValidatorKey(a) == ValidatorKey(b) <==> a == b
    ensures AccountKey(a) == AccountKey(b) <==> a == b
    ensures DelegationKey(p) == DelegationKey(q) <==> p == q
    ensures ValidatorKey(a) != DelegationKey(p) && AccountKey(a) != ValidatorKey(b) && AccountKey(a) != DelegationKey(p)
  {
    assert ValidatorKey(a)[4..] == a.bytes && ValidatorKey(b)[4..] == b.bytes;
    assert AccountKey(a)[4..] == a.bytes && AccountKey(b)[4..] == b.bytes;
    assert DelegationKey(p)[..4] == DELEGATION_PREFIX;
    assert DelegationKey(p)[4..36] == p.0.bytes && DelegationKey(p)[36..] == p.1.bytes;
    assert DelegationKey(q)[4..36] == q.0.bytes && DelegationKey(q)[36..] == q.1.bytes;
    assert AccountKey(a)[0] != ValidatorKey(b)[0];
  }

  /** The text of a prefix, as bytes. */
  function Ascii(text: string): Bytes {
    seq(|text|, i requires 0 <= i < |text| => text[i] as int % 256)
  }

  /** How the keys are laid out: a four-letter prefix, then the address, and for a
      delegation the delegator before the validator. */
  lemma KeyLayout(a: Address, p: (Address, Address))
    ensures ValidatorKey(a)[..4] == Ascii("val:") && AccountKey(a)[..4] == Ascii("acc:")
    ensures DelegationKey(p)[..4] == Ascii("dlg:")
    ensures |ValidatorKey(a)| == |AccountKey(a)| == 36 && |DelegationKey(p)| == 68
    ensures forall i :: 0 <= i < 32 ==>
              && ValidatorKey(a)[4 + i] == AccountKey(a)[4 + i] == a.bytes[i]
              && DelegationKey(p)[4 + i] == p.0.bytes[i] && DelegationKey(p)[36 + i] == p.1.bytes[i]
  {
    assert Ascii("val:") == VALIDATOR_PREFIX && Ascii("acc:") == ACCOUNT_PREFIX && Ascii("dlg:") == DELEGATION_PREFIX;
  }

  lemma PrefixesAreForeign(a: Address, k: Bytes)
    ensures !IsValidatorKey(AccountKey(a)) && !IsDelegationKey(AccountKey(a))
    ensures IsDelegationKey(k) ==> !StartsWith(k, VALIDATOR_PREFIX)
  {
    assert AccountKey(a)[..4] == ACCOUNT_PREFIX;
    assert StartsWith(k, VALIDATOR_PREFIX) ==> k[..4][0] == VALIDATOR_PREFIX[0];
  }

  lemma ValidatorKeyOnto(k: Bytes)
    requires IsValidatorKey(k)
    ensures k == ValidatorKey(KeyAddress(k))
  {
    assert k == k[..4] + k[4..];
  }

  // ------------------------------------------------------------ prefix scan --

  /** `BTreeMap::range(prefix..)` on the sorted keys. */
  function RangeFrom(keys: seq<Bytes>, prefix: Bytes): seq<Bytes> {
    if keys == [] || LexLeq(prefix, keys[0]) then keys else RangeFrom(keys[1..], prefix)
  }

  function TakeWhilePrefix(keys: seq<Bytes>, prefix: Bytes): seq<Bytes> {
    if keys == [] || !StartsWith(keys[0], prefix) then [] else [keys[0]] + TakeWhilePrefix(keys[1..], prefix)
  }

  /** The reference: keep every key that starts with the prefix. */
  function FilterPrefix(keys: seq<Bytes>, prefix: Bytes): (r: seq<Bytes>)
    ensures forall k :: k in r <==> k in keys && StartsWith(k, prefix)
  {
    if keys == [] then []
    else (if StartsWith(keys[0], prefix) then [keys[0]] else []) + FilterPrefix(keys[1..], prefix)
  }

  lemma {:induction false} PrefixedIsAbove(k: Bytes, prefix: Bytes)
    requires StartsWith(k, prefix)
    ensures LexLeq(prefix, k)
  {
    if prefix != [] {
      assert k[1..][..|prefix| - 1] == prefix[1..];
      PrefixedIsAbove(k[1..], prefix[1..]);
    }
  }

  /** Keys with a prefix are contiguous from the prefix on. */
  lemma {:induction false} PrefixedIsContiguous(j: Bytes, k: Bytes, prefix: Bytes)
    requires LexLeq(prefix, j) && LexLeq(j, k) && StartsWith(k, prefix)
    ensures StartsWith(j, prefix)
  {
    if prefix != [] {
      assert k[1..][..|prefix| - 1] == prefix[1..];
      assert j[0] == k[0] == prefix[0];
      PrefixedIsContiguous(j[1..], k[1..], prefix[1..]);
      assert j[..|prefix|] == [j[0]] + j[1..][..|prefix| - 1];
    }
  }

  lemma {:induction false} NothingAfterGap(keys: seq<Bytes>, prefix: Bytes)
    requires StrictlyAscending(keys, LexLeq)
    requires keys != [] && LexLeq(prefix, keys[0]) && !StartsWith(keys[0], prefix)
    ensures FilterPrefix(keys, prefix) == []
  {
    forall k | k in keys ensures !StartsWith(k, prefix) {
      var i :| 0 <= i < |keys| && keys[i] == k;
      LexReflexive(keys[0]);
      assert LexLeq(keys[0], keys[i]);
      if StartsWith(k, prefix) { PrefixedIsContiguous(keys[0], k, prefix); }
    }
    assert forall k :: k !in FilterPrefix(keys, prefix);
    EmptyWithoutMembers(FilterPrefix(keys, prefix));
  }

  lemma EmptyWithoutMembers(s: seq<Bytes>)
    ensures (forall k :: k !in s) ==> s == []
  {
    if s != [] { assert s[0] in s; }
  }

  lemma {:induction false} TakeWhileIsFilter(keys: seq<Bytes>, prefix: Bytes)
    requires StrictlyAscending(keys, LexLeq)
    requires keys != [] ==> LexLeq(prefix, keys[0])
    ensures TakeWhilePrefix(keys, prefix) == FilterPrefix(keys, prefix)
  {
    if keys != [] {
      if StartsWith(keys[0], prefix) {
        if 1 < |keys| { LexTransitive(prefix, keys[0], keys[1]); }
        TakeWhileIsFilter(keys[1..], prefix);
      } else {
        NothingAfterGap(keys, prefix);
      }
    }
  }

  /** Seeking to the prefix and stopping at the first foreign key finds exactly
      the keys that start with it, in order. */
  lemma {:induction false} ScanIsFilter(keys: seq<Bytes>, prefix: Bytes)
    requires StrictlyAscending(keys, LexLeq)
    ensures TakeWhilePrefix(RangeFrom(keys, prefix), prefix) == FilterPrefix(keys, prefix)
  {
    if keys != [] {
      if LexLeq(prefix, keys[0]) {
        TakeWhileIsFilter(keys, prefix);
      } else {
        if StartsWith(keys[0], prefix) { PrefixedIsAbove(keys[0], prefix); }
        ScanIsFilter(keys[1..], prefix);
      }
    }
  }

  lemma {:induction false} FilterAscending(keys: seq<Bytes>, prefix: Bytes)
    requires StrictlyAscending(keys, LexLeq)
    ensures StrictlyAscending(FilterPrefix(keys, prefix), LexLeq)
  {
    if keys != [] {
      FilterAscending(keys[1..], prefix);
      FilterAbove(keys, prefix);
      var rest := FilterPrefix(keys[1..], prefix);
      AscendingCons(keys[0], rest, LexLeq);
    }
  }

  lemma FilterAbove(keys: seq<Bytes>, prefix: Bytes)
    requires keys != [] && StrictlyAscending(keys, LexLeq)
    ensures BelowAll(keys[0], FilterPrefix(keys[1..], prefix), LexLeq)
  {
    forall k | k in FilterPrefix(keys[1..], prefix) ensures LexLeq(keys[0], k) && keys[0] != k {
      var n :| 0 <= n < |keys[1..]| && keys[1..][n] == k;
      assert LexLeq(keys[0], keys[n + 1]) && keys[0] != keys[n + 1];
    }
  }

  // ------------------------------------------------------------- refinement --

  datatype Codecs = Codecs(account: Codec<Account>, validator: Codec<ValidatorRecord>, delegation: Codec<Delegation>)
  {
    ghost predicate Lossless() {
      account.Lossless() && validator.Lossless() && delegation.Lossless()
    }
  }

  /** The raw map holds exactly the encodings of the two typed tables. */
  ghost predicate Represents(c: Codecs, raw: map<Bytes, Bytes>, l: Ledger) {
    && (forall a {:trigger ValidatorKey(a)} :: a in l.validators <==> ValidatorKey(a) in raw)
    && (forall a {:trigger ValidatorKey(a)} ::
          a in l.validators ==> raw[ValidatorKey(a)] == c.validator.encode(l.validators[a]))
    && (forall p {:trigger DelegationKey(p)} :: p in l.delegations <==> DelegationKey(p) in raw)
    && (forall p {:trigger DelegationKey(p)} ::
          p in l.delegations ==> raw[DelegationKey(p)] == c.delegation.encode(l.delegations[p]))
    && (forall k :: k in raw ==> IsValidatorKey(k) || IsDelegationKey(k))
  }

  lemma PutValidatorRefines(c: Codecs, raw: map<Bytes, Bytes>, l: Ledger, a: Address, r: ValidatorRecord)
    requires Represents(c, raw, l)
    ensures Represents(c, raw[ValidatorKey(a) := c.validator.encode(r)], PutValidator(l, a, r))
  {
    forall b, p ensures (ValidatorKey(b) == ValidatorKey(a) <==> a == b) && DelegationKey(p) != ValidatorKey(a) {
      KeysAreDistinct(a, b, p, p);
    }
    KeysAreDistinct(a, a, (a, a), (a, a));
  }

  lemma PutDelegationRefines(c: Codecs, raw: map<Bytes, Bytes>, l: Ledger, p: (Address, Address), d: Delegation)
    requires Represents(c, raw, l)
    ensures Represents(c, raw[DelegationKey(p) := c.delegation.encode(d)], PutDelegation(l, p, d))
  {
    forall b, q ensures (DelegationKey(q) == DelegationKey(p) <==> p == q) && ValidatorKey(b) != DelegationKey(p) {
      KeysAreDistinct(b, b, p, q);
    }
    KeysAreDistinct(p.0, p.0, p, p);
  }

  lemma DropDelegationRefines(c: Codecs, raw: map<Bytes, Bytes>, l: Ledger, p: (Address, Address))
    requires Represents(c, raw, l)
    ensures Represents(c, raw - {DelegationKey(p)}, DropDelegation(l, p))
  {
    var raw', l' := raw - {DelegationKey(p)}, DropDelegation(l, p);
    forall b ensures b in l'.validators <==> ValidatorKey(b) in raw' {
      KeysAreDistinct(b, b, p, p);
      assert ValidatorKey(b) in raw' <==> ValidatorKey(b) in raw;
    }
    forall q ensures q in l'.delegations <==> DelegationKey(q) in raw' {
      KeysAreDistinct(p.0, p.0, p, q);
      assert DelegationKey(q) in raw' <==> DelegationKey(q) in raw && DelegationKey(q) != DelegationKey(p);
    }
  }

  /** The validator table as `validator_records` must list it: each record once,
      in address order. */
  function ListValidators(validators: map<Address, ValidatorRecord>): seq<(Address, ValidatorRecord)> {
    SortedAddressesFacts(validators.Keys);
    var keys := SortedAddresses(validators.Keys);
    seq(|keys|, i requires 0 <= i < |keys| => assert keys[i] in keys; (keys[i], validators[keys[i]]))
  }

  lemma {:induction false} LexCommonPrefix(prefix: Bytes, a: Bytes, b: Bytes)
    ensures LexLeq(prefix + a, prefix + b) <==> LexLeq(a, b)
  {
    if prefix == [] {
      assert prefix + a == a && prefix + b == b;
    } else {
      assert (prefix + a)[1..] == prefix[1..] + a && (prefix + b)[1..] == prefix[1..] + b;
      LexCommonPrefix(prefix[1..], a, b);
    }
  }

  function KeysOf(addrs: seq<Address>): (r: seq<Bytes>)
    ensures |r| == |addrs| && forall i :: 0 <= i < |addrs| ==> r[i] == ValidatorKey(addrs[i])
  {
    seq(|addrs|, i requires 0 <= i < |addrs| => ValidatorKey(addrs[i]))
  }

  lemma KeysOfAscending(addrs: seq<Address>)
    requires StrictlyAscending(addrs, AddressLeq)
    ensures StrictlyAscending(KeysOf(addrs), LexLeq)
  {
    var keys := KeysOf(addrs);
    forall i, j | 0 <= i < j < |keys| ensures LexLeq(keys[i], keys[j]) && keys[i] != keys[j] {
      assert AddressLeq(addrs[i], addrs[j]) && addrs[i] != addrs[j];
      LexCommonPrefix(VALIDATOR_PREFIX, addrs[i].bytes, addrs[j].bytes);
      KeysAreDistinct(addrs[i], addrs[j], (addrs[i], addrs[i]), (addrs[i], addrs[i]));
    }
  }

  lemma ValidatorKeyStored(c: Codecs, raw: map<Bytes, Bytes>, l: Ledger, a: Address)
    requires Represents(c, raw, l) && a in l.validators
    ensures ValidatorKey(a) in raw && StartsWith(ValidatorKey(a), VALIDATOR_PREFIX)
  {
    KeysAreDistinct(a, a, (a, a), (a, a));
  }

  lemma ValidatorKeyOwned(c: Codecs, raw: map<Bytes, Bytes>, l: Ledger, k: Bytes)
    requires Represents(c, raw, l) && k in raw && StartsWith(k, VALIDATOR_PREFIX)
    ensures |k| == 36 && k == ValidatorKey(KeyAddress(k)) && KeyAddress(k) in l.validators
  {
    PrefixesAreForeign(Address(seq(32, _ => 0)), k);
    ValidatorKeyOnto(k);
  }

  /** In a representing map the keys under `val:` are the keys of the validators. */
  lemma ValidatorKeysStored(c: Codecs, raw: map<Bytes, Bytes>, l: Ledger, k: Bytes)
    requires Represents(c, raw, l)
    ensures k in raw && StartsWith(k, VALIDATOR_PREFIX) <==> k in KeysOf(SortedAddresses(l.validators.Keys))
  {
    var addrs := SortedAddresses(l.validators.Keys);
    SortedAddressesFacts(l.validators.Keys);
    var keys := KeysOf(addrs);
    if k in raw && StartsWith(k, VALIDATOR_PREFIX) {
      ValidatorKeyOwned(c, raw, l, k);
      assert KeyAddress(k) in addrs;
      var i :| 0 <= i < |addrs| && addrs[i] == KeyAddress(k);
      assert keys[i] == k;
    }
    if k in keys {
      var i :| 0 <= i < |keys| && keys[i] == k;
      assert addrs[i] in addrs;
      ValidatorKeyStored(c, raw, l, addrs[i]);
    }
  }

  /** The prefix scan of a representing map visits the validator keys in the
      order of their addresses. */
  lemma ScanListsValidators(c: Codecs, raw: map<Bytes, Bytes>, l: Ledger)
    requires Represents(c, raw, l)
    ensures TakeWhilePrefix(RangeFrom(SortedKeys(raw.Keys), VALIDATOR_PREFIX), VALIDATOR_PREFIX) ==
            KeysOf(SortedAddresses(l.validators.Keys))
  {
    var sorted := SortedKeys(raw.Keys);
    SortedKeysFacts(raw.Keys);
    SortedAddressesFacts(l.validators.Keys);
    var keys := FilterPrefix(sorted, VALIDATOR_PREFIX);
    ScanIsFilter(sorted, VALIDATOR_PREFIX);
    FilterAscending(sorted, VALIDATOR_PREFIX);
    var expected := KeysOf(SortedAddresses(l.validators.Keys));
    KeysOfAscending(SortedAddresses(l.validators.Keys));
    forall k ensures k in keys <==> k in expected {
      ValidatorKeysStored(c, raw, l, k);
    }
    BytesOrder();
    AscendingUnique(keys, expected, LexLeq);
  }

  /** Each scanned key decodes to the record of its address. */
  lemma ScannedRecord(c: Codecs, raw: map<Bytes, Bytes>, l: Ledger, a: Address)
    requires c.Lossless() && Represents(c, raw, l) && a in l.validators
    ensures ValidatorKey(a) in raw && |ValidatorKey(a)| == 36 && KeyAddress(ValidatorKey(a)) == a
    ensures c.validator.decode(raw[ValidatorKey(a)]) == Some(l.validators[a])
  {
    KeysAreDistinct(a, a, (a, a), (a, a));
    assert c.validator.decode(c.validator.encode(l.validators[a])) == Some(l.validators[a]);
  }

  // -------------------------------------------------------------- snapshots --

  ghost function AccountEntries(c: Codecs, accounts: map<Address, Account>): map<Bytes, Bytes> {
    var keys := set a | a in accounts :: AccountKey(a);
    map k | k in keys && |k| == 36 && KeyAddress(k) in accounts :: c.account.encode(accounts[KeyAddress(k)])
  }

  ghost function Snapshot(c: Codecs, accounts: map<Address, Account>, raw: map<Bytes, Bytes>): map<Bytes, Bytes> {
    AccountEntries(c, accounts) + raw
  }

  lemma AccountEntry(c: Codecs, accounts: map<Address, Account>, a: Address)
    ensures a in accounts <==> AccountKey(a) in AccountEntries(c, accounts)
    ensures a in accounts ==> AccountEntries(c, accounts)[AccountKey(a)] == c.account.encode(accounts[a])
  {
    KeysAreDistinct(a, a, (a, a), (a, a));
  }

  lemma AccountEntryKey(c: Codecs, accounts: map<Address, Account>, k: Bytes)
    requires k in AccountEntries(c, accounts)
    ensures |k| == 36 && KeyAddress(k) in accounts && k == AccountKey(KeyAddress(k))
  {
    var a :| a in accounts && k == AccountKey(a);
    KeysAreDistinct(a, a, (a, a), (a, a));
  }

  lemma SnapshotLookup(c: Codecs, raw: map<Bytes, Bytes>, l: Ledger, a: Address)
    requires Represents(c, raw, l)
    ensures var s := Snapshot(c, l.accounts, raw);
            && (a in l.accounts <==> AccountKey(a) in s)
            && (a in l.accounts ==> s[AccountKey(a)] == c.account.encode(l.accounts[a]))
  {
    AccountEntry(c, l.accounts, a);
    PrefixesAreForeign(a, []);
  }

  lemma SnapshotRaw(c: Codecs, raw: map<Bytes, Bytes>, l: Ledger, k: Bytes)
    requires Represents(c, raw, l)
    ensures var s := Snapshot(c, l.accounts, raw);
            && (k in raw ==> k in s && s[k] == raw[k])
            && (k in s && (IsValidatorKey(k) || IsDelegationKey(k)) ==> k in raw)
  {
    if k in AccountEntries(c, l.accounts) {
      AccountEntryKey(c, l.accounts, k);
      PrefixesAreForeign(KeyAddress(k), []);
    }
  }

  lemma SameAccountsTable(c: Codecs, raw: map<Bytes, Bytes>, l: Ledger, raw': map<Bytes, Bytes>, l': Ledger)
    requires c.Lossless() && Represents(c, raw, l) && Represents(c, raw', l')
    requires Snapshot(c, l.accounts, raw) == Snapshot(c, l'.accounts, raw')
    ensures l.accounts == l'.accounts
  {
    forall a ensures a in l.accounts <==> a in l'.accounts {
      SnapshotLookup(c, raw, l, a);
      SnapshotLookup(c, raw', l', a);
    }
    forall a | a in l.accounts ensures l.accounts[a] == l'.accounts[a] {
      SnapshotLookup(c, raw, l, a);
      SnapshotLookup(c, raw', l', a);
      assert c.account.decode(c.account.encode(l.accounts[a])) == Some(l.accounts[a]);
      assert c.account.decode(c.account.encode(l'.accounts[a])) == Some(l'.accounts[a]);
    }
  }

  lemma SameRaw(c: Codecs, raw: map<Bytes, Bytes>, l: Ledger, raw': map<Bytes, Bytes>, l': Ledger)
    requires Represents(c, raw, l) && Represents(c, raw', l')
    requires Snapshot(c, l.accounts, raw) == Snapshot(c, l'.accounts, raw')
    ensures raw == raw'
  {
    forall k ensures k in raw <==> k in raw' {
      SnapshotRaw(c, raw, l, k);
      SnapshotRaw(c, raw', l', k);
    }
    forall k | k in raw ensures raw[k] == raw'[k] {
      SnapshotRaw(c, raw, l, k);
      SnapshotRaw(c, raw', l', k);
    }
  }

  /** A representing map determines the typed tables. */
  lemma SameTables(c: Codecs, raw: map<Bytes, Bytes>, l: Ledger, l': Ledger)
    requires c.Lossless() && Represents(c, raw, l) && Represents(c, raw, l')
    ensures l.validators == l'.validators && l.delegations == l'.delegations
  {
    forall a | a in l.validators ensures a in l'.validators && l.validators[a] == l'.validators[a] {
      assert ValidatorKey(a) in raw;
      assert c.validator.decode(raw[ValidatorKey(a)]) == Some(l.validators[a]);
      assert c.validator.decode(raw[ValidatorKey(a)]) == Some(l'.validators[a]);
    }
    forall p | p in l.delegations ensures p in l'.delegations && l.delegations[p] == l'.delegations[p] {
      assert DelegationKey(p) in raw;
      assert c.delegation.decode(raw[DelegationKey(p)]) == Some(l.delegations[p]);
      assert c.delegation.decode(raw[DelegationKey(p)]) == Some(l'.delegations[p]);
    }
    assert l.validators.Keys == l'.validators.Keys by {
      forall a ensures a in l.validators <==> a in l'.validators {
        assert ValidatorKey(a) in raw <==> a in l.validators;
      }
    }
    assert l.delegations.Keys == l'.delegations.Keys by {
      forall p ensures p in l.delegations <==> p in l'.delegations {
        assert DelegationKey(p) in raw <==> p in l.delegations;
      }
    }
  }

  lemma SameLedgerSameRaw(c: Codecs, raw: map<Bytes, Bytes>, raw': map<Bytes, Bytes>, l: Ledger)
    requires Represents(c, raw, l) && Represents(c, raw', l)
    ensures raw == raw'
  {
    forall k ensures k in raw ==> k in raw' && raw[k] == raw'[k] {
      RawEntryDetermined(c, raw, raw', l, k);
    }
    forall k ensures k in raw' ==> k in raw {
      RawEntryDetermined(c, raw', raw, l, k);
    }
  }

  lemma RawEntryDetermined(c: Codecs, raw: map<Bytes, Bytes>, raw': map<Bytes, Bytes>, l: Ledger, k: Bytes)
    requires Represents(c, raw, l) && Represents(c, raw', l)
    ensures k in raw ==> k in raw' && raw[k] == raw'[k]
  {
    if k in raw {
      if IsValidatorKey(k) {
        ValidatorKeyOnto(k);
        assert KeyAddress(k) in l.validators;
      } else {
        var p := (Address(k[4..36]), Address(k[36..]));
        assert k == k[..4] + k[4..36] + k[36..] == DelegationKey(p);
        assert p in l.delegations;
      }
    }
  }

  /** Two stores have the same snapshot, and so the same state root, exactly when
      all three tables are equal. */
  lemma SnapshotsAgreeExactly(c: Codecs, raw: map<Bytes, Bytes>, l: Ledger, raw': map<Bytes, Bytes>, l': Ledger)
    requires c.Lossless() && Represents(c, raw, l) && Represents(c, raw', l')
    ensures Snapshot(c, l.accounts, raw) == Snapshot(c, l'.accounts, raw') <==> l == l'
  {
    if Snapshot(c, l.accounts, raw) == Snapshot(c, l'.accounts, raw') {
      SameAccountsTable(c, raw, l, raw', l');
      SameRaw(c, raw, l, raw', l');
      SameTables(c, raw, l, l');
    } else if l == l' {
      SameLedgerSameRaw(c, raw, raw', l);
    }
  }

  // ------------------------------------------------------------------ store --

  datatype StorageError = NotFound | Serialization | Backend(message: string)

  class StateStore {
    const codecs: Codecs
    var accounts: map<Address, Account>
    var raw: map<Bytes, Bytes>
    ghost var tables: Ledger

    ghost predicate Valid()
      reads this
    {
      codecs.Lossless() && tables.accounts == accounts && Represents(codecs, raw, tables)
    }

    constructor (c: Codecs)
      requires c.Lossless()
      ensures Valid() && tables == Ledger(map[], map[], map[])
    {
      codecs := c;
      accounts := map[];
      raw := map[];
      tables := Ledger(map[], map[], map[]);
    }

    function GetAccount(a: Address): Option<Account>
      reads this
    {
      if a in accounts then Some(accounts[a]) else None
    }

    function Balance(a: Address): U128
      reads this
    {
      match GetAccount(a) case Some(acc) => acc.balance case None => 0
    }

    function Nonce(a: Address): U64
      reads this
    {
      match GetAccount(a) case Some(acc) => acc.nonce case None => 0
    }

    method SetAccount(a: Address, acc: Account)
      requires Valid()
      modifies this
      ensures Valid() && tables == PutAccount(old(tables), a, acc)
    {
      accounts := accounts[a := acc];
      tables := PutAccount(tables, a, acc);
    }

    method ValidatorRecordOf(a: Address) returns (r: Result<Option<ValidatorRecord>, StorageError>)
      requires Valid()
      ensures r == Ok(if a in tables.validators then Some(tables.validators[a]) else None)
    {
      if ValidatorKey(a) in raw {
        assert codecs.validator.decode(raw[ValidatorKey(a)]) == Some(tables.validators[a]);
        var decoded := codecs.validator.decode(raw[ValidatorKey(a)]);
        r := if decoded.None? then Err(Serialization) else Ok(decoded);
      } else {
        r := Ok(None);
      }
    }

    method SetValidatorRecord(a: Address, record: ValidatorRecord)
      requires Valid()
      modifies this
      ensures Valid() && tables == PutValidator(old(tables), a, record)
    {
      PutValidatorRefines(codecs, raw, tables, a, record);
      raw := raw[ValidatorKey(a) := codecs.validator.encode(record)];
      tables := PutValidator(tables, a, record);
    }

    method DelegationBetween(delegator: Address, validator: Address)
      returns (r: Result<Option<Delegation>, StorageError>)
      requires Valid()
      ensures r == Ok(if (delegator, validator) in tables.delegations
                      then Some(tables.delegations[(delegator, validator)]) else None)
    {
      var key := DelegationKey((delegator, validator));
      if key in raw {
        assert codecs.delegation.decode(raw[key]) == Some(tables.delegations[(delegator, validator)]);
        var decoded := codecs.delegation.decode(raw[key]);
        r := if decoded.None? then Err(Serialization) else Ok(decoded);
      } else {
        r := Ok(None);
      }
    }

    method SetDelegation(delegator: Address, validator: Address, d: Delegation)
      requires Valid()
      modifies this
      ensures Valid() && tables == PutDelegation(old(tables), (delegator, validator), d)
    {
      PutDelegationRefines(codecs, raw, tables, (delegator, validator), d);
      raw := raw[DelegationKey((delegator, validator)) := codecs.delegation.encode(d)];
      tables := PutDelegation(tables, (delegator, validator), d);
    }

    method DeleteDelegation(delegator: Address, validator: Address)
      requires Valid()
      modifies this
      ensures Valid() && tables == DropDelegation(old(tables), (delegator, validator))
    {
      DropDelegationRefines(codecs, raw, tables, (delegator, validator));
      raw := raw - {DelegationKey((delegator, validator))};
      tables := DropDelegation(tables, (delegator, validator));
    }

    method TransferAmountOnly(to: Address, amount: U128) returns (r: Result<(), StorageError>)
      requires Valid()
      modifies this
      ensures Valid()
      ensures match Credit(old(tables), to, amount)
              case Ok(l) => r.Ok? && tables == l
              case Err(_) => r == Err(Backend("balance overflow")) && tables == old(tables)
    {
      var recipient := AccountOf(accounts, to);
      if recipient.balance + amount > U128_MAX {
        return Err(Backend("balance overflow"));
      }
      SetAccount(to, recipient.(balance := recipient.balance + amount));
      r := Ok(());
    }

    method Transfer(from: Address, to: Address, amount: U128, fee: U128) returns (r: Result<(), StorageError>)
      requires Valid()
      modifies this
      ensures Valid()
      ensures var l := old(tables);
              if from !in l.accounts then r == Err(NotFound) && tables == l
              else if amount + fee > U128_MAX then r == Err(Backend("balance overflow")) && tables == l
              else if l.accounts[from].balance < amount + fee then
                r == Err(Backend("insufficient balance")) && tables == l
              else
                var s := l.accounts[from];
                var debited := PutAccount(l, from, Account(s.balance - amount - fee, WrapSucc64(s.nonce)));
                match Credit(debited, to, amount)
                case Ok(l') => r.Ok? && tables == l'
                case Err(_) => r == Err(Backend("balance overflow")) && tables == debited
    {
      var stored := GetAccount(from);
      if stored.None? { return Err(NotFound); }
      var sender := stored.value;
      if amount + fee > U128_MAX { return Err(Backend("balance overflow")); }
      if sender.balance < amount + fee { return Err(Backend("insufficient balance")); }
      SetAccount(from, Account(sender.balance - (amount + fee), WrapSucc64(sender.nonce)));
      r := TransferAmountOnly(to, amount);
    }

    /** The keys of `iter_raw_prefix`, in iteration order. */
    function IterRawPrefix(prefix: Bytes): seq<Bytes>
      reads this
    {
      TakeWhilePrefix(RangeFrom(SortedKeys(raw.Keys), prefix), prefix)
    }

    method ValidatorRecords() returns (r: Result<seq<(Address, ValidatorRecord)>, StorageError>)
      requires Valid()
      ensures r == Ok(ListValidators(tables.validators))
    {
      var keys := IterRawPrefix(VALIDATOR_PREFIX);
      ScanDecodes(codecs, raw, tables);
      var records := DecodeRecords(codecs.validator, raw, keys, ListValidators(tables.validators));
      r := Ok(records);
    }

    /** The map that `state_root` hashes. */
    method BuildSnapshot() returns (snapshot: map<Bytes, Bytes>)
      requires Valid()
      ensures snapshot == Snapshot(codecs, tables.accounts, raw)
    {
      var accountEntries := EncodeAccounts(codecs, accounts);
      snapshot := InsertAll(accountEntries, raw);
    }
  }

  /** The loop of `validator_records` over the scanned entries. */
  method DecodeRecords(c: Codec<ValidatorRecord>, raw: map<Bytes, Bytes>, keys: seq<Bytes>,
                       ghost listed: seq<(Address, ValidatorRecord)>) returns (records: seq<(Address, ValidatorRecord)>)
    requires |keys| == |listed|
    requires forall i :: 0 <= i < |keys| ==> Decodes(c, raw, keys[i], listed[i])
    ensures records == listed
  {
    records := [];
    var i := 0;
    while i < |keys|
      invariant 0 <= i <= |keys|
      invariant records == listed[..i]
    {
      var key := keys[i];
      assert Decodes(c, raw, keys[i], listed[i]);
      if |key| == |VALIDATOR_PREFIX| + 32 {
        var record := c.decode(raw[key]);
        records := records + [(KeyAddress(key), record.value)];
      }
      i := i + 1;
    }
  }

  ghost predicate Decodes(
    c: Codec<ValidatorRecord>, raw: map<Bytes, Bytes>, key: Bytes, entry: (Address, ValidatorRecord))
  {
    && key in raw && |key| == 36 && KeyAddress(key) == entry.0
    && c.decode(raw[key]) == Some(entry.1)
  }

  lemma ScanDecodes(c: Codecs, raw: map<Bytes, Bytes>, l: Ledger)
    requires c.Lossless() && Represents(c, raw, l)
    ensures var keys := TakeWhilePrefix(RangeFrom(SortedKeys(raw.Keys), VALIDATOR_PREFIX), VALIDATOR_PREFIX);
            var listed := ListValidators(l.validators);
            && |keys| == |listed|
            && forall i :: 0 <= i < |keys| ==> Decodes(c.validator, raw, keys[i], listed[i])
  {
    ScanListsValidators(c, raw, l);
    var addrs := SortedAddresses(l.validators.Keys);
    SortedAddressesFacts(l.validators.Keys);
    var listed := ListValidators(l.validators);
    forall i | 0 <= i < |addrs| ensures Decodes(c.validator, raw, KeysOf(addrs)[i], listed[i]) {
      assert addrs[i] in addrs;
      ScannedRecord(c, raw, l, addrs[i]);
    }
  }

  method EncodeAccounts(c: Codecs, accounts: map<Address, Account>) returns (entries: map<Bytes, Bytes>)
    ensures entries == AccountEntries(c, accounts)
  {
    var addrs := SortedAddresses(accounts.Keys);
    SortedAddressesFacts(accounts.Keys);
    RestrictEnds(c, accounts, addrs);
    entries := map[];
    var i := 0;
    while i < |addrs|
      invariant 0 <= i <= |addrs|
      invariant entries == AccountEntries(c, Restrict(accounts, addrs[..i]))
    {
      assert addrs[i] in addrs;
      EntriesGrow(c, accounts, addrs, i);
      entries := entries[AccountKey(addrs[i]) := c.account.encode(accounts[addrs[i]])];
      i := i + 1;
    }
  }

  lemma RestrictEnds(c: Codecs, accounts: map<Address, Account>, addrs: seq<Address>)
    requires forall a :: a in addrs <==> a in accounts
    ensures AccountEntries(c, Restrict(accounts, addrs[..0])) == map[]
    ensures Restrict(accounts, addrs[..|addrs|]) == accounts
  {
    assert Restrict(accounts, addrs[..0]) == map[];
    assert addrs[..|addrs|] == addrs;
  }

  method InsertAll(base: map<Bytes, Bytes>, raw: map<Bytes, Bytes>) returns (m: map<Bytes, Bytes>)
    ensures m == base + raw
  {
    var keys := SortedKeys(raw.Keys);
    SortedKeysFacts(raw.Keys);
    FirstsEnds(base, raw, keys);
    m := base;
    var i := 0;
    while i < |keys|
      invariant 0 <= i <= |keys|
      invariant m == base + Firsts(raw, keys[..i])
    {
      assert keys[i] in keys;
      FirstsGrow(base, raw, keys, i);
      m := m[keys[i] := raw[keys[i]]];
      i := i + 1;
    }
  }

  lemma FirstsEnds(base: map<Bytes, Bytes>, raw: map<Bytes, Bytes>, keys: seq<Bytes>)
    requires forall k :: k in keys <==> k in raw
    ensures base + Firsts(raw, keys[..0]) == base && Firsts(raw, keys[..|keys|]) == raw
  {
    assert keys[..|keys|] == keys;
  }

  ghost function Firsts(raw: map<Bytes, Bytes>, keys: seq<Bytes>): map<Bytes, Bytes> {
    map k | k in raw && k in keys :: raw[k]
  }

  lemma FirstsGrow(base: map<Bytes, Bytes>, raw: map<Bytes, Bytes>, keys: seq<Bytes>, i: nat)
    requires i < |keys| && keys[i] in raw
    ensures base + Firsts(raw, keys[..i + 1]) == (base + Firsts(raw, keys[..i]))[keys[i] := raw[keys[i]]]
  {
    assert keys[..i + 1] == keys[..i] + [keys[i]];
  }

  ghost function Restrict(accounts: map<Address, Account>, addrs: seq<Address>): map<Address, Account> {
    map a | a in accounts && a in addrs :: accounts[a]
  }

  lemma EntriesPut(c: Codecs, m: map<Address, Account>, a: Address, acc: Account, k: Bytes)
    ensures var e, e' := AccountEntries(c, m)[AccountKey(a) := c.account.encode(acc)], AccountEntries(c, m[a := acc]);
            (k in e <==> k in e') && (k in e ==> e[k] == e'[k])
  {
    AccountEntry(c, m[a := acc], a);
    if k in AccountEntries(c, m[a := acc]) {
      AccountEntryKey(c, m[a := acc], k);
      AccountEntry(c, m, KeyAddress(k));
      AccountEntry(c, m[a := acc], KeyAddress(k));
    } else if k in AccountEntries(c, m) {
      AccountEntryKey(c, m, k);
      AccountEntry(c, m[a := acc], KeyAddress(k));
    }
  }

  lemma EntriesPutAll(c: Codecs, m: map<Address, Account>, a: Address, acc: Account)
    ensures AccountEntries(c, m[a := acc]) == AccountEntries(c, m)[AccountKey(a) := c.account.encode(acc)]
  {
    var e, e' := AccountEntries(c, m)[AccountKey(a) := c.account.encode(acc)], AccountEntries(c, m[a := acc]);
    forall k ensures (k in e <==> k in e') && (k in e ==> e[k] == e'[k]) {
      EntriesPut(c, m, a, acc, k);
    }
  }

  lemma EntriesGrow(c: Codecs, accounts: map<Address, Account>, addrs: seq<Address>, i: nat)
    requires i < |addrs| && addrs[i] in accounts
    ensures AccountEntries(c, Restrict(accounts, addrs[..i + 1])) ==
            AccountEntries(c, Restrict(accounts, addrs[..i]))
              [AccountKey(addrs[i]) := c.account.encode(accounts[addrs[i]])]
  {
    var m := Restrict(accounts, addrs[..i]);
    assert addrs[..i + 1] == addrs[..i] + [addrs[i]];
    assert Restrict(accounts, addrs[..i + 1]) == m[addrs[i] := accounts[addrs[i]]];
    EntriesPutAll(c, m, addrs[i], accounts[addrs[i]]);
  }
}
