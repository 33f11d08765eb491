/** Replay protection over whole transaction lists. */
module Replay {
  import opened Primitives
  import opened LedgerModel

  function NonceOf(l: Ledger, a: Address): U64 {
    AccountOf(l.accounts, a).nonce
  }

  lemma DispatchKeepsNonces(env: Env, l: Ledger, tx: Transaction, a: Address)
    ensures NonceOf(Dispatch(env, l, tx).ledger, a) == NonceOf(l, a)
  {}

  /** Only a charged transaction moves a nonce, and only its sender's. */
  lemma ExecuteNonce(env: Env, l: Ledger, tx: Transaction, a: Address)
    ensures NonceOf(Execute(env, l, tx).ledger, a) ==
            if a == tx.sender && Charges(env, l.accounts, tx) then WrapSucc64(NonceOf(l, a)) else NonceOf(l, a)
    ensures !Charges(env, l.accounts, tx) ==> Execute(env, l, tx).ledger == l
  {
    if Charges(env, l.accounts, tx) {
      DispatchKeepsNonces(env, TakeFee(l, tx), tx, a);
    }
  }

  /** The nonces charged to `a`, in order. */
  function ChargedNonces(env: Env, l: Ledger, txs: seq<Transaction>, a: Address): seq<U64>
    decreases |txs|
  {
    if txs == [] then []
    else
      (if txs[0].sender == a && Charges(env, l.accounts, txs[0]) then [txs[0].nonce] else [])
      + ChargedNonces(env, Execute(env, l, txs[0]).ledger, txs[1..], a)
  }

  const U64_RANGE: nat := U64_MAX + 1

  /** Counting up from a nonce, with the wrap of the u64. */
  function NonceAfter(start: U64, n: nat): U64 {
    (start + n) % U64_RANGE
  }

  lemma NonceAfterStep(start: U64, n: nat)
    ensures NonceAfter(start, 0) == start && NonceAfter(WrapSucc64(start), n) == NonceAfter(start, n + 1)
  {}

  /** Over any list of transactions the nonces charged to a sender are consecutive from
      its starting nonce, modulo 2^64, and the final nonce counts them. */
  lemma {:induction false} ChargedNoncesConsecutive(env: Env, l: Ledger, txs: seq<Transaction>, a: Address)
    ensures var ns := ChargedNonces(env, l, txs, a);
            && NonceOf(ExecuteAll(env, l, txs), a) == NonceAfter(NonceOf(l, a), |ns|)
            && forall i :: 0 <= i < |ns| ==> ns[i] == NonceAfter(NonceOf(l, a), i)
    decreases |txs|
  {
    if txs != [] {
      var l1 := Execute(env, l, txs[0]).ledger;
      var start, ns, rest := NonceOf(l, a), ChargedNonces(env, l, txs, a), ChargedNonces(env, l1, txs[1..], a);
      ExecuteNonce(env, l, txs[0], a);
      ChargedNoncesConsecutive(env, l1, txs[1..], a);
      if txs[0].sender == a && Charges(env, l.accounts, txs[0]) {
        assert ns == [start] + rest;
        forall i | 0 <= i < |ns| ensures ns[i] == NonceAfter(start, i) {
          if i > 0 { NonceAfterStep(start, i - 1); } else { NonceAfterStep(start, 0); }
        }
        NonceAfterStep(start, |rest|);
      } else {
        assert ns == rest;
      }
    }
  }

  lemma NonceAfterDistinct(start: U64, i: nat, j: nat)
    requires i <= j
    ensures NonceAfter(start, i) == NonceAfter(start, j) <==> (j - i) % U64_RANGE == 0
  {
    SameResidue(start + i, start + j, U64_RANGE);
  }

  lemma SameResidue(x: nat, y: nat, m: nat)
    requires x <= y && m > 0
    ensures x % m == y % m <==> (y - x) % m == 0
  {
    var q, r := (y - x) / m, (y - x) % m;
    assert y == x + q * m + r;
    WholeTurns(x + r, q, m);
    assert y % m == (x + r) % m;
    PartTurn(x, r, m);
  }

  lemma {:induction false} WholeTurns(x: nat, q: nat, m: nat)
    requires m > 0
    ensures (x + q * m) % m == x % m
  {
    if q > 0 {
      WholeTurns(x, q - 1, m);
      OneTurn(x + (q - 1) * m, m);
      assert x + q * m == x + (q - 1) * m + m;
    }
  }

  lemma OneTurn(x: nat, m: nat)
    requires m > 0
    ensures (x + m) % m == x % m
  {
    assert x + m == m * (x / m + 1) + x % m;
    Remainder(x + m, x / m + 1, x % m, m);
  }

  lemma Remainder(x: nat, q: nat, r: nat, m: nat)
    requires r < m && x == m * q + r
    ensures x % m == r
  {
    var d := x / m - q;
    assert m * d + x % m == r;
    Turns(m, d);
  }

  lemma Turns(m: nat, d: int)
    ensures (d >= 1 ==> m * d >= m) && (d <= -1 ==> m * d + m <= 0) && (d == 0 ==> m * d == 0)
  {}

  lemma PartTurn(x: nat, r: nat, m: nat)
    requires r < m
    ensures x % m == (x + r) % m <==> r == 0
  {
    var q, p := x / m, x % m;
    assert x == m * q + p;
    if p + r < m {
      Remainder(x + r, q, p + r, m);
    } else {
      assert x + r == m * (q + 1) + (p + r - m);
      Remainder(x + r, q + 1, p + r - m, m);
    }
  }

  lemma NonceAfterDiffers(start: U64, i: nat, j: nat)
    requires i < j
    ensures j < i + U64_RANGE ==> NonceAfter(start, i) != NonceAfter(start, j)
    ensures j == i + U64_RANGE ==> NonceAfter(start, i) == NonceAfter(start, j)
  {
    NonceAfterDistinct(start, i, j);
  }

  lemma CountingDistinctExactly(start: U64, ns: seq<U64>)
    requires forall i :: 0 <= i < |ns| ==> ns[i] == NonceAfter(start, i)
    ensures (forall i, j :: 0 <= i < j < |ns| ==> ns[i] != ns[j]) <==> |ns| <= U64_RANGE
  {
    if |ns| <= U64_RANGE {
      forall i, j | 0 <= i < j < |ns| ensures ns[i] != ns[j] { NonceAfterDiffers(start, i, j); }
    } else {
      NonceAfterDiffers(start, 0, U64_RANGE);
      assert ns[0] == ns[U64_RANGE];
    }
  }

  /** No nonce is charged twice to a sender exactly as long as it has been charged at
      most 2^64 times. */
  lemma ChargedNoncesDistinctExactly(env: Env, l: Ledger, txs: seq<Transaction>, a: Address)
    ensures var ns := ChargedNonces(env, l, txs, a);
            (forall i, j :: 0 <= i < j < |ns| ==> ns[i] != ns[j]) <==> |ns| <= U64_RANGE
  {
    ChargedNoncesConsecutive(env, l, txs, a);
    CountingDistinctExactly(NonceOf(l, a), ChargedNonces(env, l, txs, a));
  }

  lemma {:induction false} ExecuteAllAppend(env: Env, l: Ledger, txs: seq<Transaction>, more: seq<Transaction>)
    ensures ExecuteAll(env, l, txs + more) == ExecuteAll(env, ExecuteAll(env, l, txs), more)
    decreases |txs|
  {
    if txs == [] {
      assert txs + more == more;
    } else {
      ExecuteAllAppend(env, Execute(env, l, txs[0]).ledger, txs[1..], more);
      assert (txs + more)[0] == txs[0] && (txs + more)[1..] == txs[1..] + more;
    }
  }

  /** Transaction `i` of the list is charged when its turn comes. */
  predicate ChargedAt(env: Env, l: Ledger, txs: seq<Transaction>, i: nat)
    requires i < |txs|
  {
    Charges(env, ExecuteAll(env, l, txs[..i]).accounts, txs[i])
  }

  /** How often the sender of transaction `i` is charged from there up to `j`. */
  function ChargesFrom(env: Env, l: Ledger, txs: seq<Transaction>, i: nat, j: nat): nat
    requires i <= j <= |txs| && i < |txs|
  {
    |ChargedNonces(env, ExecuteAll(env, l, txs[..i]), txs[i..j], txs[i].sender)|
  }

  /** The sender's nonce at `j`, seen from a charge at `i`. */
  lemma NonceSinceCharge(env: Env, l: Ledger, txs: seq<Transaction>, i: nat, j: nat)
    requires i <= j <= |txs| && i < |txs| && ChargedAt(env, l, txs, i)
    ensures NonceOf(ExecuteAll(env, l, txs[..j]), txs[i].sender) ==
            NonceAfter(txs[i].nonce, ChargesFrom(env, l, txs, i, j))
  {
    assert txs[..j] == txs[..i] + txs[i..j];
    ExecuteAllAppend(env, l, txs[..i], txs[i..j]);
    ChargedNoncesConsecutive(env, ExecuteAll(env, l, txs[..i]), txs[i..j], txs[i].sender);
  }

  lemma UsedAgainIff(nonce: U64, n: nat)
    ensures NonceAfter(nonce, n) == nonce <==> n % U64_RANGE == 0
  {
    NonceAfterDistinct(nonce, 0, n);
  }

  /** Two charges of one sender in any list use the same nonce if and only if a whole
      multiple of 2^64 of its charges lies between them: in particular none, short of
      2^64 charges, is charged twice. */
  lemma ChargedAtMostOnceExactly(env: Env, l: Ledger, txs: seq<Transaction>, i: nat, j: nat)
    requires i < j < |txs| && ChargedAt(env, l, txs, i) && ChargedAt(env, l, txs, j)
    ensures (txs[i].sender, txs[i].nonce) == (txs[j].sender, txs[j].nonce) <==>
            txs[i].sender == txs[j].sender && ChargesFrom(env, l, txs, i, j) % U64_RANGE == 0
  {
    NonceSinceCharge(env, l, txs, i, j);
    UsedAgainIff(txs[i].nonce, ChargesFrom(env, l, txs, i, j));
  }

  /** Executing an already charged transaction again, at any later time, is answered
      "invalid nonce" and leaves the whole ledger unchanged, exactly unless its sender
      has since been charged a whole multiple of 2^64 times. */
  lemma ReplayIsRejectedExactly(env: Env, l: Ledger, txs: seq<Transaction>, i: nat)
    requires i < |txs| && ChargedAt(env, l, txs, i)
    ensures var l' := ExecuteAll(env, l, txs);
            Execute(env, l', txs[i]) == Applied(l', Completed(false, 0, "invalid nonce")) <==>
            ChargesFrom(env, l, txs, i, |txs|) % U64_RANGE != 0
  {
    NonceSinceCharge(env, l, txs, i, |txs|);
    assert txs[..|txs|] == txs;
    UsedAgainIff(txs[i].nonce, ChargesFrom(env, l, txs, i, |txs|));
    var l' := ExecuteAll(env, l, txs);
    if NonceOf(l', txs[i].sender) == txs[i].nonce { NotInvalidNonce(env, l', txs[i]); }
  }

  lemma NotInvalidNonce(env: Env, l: Ledger, tx: Transaction)
    requires Verified(env, tx) && NonceOf(l, tx.sender) == tx.nonce
    ensures Execute(env, l, tx) != Applied(l, Completed(false, 0, "invalid nonce"))
  {
    var refused := Completed(false, 0, "invalid nonce");
    assert refused.message[8] == 'n';
    assert Completed(false, 0, "invalid contract").message[8] == 'c';
    assert Completed(false, 0, "insufficient balance for fee").message[2] == 's';
    assert Completed(false, 0, "insufficient balance for transfer").message[2] == 's';
  }

  // -------------------------------------------------------- the second charge --

  /** One transaction for every nonce, each signed on its own. */
  type Series = U64 -> Transaction

  /** Free transactions of sender `a`, each with its own nonce and a valid signature. */
  ghost predicate SignedSeries(env: Env, tx: Series, a: Address) {
    forall m: U64 :: tx(m).sender == a && tx(m).nonce == m && tx(m).fee == 0 && Verified(env, tx(m))
  }

  /** The series in turn, from nonce 0 and over the wrap. */
  function Ticks(tx: Series, n: nat): seq<Transaction> {
    seq(n, i requires 0 <= i => tx(i % U64_RANGE))
  }

  lemma {:induction false} TicksCount(env: Env, l: Ledger, tx: Series, a: Address, n: nat)
    requires SignedSeries(env, tx, a) && NonceOf(l, a) == 0
    ensures NonceOf(ExecuteAll(env, l, Ticks(tx, n)), a) == n % U64_RANGE
  {
    if n > 0 {
      TicksCount(env, l, tx, a, n - 1);
      var last := tx((n - 1) % U64_RANGE);
      assert Ticks(tx, n) == Ticks(tx, n - 1) + [last];
      ExecuteAllAppend(env, l, Ticks(tx, n - 1), [last]);
      TickOnce(env, ExecuteAll(env, l, Ticks(tx, n - 1)), last);
      SuccResidue(n - 1);
    }
  }

  lemma TickOnce(env: Env, l: Ledger, tx: Transaction)
    requires tx.fee == 0 && NonceOf(l, tx.sender) == tx.nonce && Verified(env, tx)
    ensures NonceOf(ExecuteAll(env, l, [tx]), tx.sender) == WrapSucc64(tx.nonce)
  {
    assert ExecuteAll(env, Execute(env, l, tx).ledger, []) == Execute(env, l, tx).ledger;
    ExecuteNonce(env, l, tx, tx.sender);
  }

  lemma SuccResidue(n: nat)
    ensures WrapSucc64(n % U64_RANGE) == (n + 1) % U64_RANGE
  {}

  /** The width matters: after 2^64 charges the counter is back at zero, and the first
      transaction of the list is charged a second time. */
  lemma FirstChargedAgain(env: Env, l: Ledger, tx: Series, a: Address)
    requires SignedSeries(env, tx, a) && NonceOf(l, a) == 0
    ensures var txs := Ticks(tx, U64_RANGE + 1);
            && txs[0] == txs[U64_RANGE]
            && ChargedAt(env, l, txs, 0) && ChargedAt(env, l, txs, U64_RANGE)
  {
    var txs := Ticks(tx, U64_RANGE + 1);
    assert txs[..0] == [] && txs[..U64_RANGE] == Ticks(tx, U64_RANGE);
    TicksCount(env, l, tx, a, U64_RANGE);
    assert Verified(env, txs[0]);
  }

  // -- a signature scheme with one valid signature per message ------------------

  function Digit(m: nat, k: nat): Byte {
    if k == 0 then m % 256 else Digit(m / 256, k - 1)
  }

  /** A signature that names the nonce it was made for. */
  function Stamp(m: U64): Bytes {
    seq(64, k requires 0 <= k => Digit(m, k))
  }

  lemma {:induction false} DigitsTell(m: nat, n: nat, len: nat)
    requires forall k: nat :: k < len ==> Digit(m, k) == Digit(n, k)
    requires m < Pow256(len) && n < Pow256(len)
    ensures m == n
    decreases len
  {
    if len > 0 {
      assert Digit(m, 0) == Digit(n, 0);
      forall k: nat | k < len - 1 ensures Digit(m / 256, k) == Digit(n / 256, k) {
        assert Digit(m, k + 1) == Digit(n, k + 1);
      }
      DigitsTell(m / 256, n / 256, len - 1);
    }
  }

  function Pow256(len: nat): nat {
    if len == 0 then 1 else 256 * Pow256(len - 1)
  }

  lemma {:induction false} Pow256Grows(len: nat)
    requires len >= 8
    ensures Pow256(len) > U64_MAX
  {
    if len == 8 {
      assert Pow256(4) == 0x1_0000_0000;
      assert Pow256(8) == 256 * (256 * (256 * (256 * Pow256(4))));
    } else {
      Pow256Grows(len - 1);
    }
  }

  /** No signature serves two nonces. */
  lemma StampsDiffer(m: U64, n: U64)
    ensures Stamp(m) == Stamp(n) <==> m == n
  {
    if Stamp(m) == Stamp(n) {
      forall k: nat | k < 64 ensures Digit(m, k) == Digit(n, k) {
        assert Stamp(m)[k] == Stamp(n)[k];
      }
      Pow256Grows(64);
      DigitsTell(m, n, 64);
    }
  }

  /** Accepts, for sender `a`, only the signature made for the transaction's nonce. */
  function Stamped(a: Address): Env {
    Env(_ => a, (tx: Transaction) => tx.signature == Stamp(tx.nonce), _ => None)
  }

  function FreeTransfers(a: Address): Series {
    (m: U64) => Transaction(a, a, 0, m, 0, seq(32, _ => 0), Stamp(m), [])
  }

  /** Such a list exists under a check that lets no signature be used for two nonces. */
  lemma SecondChargeHappens(a: Address, l: Ledger)
    requires NonceOf(l, a) == 0
    ensures forall m: U64, n: U64 :: Stamped(a).signed(FreeTransfers(a)(m).(nonce := n)) <==> m == n
    ensures var txs := Ticks(FreeTransfers(a), U64_RANGE + 1);
            && txs[0] == txs[U64_RANGE]
            && ChargedAt(Stamped(a), l, txs, 0) && ChargedAt(Stamped(a), l, txs, U64_RANGE)
  {
    forall m: U64, n: U64 ensures Stamped(a).signed(FreeTransfers(a)(m).(nonce := n)) <==> m == n {
      StampsDiffer(m, n);
    }
    FirstChargedAgain(Stamped(a), l, FreeTransfers(a), a);
  }
}
