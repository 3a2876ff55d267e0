/** The time-credit ledger: a store from principal to balance with
    owner-only mint and burn, self-authorised transfer and a read that
    treats an absent principal as holding 0. Authorisation is always
    checked before sufficiency, and every failure returns before any write. */
module TimeCredit {
  import opened Outcomes

  /** The single principal allowed to mint and burn. */
  const ContractOwner: Principal := "CONTRACT_OWNER"

  datatype LedgerError = NotAuthorized | InsufficientBalance

  type Balances = map<Principal, nat>

  /** A balance as the contract reads it: an absent principal holds 0. */
  function BalanceOf(b: Balances, p: Principal): (balance: nat)
  {
    if p in b then b[p] else 0
  }

  /** Total supply: the sum of every stored balance. */
  ghost function Supply(b: Balances): nat
    decreases |b|
  {
    if b == map[] then 0
    else
      var k :| k in b;
      assert |b - {k}| < |b| by { assert (b - {k}).Keys < b.Keys; }
      b[k] + Supply(b - {k})
  }

  // ---------------------------------------------------------------------
  // The operations as transitions on the store

  /** mint: owner only; credits `amount` to `recipient`. */
  function MintResult(b: Balances, amount: nat, recipient: Principal, sender: Principal): (r: Result<Balances, LedgerError>)
    ensures r.Err? <==> sender != ContractOwner
    ensures r.Err? ==> r.error == NotAuthorized
    ensures r.Ok? ==> BalanceOf(r.value, recipient) == BalanceOf(b, recipient) + amount
    ensures r.Ok? ==> forall p :: p != recipient ==> BalanceOf(r.value, p) == BalanceOf(b, p)
  {
    if sender != ContractOwner then Err(NotAuthorized)
    else Ok(b[recipient := BalanceOf(b, recipient) + amount])
  }

  /** transfer: only `from` may move its own funds, and only what it holds.
      The recipient's balance is read after `from` has been debited, so a
      self-transfer leaves the balance as it was. */
  function TransferResult(b: Balances, amount: nat, from: Principal, to: Principal, sender: Principal): (r: Result<Balances, LedgerError>)
    ensures r.Err? <==> sender != from || BalanceOf(b, from) < amount
    ensures r.Err? ==> (r.error == NotAuthorized <==> sender != from)
    ensures r.Ok? && from != to ==>
              BalanceOf(r.value, from) == BalanceOf(b, from) - amount &&
              BalanceOf(r.value, to) == BalanceOf(b, to) + amount
    ensures r.Ok? && from == to ==> BalanceOf(r.value, from) == BalanceOf(b, from)
    ensures r.Ok? ==> forall p :: p != from && p != to ==> BalanceOf(r.value, p) == BalanceOf(b, p)
  {
    if sender != from then Err(NotAuthorized)
    else
      var fromBalance := BalanceOf(b, from);
      if fromBalance < amount then Err(InsufficientBalance)
      else
        var debited := b[from := fromBalance - amount];
        Ok(debited[to := BalanceOf(debited, to) + amount])
  }

  /** burn: owner only; destroys `amount` of `owner`'s credits if it holds them. */
  function BurnResult(b: Balances, amount: nat, owner: Principal, sender: Principal): (r: Result<Balances, LedgerError>)
    ensures r.Err? <==> sender != ContractOwner || BalanceOf(b, owner) < amount
    ensures r.Err? ==> (r.error == NotAuthorized <==> sender != ContractOwner)
    ensures r.Ok? ==> BalanceOf(r.value, owner) + amount == BalanceOf(b, owner)
    ensures r.Ok? ==> forall p :: p != owner ==> BalanceOf(r.value, p) == BalanceOf(b, p)
  {
    if sender != ContractOwner then Err(NotAuthorized)
    else
      var ownerBalance := BalanceOf(b, owner);
      if ownerBalance < amount then Err(InsufficientBalance)
      else Ok(b[owner := ownerBalance - amount])
  }

  // ---------------------------------------------------------------------
  // Total supply

  /** Removing one principal removes exactly its balance from the supply,
      whichever principal the sum happened to pick first. */
  lemma {:induction false} SupplyRemove(b: Balances, p: Principal)
    requires p in b
    ensures Supply(b) == b[p] + Supply(b - {p})
    decreases |b|
  {
    var k :| k in b && Supply(b) == b[k] + Supply(b - {k});
    if k != p {
      var rest := b - {k};
      assert |rest| < |b| by { assert rest.Keys < b.Keys; }
      SupplyRemove(rest, p);
      assert |b - {p}| < |b| by { assert (b - {p}).Keys < b.Keys; }
      SupplyRemove(b - {p}, k);
      assert rest - {p} == (b - {p}) - {k};
    }
  }

  /** Overwriting one balance changes the supply by the difference. */
  lemma SupplyUpdate(b: Balances, p: Principal, v: nat)
    ensures Supply(b[p := v]) + BalanceOf(b, p) == Supply(b) + v
  {
    var b' := b[p := v];
    SupplyRemove(b', p);
    assert b' - {p} == b - {p};
    if p in b {
      SupplyRemove(b, p);
    } else {
      assert b - {p} == b;
    }
  }

  lemma MintRaisesSupply(b: Balances, amount: nat, recipient: Principal, sender: Principal)
    requires MintResult(b, amount, recipient, sender).Ok?
    ensures Supply(MintResult(b, amount, recipient, sender).value) == Supply(b) + amount
  {
    SupplyUpdate(b, recipient, BalanceOf(b, recipient) + amount);
  }

  lemma TransferPreservesSupply(b: Balances, amount: nat, from: Principal, to: Principal, sender: Principal)
    requires TransferResult(b, amount, from, to, sender).Ok?
    ensures Supply(TransferResult(b, amount, from, to, sender).value) == Supply(b)
  {
    var debited := b[from := BalanceOf(b, from) - amount];
    SupplyUpdate(b, from, BalanceOf(b, from) - amount);
    SupplyUpdate(debited, to, BalanceOf(debited, to) + amount);
  }

  lemma BurnLowersSupply(b: Balances, amount: nat, owner: Principal, sender: Principal)
    requires BurnResult(b, amount, owner, sender).Ok?
    ensures Supply(BurnResult(b, amount, owner, sender).value) + amount == Supply(b)
  {
    SupplyUpdate(b, owner, BalanceOf(b, owner) - amount);
  }

  // ---------------------------------------------------------------------
  // Histories of calls

  /** One state-changing call, with the caller that made it. */
  datatype Call =
    | MintCall(amount: nat, recipient: Principal, sender: Principal)
    | TransferCall(amount: nat, from: Principal, to: Principal, sender: Principal)
    | BurnCall(amount: nat, owner: Principal, sender: Principal)

  function Apply(b: Balances, c: Call): (r: Result<Balances, LedgerError>)
  {
    match c
    case MintCall(amount, recipient, sender) => MintResult(b, amount, recipient, sender)
    case TransferCall(amount, from, to, sender) => TransferResult(b, amount, from, to, sender)
    case BurnCall(amount, owner, sender) => BurnResult(b, amount, owner, sender)
  }

  /** The store after a history of calls; a failed call leaves it as it was. */
  function Run(b: Balances, calls: seq<Call>): (b': Balances)
    decreases |calls|
  {
    if calls == [] then b
    else
      var r := Apply(b, calls[0]);
      Run(if r.Ok? then r.value else b, calls[1..])
  }

  /** Whether a call may credit principal `p`. */
  predicate Credits(c: Call, p: Principal)
  {
    (c.MintCall? && c.recipient == p) || (c.TransferCall? && c.to == p)
  }

  /** Credits minted and burned by the successful calls of a history. */
  function Minted(b: Balances, calls: seq<Call>): (minted: nat)
    decreases |calls|
  {
    if calls == [] then 0
    else
      var r := Apply(b, calls[0]);
      (if r.Ok? && calls[0].MintCall? then calls[0].amount else 0) +
      Minted(if r.Ok? then r.value else b, calls[1..])
  }

  function Burned(b: Balances, calls: seq<Call>): (burned: nat)
    decreases |calls|
  {
    if calls == [] then 0
    else
      var r := Apply(b, calls[0]);
      (if r.Ok? && calls[0].BurnCall? then calls[0].amount else 0) +
      Burned(if r.Ok? then r.value else b, calls[1..])
  }

  /** A principal that reads as 0 and that no call of a history ever
      credits still reads as 0 afterwards. */
  lemma {:induction false} NeverCreditedIsZero(b: Balances, calls: seq<Call>, p: Principal)
    requires BalanceOf(b, p) == 0
    requires forall i :: 0 <= i < |calls| ==> !Credits(calls[i], p)
    ensures BalanceOf(Run(b, calls), p) == 0
    decreases |calls|
  {
    if calls != [] {
      var r := Apply(b, calls[0]);
      assert !Credits(calls[0], p);
      var next := if r.Ok? then r.value else b;
      assert BalanceOf(next, p) == 0;
      NeverCreditedIsZero(next, calls[1..], p);
    }
  }

  /** Total supply moves only through mint and burn: whatever the history,
      the supply plus what was burned equals the start plus what was minted. */
  lemma {:induction false} SupplyConserved(b: Balances, calls: seq<Call>)
    ensures Supply(Run(b, calls)) + Burned(b, calls) == Supply(b) + Minted(b, calls)
    decreases |calls|
  {
    if calls != [] {
      var c := calls[0];
      var r := Apply(b, c);
      if r.Ok? {
        match c
        case MintCall(amount, recipient, sender) => MintRaisesSupply(b, amount, recipient, sender);
        case TransferCall(amount, from, to, sender) => TransferPreservesSupply(b, amount, from, to, sender);
        case BurnCall(amount, owner, sender) => BurnLowersSupply(b, amount, owner, sender);
      }
      SupplyConserved(if r.Ok? then r.value else b, calls[1..]);
    }
  }

  // ---------------------------------------------------------------------
  // The contract as a mutable store

  class Ledger {
    var balances: Balances

    constructor ()
      ensures balances == map[]
    {
      balances := map[];
    }

    method Mint(amount: nat, recipient: Principal, sender: Principal) returns (r: Reply<LedgerError>)
      modifies this
      ensures match MintResult(old(balances), amount, recipient, sender)
              case Ok(b) => r == Pass && balances == b
              case Err(e) => r == Fail(e) && balances == old(balances)
      ensures Supply(balances) == old(Supply(balances)) + (if r.Pass? then amount else 0)
    {
      if sender != ContractOwner {
        return Fail(NotAuthorized);
      }
      MintRaisesSupply(balances, amount, recipient, sender);
      balances := balances[recipient := BalanceOf(balances, recipient) + amount];
      return Pass;
    }

    method Transfer(amount: nat, from: Principal, to: Principal, sender: Principal) returns (r: Reply<LedgerError>)
      modifies this
      ensures match TransferResult(old(balances), amount, from, to, sender)
              case Ok(b) => r == Pass && balances == b
              case Err(e) => r == Fail(e) && balances == old(balances)
      ensures Supply(balances) == old(Supply(balances))
    {
      if sender != from {
        return Fail(NotAuthorized);
      }
      var fromBalance := BalanceOf(balances, from);
      if fromBalance < amount {
        return Fail(InsufficientBalance);
      }
      TransferPreservesSupply(balances, amount, from, to, sender);
      balances := balances[from := fromBalance - amount];
      balances := balances[to := BalanceOf(balances, to) + amount];
      return Pass;
    }

    method Burn(amount: nat, owner: Principal, sender: Principal) returns (r: Reply<LedgerError>)
      modifies this
      ensures match BurnResult(old(balances), amount, owner, sender)
              case Ok(b) => r == Pass && balances == b
              case Err(e) => r == Fail(e) && balances == old(balances)
      ensures Supply(balances) + (if r.Pass? then amount else 0) == old(Supply(balances))
    {
      if sender != ContractOwner {
        return Fail(NotAuthorized);
      }
      var ownerBalance := BalanceOf(balances, owner);
      if ownerBalance < amount {
        return Fail(InsufficientBalance);
      }
      BurnLowersSupply(balances, amount, owner, sender);
      balances := balances[owner := ownerBalance - amount];
      return Pass;
    }

    /** get-balance: a read that never writes; an unknown principal holds 0. */
    method GetBalance(user: Principal) returns (value: nat)
      ensures value == BalanceOf(balances, user)
    {
      value := BalanceOf(balances, user);
    }
  }

  /** The owner mints 100 to "user1", who can then read back 100 and move
      50 to "user2"; the owner can then burn the remaining 50. */
  method MintTransferBurnScenario() returns (r0: Reply<LedgerError>, minted: nat, r1: Reply<LedgerError>, left: nat, received: nat, r2: Reply<LedgerError>, burnt: nat)
    ensures r0 == Pass && minted == 100 && r1 == Pass && left == 50 && received == 50
    ensures r2 == Pass && burnt == 0
  {
    var ledger := new Ledger();
    r0 := ledger.Mint(100, "user1", ContractOwner);
    minted := ledger.GetBalance("user1");
    r1 := ledger.Transfer(50, "user1", "user2", "user1");
    left := ledger.GetBalance("user1");
    received := ledger.GetBalance("user2");
    r2 := ledger.Burn(50, "user1", ContractOwner);
    burnt := ledger.GetBalance("user1");
  }
}
