/** The club token: minting, burning and the proportional burn paid for a registration. */
module Club {
  import opened Words
  import opened MapSum

  type Accounts = map<Bytes, nat>

  datatype Token = Token(totalSupply: nat, accounts: Accounts)

  // ----- the calls; None is a failed assertion or expect, which reverts -----

  /** Minting to an account that is not registered raises the supply only. */
  function Mint(t: Token, a: Bytes, amount: nat): Option<Token>
  {
    if t.totalSupply + amount > U128_MAX then None
    else if a !in t.accounts then Some(t.(totalSupply := t.totalSupply + amount))
    else if t.accounts[a] + amount > U128_MAX then None
    else Some(Token(t.totalSupply + amount, t.accounts[a := t.accounts[a] + amount]))
  }

  function Burn(t: Token, a: Bytes, amount: nat): Option<Token>
  {
    if t.totalSupply < amount then None
    else if a !in t.accounts then None
    else if t.accounts[a] < amount then None
    else Some(Token(t.totalSupply - amount, t.accounts[a := t.accounts[a] - amount]))
  }

  /** The burn inside register_for_event: the supply divided by the denominator. */
  function RegisterBurn(t: Token, a: Bytes, denominator: nat): Option<Token>
  {
    if denominator == 0 then None else Burn(t, a, t.totalSupply / denominator)
  }

  class MalbornToken {
    var totalSupply: nat
    var accounts: Accounts

    function Contents(): Token
      reads this
    {
      Token(totalSupply, accounts)
    }

    constructor (t: Token)
      ensures Contents() == t
    {
      totalSupply, accounts := t.totalSupply, t.accounts;
    }

    method MintTokens(account: Bytes, amount: nat) returns (supply: Option<nat>)
      modifies this
      ensures match Mint(old(Contents()), account, amount)
              case None => supply == None && Contents() == old(Contents())
              case Some(t) => supply == Some(t.totalSupply) && Contents() == t
    {
      var before := totalSupply;
      if totalSupply + amount > U128_MAX {
        return None;
      }
      totalSupply := totalSupply + amount;
      if account in accounts {
        if accounts[account] + amount > U128_MAX {
          totalSupply := before;
          return None;
        }
        accounts := accounts[account := accounts[account] + amount];
      }
      return Some(totalSupply);
    }

    method BurnTokensInternal(account: Bytes, amount: nat) returns (ok: bool)
      modifies this
      ensures var r := Burn(old(Contents()), account, amount);
              ok == r.Some? && Contents() == if ok then r.value else old(Contents())
    {
      if !(totalSupply >= amount) {
        return false;
      }
      if account !in accounts {
        return false;
      }
      var balance := accounts[account];
      if !(balance >= amount) {
        return false;
      }
      totalSupply := totalSupply - amount;
      accounts := accounts[account := balance - amount];
      return true;
    }

    method RegisterForEvent(sender: Bytes, denominator: nat) returns (ok: bool)
      modifies this
      ensures var r := RegisterBurn(old(Contents()), sender, denominator);
              ok == r.Some? && Contents() == if ok then r.value else old(Contents())
    {
      if denominator == 0 {
        return false;
      }
      ok := BurnTokensInternal(sender, totalSupply / denominator);
    }
  }

  // ----- balances against supply -----

  ghost predicate Backed(t: Token) { Total(t.accounts) <= t.totalSupply <= U128_MAX }

  /** Minting and burning keep the balances within the supply; once the supply check has passed,
      the check on the account cannot fail. */
  lemma MintBacked(t: Token, a: Bytes, amount: nat)
    requires Backed(t)
    ensures Mint(t, a, amount) == None <==> t.totalSupply + amount > U128_MAX
    ensures var t' := Mint(t, a, amount);
            t'.Some? ==> Backed(t'.value) && t'.value.totalSupply == t.totalSupply + amount
                         && Total(t'.value.accounts) == Total(t.accounts) + if a in t.accounts then amount else 0
  {
    hide Total;
    AtMostTotal(t.accounts, a);
    if a in t.accounts {
      TotalUpdate(t.accounts, a, t.accounts[a] + amount);
    }
  }

  lemma BurnBacked(t: Token, a: Bytes, amount: nat)
    requires Backed(t)
    ensures Burn(t, a, amount) == None <==> a !in t.accounts || t.accounts[a] < amount
    ensures var t' := Burn(t, a, amount);
            t'.Some? ==> Backed(t'.value) && t'.value.totalSupply == t.totalSupply - amount
                         && Total(t'.value.accounts) == Total(t.accounts) - amount
  {
    hide Total;
    AtMostTotal(t.accounts, a);
    if Burn(t, a, amount).Some? {
      TotalUpdate(t.accounts, a, t.accounts[a] - amount);
    }
  }

  /** Whose balance a call moves: the account's, if it is registered, by the amount; no one else's. */
  lemma OnlyTheAccount(t: Token, a: Bytes, amount: nat)
    ensures var t' := Mint(t, a, amount);
            t'.Some? ==>
              && t'.value.accounts.Keys == t.accounts.Keys
              && (a in t.accounts ==> t'.value.accounts[a] == t.accounts[a] + amount)
              && forall b :: b in t.accounts && b != a ==> t'.value.accounts[b] == t.accounts[b]
    ensures var t' := Burn(t, a, amount);
            t'.Some? ==>
              && a in t.accounts && t'.value.accounts.Keys == t.accounts.Keys
              && t'.value.accounts[a] == t.accounts[a] - amount
              && forall b :: b in t.accounts && b != a ==> t'.value.accounts[b] == t.accounts[b]
  {
  }

  /** A registration burns the largest q of which d fit in the supply, from the sender alone, and is
      refused exactly if the sender has less or is unknown. */
  lemma RegistrationBurns(t: Token, a: Bytes, d: nat, q: nat)
    requires Backed(t) && d * q <= t.totalSupply < d * (q + 1)
    ensures RegisterBurn(t, a, d).Some? <==> a in t.accounts && t.accounts[a] >= q
    ensures RegisterBurn(t, a, 0) == None
    ensures var o := RegisterBurn(t, a, d);
            o.Some? ==>
              && o.value.totalSupply == t.totalSupply - q && o.value.accounts.Keys == t.accounts.Keys
              && o.value.accounts[a] == t.accounts[a] - q
              && forall b :: b in t.accounts && b != a ==> o.value.accounts[b] == t.accounts[b]
  {
    hide Mint, Burn, Backed;
    QuotientIs(t.totalSupply, d, q);
    BurnBacked(t, a, q);
    OnlyTheAccount(t, a, q);
  }

  lemma QuotientIs(s: nat, d: nat, q: nat)
    requires d * q <= s < d * (q + 1)
    ensures d > 0 && s / d == q
  {
    DivModUnique(s, d, q, s - d * q);
  }

  datatype Call =
    | MintCall(account: Bytes, amount: nat)
    | BurnCall(account: Bytes, amount: nat)
    | RegisterCall(account: Bytes, denominator: nat)

  function Execute(t: Token, call: Call): Token
  {
    var r := match call
             case MintCall(a, n) => Mint(t, a, n)
             case BurnCall(a, n) => Burn(t, a, n)
             case RegisterCall(a, d) => RegisterBurn(t, a, d);
    if r.Some? then r.value else t
  }

  function Run(t: Token, calls: seq<Call>): Token
  {
    if calls == [] then t else Execute(Run(t, calls[..|calls| - 1]), calls[|calls| - 1])
  }

  /** In every run the sum of the balances never exceeds the supply. */
  lemma {:induction false} RunBacked(t: Token, calls: seq<Call>)
    requires Backed(t)
    ensures Backed(Run(t, calls))
  {
    hide Backed, Mint, Burn;
    if calls != [] {
      var n := |calls| - 1;
      RunBacked(t, calls[..n]);
      var t' := Run(t, calls[..n]);
      match calls[n]
      case MintCall(a, k) => MintBacked(t', a, k);
      case BurnCall(a, k) => BurnBacked(t', a, k);
      case RegisterCall(a, d) =>
        if d > 0 {
          BurnBacked(t', a, t'.totalSupply / d);
        }
    }
  }

  // ----- the proportional burn, n times in a row -----

  /** The supplies before, between and after n successful registrations with one denominator. */
  ghost predicate Registrations(ts: seq<Token>, senders: seq<Bytes>, d: nat)
  {
    && |ts| == |senders| + 1 && d >= 1
    && forall k :: 0 <= k < |senders| ==> RegisterBurn(ts[k], senders[k], d) == Some(ts[k + 1])
  }

  function Pow(b: nat, n: nat): nat { if n == 0 then 1 else b * Pow(b, n - 1) }

  /** One registration takes at most the d-th part, and nothing once the supply is below d. */
  lemma OneRegistration(supply: nat, d: nat)
    requires d >= 1
    ensures var after := supply - supply / d;
            && after >= 0 && d * after >= (d - 1) * supply
            && (supply < d ==> after == supply) && (supply >= d ==> after >= d - 1)
  {
    var q := supply / d;
    assert d * (supply - q) == d * supply - d * q;
    if supply >= d {
      RemainderStays(supply, d);
    }
  }

  lemma RemainderStays(supply: nat, d: nat)
    requires supply >= d >= 1
    ensures supply - supply / d >= d - 1
  {
    var q := supply / d;
    assert q >= 1;
    assert supply >= d * q;
    assert d * q - q == (d - 1) * q;
    MulMonotone(d - 1, 1, q);
  }

  /** After n registrations d^n * S_n >= (d-1)^n * S_0, and the supply never drops below
      min(S_0, d - 1). */
  lemma {:induction false} SupplyAfterRegistrations(ts: seq<Token>, senders: seq<Bytes>, d: nat)
    requires Registrations(ts, senders, d)
    ensures var n, s0, sn := |senders|, ts[0].totalSupply, ts[|senders|].totalSupply;
            && Pow(d, n) * sn >= Pow(d - 1, n) * s0
            && (sn >= s0 || sn >= d - 1)
    decreases |senders|
  {
    var n := |senders|;
    if n > 0 {
      var s0, s, s' := ts[0].totalSupply, ts[n - 1].totalSupply, ts[n].totalSupply;
      SupplyAfterRegistrations(ts[..n], senders[..n - 1], d);
      RegistrationSupply(ts[n - 1], senders[n - 1], d, ts[n]);
      OneRegistration(s, d);
      PowStep(Pow(d, n - 1), Pow(d - 1, n - 1), d, s0, s, s');
    }
  }

  lemma RegistrationSupply(t: Token, sender: Bytes, d: nat, t': Token)
    requires d >= 1 && RegisterBurn(t, sender, d) == Some(t')
    ensures t'.totalSupply == t.totalSupply - t.totalSupply / d
  {
  }

  lemma PowStep(p: nat, r: nat, d: nat, s0: nat, s: nat, s': nat)
    requires d >= 1 && p * s >= r * s0 && d * s' >= (d - 1) * s
    ensures (d * p) * s' >= ((d - 1) * r) * s0
  {
  }
}
