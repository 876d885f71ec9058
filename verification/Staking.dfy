/** NEAR staking with saturating u128 arithmetic. */
module Staking {
  import opened Words
  import opened MapSum

  type U128 = x: int | 0 <= x <= U128_MAX

  function SaturatingAdd(x: nat, y: nat): nat { if x + y > U128_MAX then U128_MAX else x + y }

  function SaturatingSub(x: nat, y: nat): nat { if x < y then 0 else x - y }

  function Min(x: nat, y: nat): nat { if x < y then x else y }

  type Balances = map<Bytes, nat>

  datatype Stakes = Stakes(balances: Balances, totalStaked: nat)

  /** Every number fits in a u128. */
  ghost predicate InRange(s: Stakes)
  {
    s.totalStaked <= U128_MAX && forall a :: a in s.balances ==> s.balances[a] <= U128_MAX
  }

  // ----- the two calls -----

  function Stake(s: Stakes, user: Bytes, deposit: nat): Stakes
  {
    var balance := if user in s.balances then SaturatingAdd(s.balances[user], deposit) else deposit;
    Stakes(s.balances[user := balance], SaturatingAdd(s.totalStaked, deposit))
  }

  function Unstake(s: Stakes, user: Bytes, amount: nat): Stakes
  {
    if user !in s.balances then s
    else Stakes(s.balances[user := SaturatingSub(s.balances[user], amount)], SaturatingSub(s.totalStaked, amount))
  }

  class StakingContract {
    var balances: Balances
    var totalStaked: nat

    ghost predicate Valid()
      reads this
    {
      InRange(Contents())
    }

    function Contents(): Stakes
      reads this
    {
      Stakes(balances, totalStaked)
    }

    constructor ()
      ensures Contents() == Stakes(map[], 0) && Valid()
    {
      balances, totalStaked := map[], 0;
    }

    method HandleStake(user: Bytes, deposit: U128) returns (newBalance: nat)
      requires Valid()
      modifies this
      ensures Contents() == Stake(old(Contents()), user, deposit) && Valid() && newBalance == balances[user]
    {
      if user in balances {
        newBalance := SaturatingAdd(balances[user], deposit);
        balances := balances[user := newBalance];
        totalStaked := SaturatingAdd(totalStaked, deposit);
      } else {
        newBalance := deposit;
        balances := balances[user := newBalance];
        totalStaked := SaturatingAdd(totalStaked, deposit);
      }
    }

    /** ok is the returned flag; payout what the promise transfers. None is the failed assertion
        on an amount of zero, which reverts. The payout is min(amount, balance). */
    method HandleUnstake(user: Bytes, amount: U128) returns (ok: Option<bool>, payout: nat)
      requires Valid()
      modifies this
      ensures amount == 0 ==> ok == None && Contents() == old(Contents()) && payout == 0
      ensures amount > 0 ==> ok == Some(user in old(balances)) && Contents() == Unstake(old(Contents()), user, amount)
      ensures amount > 0 ==> payout == Min(amount, At(old(balances), user))
      ensures Valid()
    {
      if !(amount > 0) {
        return None, 0;
      }
      if user in balances {
        var balance := balances[user];
        var newBalance := SaturatingSub(balance, amount);
        balances := balances[user := newBalance];
        totalStaked := SaturatingSub(totalStaked, amount);
        if newBalance == 0 {
          return Some(true), balance;
        } else {
          return Some(true), amount;
        }
      }
      return Some(false), 0;
    }
  }

  // ----- whole runs -----

  datatype Call = StakeCall(user: Bytes, deposit: U128) | UnstakeCall(user: Bytes, amount: U128)

  /** The stakes with all deposits and payouts so far. */
  datatype Book = Book(stakes: Stakes, deposits: nat, payouts: nat)

  function Step(b: Book, call: Call): Book
  {
    match call
    case StakeCall(u, d) => Book(Stake(b.stakes, u, d), b.deposits + d, b.payouts)
    case UnstakeCall(u, n) => Book(Unstake(b.stakes, u, n), b.deposits, b.payouts + Min(n, At(b.stakes.balances, u)))
  }

  function Run(calls: seq<Call>): Book
  {
    if calls == [] then Book(Stakes(map[], 0), 0, 0) else Step(Run(calls[..|calls| - 1]), calls[|calls| - 1])
  }

  /** A stake does not saturate the total; an unstake is by someone unknown, within the balance, or
      by the only one who holds anything. */
  predicate Exact(s: Stakes, call: Call)
  {
    match call
    case StakeCall(u, d) => s.totalStaked + d <= U128_MAX
    case UnstakeCall(u, n) => u !in s.balances || n <= s.balances[u] || s.totalStaked == s.balances[u]
  }

  ghost predicate Solvent(b: Book)
  {
    b.stakes.totalStaked <= Total(b.stakes.balances) && Total(b.stakes.balances) + b.payouts <= b.deposits
  }

  ghost predicate Balanced(b: Book)
  {
    b.stakes.totalStaked == Total(b.stakes.balances) && Total(b.stakes.balances) + b.payouts == b.deposits
  }

  lemma StepSolvent(b: Book, call: Call)
    requires Solvent(b) && InRange(b.stakes)
    ensures Solvent(Step(b, call)) && InRange(Step(b, call).stakes)
  {
    hide Total;
    var m := b.stakes.balances;
    match call
    case StakeCall(u, d) =>
      TotalUpdate(m, u, Step(b, call).stakes.balances[u]);
      AtMostTotal(m, u);
    case UnstakeCall(u, n) =>
      AtMostTotal(m, u);
      if u in m {
        TotalUpdate(m, u, SaturatingSub(m[u], n));
      }
  }

  lemma StepBalancedIff(b: Book, call: Call)
    requires Balanced(b)
    ensures Balanced(Step(b, call)) <==> Exact(b.stakes, call)
  {
    hide Total;
    var m := b.stakes.balances;
    match call
    case StakeCall(u, d) =>
      AtMostTotal(m, u);
      TotalUpdate(m, u, Step(b, call).stakes.balances[u]);
    case UnstakeCall(u, n) =>
      AtMostTotal(m, u);
      if u in m {
        TotalUpdate(m, u, SaturatingSub(m[u], n));
      }
  }

  /** Exactly what a call does: the user's balance and the total move by the amount as far as they can,
      between 0 and the largest u128, each on its own, and no one else's balance moves. */
  lemma CallExact(s: Stakes, u: Bytes, n: U128)
    requires InRange(s)
    ensures var s', top := Stake(s, u, n), 340282366920938463463374607431768211455;
            && s'.totalStaked == (if s.totalStaked + n <= top then s.totalStaked + n else top)
            && At(s'.balances, u) == (if At(s.balances, u) + n <= top then At(s.balances, u) + n else top)
            && forall v :: v != u ==> At(s'.balances, v) == At(s.balances, v)
    ensures var s', b := Unstake(s, u, n), At(s.balances, u);
            && s'.totalStaked == (if u !in s.balances then s.totalStaked
                                  else if n <= s.totalStaked then s.totalStaked - n else 0)
            && At(s'.balances, u) == (if n <= b then b - n else 0)
            && forall v :: v != u ==> At(s'.balances, v) == At(s.balances, v)
  {
  }

  /** How far the total lags behind the balances: an overdraw widens the gap by what was asked for in
      excess, as far as the total can fall; a stake below saturation leaves it. */
  lemma GapGrows(b: Book, u: Bytes, n: U128)
    requires Solvent(b) && u in b.stakes.balances && n > b.stakes.balances[u]
    ensures var b' := Step(b, UnstakeCall(u, n));
            Total(b'.stakes.balances) - b'.stakes.totalStaked ==
            if n <= b.stakes.totalStaked
            then Total(b.stakes.balances) - b.stakes.totalStaked + (n - b.stakes.balances[u])
            else Total(b.stakes.balances) - b.stakes.balances[u]
  {
    hide Total;
    TotalUpdate(b.stakes.balances, u, 0);
  }

  /** In every run, total_staked is at most the sum of the balances, and that at most what was
      deposited and not paid out; every number stays in its range. */
  lemma {:induction false} RunSolvent(calls: seq<Call>)
    ensures Solvent(Run(calls)) && InRange(Run(calls).stakes)
  {
    hide Step;
    if calls != [] {
      RunSolvent(calls[..|calls| - 1]);
      StepSolvent(Run(calls[..|calls| - 1]), calls[|calls| - 1]);
    }
  }

  ghost predicate AlwaysBalanced(calls: seq<Call>)
  {
    forall k :: 0 <= k <= |calls| ==> Balanced(Run(calls[..k]))
  }

  ghost predicate AlwaysExact(calls: seq<Call>)
  {
    forall k :: 0 <= k < |calls| ==> Exact(Run(calls[..k]).stakes, calls[k])
  }

  lemma AlwaysBalancedStep(calls: seq<Call>)
    requires calls != []
    ensures AlwaysBalanced(calls) <==> AlwaysBalanced(calls[..|calls| - 1]) && Balanced(Run(calls))
  {
    hide Run, Balanced;
    var n := |calls| - 1;
    assert forall k :: 0 <= k <= n ==> calls[..n][..k] == calls[..k];
    assert calls[..n + 1] == calls;
  }

  lemma AlwaysExactStep(calls: seq<Call>)
    requires calls != []
    ensures var n := |calls| - 1;
            AlwaysExact(calls) <==> AlwaysExact(calls[..n]) && Exact(Run(calls[..n]).stakes, calls[n])
  {
    hide Run, Exact;
    var n := |calls| - 1;
    assert forall k :: 0 <= k < n ==> calls[..n][..k] == calls[..k] && calls[..n][k] == calls[k];
  }

  lemma BalancedNow(calls: seq<Call>)
    requires AlwaysBalanced(calls)
    ensures Balanced(Run(calls))
  {
    hide Run, Balanced;
    assert calls[..|calls|] == calls;
  }

  /** With equality all along a run exactly if each of its calls is exact. */
  lemma {:induction false} RunBalancedIff(calls: seq<Call>)
    ensures AlwaysBalanced(calls) <==> AlwaysExact(calls)
    decreases |calls|
  {
    hide Step, Exact, Balanced, AlwaysBalanced, AlwaysExact;
    if calls == [] {
      NothingBalanced();
    } else {
      var n := |calls| - 1;
      RunBalancedIff(calls[..n]);
      AlwaysBalancedStep(calls);
      AlwaysExactStep(calls);
      if AlwaysBalanced(calls[..n]) {
        BalancedNow(calls[..n]);
        StepBalancedIff(Run(calls[..n]), calls[n]);
      }
    }
  }

  lemma NothingBalanced()
    ensures AlwaysBalanced([]) && AlwaysExact([])
  {
  }
}
