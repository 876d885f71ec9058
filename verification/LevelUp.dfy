/** The game's level-up: how far the burnt credits carry, and what is charged for it. */
module LevelUp {
  import opened Words

  const MAX_LEVEL := 255

  type Uint8 = x: int | 0 <= x < 256

  /** lo + ... + hi; nothing if hi < lo. */
  function Sum(lo: nat, hi: int): nat
    decreases hi
  {
    if hi < lo then 0 else Sum(lo, hi - 1) + hi
  }

  /** Credits due when climbing through the levels lo..hi. */
  function Cost(c: nat, lo: nat, hi: int): nat { c * Sum(lo, hi) }

  lemma {:induction false} SumClosedForm(lo: nat, hi: int)
    requires lo <= hi + 1
    ensures 2 * Sum(lo, hi) == hi * (hi + 1) - lo * (lo - 1)
    decreases hi + 1 - lo
  {
    if hi < lo {
      assert hi == lo - 1;
    } else {
      SumClosedForm(lo, hi - 1);
    }
  }

  lemma {:induction false} SumSplit(lo: nat, mid: nat, hi: int)
    requires lo <= mid <= hi + 1
    ensures Sum(lo, hi) == Sum(lo, mid - 1) + Sum(mid, hi)
    decreases hi + 1 - mid
  {
    if mid <= hi {
      SumSplit(lo, mid, hi - 1);
    }
  }

  lemma CostSplit(c: nat, lo: nat, mid: nat, hi: int)
    requires lo <= mid <= hi + 1
    ensures Cost(c, lo, hi) == Cost(c, lo, mid - 1) + Cost(c, mid, hi)
  {
    hide Sum;
    SumSplit(lo, mid, hi);
    assert c * (Sum(lo, mid - 1) + Sum(mid, hi)) == c * Sum(lo, mid - 1) + c * Sum(mid, hi);
  }

  lemma CostNothing(c: nat, lo: nat)
    ensures Cost(c, lo, lo - 1) == 0
  {
  }

  lemma {:induction false} CostMonotone(c: nat, lo: nat, hi: int, hi': int)
    requires hi <= hi'
    ensures Cost(c, lo, hi) <= Cost(c, lo, hi')
    decreases hi' - hi
  {
    if hi < hi' {
      CostMonotone(c, lo, hi, hi' - 1);
      MulMonotone(c, Sum(lo, hi' - 1), Sum(lo, hi'));
    }
  }

  /** No intermediate value of the loop comes near 2^32. */
  lemma CostBound(c: Uint8, lo: Uint8, hi: int)
    requires hi <= MAX_LEVEL
    ensures Cost(c, lo, hi) <= 8_323_200
  {
    hide Sum;
    CostMonotone(c, lo, hi, MAX_LEVEL);
    SumBound(lo);
    MulMonotone(c, Sum(lo, MAX_LEVEL), 32_640);
  }

  lemma SumBound(lo: Uint8)
    ensures Sum(lo, MAX_LEVEL) <= 32_640
  {
    hide Sum;
    SumClosedForm(lo, MAX_LEVEL);
    if lo > 0 {
      MulMonotone(lo, 0, lo - 1);
    }
  }

  /** i is the least level from L on at which the cost reaches `burn`, or the highest level. */
  ghost predicate IsTarget(L: Uint8, c: Uint8, burn: Uint32, i: nat)
  {
    && L <= i <= MAX_LEVEL
    && (forall j :: L <= j < i ==> Cost(c, L, j) < burn)
    && (Cost(c, L, i) >= burn || i == MAX_LEVEL)
  }

  lemma TargetUnique(L: Uint8, c: Uint8, burn: Uint32, i: nat, i': nat)
    requires IsTarget(L, c, burn, i) && IsTarget(L, c, burn, i')
    ensures i == i'
  {
  }

  /** What the loop leaves in level_credits when it ends at level i: nothing is charged for the
      level reached, except that standing still costs the current level and running out of
      levels costs them all. */
  function Charge(L: Uint8, c: Uint8, burn: Uint32, i: nat): nat
  {
    if Cost(c, L, i) < burn then Cost(c, L, MAX_LEVEL)
    else if i == L then Cost(c, L, L)
    else Cost(c, L, i - 1)
  }

  /** The levels from L to j, added up and doubled. */
  function Doubled(L: nat, j: int): int { j * (j + 1) - L * (L - 1) }

  lemma CostForm(c: nat, L: nat, j: int)
    requires L <= j + 1
    ensures 2 * Cost(c, L, j) == c * Doubled(L, j)
  {
    hide Sum;
    SumClosedForm(L, j);
    assert 2 * (c * Sum(L, j)) == c * (2 * Sum(L, j));
  }

  lemma DoubledForms(L: nat, i: nat)
    ensures Doubled(L, 255) == 255 * 256 - L * (L - 1) && Doubled(L, i - 1) == i * (i - 1) - L * (L - 1)
  {
  }

  /** The charge in closed form: for a target that is not reached all levels up to 255, for standing
      still the current level, and otherwise the levels below the one reached. */
  lemma ChargeForm(L: Uint8, c: Uint8, burn: Uint32, i: nat)
    requires IsTarget(L, c, burn, i)
    ensures 2 * Charge(L, c, burn, i) ==
            if c * Doubled(L, i) < 2 * burn then c * (255 * 256 - L * (L - 1))
            else if i == L then 2 * (c * L)
            else c * (i * (i - 1) - L * (L - 1))
    ensures c * Doubled(L, i) < 2 * burn ==> i == 255
    ensures forall j :: L <= j < i ==> c * Doubled(L, j) < 2 * burn
  {
    hide Sum, Cost, Doubled;
    CostForm(c, L, i);
    CostForm(c, L, MAX_LEVEL);
    CostForm(c, L, i - 1);
    CostStep(c, L, L);
    DoubledForms(L, i);
    forall j | L <= j < i
      ensures c * Doubled(L, j) < 2 * burn
    {
      CostForm(c, L, j);
    }
  }

  lemma CostStep(c: nat, lo: nat, hi: int)
    requires lo <= hi + 1
    ensures Cost(c, lo, hi + 1) == Cost(c, lo, hi) + (hi + 1) * c
    ensures Cost(c, lo, lo) == lo * c
  {
    assert Sum(lo, lo) == Sum(lo, lo - 1) + lo;
    assert c * (Sum(lo, hi) + (hi + 1)) == c * Sum(lo, hi) + (hi + 1) * c;
  }

  /** The loop of user_level_up, with its u8 and u32 variables. */
  method Climb(L: Uint8, c: Uint8, burn: Uint32) returns (iter: Uint8, levelCredits: Uint32, ghost rounds: nat)
    ensures IsTarget(L, c, burn, iter) && levelCredits == Charge(L, c, burn, iter)
    ensures rounds <= 256 - L && levelCredits <= 8_323_200
  {
    hide Sum, Cost;
    iter, rounds := L, 0;
    CostStep(c, L, L);
    CostBound(c, L, L);
    levelCredits := L * c;
    var next: Uint32 := levelCredits;
    var stop := false;
    while next < burn && !stop
      invariant L <= iter <= MAX_LEVEL && next == Cost(c, L, iter) <= 8_323_200
      invariant forall j :: L <= j < iter ==> Cost(c, L, j) < burn
      invariant if stop then iter == MAX_LEVEL && levelCredits == next < burn
                else levelCredits == if iter == L then Cost(c, L, L) else Cost(c, L, iter - 1)
      invariant rounds == iter - L + if stop then 1 else 0
      invariant levelCredits <= 8_323_200
      decreases !stop, MAX_LEVEL - iter
    {
      levelCredits := next;
      rounds := rounds + 1;
      if iter < MAX_LEVEL {
        CostStep(c, L, iter);
        CostBound(c, L, iter + 1);
        iter := iter + 1;
        next := next + iter * c;
      } else {
        stop := true;
      }
    }
  }

  // ----- the account -----

  datatype User = User(credits: Uint32, level: Uint8)

  class UserAccount {
    var credits: Uint32
    var level: Uint8

    function Contents(): User
      reads this
    {
      User(credits, level)
    }

    constructor ()
      ensures Contents() == User(0, 0)
    {
      credits, level := 0, 0;
    }

    /** credits += amount in a u32 that wraps: the account gains the amount exactly if the sum fits,
        and is otherwise left with fewer credits than before. */
    method MintCredits(amount: Uint32)
      modifies this
      ensures level == old(level)
      ensures credits == old(credits) + amount <==> old(credits) + amount < TWO_32
      ensures old(credits) + amount >= TWO_32 ==> credits == old(credits) + amount - TWO_32 < old(credits)
    {
      credits := (credits + amount) % TWO_32;
    }

    /** False is the InsufficientFunds error, which leaves the account as it was. */
    method LevelUp(c: Uint8, burn: Uint32) returns (ok: bool)
      modifies this
      ensures exists i :: Outcome(old(Contents()), c, burn, i) && ok == Accepted(old(Contents()), c, burn, i)
                          && Contents() == if ok then After(old(Contents()), c, burn, i) else old(Contents())
    {
      hide Sum, Cost, Charge;
      ghost var before := Contents();
      var iter, levelCredits;
      ghost var rounds;
      iter, levelCredits, rounds := Climb(level, c, burn);
      assert Outcome(before, c, burn, iter);
      var left := (credits - levelCredits) % TWO_32;
      if !(left > 0) {
        return false;
      }
      credits := left;
      level := iter;
      return true;
    }
  }

  /** The call on u ends at level i. */
  ghost predicate Outcome(u: User, c: Uint8, burn: Uint32, i: nat) { IsTarget(u.level, c, burn, i) }

  predicate Accepted(u: User, c: Uint8, burn: Uint32, i: nat)
  {
    (u.credits - Charge(u.level, c, burn, i)) % TWO_32 > 0
  }

  function After(u: User, c: Uint8, burn: Uint32, i: nat): User
    requires i <= MAX_LEVEL
  {
    User((u.credits - Charge(u.level, c, burn, i)) % TWO_32, i)
  }

  lemma ChargeBound(L: Uint8, c: Uint8, burn: Uint32, i: nat)
    requires i <= MAX_LEVEL
    ensures Charge(L, c, burn, i) <= 8_323_200
  {
    hide Cost;
    CostBound(c, L, MAX_LEVEL);
    CostBound(c, L, L);
    CostBound(c, L, i - 1);
  }

  /** The subtraction wraps, so only an exact match of credits and charge is refused; the charge
      is really paid exactly when the credits exceed it, and the credits grow when they fall short. */
  lemma AcceptedIff(u: User, c: Uint8, burn: Uint32, i: nat)
    requires Outcome(u, c, burn, i)
    ensures Accepted(u, c, burn, i) <==> u.credits != Charge(u.level, c, burn, i)
    ensures Accepted(u, c, burn, i) ==>
              (After(u, c, burn, i).credits == u.credits - Charge(u.level, c, burn, i)
               <==> u.credits > Charge(u.level, c, burn, i))
    ensures u.credits < Charge(u.level, c, burn, i) ==>
              After(u, c, burn, i).credits == u.credits - Charge(u.level, c, burn, i) + TWO_32 > u.credits
  {
    hide Charge, IsTarget;
    TargetBound(u.level, c, burn, i);
    ChargeBound(u.level, c, burn, i);
  }

  /** A user of level 1 without credits, at one credit a level and nothing to burn: the charge is 1,
      the call is accepted and leaves the largest u32. */
  lemma CreditsWrapUp()
    ensures Outcome(User(0, 1), 1, 0, 1) && Charge(1, 1, 0, 1) == 1
    ensures Accepted(User(0, 1), 1, 0, 1) && After(User(0, 1), 1, 0, 1) == User(0xFFFF_FFFF, 1)
  {
    CostStep(1, 1, 0);
  }

  lemma TargetBound(L: Uint8, c: Uint8, burn: Uint32, i: nat)
    requires IsTarget(L, c, burn, i)
    ensures L <= i <= MAX_LEVEL
  {
  }

  // ----- a climb in several calls -----

  /** One accepted call that raises the level, reaches its target and can be paid for. */
  ghost predicate Climbs(u: User, c: Uint8, burn: Uint32, u': User)
  {
    exists i: nat :: Outcome(u, c, burn, i) && i > u.level && Cost(c, u.level, i) >= burn
                && u.credits > Charge(u.level, c, burn, i) && u' == After(u, c, burn, i)
  }

  /** The accounts before, between and after the calls. */
  ghost predicate ClimbsAll(us: seq<User>, c: Uint8, burns: seq<Uint32>)
  {
    |us| == |burns| + 1 && forall k :: 0 <= k < |burns| ==> Climbs(us[k], c, burns[k], us[k + 1])
  }

  lemma OneClimb(u: User, c: Uint8, burn: Uint32, u': User)
    requires Climbs(u, c, burn, u')
    ensures u'.level > u.level && u'.credits == u.credits - Cost(c, u.level, u'.level - 1)
  {
  }

  /** What a climb costs depends only on where it starts and ends, not on how it is split. */
  lemma {:induction false} PathIndependent(us: seq<User>, c: Uint8, burns: seq<Uint32>)
    requires ClimbsAll(us, c, burns)
    ensures var u, u' := us[0], us[|us| - 1];
            u.level <= u'.level && u.credits - u'.credits == Cost(c, u.level, u'.level - 1)
    decreases |burns|
  {
    hide Climbs, Cost;
    var n := |burns|;
    if n == 0 {
      CostNothing(c, us[0].level);
    } else {
      PathIndependent(us[..n], c, burns[..n - 1]);
      OneClimb(us[n - 1], c, burns[n - 1], us[n]);
      var a: nat, b: nat, d: nat := us[0].level, us[n - 1].level, us[n].level;
      CostSplit(c, a, b, d - 1);
    }
  }
}
