/** HAL minting, redeeming, the block-start check and the end-of-block payout, over a bank of any
    denominations. Transfers, to users and to the pools, and issues of collateral may happen in between. */
module Hal {
  import opened Words
  import opened MapSum
  import opened ByteOrder
  import R = RedeemRequests
  import Store

  datatype Holder = User(addr: Bytes) | CollateralPool | RedeemPool

  type Balances = map<Holder, nat>

  /** Balances of HAL, of the collateral and of other denominations; the supply of HAL. */
  datatype Chain = Chain(hal: Balances, coll: Balances, other: map<Bytes, Balances>, supply: nat,
                         requests: map<Bytes, R.Request>)

  /** Parameters that stay fixed during a run; isAddr and denomOk are the verdicts of the address
      parser and of the bank's denomination check. */
  datatype Env = Env(halDenom: Bytes, collDenom: Bytes, redeemDur: int,
                     isAddr: Bytes -> bool, denomOk: Bytes -> bool)

  predicate ValidCoin(e: Env, coin: R.Coin) { e.denomOk(coin.denom) && coin.amount >= 0 }

  function Holdings(e: Env, s: Chain, denom: Bytes): Balances
  {
    if denom == e.collDenom then s.coll
    else if denom == e.halDenom then s.hal
    else if denom in s.other then s.other[denom]
    else map[]
  }

  function WithHoldings(e: Env, s: Chain, denom: Bytes, m: Balances): Chain
  {
    if denom == e.collDenom then s.(coll := m)
    else if denom == e.halDenom then s.(hal := m)
    else s.(other := s.other[denom := m])
  }

  // ----- the bank -----

  /** A send: fails without effect if the sender has too little. */
  function Send(m: Balances, from: Holder, to: Holder, amt: nat): Option<Balances>
  {
    if At(m, from) < amt then None
    else
      var m' := m[from := At(m, from) - amt];
      Some(m'[to := At(m', to) + amt])
  }

  function SendOrIgnore(m: Balances, from: Holder, to: Holder, amt: nat): Balances
  {
    var r := Send(m, from, to, amt);
    if r.Some? then r.value else m
  }

  lemma SendMoves(m: Balances, from: Holder, to: Holder, amt: nat)
    requires Send(m, from, to, amt).Some?
    ensures var m' := Send(m, from, to, amt).value;
            && Total(m') == Total(m)
            && (from != to ==> At(m', from) == At(m, from) - amt && At(m', to) == At(m, to) + amt)
            && (from == to ==> At(m', to) == At(m, to))
            && forall h :: h != from && h != to ==> At(m', h) == At(m, h)
  {
    hide Total;
    var m1 := m[from := At(m, from) - amt];
    TotalUpdate(m, from, At(m, from) - amt);
    TotalUpdate(m1, to, At(m1, to) + amt);
  }

  // ----- the handlers; None is an error or panic, which reverts the transaction -----

  function MintHal(e: Env, s: Chain, creator: Option<Bytes>, coin: R.Coin): Option<Chain>
  {
    if creator == None then None
    else if !ValidCoin(e, coin) && coin.amount == 0 then None
    else if coin.denom != e.collDenom then None
    else if !ValidCoin(e, coin) || !e.denomOk(e.halDenom) then None // NewCoin or NewCoins panics
    else
      var a, amt := User(creator.value), 2 * coin.amount;
      var minted := s.hal[CollateralPool := At(s.hal, CollateralPool) + amt];
      match Send(minted, CollateralPool, a, amt)
      case None => None
      case Some(hal) =>
        Some(s.(hal := hal, supply := s.supply + amt,
                coll := SendOrIgnore(s.coll, a, CollateralPool, coin.amount)))
  }

  function RedeemCollateral(e: Env, s: Chain, creator: Option<Bytes>, coin: R.Coin, now: int): Option<Chain>
  {
    if creator == None then None
    else if !ValidCoin(e, coin) then None
    else if !e.denomOk(e.halDenom) || !e.denomOk(e.collDenom) then None // NewCoin panics
    else
      var a, amt := creator.value, coin.amount;
      var hal := SendOrIgnore(s.hal, User(a), CollateralPool, amt);
      if At(hal, CollateralPool) < amt || s.supply < amt then None
      else
        match Send(s.coll, CollateralPool, RedeemPool, amt / 2)
        case None => None
        case Some(coll) =>
          var request := R.Request(a, R.Coin(e.collDenom, amt / 2), now + e.redeemDur);
          Some(s.(hal := hal[CollateralPool := At(hal, CollateralPool) - amt], coll := coll,
                  supply := s.supply - amt, requests := s.requests[a := request]))
  }

  predicate Due(r: R.Request, blockTime: int) { blockTime > r.completiontime }

  /** One round of the payout loop; None is a panic, on an invalid coin or on a payment that does not
      raise the receiver's balance. */
  function PayOne(e: Env, s: Chain, r: R.Request, blockTime: int): Option<Chain>
  {
    if !Due(r, blockTime) || !e.isAddr(r.account) then Some(s)
    else if !ValidCoin(e, r.collateral) then None // NewCoins panics
    else
      var m := Holdings(e, s, r.collateral.denom);
      match Send(m, RedeemPool, User(r.account), r.collateral.amount)
      case None => Some(s)
      case Some(m') =>
        if At(m', User(r.account)) <= At(m, User(r.account)) then None
        else Some(WithHoldings(e, s, r.collateral.denom, m').(requests := s.requests - {r.account}))
  }

  /** The payout loop over the requests the reader returned. */
  function EndRedeeming(e: Env, s: Chain, list: seq<R.Request>, blockTime: int): Option<Chain>
    decreases |list|
  {
    if list == [] then Some(s)
    else
      var o := PayOne(e, s, list[0], blockTime);
      if o == None then None else EndRedeeming(e, o.value, list[1..], blockTime)
  }

  /** The check at the start of a block: true when it does not panic. */
  predicate InvariantCheck(s: Chain)
  {
    s.supply == 0 || s.supply - 2 * (At(s.coll, CollateralPool) + At(s.coll, RedeemPool)) >= 0
  }

  // ----- bookkeeping -----

  /** Amounts so far: HAL minted and burnt; collateral deposited, not deposited because the
      transfer failed, moved to the redeem pool, pushed out by a later request of the same
      account, paid out, and in existence; and the number of redeems of an odd amount. */
  datatype Ledger = Ledger(minted: nat, burnt: nat, deposited: nat, missed: nat,
                           redeemed: nat, overwritten: nat, paid: nat, odd: nat, issued: nat, gifts: Gifts)

  /** What users sent to the pools: HAL to the collateral pool and how much of it redeems burnt, HAL
      to the redeem pool, and collateral to either. */
  datatype Gifts = Gifts(hal: nat, burnt: nat, locked: nat, coll: nat, redeem: nat)

  function Amount(r: R.Request): nat { if r.collateral.amount < 0 then 0 else r.collateral.amount }

  function Amounts(rs: map<Bytes, R.Request>): map<Bytes, nat> { map a | a in rs :: Amount(rs[a]) }

  ghost function Pending(rs: map<Bytes, R.Request>): nat { Total(Amounts(rs)) }

  predicate Genuine(e: Env, a: Bytes, r: R.Request)
  {
    r.account == a && r.collateral.denom == e.collDenom && ValidCoin(e, r.collateral) && e.isAddr(a)
  }

  ghost predicate Inv(e: Env, s: Chain, g: Ledger)
  {
    && At(s.hal, CollateralPool) == g.gifts.hal - g.gifts.burnt && At(s.hal, RedeemPool) == g.gifts.locked
    && Total(s.hal) == s.supply
    && s.supply == g.minted - g.burnt && g.minted == 2 * (g.deposited + g.missed)
    && g.burnt == 2 * g.redeemed + g.odd
    && At(s.coll, CollateralPool) == g.deposited + g.gifts.coll - g.redeemed && Total(s.coll) == g.issued
    && At(s.coll, RedeemPool) == g.redeemed - g.paid + g.gifts.redeem
    && g.redeemed - g.paid == Pending(s.requests) + g.overwritten
    && forall a :: a in s.requests ==> Genuine(e, a, s.requests[a])
  }

  function BookMint(g: Ledger, s: Chain, a: Bytes, amt: nat): Ledger
  {
    var ok := At(s.coll, User(a)) >= amt;
    g.(minted := g.minted + 2 * amt,
       deposited := g.deposited + if ok then amt else 0,
       missed := g.missed + if ok then 0 else amt)
  }

  function BookRedeem(g: Ledger, s: Chain, a: Bytes, amt: nat): Ledger
  {
    g.(burnt := g.burnt + amt, redeemed := g.redeemed + amt / 2, odd := g.odd + amt % 2,
       overwritten := g.overwritten + At(Amounts(s.requests), a),
       gifts := g.gifts.(burnt := g.gifts.burnt + if At(s.hal, User(a)) >= amt then 0 else amt))
  }

  function BookTransfer(e: Env, g: Ledger, s: Chain, from: Bytes, to: Holder, denom: Bytes, amt: nat): Ledger
  {
    if At(Holdings(e, s, denom), User(from)) < amt then g
    else if denom == e.collDenom then g.(gifts := GiveColl(g.gifts, to, amt))
    else if denom == e.halDenom then g.(gifts := GiveHal(g.gifts, to, amt))
    else g
  }

  function GiveColl(g: Gifts, to: Holder, amt: nat): Gifts
  {
    match to
    case User(_) => g
    case CollateralPool => g.(coll := g.coll + amt)
    case RedeemPool => g.(redeem := g.redeem + amt)
  }

  function GiveHal(g: Gifts, to: Holder, amt: nat): Gifts
  {
    match to
    case User(_) => g
    case CollateralPool => g.(hal := g.hal + amt)
    case RedeemPool => g.(locked := g.locked + amt)
  }

  function BookPayout(g: Ledger, s: Chain, s': Chain): Ledger
  {
    g.(paid := g.paid + if At(s.coll, RedeemPool) >= At(s'.coll, RedeemPool)
                        then At(s.coll, RedeemPool) - At(s'.coll, RedeemPool) else 0)
  }

  lemma MintKeeps(e: Env, s: Chain, g: Ledger, creator: Option<Bytes>, coin: R.Coin)
    requires Inv(e, s, g) && MintHal(e, s, creator, coin).Some?
    ensures Inv(e, MintHal(e, s, creator, coin).value, BookMint(g, s, creator.value, coin.amount))
  {
    hide Total, Pending, Genuine;
    var a, amt := User(creator.value), 2 * coin.amount;
    var minted := s.hal[CollateralPool := At(s.hal, CollateralPool) + amt];
    TotalUpdate(s.hal, CollateralPool, At(s.hal, CollateralPool) + amt);
    SendMoves(minted, CollateralPool, a, amt);
    if At(s.coll, a) >= coin.amount {
      SendMoves(s.coll, a, CollateralPool, coin.amount);
    }
  }

  /** Exactly when a mint is accepted, in every state; whether the creator has the collateral does not
      matter. */
  lemma MintAcceptedIff(e: Env, s: Chain, creator: Option<Bytes>, coin: R.Coin)
    ensures MintHal(e, s, creator, coin).Some? <==>
            && creator.Some? && coin.denom == e.collDenom && coin.amount >= 0
            && e.denomOk(e.collDenom) && e.denomOk(e.halDenom)
  {
  }

  /** Exactly when a redeem is accepted, in every state. */
  lemma RedeemAcceptedIff(e: Env, s: Chain, creator: Option<Bytes>, coin: R.Coin, now: int)
    ensures RedeemCollateral(e, s, creator, coin, now).Some? <==>
            && creator.Some? && e.denomOk(coin.denom) && e.denomOk(e.collDenom) && e.denomOk(e.halDenom)
            && 0 <= coin.amount <= s.supply
            && (coin.amount <= At(s.hal, User(creator.value)) || coin.amount <= At(s.hal, CollateralPool))
            && coin.amount / 2 <= At(s.coll, CollateralPool)
  {
  }

  /** An accepted mint gives the creator two HAL per unit of collateral and no one else any; the
      collateral leaves the creator exactly when the creator has it. */
  lemma MintCreditsCreator(e: Env, s: Chain, creator: Option<Bytes>, coin: R.Coin)
    requires MintHal(e, s, creator, coin).Some?
    ensures var s', u := MintHal(e, s, creator, coin).value, User(creator.value);
            && At(s'.hal, u) == At(s.hal, u) + 2 * coin.amount && s'.supply == s.supply + 2 * coin.amount
            && (forall h :: h != u ==> At(s'.hal, h) == At(s.hal, h))
            && s'.requests == s.requests && s'.other == s.other
            && (if At(s.coll, u) < coin.amount then s'.coll == s.coll
                else At(s'.coll, u) == At(s.coll, u) - coin.amount
                     && At(s'.coll, CollateralPool) == At(s.coll, CollateralPool) + coin.amount
                     && forall h :: h != u && h != CollateralPool ==> At(s'.coll, h) == At(s.coll, h))
  {
  }

  /** An accepted redeem takes its amount from the creator if the creator has it; otherwise the error
      of the transfer goes unseen and the amount is burnt from the HAL others sent to the pool. */
  lemma RedeemDebitsCreator(e: Env, s: Chain, creator: Option<Bytes>, coin: R.Coin, now: int)
    requires RedeemCollateral(e, s, creator, coin, now).Some?
    ensures var s', u := RedeemCollateral(e, s, creator, coin, now).value, User(creator.value);
            && Total(s'.hal) == Total(s.hal) - coin.amount
            && (forall h :: h != u && h != CollateralPool ==> At(s'.hal, h) == At(s.hal, h))
            && (if At(s.hal, u) >= coin.amount
                then At(s'.hal, u) == At(s.hal, u) - coin.amount
                     && At(s'.hal, CollateralPool) == At(s.hal, CollateralPool)
                else At(s'.hal, u) == At(s.hal, u)
                     && At(s'.hal, CollateralPool) == At(s.hal, CollateralPool) - coin.amount)
  {
    hide Total;
    var u, amt := User(creator.value), coin.amount;
    if At(s.hal, u) >= amt {
      SendMoves(s.hal, u, CollateralPool, amt);
    }
    var hal := SendOrIgnore(s.hal, u, CollateralPool, amt);
    TotalUpdate(hal, CollateralPool, At(hal, CollateralPool) - amt);
  }

  lemma RedeemKeeps(e: Env, s: Chain, g: Ledger, creator: Option<Bytes>, coin: R.Coin, now: int)
    requires Inv(e, s, g) && RedeemCollateral(e, s, creator, coin, now).Some? && e.isAddr(creator.value)
    ensures Inv(e, RedeemCollateral(e, s, creator, coin, now).value, BookRedeem(g, s, creator.value, coin.amount))
  {
    hide Total, Amounts, Pending, RedeemCollateral;
    RedeemDebitsCreator(e, s, creator, coin, now);
    RedeemMoves(e, s, creator, coin, now);
    var a := creator.value;
    var s' := RedeemCollateral(e, s, creator, coin, now).value;
    PendingUpdate(s.requests, a, s'.requests[a]);
  }

  /** What an accepted redeem does apart from the HAL balances. */
  lemma RedeemMoves(e: Env, s: Chain, creator: Option<Bytes>, coin: R.Coin, now: int)
    requires RedeemCollateral(e, s, creator, coin, now).Some?
    ensures var s', a, half := RedeemCollateral(e, s, creator, coin, now).value, creator.value, coin.amount / 2;
            && creator.Some? && ValidCoin(e, coin) && e.denomOk(e.collDenom) && s'.supply == s.supply - coin.amount
            && s'.other == s.other && (forall h: Holder :: h.User? ==> At(s'.coll, h) == At(s.coll, h))
            && Total(s'.coll) == Total(s.coll)
            && At(s'.coll, CollateralPool) == At(s.coll, CollateralPool) - half
            && At(s'.coll, RedeemPool) == At(s.coll, RedeemPool) + half
            && s'.requests == s.requests[a := R.Request(a, R.Coin(e.collDenom, half), now + e.redeemDur)]
  {
    hide Total, SendOrIgnore;
    SendMoves(s.coll, CollateralPool, RedeemPool, coin.amount / 2);
  }

  lemma PendingUpdate(rs: map<Bytes, R.Request>, a: Bytes, r: R.Request)
    ensures Pending(rs[a := r]) == Pending(rs) - At(Amounts(rs), a) + Amount(r)
  {
    hide Total;
    TotalUpdate(Amounts(rs), a, Amount(r));
    assert Amounts(rs[a := r]) == Amounts(rs)[a := Amount(r)];
  }

  lemma PendingRemove(rs: map<Bytes, R.Request>, a: Bytes)
    ensures Pending(rs - {a}) == Pending(rs) - At(Amounts(rs), a)
    ensures At(Amounts(rs), a) <= Pending(rs)
  {
    hide Total;
    TotalRemove(Amounts(rs), a);
    AtMostTotal(Amounts(rs), a);
    assert Amounts(rs - {a}) == Amounts(rs) - {a};
  }

  // ----- the payout -----

  function Balance(e: Env, s: Chain, denom: Bytes, h: Holder): nat { At(Holdings(e, s, denom), h) }

  /** s' differs from s by one payment out of the redeem pool. */
  ghost predicate PaidFromPool(e: Env, s: Chain, s': Chain, account: Bytes, coin: R.Coin)
  {
    && Balance(e, s', coin.denom, RedeemPool) == Balance(e, s, coin.denom, RedeemPool) - coin.amount
    && Balance(e, s', coin.denom, User(account)) == Balance(e, s, coin.denom, User(account)) + coin.amount
    && (forall h :: h != RedeemPool && h != User(account) ==>
          Balance(e, s', coin.denom, h) == Balance(e, s, coin.denom, h))
    && (forall denom, h :: denom != coin.denom ==> Balance(e, s', denom, h) == Balance(e, s, denom, h))
    && s'.supply == s.supply && s'.requests == s.requests - {account}
  }

  /** What one round does with any request, in whatever denomination: it is left alone unless it is due,
      its account an address and, its coin being valid, covered by the pool; a coin of nothing and an
      invalid one panic; the rest are paid and deleted. */
  lemma PayOneExact(e: Env, s: Chain, r: R.Request, blockTime: int)
    ensures var o, coin := PayOne(e, s, r, blockTime), r.collateral;
            if blockTime <= r.completiontime || !e.isAddr(r.account) then o == Some(s)
            else if !e.denomOk(coin.denom) || coin.amount <= 0 then o == None
            else if coin.amount > Balance(e, s, coin.denom, RedeemPool) then o == Some(s)
            else o.Some? && PaidFromPool(e, s, o.value, r.account, coin)
  {
    hide WithHoldings, Holdings, Send, PaidFromPool;
    var coin := r.collateral;
    var m := Holdings(e, s, coin.denom);
    if ValidCoin(e, coin) {
      SendSucceedsIff(m, RedeemPool, User(r.account), coin.amount);
      if coin.amount <= At(m, RedeemPool) {
        SendMoves(m, RedeemPool, User(r.account), coin.amount);
        PaidIs(e, s, r.account, coin, Send(m, RedeemPool, User(r.account), coin.amount).value);
      }
    }
  }

  lemma PaidIs(e: Env, s: Chain, account: Bytes, coin: R.Coin, m': Balances)
    requires coin.amount >= 0 && Send(Holdings(e, s, coin.denom), RedeemPool, User(account), coin.amount) == Some(m')
    ensures PaidFromPool(e, s, WithHoldings(e, s, coin.denom, m').(requests := s.requests - {account}), account, coin)
  {
    hide Send, Holdings, WithHoldings;
    SendMoves(Holdings(e, s, coin.denom), RedeemPool, User(account), coin.amount);
    var s' := WithHoldings(e, s, coin.denom, m').(requests := s.requests - {account});
    forall d
      ensures Holdings(e, s', d) == if d == coin.denom then m' else Holdings(e, s, d)
    {
      OneDenomination(e, s, coin.denom, m', s.requests - {account}, d);
    }
    OneDenomination(e, s, coin.denom, m', s.requests - {account}, coin.denom);
  }

  lemma OneDenomination(e: Env, s: Chain, denom: Bytes, m: Balances, rs: map<Bytes, R.Request>, d: Bytes)
    ensures var s' := WithHoldings(e, s, denom, m).(requests := rs);
            Holdings(e, s', d) == (if d == denom then m else Holdings(e, s, d)) && s'.supply == s.supply
  {
    hide Holdings, WithHoldings;
    HoldingsApart(e, WithHoldings(e, s, denom, m), rs, d);
    ReadBackHoldings(e, s, denom, m);
    if d != denom {
      OtherHoldings(e, s, denom, m, d);
    }
  }

  lemma HoldingsApart(e: Env, s: Chain, rs: map<Bytes, R.Request>, d: Bytes)
    ensures Holdings(e, s.(requests := rs), d) == Holdings(e, s, d)
  {
  }

  lemma OtherHoldings(e: Env, s: Chain, denom: Bytes, m: Balances, d: Bytes)
    requires d != denom
    ensures Holdings(e, WithHoldings(e, s, denom, m), d) == Holdings(e, s, d)
  {
  }

  lemma ReadBackHoldings(e: Env, s: Chain, denom: Bytes, m: Balances)
    ensures Holdings(e, WithHoldings(e, s, denom, m), denom) == m
    ensures WithHoldings(e, s, denom, m).requests == s.requests && WithHoldings(e, s, denom, m).supply == s.supply
  {
  }

  /** The requests still to be visited: each is stored under its account, and no account twice. */
  ghost predicate Visiting(list: seq<R.Request>, rs: map<Bytes, R.Request>)
  {
    && (forall i :: 0 <= i < |list| ==> list[i].account in rs && rs[list[i].account] == list[i])
    && (forall i, j :: 0 <= i < j < |list| ==> list[i].account != list[j].account)
  }

  ghost predicate Covered(e: Env, s: Chain)
  {
    Pending(s.requests) <= At(s.coll, RedeemPool) && forall a :: a in s.requests ==> Genuine(e, a, s.requests[a])
  }

  predicate Stuck(list: seq<R.Request>, blockTime: int)
  {
    exists i :: 0 <= i < |list| && Due(list[i], blockTime) && list[i].collateral.amount == 0
  }

  function DueAccounts(list: seq<R.Request>, blockTime: int): set<Bytes>
  {
    set i | 0 <= i < |list| && Due(list[i], blockTime) :: list[i].account
  }

  /** What the payout of the due part of list has done to s. */
  ghost predicate PaidOut(s: Chain, s': Chain, list: seq<R.Request>, blockTime: int)
  {
    var due := DueAccounts(list, blockTime);
    && s'.hal == s.hal && s'.other == s.other && s'.supply == s.supply && s'.requests == s.requests - due
    && At(s'.coll, CollateralPool) == At(s.coll, CollateralPool) && Total(s'.coll) == Total(s.coll)
    && At(s'.coll, RedeemPool) - Pending(s'.requests) == At(s.coll, RedeemPool) - Pending(s.requests)
    && forall a :: At(s'.coll, User(a)) == At(s.coll, User(a)) + if a in due then At(Amounts(s.requests), a) else 0
  }

  lemma VisitingTail(list: seq<R.Request>, rs: map<Bytes, R.Request>)
    requires Visiting(list, rs) && list != []
    ensures Visiting(list[1..], rs) && Visiting(list[1..], rs - {list[0].account})
  {
  }

  lemma VisitingIsGenuine(e: Env, s: Chain, list: seq<R.Request>)
    requires Covered(e, s) && Visiting(list, s.requests)
    ensures list != [] ==> list[0].collateral.denom == e.collDenom && ValidCoin(e, list[0].collateral)
    ensures list != [] ==> e.isAddr(list[0].account) && list[0].account in s.requests
                           && At(Amounts(s.requests), list[0].account) == list[0].collateral.amount
                           && list[0].collateral.amount <= At(s.coll, RedeemPool)
  {
    hide Total;
    if list != [] {
      PendingRemove(s.requests, list[0].account);
    }
  }

  lemma NothingPaid(s: Chain, blockTime: int)
    ensures PaidOut(s, s, [], blockTime) && !Stuck([], blockTime)
  {
  }

  lemma StuckTail(list: seq<R.Request>, blockTime: int)
    requires list != []
    ensures Stuck(list, blockTime) <==>
            (Due(list[0], blockTime) && list[0].collateral.amount == 0) || Stuck(list[1..], blockTime)
  {
  }

  lemma DueTail(list: seq<R.Request>, blockTime: int)
    requires list != []
    ensures DueAccounts(list, blockTime) ==
            DueAccounts(list[1..], blockTime) + if Due(list[0], blockTime) then {list[0].account} else {}
  {
  }

  lemma PaidLater(s: Chain, s': Chain, list: seq<R.Request>, blockTime: int)
    requires list != [] && !Due(list[0], blockTime) && PaidOut(s, s', list[1..], blockTime)
    ensures PaidOut(s, s', list, blockTime)
  {
  }

  /** One payment keeps the remaining requests covered. */
  lemma OnePayment(e: Env, s: Chain, r: R.Request, coll: Balances)
    requires Covered(e, s) && r.account in s.requests && s.requests[r.account] == r && r.collateral.amount >= 0
    requires Send(s.coll, RedeemPool, User(r.account), r.collateral.amount) == Some(coll)
    ensures var s1 := s.(coll := coll, requests := s.requests - {r.account});
            && Covered(e, s1)
            && At(coll, CollateralPool) == At(s.coll, CollateralPool) && Total(coll) == Total(s.coll)
            && At(coll, RedeemPool) - Pending(s1.requests) == At(s.coll, RedeemPool) - Pending(s.requests)
            && forall a :: At(coll, User(a)) == At(s.coll, User(a)) + if a == r.account then r.collateral.amount else 0
  {
    hide Total, Send, Pending;
    SendMoves(s.coll, RedeemPool, User(r.account), r.collateral.amount);
    PendingRemove(s.requests, r.account);
  }

  lemma PaidFirst(s: Chain, s1: Chain, s': Chain, list: seq<R.Request>, blockTime: int)
    requires list != [] && Due(list[0], blockTime) && Visiting(list, s.requests)
    requires s1.hal == s.hal && s1.other == s.other && s1.supply == s.supply
    requires s1.requests == s.requests - {list[0].account}
    requires At(s1.coll, CollateralPool) == At(s.coll, CollateralPool) && Total(s1.coll) == Total(s.coll)
    requires At(s1.coll, RedeemPool) - Pending(s1.requests) == At(s.coll, RedeemPool) - Pending(s.requests)
    requires forall a :: At(s1.coll, User(a)) ==
                         At(s.coll, User(a)) + if a == list[0].account then At(Amounts(s.requests), a) else 0
    requires PaidOut(s1, s', list[1..], blockTime)
    ensures PaidOut(s, s', list, blockTime)
  {
    hide DueAccounts, Pending;
    DueTail(list, blockTime);
    NotDueTwice(list, s.requests, blockTime);
  }

  lemma NotDueTwice(list: seq<R.Request>, rs: map<Bytes, R.Request>, blockTime: int)
    requires list != [] && Visiting(list, rs)
    ensures list[0].account !in DueAccounts(list[1..], blockTime)
  {
  }

  /** The payout loop panics exactly when a due request is for nothing; otherwise it pays every
      due request in full, deletes exactly those, and touches nothing else. */
  lemma {:induction false} Payout(e: Env, s: Chain, list: seq<R.Request>, blockTime: int)
    requires Covered(e, s) && Visiting(list, s.requests)
    ensures EndRedeeming(e, s, list, blockTime) == None <==> Stuck(list, blockTime)
    ensures EndRedeeming(e, s, list, blockTime).Some? ==>
              PaidOut(s, EndRedeeming(e, s, list, blockTime).value, list, blockTime)
    decreases |list|, 1
  {
    hide Visiting, Covered, Stuck, PaidOut, Send;
    VisitingIsGenuine(e, s, list);
    if list == [] {
      NothingPaid(s, blockTime);
    } else {
      var r := list[0];
      VisitingTail(list, s.requests);
      if !Due(r, blockTime) {
        Payout(e, s, list[1..], blockTime);
        StuckTail(list, blockTime);
        if !Stuck(list, blockTime) {
          PaidLater(s, EndRedeeming(e, s, list[1..], blockTime).value, list, blockTime);
        }
      } else {
        PayoutDue(e, s, list, blockTime);
      }
    }
  }

  lemma {:induction false} PayoutDue(e: Env, s: Chain, list: seq<R.Request>, blockTime: int)
    requires Covered(e, s) && Visiting(list, s.requests) && list != [] && Due(list[0], blockTime)
    ensures EndRedeeming(e, s, list, blockTime) == None <==> Stuck(list, blockTime)
    ensures EndRedeeming(e, s, list, blockTime).Some? ==>
              PaidOut(s, EndRedeeming(e, s, list, blockTime).value, list, blockTime)
    decreases |list|, 0
  {
    hide Visiting, Covered, Stuck, PaidOut, Send;
    assert EndRedeeming(e, s, list, blockTime) ==
           var o := PayOne(e, s, list[0], blockTime);
           if o == None then None else EndRedeeming(e, o.value, list[1..], blockTime);
    var r := list[0];
    VisitingIsGenuine(e, s, list);
    VisitingTail(list, s.requests);
    VisitedIs(list, s.requests);
    StuckTail(list, blockTime);
    SendSucceedsIff(s.coll, RedeemPool, User(r.account), r.collateral.amount);
    var coll := Send(s.coll, RedeemPool, User(r.account), r.collateral.amount).value;
    OnePayment(e, s, r, coll);
    if r.collateral.amount > 0 {
      var s1 := s.(coll := coll, requests := s.requests - {r.account});
      Payout(e, s1, list[1..], blockTime);
      if !Stuck(list[1..], blockTime) {
        PaidFirst(s, s1, EndRedeeming(e, s1, list[1..], blockTime).value, list, blockTime);
      }
    }
  }

  lemma VisitedIs(list: seq<R.Request>, rs: map<Bytes, R.Request>)
    requires list != [] && Visiting(list, rs)
    ensures list[0].account in rs && rs[list[0].account] == list[0]
  {
  }

  lemma SendSucceedsIff(m: Balances, from: Holder, to: Holder, amt: nat)
    ensures Send(m, from, to, amt).Some? <==> At(m, from) >= amt
  {
  }

  // ----- whole runs -----

  datatype Action =
    | BeginBlock
    | Mint(creator: Option<Bytes>, coin: R.Coin)
    | Redeem(creator: Option<Bytes>, coin: R.Coin, now: int)
    | EndBlock(blockTime: int)
    | Transfer(from: Bytes, to: Holder, denom: Bytes, amt: nat) // a user's bank send; no pool is blocked
    | Issue(user: Bytes, amt: nat)                              // collateral entering circulation

  lemma ListingListed(e: Env, rs: map<Bytes, R.Request>)
    requires forall a :: a in rs ==> Genuine(e, a, rs[a])
    ensures Store.Lists(Store.Listing(rs), rs)
  {
    hide Store.Lists, Store.Listing;
    Store.ListingLists(rs);
  }

  lemma ListsVisits(list: seq<R.Request>, rs: map<Bytes, R.Request>)
    requires Store.Lists(list, rs)
    ensures Visiting(list, rs)
  {
    hide Less;
    forall i, j | 0 <= i < j < |list|
      ensures list[i].account != list[j].account
    {
      Trichotomy(list[i].account, list[j].account);
    }
  }

  /** The creator a handler sees has passed the address parser. */
  predicate Sensible(e: Env, act: Action)
  {
    match act
    case Mint(Some(a), _) => e.isAddr(a)
    case Redeem(Some(a), _, _) => e.isAddr(a)
    case _ => true
  }

  /** A handler's error changes nothing; a panic at the start or end of a block stops the chain. */
  ghost function Step(e: Env, s: Chain, g: Ledger, act: Action): Option<(Chain, Ledger)>
  {
    match act
    case BeginBlock =>
      if InvariantCheck(s) then Some((s, g)) else None
    case Mint(creator, coin) =>
      var r := MintHal(e, s, creator, coin);
      if r == None then Some((s, g)) else Some((r.value, BookMint(g, s, creator.value, coin.amount)))
    case Redeem(creator, coin, now) =>
      var r := RedeemCollateral(e, s, creator, coin, now);
      if r == None then Some((s, g)) else Some((r.value, BookRedeem(g, s, creator.value, coin.amount)))
    case EndBlock(blockTime) =>
      var r := EndRedeeming(e, s, Store.Listing(s.requests), blockTime);
      if r == None then None else Some((r.value, BookPayout(g, s, r.value)))
    case Transfer(from, to, denom, amt) =>
      Some((WithHoldings(e, s, denom, SendOrIgnore(Holdings(e, s, denom), User(from), to, amt)),
            BookTransfer(e, g, s, from, to, denom, amt)))
    case Issue(user, amt) =>
      Some((s.(coll := s.coll[User(user) := At(s.coll, User(user)) + amt]), g.(issued := g.issued + amt)))
  }

  lemma PayoutReady(e: Env, s: Chain, g: Ledger)
    requires Inv(e, s, g)
    ensures Covered(e, s) && Visiting(Store.Listing(s.requests), s.requests)
  {
    hide Store.Listing, Visiting, Pending, Total;
    ListingListed(e, s.requests);
    ListsVisits(Store.Listing(s.requests), s.requests);
  }

  lemma PayoutKeeps(e: Env, s: Chain, g: Ledger, blockTime: int)
    requires Inv(e, s, g)
    ensures var r := EndRedeeming(e, s, Store.Listing(s.requests), blockTime);
            r.Some? ==> Inv(e, r.value, BookPayout(g, s, r.value))
  {
    hide Store.Listing, Visiting, Pending, Total, EndRedeeming, DueAccounts, Amounts, Genuine;
    PayoutReady(e, s, g);
    Payout(e, s, Store.Listing(s.requests), blockTime);
    var r := EndRedeeming(e, s, Store.Listing(s.requests), blockTime);
    if r.Some? {
      PendingShrinks(s.requests, r.value.requests);
    }
  }

  lemma {:induction false} PendingShrinks(rs: map<Bytes, R.Request>, rs': map<Bytes, R.Request>)
    requires rs'.Keys <= rs.Keys && forall a :: a in rs' ==> rs'[a] == rs[a]
    ensures Pending(rs') <= Pending(rs)
    decreases |rs|
  {
    hide Pending, Amounts;
    if rs'.Keys == rs.Keys {
      assert rs' == rs;
    } else {
      var a :| a in rs.Keys && a !in rs'.Keys;
      PendingRemove(rs, a);
      PendingShrinks(rs - {a}, rs');
    }
  }

  lemma StepKeeps(e: Env, s: Chain, g: Ledger, act: Action)
    requires Inv(e, s, g) && Sensible(e, act)
    ensures var r := Step(e, s, g, act); r.Some? ==> Inv(e, r.value.0, r.value.1)
  {
    hide Inv, MintHal, RedeemCollateral, EndRedeeming, Store.Listing, BookMint, BookRedeem, BookPayout, BookTransfer,
         SendOrIgnore, Holdings, WithHoldings, InvariantCheck;
    match act
    case BeginBlock =>
    case Mint(creator, coin) =>
      if MintHal(e, s, creator, coin).Some? {
        MintKeeps(e, s, g, creator, coin);
      }
    case Redeem(creator, coin, now) =>
      if RedeemCollateral(e, s, creator, coin, now).Some? {
        RedeemHasCreator(e, s, creator, coin, now);
        RedeemKeeps(e, s, g, creator, coin, now);
      }
    case EndBlock(blockTime) =>
      PayoutReady(e, s, g);
      PayoutKeeps(e, s, g, blockTime);
    case Transfer(from, to, denom, amt) =>
      TransferKeeps(e, s, g, from, to, denom, amt);
    case Issue(user, amt) =>
      IssueKeeps(e, s, g, user, amt);
  }

  lemma RedeemHasCreator(e: Env, s: Chain, creator: Option<Bytes>, coin: R.Coin, now: int)
    requires RedeemCollateral(e, s, creator, coin, now).Some?
    ensures creator.Some?
  {
  }

  lemma TransferKeeps(e: Env, s: Chain, g: Ledger, from: Bytes, to: Holder, denom: Bytes, amt: nat)
    requires Inv(e, s, g)
    ensures Inv(e, WithHoldings(e, s, denom, SendOrIgnore(Holdings(e, s, denom), User(from), to, amt)),
                BookTransfer(e, g, s, from, to, denom, amt))
  {
    hide Inv, Send, GiveColl, GiveHal;
    var m := Holdings(e, s, denom);
    SendSucceedsIff(m, User(from), to, amt);
    if Send(m, User(from), to, amt).Some? {
      if denom == e.collDenom {
        CollGiven(e, s, g, from, to, amt);
      } else if denom == e.halDenom {
        HalGiven(e, s, g, from, to, amt);
      } else {
        OtherGiven(e, s, g, denom, Send(m, User(from), to, amt).value);
      }
    } else {
      OtherGiven(e, s, g, denom, m);
    }
  }

  lemma CollGiven(e: Env, s: Chain, g: Ledger, from: Bytes, to: Holder, amt: nat)
    requires Inv(e, s, g) && Send(s.coll, User(from), to, amt).Some?
    ensures Inv(e, s.(coll := Send(s.coll, User(from), to, amt).value), g.(gifts := GiveColl(g.gifts, to, amt)))
  {
    hide Total, Pending, Genuine, Send;
    SendMoves(s.coll, User(from), to, amt);
  }

  lemma HalGiven(e: Env, s: Chain, g: Ledger, from: Bytes, to: Holder, amt: nat)
    requires Inv(e, s, g) && Send(s.hal, User(from), to, amt).Some?
    ensures Inv(e, s.(hal := Send(s.hal, User(from), to, amt).value), g.(gifts := GiveHal(g.gifts, to, amt)))
  {
    hide Total, Pending, Genuine, Send;
    SendMoves(s.hal, User(from), to, amt);
  }

  lemma OtherGiven(e: Env, s: Chain, g: Ledger, denom: Bytes, m: Balances)
    requires Inv(e, s, g)
    ensures Inv(e, s.(other := s.other[denom := m]), g)
    ensures m == Holdings(e, s, denom) ==> Inv(e, WithHoldings(e, s, denom, m), g)
  {
    hide Total, Pending, Genuine;
  }

  lemma IssueKeeps(e: Env, s: Chain, g: Ledger, user: Bytes, amt: nat)
    requires Inv(e, s, g)
    ensures Inv(e, s.(coll := s.coll[User(user) := At(s.coll, User(user)) + amt]), g.(issued := g.issued + amt))
  {
    hide Total, Pending, Genuine;
    TotalUpdate(s.coll, User(user), At(s.coll, User(user)) + amt);
  }

  /** No HAL, empty pools, no requests; users may hold collateral. */
  predicate Initial(s: Chain)
  {
    && s.hal == map[] && s.supply == 0 && s.requests == map[]
    && At(s.coll, CollateralPool) == 0 && At(s.coll, RedeemPool) == 0
  }

  ghost function Opening(s0: Chain): Ledger { Ledger(0, 0, 0, 0, 0, 0, 0, 0, Total(s0.coll), Gifts(0, 0, 0, 0, 0)) }

  /** The state and ledger after the actions; None if one of them stopped the chain. */
  ghost function RunFrom(e: Env, s: Chain, g: Ledger, acts: seq<Action>): Option<(Chain, Ledger)>
    decreases |acts|
  {
    if acts == [] then Some((s, g))
    else
      var n := |acts| - 1;
      var r := RunFrom(e, s, g, acts[..n]);
      if r == None then None else Step(e, r.value.0, r.value.1, acts[n])
  }

  ghost function Run(e: Env, s0: Chain, acts: seq<Action>): Option<(Chain, Ledger)>
  {
    RunFrom(e, s0, Opening(s0), acts)
  }

  ghost predicate Reaches(e: Env, s0: Chain, acts: seq<Action>, s: Chain, g: Ledger)
  {
    Run(e, s0, acts) == Some((s, g))
  }

  lemma InitialInv(e: Env, s: Chain)
    requires Initial(s)
    ensures Inv(e, s, Opening(s))
  {
  }

  lemma {:induction false} RunKeeps(e: Env, s: Chain, g: Ledger, acts: seq<Action>)
    requires Inv(e, s, g) && forall i :: 0 <= i < |acts| ==> Sensible(e, acts[i])
    ensures var r := RunFrom(e, s, g, acts); r.Some? ==> Inv(e, r.value.0, r.value.1)
    decreases |acts|
  {
    hide Inv, Step, Sensible;
    if acts != [] {
      var n := |acts| - 1;
      RunKeeps(e, s, g, acts[..n]);
      var r := RunFrom(e, s, g, acts[..n]);
      if r.Some? {
        StepKeeps(e, r.value.0, r.value.1, acts[n]);
      }
    }
  }

  /** The invariant holds in every reachable state of every run. */
  lemma ReachableInv(e: Env, s0: Chain, acts: seq<Action>, s: Chain, g: Ledger)
    requires Initial(s0) && Reaches(e, s0, acts, s, g)
    requires forall i :: 0 <= i < |acts| ==> Sensible(e, acts[i])
    ensures Inv(e, s, g)
  {
    hide Inv, RunFrom, Sensible;
    InitialInv(e, s0);
    RunKeeps(e, s0, Opening(s0), acts);
  }

  /** HAL not backed by the collateral pool is twice the collateral that was never deposited, less one
      for every odd redeem, less twice the collateral given to the pool. */
  lemma AccountingIdentity(e: Env, s0: Chain, acts: seq<Action>, s: Chain, g: Ledger)
    requires Initial(s0) && Reaches(e, s0, acts, s, g)
    requires forall i :: 0 <= i < |acts| ==> Sensible(e, acts[i])
    ensures s.supply - 2 * At(s.coll, CollateralPool) == 2 * g.missed - g.odd - 2 * g.gifts.coll
    ensures At(s.hal, CollateralPool) == g.gifts.hal - g.gifts.burnt
  {
    hide Reaches, Sensible, Pending, Total, Genuine;
    ReachableInv(e, s0, acts, s, g);
  }

  /** Exactly when the check at the start of a block passes. If every deposit was made, that is only
      while there is no HAL, or the redeem pool is empty, no odd amount was redeemed and no collateral
      was given to the pool. */
  lemma CheckPassesIff(e: Env, s0: Chain, acts: seq<Action>, s: Chain, g: Ledger)
    requires Initial(s0) && Reaches(e, s0, acts, s, g)
    requires forall i :: 0 <= i < |acts| ==> Sensible(e, acts[i])
    ensures InvariantCheck(s) <==>
            s.supply == 0 || 2 * g.missed - g.odd >= 2 * (g.gifts.coll + At(s.coll, RedeemPool))
    ensures g.missed == 0 ==>
              (InvariantCheck(s) <==>
               s.supply == 0 || (g.odd == 0 && g.gifts.coll == 0 && At(s.coll, RedeemPool) == 0))
  {
    hide Reaches, Sensible;
    AccountingIdentity(e, s0, acts, s, g);
  }

  lemma RunOne(e: Env, s0: Chain, acts: seq<Action>, act: Action)
    ensures var r := Run(e, s0, acts);
            Run(e, s0, acts + [act]) == if r == None then None else Step(e, r.value.0, r.value.1, act)
    ensures Run(e, s0, []) == Some((s0, Opening(s0)))
  {
    hide Step, Opening;
    assert (acts + [act])[..|acts|] == acts;
  }

  /** A mint in any other denomination leaves a run where it is, state and ledger. */
  lemma MintElsewhere(e: Env, s: Chain, g: Ledger, acts: seq<Action>, creator: Option<Bytes>, coin: R.Coin)
    requires coin.denom != e.collDenom
    ensures RunFrom(e, s, g, acts + [Mint(creator, coin)]) == RunFrom(e, s, g, acts)
  {
    hide MintHal;
    var all := acts + [Mint(creator, coin)];
    assert all[..|all| - 1] == acts && all[|all| - 1] == Mint(creator, coin);
    var r := RunFrom(e, s, g, acts);
    if r.Some? {
      MintAcceptedIff(e, r.value.0, creator, coin);
    }
  }

  /** Pending requests never exceed the redeem pool; the rest of it is what was overwritten and what
      was given. Collateral is neither created nor lost by any step. */
  lemma PoolCoversPending(e: Env, s0: Chain, acts: seq<Action>, s: Chain, g: Ledger)
    requires Initial(s0) && Reaches(e, s0, acts, s, g)
    requires forall i :: 0 <= i < |acts| ==> Sensible(e, acts[i])
    ensures At(s.coll, RedeemPool) == Pending(s.requests) + g.overwritten + g.gifts.redeem
    ensures g.redeemed == g.paid + Pending(s.requests) + g.overwritten
    ensures Total(s.coll) == g.issued
  {
    hide Reaches, Sensible, Pending, Total, Genuine;
    ReachableInv(e, s0, acts, s, g);
  }

  /** If every deposit succeeded, HAL is fully backed, and a redeem succeeds exactly if the creator or
      the pool holds the HAL. */
  lemma FullyBacked(e: Env, s0: Chain, acts: seq<Action>, s: Chain, g: Ledger, a: Bytes, coin: R.Coin, now: int)
    requires Initial(s0) && Reaches(e, s0, acts, s, g) && g.missed == 0
    requires forall i :: 0 <= i < |acts| ==> Sensible(e, acts[i])
    ensures s.supply <= 2 * At(s.coll, CollateralPool)
    ensures ValidCoin(e, coin) && e.denomOk(e.halDenom) && e.denomOk(e.collDenom) ==>
              (RedeemCollateral(e, s, Some(a), coin, now).Some? <==>
               coin.amount <= At(s.hal, User(a)) || coin.amount <= At(s.hal, CollateralPool))
  {
    hide Reaches, Sensible, Pending, Total, Genuine;
    ReachableInv(e, s0, acts, s, g);
    AtMostTotal(s.hal, User(a));
    AtMostTotal(s.hal, CollateralPool);
    if ValidCoin(e, coin) && coin.amount <= At(s.hal, User(a)) {
      SendMoves(s.hal, User(a), CollateralPool, coin.amount);
    }
  }

  // ----- what the end of a block pays -----

  ghost predicate DueForNothing(rs: map<Bytes, R.Request>, blockTime: int)
  {
    exists a :: a in rs && Due(rs[a], blockTime) && rs[a].collateral.amount == 0
  }

  /** Every due request is paid in full, and exactly those are gone. */
  ghost predicate Paid(s: Chain, s': Chain, blockTime: int)
  {
    && s'.requests == (map a | a in s.requests && !Due(s.requests[a], blockTime) :: s.requests[a])
    && forall a :: At(s'.coll, User(a)) == At(s.coll, User(a)) +
         if a in s.requests && Due(s.requests[a], blockTime) then s.requests[a].collateral.amount else 0
  }

  lemma PayoutPays(e: Env, s: Chain, g: Ledger, blockTime: int)
    requires Inv(e, s, g)
    ensures var r := EndRedeeming(e, s, Store.Listing(s.requests), blockTime);
            && (r == None <==> DueForNothing(s.requests, blockTime))
            && (r.Some? ==> Paid(s, r.value, blockTime))
  {
    hide Total, Pending, EndRedeeming, Store.Listing, Visiting, DueAccounts, DueForNothing, Stuck;
    var list := Store.Listing(s.requests);
    ListingListed(e, s.requests);
    PayoutReady(e, s, g);
    Payout(e, s, list, blockTime);
    DueOfListing(list, s.requests, blockTime);
  }

  lemma DueOfListing(list: seq<R.Request>, rs: map<Bytes, R.Request>, blockTime: int)
    requires Store.Lists(list, rs)
    ensures forall a :: a in DueAccounts(list, blockTime) <==> a in rs && Due(rs[a], blockTime)
    ensures Stuck(list, blockTime) <==> DueForNothing(rs, blockTime)
  {
  }

  /** In every reachable state the end of a block pays every due request in full and deletes
      exactly those; it panics exactly when a due request is for nothing. */
  lemma EndBlockPays(e: Env, s0: Chain, acts: seq<Action>, s: Chain, g: Ledger, blockTime: int)
    requires Initial(s0) && Reaches(e, s0, acts, s, g)
    requires forall i :: 0 <= i < |acts| ==> Sensible(e, acts[i])
    ensures var r := EndRedeeming(e, s, Store.Listing(s.requests), blockTime);
            && (r == None <==> DueForNothing(s.requests, blockTime))
            && (r.Some? ==> Paid(s, r.value, blockTime))
  {
    hide Reaches, Sensible, Inv, EndRedeeming, Store.Listing, DueForNothing, Paid;
    ReachableInv(e, s0, acts, s, g);
    PayoutPays(e, s, g, blockTime);
  }

  // ----- when a run goes on -----

  /** What an action needs, in a reachable state, for the chain not to stop. */
  ghost predicate GoesOn(s: Chain, g: Ledger, act: Action)
  {
    match act
    case BeginBlock => s.supply == 0 || 2 * g.missed - g.odd >= 2 * (g.gifts.coll + At(s.coll, RedeemPool))
    case EndBlock(blockTime) => !DueForNothing(s.requests, blockTime)
    case _ => true
  }

  lemma StepGoesOnIff(e: Env, s: Chain, g: Ledger, act: Action)
    requires Inv(e, s, g)
    ensures Step(e, s, g, act).Some? <==> GoesOn(s, g, act)
  {
    hide EndRedeeming, Store.Listing, DueForNothing, Paid, Total, Pending, Genuine;
    if act.EndBlock? {
      PayoutPays(e, s, g, act.blockTime);
    }
  }

  ghost predicate GoesOnAt(e: Env, s0: Chain, acts: seq<Action>, k: nat)
    requires k < |acts|
  {
    var r := Run(e, s0, acts[..k]);
    r.Some? ==> GoesOn(r.value.0, r.value.1, acts[k])
  }

  /** A run goes on exactly if at every block start in it there is no HAL or enough of the collateral
      was never deposited, and at every block end no due request is for nothing. */
  lemma {:induction false} RunGoesOnIff(e: Env, s0: Chain, acts: seq<Action>)
    requires Initial(s0) && forall i :: 0 <= i < |acts| ==> Sensible(e, acts[i])
    ensures Run(e, s0, acts).Some? <==> forall k :: 0 <= k < |acts| ==> GoesOnAt(e, s0, acts, k)
    decreases |acts|
  {
    hide Inv, Step, Sensible, GoesOn, Initial;
    if acts != [] {
      var n := |acts| - 1;
      var before := acts[..n];
      RunGoesOnIff(e, s0, before);
      forall k | 0 <= k < n
        ensures GoesOnAt(e, s0, before, k) == GoesOnAt(e, s0, acts, k)
      {
        assert before[..k] == acts[..k];
      }
      var r := Run(e, s0, before);
      if r.Some? {
        ReachableInv(e, s0, before, r.value.0, r.value.1);
        StepGoesOnIff(e, r.value.0, r.value.1, acts[n]);
      }
      assert GoesOnAt(e, s0, acts, n) <==> (r.Some? ==> GoesOn(r.value.0, r.value.1, acts[n]));
    }
  }

  predicate AllPositive(rs: map<Bytes, R.Request>)
  {
    forall a :: a in rs ==> rs[a].collateral.amount > 0
  }

  lemma StepKeepsPositive(e: Env, s: Chain, g: Ledger, act: Action)
    requires Inv(e, s, g) && AllPositive(s.requests) && (act.Redeem? ==> act.coin.amount >= 2)
    ensures var r := Step(e, s, g, act); r.Some? ==> AllPositive(r.value.0.requests)
  {
    hide Inv, EndRedeeming, Store.Listing, BookMint, BookRedeem, BookPayout, Send, DueForNothing, InvariantCheck,
         Holdings;
    if act.EndBlock? {
      PayoutPays(e, s, g, act.blockTime);
    }
  }

  /** If every redeem in a run is of at least 2 HAL, no block end stops it. */
  lemma {:induction false} BlockEndGoesOn(e: Env, s0: Chain, acts: seq<Action>, s: Chain, g: Ledger, blockTime: int)
    requires Initial(s0) && Reaches(e, s0, acts, s, g)
    requires forall i :: 0 <= i < |acts| ==> Sensible(e, acts[i])
    requires forall i :: 0 <= i < |acts| && acts[i].Redeem? ==> acts[i].coin.amount >= 2
    ensures AllPositive(s.requests) && Step(e, s, g, EndBlock(blockTime)).Some?
    decreases |acts|
  {
    hide Inv, Step, Sensible;
    ReachableInv(e, s0, acts, s, g);
    if acts != [] {
      var n := |acts| - 1;
      var r := Run(e, s0, acts[..n]).value;
      BlockEndGoesOn(e, s0, acts[..n], r.0, r.1, blockTime);
      ReachableInv(e, s0, acts[..n], r.0, r.1);
      StepKeepsPositive(e, r.0, r.1, acts[n]);
    }
    StepGoesOnIff(e, s, g, EndBlock(blockTime));
  }

  // ----- runs that show what goes wrong -----

  lemma {:induction false} NothingDue(e: Env, s: Chain, list: seq<R.Request>, blockTime: int)
    requires forall i :: 0 <= i < |list| ==> !Due(list[i], blockTime)
    ensures EndRedeeming(e, s, list, blockTime) == Some(s)
    decreases |list|
  {
    hide Due;
    if list != [] {
      NothingDue(e, s, list[1..], blockTime);
    }
  }

  lemma QuietBlockEnd(e: Env, s: Chain, g: Ledger, blockTime: int)
    requires forall a :: a in s.requests ==> !Due(s.requests[a], blockTime)
    ensures Step(e, s, g, EndBlock(blockTime)) == Some((s, g))
  {
    hide Due, EndRedeeming;
    NothingDue(e, s, Store.Listing(s.requests), blockTime);
  }

  /** A user with c units of collateral; a block starts, they mint for amt and redeem amt HAL. */
  function OneUser(a: Bytes, c: nat): Chain { Chain(map[], map[User(a) := c], map[], 0, map[]) }

  function FirstBlock(e: Env, a: Bytes, amt: nat): seq<Action>
  {
    [BeginBlock, Mint(Some(a), R.Coin(e.collDenom, amt)), Redeem(Some(a), R.Coin(e.halDenom, amt), 0)]
  }

  lemma FirstMint(e: Env, a: Bytes, c: nat, amt: nat)
    requires e.denomOk(e.collDenom) && e.denomOk(e.halDenom)
    ensures var r := Run(e, OneUser(a, c), [BeginBlock, Mint(Some(a), R.Coin(e.collDenom, amt))]);
            var pool := if c >= amt then amt else 0;
            && r.Some? && r.value.1.missed == amt - pool && r.value.0.supply == 2 * amt
            && At(r.value.0.hal, User(a)) == 2 * amt && At(r.value.0.hal, CollateralPool) == 0
            && At(r.value.0.coll, CollateralPool) == pool && At(r.value.0.coll, RedeemPool) == 0
            && r.value.0.requests == map[]
  {
    hide Total, Amounts, Run;
    var s0, mint := OneUser(a, c), Mint(Some(a), R.Coin(e.collDenom, amt));
    RunOne(e, s0, [], BeginBlock);
    RunOne(e, s0, [BeginBlock], mint);
    assert [] + [BeginBlock] == [BeginBlock] && [BeginBlock] + [mint] == [BeginBlock, mint];
  }

  lemma FirstBlockRuns(e: Env, a: Bytes, c: nat, amt: nat)
    requires e.isAddr(a) && e.denomOk(e.collDenom) && e.denomOk(e.halDenom) && (c >= amt || amt == 1)
    ensures Initial(OneUser(a, c))
    ensures var r := Run(e, OneUser(a, c), FirstBlock(e, a, amt));
            && r.Some? && r.value.1.missed == (if c >= amt then 0 else amt)
            && r.value.0.supply == amt && At(r.value.0.coll, RedeemPool) == amt / 2
            && At(r.value.0.coll, CollateralPool) == (if c >= amt then amt - amt / 2 else 0)
            && r.value.0.requests == map[a := R.Request(a, R.Coin(e.collDenom, amt / 2), e.redeemDur)]
  {
    hide Total, Amounts, Run;
    FirstMint(e, a, c, amt);
    var s0, acts := OneUser(a, c), FirstBlock(e, a, amt);
    RunOne(e, s0, [acts[0], acts[1]], acts[2]);
    assert [acts[0], acts[1]] + [acts[2]] == acts;
  }

  /** The block-start check fails without any missed deposit: mint for 2, redeem 2 HAL. The block ends
      and the next one stops the chain. */
  lemma CheckFails(e: Env, a: Bytes)
    requires e.isAddr(a) && e.denomOk(e.collDenom) && e.denomOk(e.halDenom) && e.redeemDur >= 0
    ensures var acts := FirstBlock(e, a, 2) + [EndBlock(0)];
            var r := Run(e, OneUser(a, 2), acts);
            && Initial(OneUser(a, 2)) && r.Some? && r.value.1.missed == 0
            && Run(e, OneUser(a, 2), acts + [BeginBlock]) == None
  {
    hide Total, Run, FirstBlock, EndRedeeming, Store.Listing;
    FirstBlockRuns(e, a, 2, 2);
    var s0, acts := OneUser(a, 2), FirstBlock(e, a, 2);
    var r := Run(e, s0, acts).value;
    QuietBlockEnd(e, r.0, r.1, 0);
    RunOne(e, s0, acts, EndBlock(0));
    RunOne(e, s0, acts + [EndBlock(0)], BeginBlock);
  }

  /** A request for nothing can be stored: mint for 1 without the collateral, redeem 1 HAL. The block
      ends, the next one starts, and its end, after the waiting time, stops the chain. */
  lemma EndBlockFails(e: Env, a: Bytes)
    requires e.isAddr(a) && e.denomOk(e.collDenom) && e.denomOk(e.halDenom) && e.redeemDur >= 0
    ensures var acts := FirstBlock(e, a, 1) + [EndBlock(0)] + [BeginBlock];
            && Initial(OneUser(a, 0)) && Run(e, OneUser(a, 0), acts).Some?
            && Run(e, OneUser(a, 0), acts + [EndBlock(e.redeemDur + 1)]) == None
  {
    hide Total, Run, FirstBlock, EndRedeeming, Store.Listing, Inv;
    FirstBlockRuns(e, a, 0, 1);
    var s0, acts, last := OneUser(a, 0), FirstBlock(e, a, 1), EndBlock(e.redeemDur + 1);
    var r := Run(e, s0, acts).value;
    QuietBlockEnd(e, r.0, r.1, 0);
    RunOne(e, s0, acts, EndBlock(0));
    RunOne(e, s0, acts + [EndBlock(0)], BeginBlock);
    RunOne(e, s0, acts + [EndBlock(0)] + [BeginBlock], last);
    FirstBlockSensible(e, a, 1);
    ReachableInv(e, s0, acts, r.0, r.1);
    PayoutPays(e, r.0, r.1, e.redeemDur + 1);
  }

  lemma FirstBlockSensible(e: Env, a: Bytes, amt: nat)
    requires e.isAddr(a)
    ensures forall i :: 0 <= i < |FirstBlock(e, a, amt)| ==> Sensible(e, FirstBlock(e, a, amt)[i])
  {
  }

  /** b mints for 1 and sends the 2 HAL to the pool; then a, who never held any, redeems them. */
  function GiftBlock(e: Env, a: Bytes, b: Bytes): seq<Action>
  {
    [BeginBlock, Mint(Some(b), R.Coin(e.collDenom, 1)), Transfer(b, CollateralPool, e.halDenom, 2),
     Redeem(Some(a), R.Coin(e.halDenom, 2), 0)]
  }

  lemma RedeemOfGift(e: Env, a: Bytes, b: Bytes)
    requires a != b && e.denomOk(e.collDenom) && e.denomOk(e.halDenom) && e.halDenom != e.collDenom
    ensures var r := Run(e, OneUser(b, 1), GiftBlock(e, a, b));
            && r.Some? && At(r.value.0.hal, User(a)) == 0 && r.value.0.supply == 0
            && r.value.0.requests == map[a := R.Request(a, R.Coin(e.collDenom, 1), e.redeemDur)]
  {
    hide Total, Amounts, Run;
    FirstMint(e, b, 1, 1);
    FirstMintOthers(e, a, b);
    var s0, acts := OneUser(b, 1), GiftBlock(e, a, b);
    RunOne(e, s0, [acts[0], acts[1]], acts[2]);
    RunOne(e, s0, [acts[0], acts[1], acts[2]], acts[3]);
    assert [acts[0], acts[1]] + [acts[2]] == [acts[0], acts[1], acts[2]];
    assert [acts[0], acts[1], acts[2]] + [acts[3]] == acts;
  }

  lemma FirstMintOthers(e: Env, a: Bytes, b: Bytes)
    requires a != b && e.denomOk(e.collDenom) && e.denomOk(e.halDenom)
    ensures var r := Run(e, OneUser(b, 1), [BeginBlock, Mint(Some(b), R.Coin(e.collDenom, 1))]);
            r.Some? && At(r.value.0.hal, User(a)) == 0
  {
    hide Total, Amounts, Run;
    var s0, mint := OneUser(b, 1), Mint(Some(b), R.Coin(e.collDenom, 1));
    RunOne(e, s0, [], BeginBlock);
    RunOne(e, s0, [BeginBlock], mint);
    assert [] + [BeginBlock] == [BeginBlock] && [BeginBlock] + [mint] == [BeginBlock, mint];
  }

  // ----- from a redeem to its payment -----

  /** act is an accepted redeem of account a. */
  predicate Replaces(e: Env, s: Chain, a: Bytes, act: Action)
  {
    act.Redeem? && act.creator == Some(a) && RedeemCollateral(e, s, act.creator, act.coin, act.now).Some?
  }

  /** The balances and requests after the first k of the actions. */
  ghost function After(e: Env, s: Chain, g: Ledger, acts: seq<Action>, k: nat): Chain
    requires RunFrom(e, s, g, acts).Some? && k <= |acts|
  {
    PrefixRuns(e, s, g, acts, k);
    RunFrom(e, s, g, acts[..k]).value.0
  }

  lemma {:induction false} PrefixRuns(e: Env, s: Chain, g: Ledger, acts: seq<Action>, k: nat)
    requires RunFrom(e, s, g, acts).Some? && k <= |acts|
    ensures RunFrom(e, s, g, acts[..k]).Some?
    decreases |acts|
  {
    hide Step;
    if k == |acts| {
      assert acts[..k] == acts;
    } else {
      PrefixRuns(e, s, g, acts[..|acts| - 1], k);
      assert acts[..|acts| - 1][..k] == acts[..k];
    }
  }

  /** Until its time has come, only another redeem of the same account touches a request. */
  lemma StepKeepsRequest(e: Env, s: Chain, g: Ledger, act: Action, a: Bytes)
    requires Inv(e, s, g) && a in s.requests && !Replaces(e, s, a, act) && Step(e, s, g, act).Some?
    requires act.EndBlock? ==> act.blockTime <= s.requests[a].completiontime
    ensures var s' := Step(e, s, g, act).value.0;
            && a in s'.requests && s'.requests[a] == s.requests[a]
            && (act.EndBlock? ==> At(s'.coll, User(a)) == At(s.coll, User(a)))
  {
    hide Inv, EndRedeeming, Store.Listing, BookMint, BookRedeem, BookPayout, Send, DueForNothing, InvariantCheck,
         Holdings;
    if act.EndBlock? {
      PayoutPays(e, s, g, act.blockTime);
    }
  }

  /** In the run of acts from s, a's request is not replaced and no block ends after its time. */
  ghost predicate Waiting(e: Env, s: Chain, g: Ledger, acts: seq<Action>, a: Bytes, time: int)
    requires RunFrom(e, s, g, acts).Some?
  {
    && (forall k :: 0 <= k < |acts| ==> !Replaces(e, After(e, s, g, acts, k), a, acts[k]))
    && (forall k :: 0 <= k < |acts| && acts[k].EndBlock? ==> acts[k].blockTime <= time)
  }

  lemma WaitingPrefix(e: Env, s: Chain, g: Ledger, acts: seq<Action>, a: Bytes, time: int)
    requires RunFrom(e, s, g, acts).Some? && Waiting(e, s, g, acts, a, time) && acts != []
    ensures var before := acts[..|acts| - 1];
            RunFrom(e, s, g, before).Some? && Waiting(e, s, g, before, a, time)
  {
    hide Step, Replaces, RunFrom;
    var n := |acts| - 1;
    PrefixRuns(e, s, g, acts, n);
    forall k | 0 <= k < n
      ensures !Replaces(e, After(e, s, g, acts[..n], k), a, acts[..n][k])
    {
      assert acts[..n][..k] == acts[..k];
      assert !Replaces(e, After(e, s, g, acts, k), a, acts[k]);
    }
  }

  lemma {:induction false} RequestWaits(e: Env, s: Chain, g: Ledger, acts: seq<Action>, a: Bytes)
    requires Inv(e, s, g) && a in s.requests && forall i :: 0 <= i < |acts| ==> Sensible(e, acts[i])
    requires RunFrom(e, s, g, acts).Some? && Waiting(e, s, g, acts, a, s.requests[a].completiontime)
    ensures var s' := RunFrom(e, s, g, acts).value.0; a in s'.requests && s'.requests[a] == s.requests[a]
    ensures forall k :: 0 <= k < |acts| && acts[k].EndBlock? ==>
              At(After(e, s, g, acts, k + 1).coll, User(a)) == At(After(e, s, g, acts, k).coll, User(a))
    decreases |acts|
  {
    hide Inv, Step, Sensible, Replaces;
    if acts != [] {
      var n := |acts| - 1;
      var before, time := acts[..n], s.requests[a].completiontime;
      WaitingPrefix(e, s, g, acts, a, time);
      RequestWaits(e, s, g, before, a);
      RunKeeps(e, s, g, before);
      var r := RunFrom(e, s, g, before).value;
      assert After(e, s, g, acts, n) == r.0;
      StepKeepsRequest(e, r.0, r.1, acts[n], a);
      forall k | 0 <= k < |acts| && acts[k].EndBlock?
        ensures At(After(e, s, g, acts, k + 1).coll, User(a)) == At(After(e, s, g, acts, k).coll, User(a))
      {
        if k < n {
          assert before[..k] == acts[..k] && before[..k + 1] == acts[..k + 1];
          assert before[k] == acts[k];
          assert After(e, s, g, before, k + 1) == After(e, s, g, acts, k + 1);
          assert After(e, s, g, before, k) == After(e, s, g, acts, k);
        } else {
          assert acts[..k + 1] == acts;
        }
      }
    }
  }

  /** Whatever happens after a redeem, as long as the account has no other redeem accepted: up to the
      end of the waiting time the request stays as stored and no block end pays the account, and the
      first block end after it, unless it stops the chain, pays half of the burnt amount, rounded
      down, and removes the request. */
  lemma RedeemIsPaid(e: Env, s: Chain, g: Ledger, a: Bytes, coin: R.Coin, now: int, acts: seq<Action>, blockTime: int)
    requires Inv(e, s, g) && e.isAddr(a) && RedeemCollateral(e, s, Some(a), coin, now).Some?
    requires forall i :: 0 <= i < |acts| ==> Sensible(e, acts[i])
    requires var s1, g1 := RedeemCollateral(e, s, Some(a), coin, now).value, BookRedeem(g, s, a, coin.amount);
             RunFrom(e, s1, g1, acts).Some? && Waiting(e, s1, g1, acts, a, now + e.redeemDur)
    ensures var s1, g1 := RedeemCollateral(e, s, Some(a), coin, now).value, BookRedeem(g, s, a, coin.amount);
            var s2, g2 := RunFrom(e, s1, g1, acts).value.0, RunFrom(e, s1, g1, acts).value.1;
            var r := Step(e, s2, g2, EndBlock(blockTime));
            && At(s1.coll, User(a)) == At(s.coll, User(a))
            && a in s2.requests
            && s2.requests[a] == R.Request(a, R.Coin(e.collDenom, coin.amount / 2), now + e.redeemDur)
            && (forall k :: 0 <= k < |acts| && acts[k].EndBlock? ==>
                  At(After(e, s1, g1, acts, k + 1).coll, User(a)) == At(After(e, s1, g1, acts, k).coll, User(a)))
            && (blockTime > now + e.redeemDur && r.Some? ==>
                  && a !in r.value.0.requests
                  && At(r.value.0.coll, User(a)) == At(s2.coll, User(a)) + coin.amount / 2)
  {
    hide Inv, EndRedeeming, Store.Listing, BookRedeem, BookPayout, Send, DueForNothing, RunFrom, Sensible, Waiting,
         After;
    var s1, g1 := RedeemCollateral(e, s, Some(a), coin, now).value, BookRedeem(g, s, a, coin.amount);
    RedeemKeeps(e, s, g, Some(a), coin, now);
    RedeemTouchesPools(e, s, a, coin, now);
    RequestWaits(e, s1, g1, acts, a);
    RunKeeps(e, s1, g1, acts);
    var r := RunFrom(e, s1, g1, acts).value;
    PayoutPays(e, r.0, r.1, blockTime);
  }

  lemma RedeemTouchesPools(e: Env, s: Chain, a: Bytes, coin: R.Coin, now: int)
    requires RedeemCollateral(e, s, Some(a), coin, now).Some?
    ensures At(RedeemCollateral(e, s, Some(a), coin, now).value.coll, User(a)) == At(s.coll, User(a))
  {
  }

  // ----- the module's code -----

  class HalModule {
    const env: Env
    var hal: Balances
    var coll: Balances
    var other: map<Bytes, Balances>
    var supply: nat
    var requests: map<Bytes, R.Request>

    function Contents(): Chain
      reads this
    {
      Chain(hal, coll, other, supply, requests)
    }

    constructor (env: Env, s: Chain)
      ensures this.env == env && Contents() == s
    {
      this.env := env;
      hal, coll, other, supply, requests := s.hal, s.coll, s.other, s.supply, s.requests;
    }

    method SendHal(from: Holder, to: Holder, amt: nat) returns (ok: bool)
      modifies this`hal
      ensures ok == Send(old(hal), from, to, amt).Some?
      ensures hal == SendOrIgnore(old(hal), from, to, amt)
    {
      ok := At(hal, from) >= amt;
      if ok {
        hal := hal[from := At(hal, from) - amt];
        hal := hal[to := At(hal, to) + amt];
      }
    }

    method SendColl(from: Holder, to: Holder, amt: nat) returns (ok: bool)
      modifies this`coll
      ensures ok == Send(old(coll), from, to, amt).Some?
      ensures coll == SendOrIgnore(old(coll), from, to, amt)
    {
      ok := At(coll, from) >= amt;
      if ok {
        coll := coll[from := At(coll, from) - amt];
        coll := coll[to := At(coll, to) + amt];
      }
    }

    method SendDenom(denom: Bytes, from: Holder, to: Holder, amt: nat) returns (ok: bool)
      modifies this
      ensures var m := Holdings(env, old(Contents()), denom);
              && ok == Send(m, from, to, amt).Some?
              && Contents() == if ok then WithHoldings(env, old(Contents()), denom, Send(m, from, to, amt).value)
                               else old(Contents())
    {
      hide Send;
      if denom == env.collDenom {
        ok := SendColl(from, to, amt);
      } else if denom == env.halDenom {
        ok := SendHal(from, to, amt);
      } else {
        ok := SendOther(denom, from, to, amt);
      }
    }

    method SendOther(denom: Bytes, from: Holder, to: Holder, amt: nat) returns (ok: bool)
      modifies this`other
      ensures var m := if denom in old(other) then old(other)[denom] else map[];
              && ok == Send(m, from, to, amt).Some?
              && other == if ok then old(other)[denom := Send(m, from, to, amt).value] else old(other)
    {
      var m := if denom in other then other[denom] else map[];
      ok := At(m, from) >= amt;
      if ok {
        m := m[from := At(m, from) - amt];
        other := other[denom := m[to := At(m, to) + amt]];
      }
    }

    /** Runs a handler's failure path: the transaction's writes are dropped. */
    method Revert(s: Chain)
      modifies this
      ensures Contents() == s
    {
      hal, coll, other, supply, requests := s.hal, s.coll, s.other, s.supply, s.requests;
    }

    method HandleMint(creator: Option<Bytes>, coin: R.Coin) returns (ok: bool)
      modifies this
      ensures var r := MintHal(env, old(Contents()), creator, coin);
              ok == r.Some? && Contents() == if r.Some? then r.value else old(Contents())
    {
      hide Send;
      if creator == None {
        return false;
      }
      if !ValidCoin(env, coin) && coin.amount == 0 {
        return false;
      }
      if coin.denom != env.collDenom {
        return false;
      }
      if !ValidCoin(env, coin) || !env.denomOk(env.halDenom) { // NewCoin or NewCoins panics
        return false;
      }
      var minted := 2 * coin.amount;
      supply := supply + minted;
      hal := hal[CollateralPool := At(hal, CollateralPool) + minted];
      SendSucceedsIff(hal, CollateralPool, User(creator.value), minted);
      ok := SendHal(CollateralPool, User(creator.value), minted);
      assert ok; // the pool has just received these coins, so the error branch is dead
      var deposited := SendColl(User(creator.value), CollateralPool, coin.amount); // result not looked at
      ok := true;
    }

    method HandleRedeem(creator: Option<Bytes>, coin: R.Coin, now: int) returns (ok: bool)
      modifies this
      ensures var r := RedeemCollateral(env, old(Contents()), creator, coin, now);
              ok == r.Some? && Contents() == if r.Some? then r.value else old(Contents())
    {
      hide Send;
      var before := Contents();
      if creator == None {
        return false;
      }
      if !ValidCoin(env, coin) {
        return false;
      }
      if !env.denomOk(env.halDenom) || !env.denomOk(env.collDenom) { // NewCoin panics
        return false;
      }
      var amt: nat := coin.amount;
      var sent := SendHal(User(creator.value), CollateralPool, amt); // result not looked at
      if At(hal, CollateralPool) < amt || supply < amt {
        Revert(before);
        return false;
      }
      hal := hal[CollateralPool := At(hal, CollateralPool) - amt];
      supply := supply - amt;
      ok := SendColl(CollateralPool, RedeemPool, amt / 2);
      if !ok {
        Revert(before);
        return false;
      }
      var request := R.Request(creator.value, R.Coin(env.collDenom, amt / 2), now + env.redeemDur);
      requests := requests[creator.value := request];
    }

    /** The check at the start of a block, with both pools added up; false is the panic. */
    method HandleBeginBlock() returns (ok: bool)
      ensures ok == InvariantCheck(Contents())
    {
      if supply == 0 {
        return true;
      }
      var poolBalance := At(coll, CollateralPool) + At(coll, RedeemPool);
      var result := supply - 2 * poolBalance;
      return !(result < 0);
    }

    /** The payout over the list the reader returned; false is the panic. */
    method HandleEndBlock(list: seq<R.Request>, blockTime: int) returns (ok: bool)
      modifies this
      ensures var r := EndRedeeming(env, old(Contents()), list, blockTime);
              ok == r.Some? && (ok ==> Contents() == r.value)
    {
      hide PayOne;
      ghost var goal := EndRedeeming(env, Contents(), list, blockTime);
      for i := 0 to |list|
        invariant EndRedeeming(env, Contents(), list[i..], blockTime) == goal
      {
        assert list[i..][0] == list[i] && list[i..][1..] == list[i + 1..];
        ok := HandleRequest(list[i], blockTime);
        if !ok {
          return;
        }
      }
      ok := true;
    }

    /** The body of the loop: a request that is not due, or cannot be paid, is passed over. */
    method HandleRequest(r: R.Request, blockTime: int) returns (ok: bool)
      modifies this
      ensures var o := PayOne(env, old(Contents()), r, blockTime);
              ok == o.Some? && (ok ==> Contents() == o.value)
    {
      hide Send, Holdings, WithHoldings;
      ok := true;
      if blockTime > r.completiontime {
        if !env.isAddr(r.account) {
          return;
        }
        if !ValidCoin(env, r.collateral) { // NewCoins panics
          return false;
        }
        var denom := r.collateral.denom;
        ghost var m := Holdings(env, Contents(), denom);
        var balanceBefore := At(Holdings(env, Contents(), denom), User(r.account));
        var sent := SendDenom(denom, RedeemPool, User(r.account), r.collateral.amount);
        if !sent {
          return;
        }
        ReadBackHoldings(env, old(Contents()), denom, Send(m, RedeemPool, User(r.account), r.collateral.amount).value);
        var balanceAfter := At(Holdings(env, Contents(), denom), User(r.account));
        if balanceAfter <= balanceBefore {
          return false;
        }
        requests := requests - {r.account};
      }
    }
  }
}
