/** The HAL machine with its redeem requests kept as bytes in the keeper's store, beside the tickets
    and params: whole runs on bytes are runs of the machine on typed requests, in which the end of a
    block also visits the values of other kinds that the reader takes for requests. */
module HalStore {
  import opened Words
  import opened ByteOrder
  import opened MapSum
  import opened Hal
  import R = RedeemRequests
  import T = Tickets
  import Store
  import Wire

  datatype Flat = Flat(hal: Balances, coll: Balances, other: map<Bytes, Balances>, supply: nat, kv: Store.KV)

  function Bank(f: Flat): Chain { Chain(f.hal, f.coll, f.other, f.supply, map[]) }

  function WithBank(f: Flat, s: Chain): Flat
  {
    f.(hal := s.hal, coll := s.coll, other := s.other, supply := s.supply)
  }

  /** One round of the payout loop, deleting a paid request from the store. */
  function PayFlat(e: Env, f: Flat, r: R.Request, blockTime: int): Option<Flat>
  {
    if !Due(r, blockTime) || !e.isAddr(r.account) then Some(f)
    else if !ValidCoin(e, r.collateral) then None
    else
      var m := Holdings(e, Bank(f), r.collateral.denom);
      match Send(m, RedeemPool, User(r.account), r.collateral.amount)
      case None => Some(f)
      case Some(m') =>
        if At(m', User(r.account)) <= At(m, User(r.account)) then None
        else
          var f' := WithBank(f, WithHoldings(e, Bank(f), r.collateral.denom, m'));
          Some(f'.(kv := Store.DeleteRequest(f.kv, r.account)))
  }

  function PayRequests(e: Env, f: Flat, list: seq<R.Request>, blockTime: int): Option<Flat>
    decreases |list|
  {
    if list == [] then Some(f)
    else
      var o := PayFlat(e, f, list[0], blockTime);
      if o == None then None else PayRequests(e, o.value, list[1..], blockTime)
  }

  datatype Event = Act(act: Action) | Ticket(ticket: T.Ticket)

  /** What an event does to balances and store; the end of a block pays what the reader returns. */
  ghost function StepFlat(e: Env, c: Store.Codecs, f: Flat, ev: Event): Option<Flat>
  {
    match ev
    case Ticket(t) => Some(f.(kv := Store.StepStore(c, f.kv, Store.AppendOp(t))))
    case Act(BeginBlock) => if InvariantCheck(Bank(f)) then Some(f) else None
    case Act(Mint(creator, coin)) =>
      var r := MintHal(e, Bank(f), creator, coin);
      Some(if r == None then f else WithBank(f, r.value))
    case Act(Redeem(creator, coin, now)) =>
      var r := RedeemCollateral(e, Bank(f), creator, coin, now);
      Some(if r == None then f
           else WithBank(f, r.value).(kv := Store.SetRequest(c, f.kv, r.value.requests[creator.value])))
    case Act(EndBlock(blockTime)) =>
      PayRequests(e, f, Store.ReadAll(c, f.kv, Sorted(f.kv.Keys)), blockTime)
    case Act(Transfer(from, to, denom, amt)) =>
      var m := SendOrIgnore(Holdings(e, Bank(f), denom), User(from), to, amt);
      Some(WithBank(f, WithHoldings(e, Bank(f), denom, m)))
    case Act(Issue(user, amt)) =>
      Some(f.(coll := f.coll[User(user) := At(f.coll, User(user)) + amt]))
  }

  ghost function RunFlat(e: Env, c: Store.Codecs, f0: Flat, evs: seq<Event>): Option<Flat>
  {
    if evs == [] then Some(f0)
    else
      var n := |evs| - 1;
      var r := RunFlat(e, c, f0, evs[..n]);
      if r == None then None else StepFlat(e, c, r.value, evs[n])
  }

  // ----- what is meant -----

  /** The machine's step without its ledger; `list` is what the end of a block visits. */
  function Move(e: Env, s: Chain, act: Action, list: seq<R.Request>): Option<Chain>
  {
    match act
    case BeginBlock => if InvariantCheck(s) then Some(s) else None
    case Mint(creator, coin) =>
      var r := MintHal(e, s, creator, coin);
      Some(if r == None then s else r.value)
    case Redeem(creator, coin, now) =>
      var r := RedeemCollateral(e, s, creator, coin, now);
      Some(if r == None then s else r.value)
    case EndBlock(blockTime) => EndRedeeming(e, s, list, blockTime)
    case Transfer(from, to, denom, amt) =>
      Some(WithHoldings(e, s, denom, SendOrIgnore(Holdings(e, s, denom), User(from), to, amt)))
    case Issue(user, amt) => Some(s.(coll := s.coll[User(user) := At(s.coll, User(user)) + amt]))
  }

  /** Tickets get their ids in order. */
  function TicketsAfter(ts: seq<T.Ticket>, evs: seq<Event>): seq<T.Ticket>
  {
    if evs == [] then ts
    else
      var n := |evs| - 1;
      var before := TicketsAfter(ts, evs[..n]);
      if evs[n].Ticket? then before + [evs[n].ticket.(id := |before| % TWO_64)] else before
  }

  /** The requests in the order of their accounts, and then the strays. */
  ghost function Visited(c: Store.Codecs, st: Store.State): seq<R.Request>
  {
    Store.Listing(st.requests) + Store.Strays(c, st)
  }

  function StateAfter(st0: Store.State, evs: seq<Event>, s: Chain): Store.State
  {
    Store.State(TicketsAfter(st0.tickets, evs), s.requests, st0.params)
  }

  ghost function RunMoves(e: Env, c: Store.Codecs, s0: Chain, st0: Store.State, evs: seq<Event>): Option<Chain>
  {
    if evs == [] then Some(s0)
    else
      var n := |evs| - 1;
      var r := RunMoves(e, c, s0, st0, evs[..n]);
      if r == None || evs[n].Ticket? then r
      else Move(e, r.value, evs[n].act, Visited(c, StateAfter(st0, evs[..n], r.value)))
  }

  /** The balances are those of s and the store holds exactly st, whose requests are those of s. */
  ghost predicate Stands(c: Store.Codecs, f: Flat, s: Chain, st: Store.State)
  {
    && f.hal == s.hal && f.coll == s.coll && f.other == s.other && f.supply == s.supply
    && st.requests == s.requests && Store.Represents(c, f.kv, st) && Store.SubCodecsRoundTrip(c, st)
  }

  /** The request fits in a slice and its coin and time survive their own codecs. */
  ghost predicate Storable(c: Store.Codecs, r: R.Request)
  {
    && |R.Marshalled(c.request, r)| <= MAX_INT
    && Wire.RoundTrips(c.request.coin, r.collateral) && Wire.RoundTrips(c.request.time, r.completiontime)
  }

  ghost predicate FitsStore(e: Env, c: Store.Codecs, ev: Event)
  {
    match ev
    case Ticket(t) => Store.Fits(c, Store.AppendOp(t))
    case Act(Redeem(Some(a), coin, now)) =>
      Storable(c, R.Request(a, R.Coin(e.collDenom, coin.amount / 2), now + e.redeemDur))
    case _ => true
  }

  // ----- one step -----

  lemma MintIgnoresRequests(e: Env, f: Flat, s: Chain, creator: Option<Bytes>, coin: R.Coin)
    requires Bank(f) == s.(requests := map[])
    ensures var r, r' := MintHal(e, Bank(f), creator, coin), MintHal(e, s, creator, coin);
            && (r == None <==> r' == None)
            && (r'.Some? ==> WithBank(f, r.value) == WithBank(f, r'.value) && r'.value.requests == s.requests)
  {
    hide Send, SendOrIgnore;
  }

  lemma RedeemIgnoresRequests(e: Env, f: Flat, s: Chain, creator: Option<Bytes>, coin: R.Coin, now: int)
    requires Bank(f) == s.(requests := map[])
    ensures var r, r' := RedeemCollateral(e, Bank(f), creator, coin, now), RedeemCollateral(e, s, creator, coin, now);
            && (r == None <==> r' == None)
            && (r'.Some? ==>
                  var a := creator.value;
                  var request := R.Request(a, R.Coin(e.collDenom, coin.amount / 2), now + e.redeemDur);
                  && r.value.requests == map[a := request] && r'.value.requests == s.requests[a := request]
                  && WithBank(f, r.value) == WithBank(f, r'.value))
  {
    hide Send, SendOrIgnore;
  }

  lemma RedeemStands(e: Env, c: Store.Codecs, f: Flat, s: Chain, st: Store.State, r: R.Request, s': Chain)
    requires Stands(c, f, s, st) && Storable(c, r) && s'.requests == s.requests[r.account := r]
    ensures Stands(c, WithBank(f, s').(kv := Store.SetRequest(c, f.kv, r)), s', st.(requests := s'.requests))
  {
    hide Store.Represents, Store.SetRequest, R.Marshalled, Wire.RoundTrips;
    Store.SetRequestRefines(c, f.kv, st, r);
  }

  lemma DeleteStands(c: Store.Codecs, f: Flat, s: Chain, st: Store.State, a: Bytes, s': Chain)
    requires Stands(c, f, s, st) && s'.requests == s.requests - {a}
    ensures Stands(c, WithBank(f, s').(kv := Store.DeleteRequest(f.kv, a)), s', st.(requests := s'.requests))
  {
    hide Store.Represents, Store.DeleteRequest, Wire.RoundTrips;
    Store.DeleteRequestRefines(c, f.kv, st, a);
  }

  lemma SameHoldings(e: Env, f: Flat, s: Chain, denom: Bytes, m: Balances)
    requires Bank(f) == s.(requests := map[])
    ensures Holdings(e, Bank(f), denom) == Holdings(e, s, denom)
    ensures WithBank(f, WithHoldings(e, Bank(f), denom, m)) == WithBank(f, WithHoldings(e, s, denom, m))
    ensures WithHoldings(e, s, denom, m).requests == s.requests
  {
  }

  lemma PaidStands(e: Env, c: Store.Codecs, f: Flat, s: Chain, st: Store.State, r: R.Request, m: Balances)
    requires Stands(c, f, s, st)
    ensures var denom := r.collateral.denom;
            var s' := WithHoldings(e, s, denom, m).(requests := s.requests - {r.account});
            var f' := WithBank(f, WithHoldings(e, Bank(f), denom, m)).(kv := Store.DeleteRequest(f.kv, r.account));
            Stands(c, f', s', st.(requests := s'.requests))
  {
    hide Store.Represents, Store.SubCodecsRoundTrip, Store.DeleteRequest, WithHoldings;
    SameHoldings(e, f, s, r.collateral.denom, m);
    var s' := WithHoldings(e, s, r.collateral.denom, m).(requests := s.requests - {r.account});
    DeleteStands(c, f, s, st, r.account, s');
  }

  /** One round on bytes is the round on typed requests. */
  lemma OneStands(e: Env, c: Store.Codecs, f: Flat, s: Chain, st: Store.State, r: R.Request, blockTime: int)
    requires Stands(c, f, s, st)
    ensures var o, o' := PayFlat(e, f, r, blockTime), PayOne(e, s, r, blockTime);
            && (o == None <==> o' == None)
            && (o'.Some? ==> Stands(c, o.value, o'.value, st.(requests := o'.value.requests)))
  {
    hide Store.Represents, Store.SubCodecsRoundTrip, Store.DeleteRequest, Send, Due, Holdings, WithHoldings;
    var m := Holdings(e, s, r.collateral.denom);
    SameHoldings(e, f, s, r.collateral.denom, m);
    if ValidCoin(e, r.collateral) {
      var sent := Send(m, RedeemPool, User(r.account), r.collateral.amount);
      if sent.Some? {
        PaidStands(e, c, f, s, st, r, sent.value);
      }
    }
  }

  /** Paying a list on bytes is paying it on typed requests. */
  lemma {:induction false} PayoutStands(e: Env, c: Store.Codecs, f: Flat, s: Chain, st: Store.State,
                                        list: seq<R.Request>, blockTime: int)
    requires Stands(c, f, s, st)
    ensures var r, r' := PayRequests(e, f, list, blockTime), EndRedeeming(e, s, list, blockTime);
            && (r == None <==> r' == None)
            && (r'.Some? ==> Stands(c, r.value, r'.value, st.(requests := r'.value.requests)))
    decreases |list|
  {
    hide Store.Represents, Store.SubCodecsRoundTrip, PayOne, PayFlat;
    if list != [] {
      OneStands(e, c, f, s, st, list[0], blockTime);
      var o, o' := PayFlat(e, f, list[0], blockTime), PayOne(e, s, list[0], blockTime);
      if o'.Some? {
        PayoutStands(e, c, o.value, o'.value, st.(requests := o'.value.requests), list[1..], blockTime);
      }
    }
  }

  lemma TicketStands(c: Store.Codecs, f: Flat, s: Chain, st: Store.State, t: T.Ticket)
    requires Stands(c, f, s, st) && Store.Fits(c, Store.AppendOp(t)) && |st.tickets| < Store.COUNTER_ID
    ensures Stands(c, f.(kv := Store.StepStore(c, f.kv, Store.AppendOp(t))), s,
                   st.(tickets := st.tickets + [t.(id := |st.tickets| % TWO_64)]))
  {
    hide Store.Represents, Store.StepStore, Store.Fits;
    Store.StepRefines(c, f.kv, st, Store.AppendOp(t));
  }

  /** The reader of the store returns the requests in the order of their accounts, and the strays. */
  lemma ListingRead(c: Store.Codecs, f: Flat, s: Chain, st: Store.State)
    requires Stands(c, f, s, st)
    ensures Store.ReadAll(c, f.kv, Sorted(f.kv.Keys)) == Visited(c, st)
  {
    hide Store.Represents, Store.SubCodecsRoundTrip, Store.ReadAll, Store.Listing, Store.Strays;
    Store.ReadsExactly(c, f.kv, st, Sorted(f.kv.Keys));
  }

  /** One action on bytes is the action on typed requests. */
  lemma ActionStands(e: Env, c: Store.Codecs, f: Flat, s: Chain, st: Store.State, act: Action)
    requires Stands(c, f, s, st) && FitsStore(e, c, Act(act))
    ensures var r, r' := StepFlat(e, c, f, Act(act)), Move(e, s, act, Visited(c, st));
            && (r == None <==> r' == None)
            && (r'.Some? ==> Stands(c, r.value, r'.value, st.(requests := r'.value.requests)))
  {
    hide Store.Represents, Store.SubCodecsRoundTrip, Store.ReadAll, Store.SetRequest, Storable, Visited,
         MintHal, RedeemCollateral, EndRedeeming, PayRequests, SendOrIgnore, Holdings, WithHoldings;
    match act
    case Transfer(from, to, denom, amt) =>
      SameHoldings(e, f, s, denom, SendOrIgnore(Holdings(e, s, denom), User(from), to, amt));
    case Mint(creator, coin) => MintIgnoresRequests(e, f, s, creator, coin);
    case Redeem(creator, coin, now) =>
      RedeemIgnoresRequests(e, f, s, creator, coin, now);
      var r' := RedeemCollateral(e, s, creator, coin, now);
      if r'.Some? {
        RedeemHasCreator(e, s, creator, coin, now);
        RedeemStands(e, c, f, s, st, r'.value.requests[creator.value], r'.value);
      }
    case EndBlock(blockTime) =>
      ListingRead(c, f, s, st);
      PayoutStands(e, c, f, s, st, Visited(c, st), blockTime);
    case _ =>
  }

  // ----- whole runs -----

  lemma TicketsGrow(ts: seq<T.Ticket>, evs: seq<Event>)
    requires evs != []
    ensures TicketsAfter(ts, evs[..|evs| - 1]) <= TicketsAfter(ts, evs)
  {
  }

  /** Every run of handlers, blocks and ticket appends on the byte store, from any state, is the run on
      typed requests in which block ends also visit the strays: it stops in the same place, leaves the
      same balances, and the store holds exactly the tickets, the requests and the params. */
  lemma {:induction false} RunStands(e: Env, c: Store.Codecs, f0: Flat, s0: Chain, st0: Store.State, evs: seq<Event>)
    requires Stands(c, f0, s0, st0) && |TicketsAfter(st0.tickets, evs)| <= Store.COUNTER_ID
    requires forall i :: 0 <= i < |evs| ==> FitsStore(e, c, evs[i])
    ensures var r, r' := RunFlat(e, c, f0, evs), RunMoves(e, c, s0, st0, evs);
            && (r == None <==> r' == None)
            && (r'.Some? ==> Stands(c, r.value, r'.value, StateAfter(st0, evs, r'.value)))
    decreases |evs|
  {
    hide Stands, StepFlat, FitsStore, Move, Visited;
    if evs == [] {
      NoEvents(c, f0, s0, st0);
    } else {
      var n := |evs| - 1;
      TicketsGrow(st0.tickets, evs);
      RunStands(e, c, f0, s0, st0, evs[..n]);
      var r' := RunMoves(e, c, s0, st0, evs[..n]);
      if r'.Some? {
        var f := RunFlat(e, c, f0, evs[..n]).value;
        EventStands(e, c, f, r'.value, StateAfter(st0, evs[..n], r'.value), evs[n]);
      }
    }
  }

  lemma NoEvents(c: Store.Codecs, f0: Flat, s0: Chain, st0: Store.State)
    requires Stands(c, f0, s0, st0)
    ensures Stands(c, f0, s0, StateAfter(st0, [], s0))
  {
    hide Store.Represents, Store.SubCodecsRoundTrip;
    assert st0 == Store.State(st0.tickets, s0.requests, st0.params);
  }

  /** The step of a run, for either kind of event. */
  lemma EventStands(e: Env, c: Store.Codecs, f: Flat, s: Chain, st: Store.State, ev: Event)
    requires Stands(c, f, s, st) && FitsStore(e, c, ev)
    requires ev.Ticket? ==> |st.tickets| < Store.COUNTER_ID
    ensures ev.Act? ==>
              var r, r' := StepFlat(e, c, f, ev), Move(e, s, ev.act, Visited(c, st));
              && (r == None <==> r' == None)
              && (r'.Some? ==> Stands(c, r.value, r'.value, st.(requests := r'.value.requests)))
    ensures ev.Ticket? ==>
              var r := StepFlat(e, c, f, ev);
              && r.Some?
              && Stands(c, r.value, s, st.(tickets := st.tickets + [ev.ticket.(id := |st.tickets| % TWO_64)]))
  {
    hide Stands, Move, Visited, Store.StepStore, Store.Fits, Storable;
    match ev
    case Act(act) => ActionStands(e, c, f, s, st, act);
    case Ticket(t) => TicketStands(c, f, s, st, t);
  }

  // ----- runs without strays -----

  function Actions(evs: seq<Event>): seq<Action>
  {
    if evs == [] then []
    else
      var n := |evs| - 1;
      Actions(evs[..n]) + if evs[n].Act? then [evs[n].act] else []
  }

  /** After k of the events no value of another kind passes for a request. */
  ghost predicate Undisturbed(c: Store.Codecs, st0: Store.State, evs: seq<Event>, k: nat)
    requires k <= |evs|
  {
    Store.OthersRejected(c, st0.(tickets := TicketsAfter(st0.tickets, evs[..k])))
  }

  lemma NothingElse(c: Store.Codecs, st: Store.State, st': Store.State)
    requires Store.OthersRejected(c, st') && st.tickets == st'.tickets && st.params == st'.params
    ensures Visited(c, st) == Store.Listing(st.requests)
  {
    hide Store.ReadsAsRequest, Store.Listing, Store.BigEndian;
    Store.NoStrays(c, st);
    assert Store.Listing(st.requests) + [] == Store.Listing(st.requests);
  }

  lemma MoveIsStep(e: Env, s: Chain, g: Ledger, act: Action)
    ensures var r, r' := Move(e, s, act, Store.Listing(s.requests)), Step(e, s, g, act);
            (r == None <==> r' == None) && (r'.Some? ==> r.value == r'.value.0)
  {
    hide MintHal, RedeemCollateral, EndRedeeming, Store.Listing, BookMint, BookRedeem, BookPayout, BookTransfer,
         SendOrIgnore, Holdings, WithHoldings, InvariantCheck;
  }

  /** While nothing else passes for a request, the run is the machine's own, so that what holds in
      every reachable state of the machine holds on the byte store. */
  lemma {:induction false} RunUndisturbed(e: Env, c: Store.Codecs, s0: Chain, st0: Store.State, evs: seq<Event>)
    requires forall k :: 0 <= k <= |evs| ==> Undisturbed(c, st0, evs, k)
    ensures var r, r' := RunMoves(e, c, s0, st0, evs), Run(e, s0, Actions(evs));
            (r == None <==> r' == None) && (r'.Some? ==> r.value == r'.value.0)
    decreases |evs|
  {
    hide Move, Step, Store.OthersRejected, Visited, Run;
    if evs == [] {
      RunOne(e, s0, [], BeginBlock);
    } else {
      var n := |evs| - 1;
      var before := evs[..n];
      forall k | 0 <= k <= n
        ensures Undisturbed(c, st0, before, k)
      {
        assert before[..k] == evs[..k] && Undisturbed(c, st0, evs, k);
      }
      RunUndisturbed(e, c, s0, st0, before);
      var r' := Run(e, s0, Actions(before));
      if evs[n].Act? {
        RunOne(e, s0, Actions(before), evs[n].act);
        if r'.Some? {
          assert Undisturbed(c, st0, evs, n);
          NothingElse(c, StateAfter(st0, before, r'.value.0), st0.(tickets := TicketsAfter(st0.tickets, before)));
          MoveIsStep(e, r'.value.0, r'.value.1, evs[n].act);
        }
      } else {
        assert Actions(evs) == Actions(before);
      }
    }
  }

  // ----- what a stray does -----

  /** The genuine requests are paid first, and the strays from what is then in the pool. */
  lemma {:induction false} PaidInTurn(e: Env, s: Chain, a: seq<R.Request>, b: seq<R.Request>, blockTime: int)
    ensures var r := EndRedeeming(e, s, a, blockTime);
            EndRedeeming(e, s, a + b, blockTime) == if r == None then None else EndRedeeming(e, r.value, b, blockTime)
    decreases |a|
  {
    hide PayOne;
    if a == [] {
      assert a + b == b;
    } else {
      assert (a + b)[0] == a[0] && (a + b)[1..] == a[1..] + b;
      var o := PayOne(e, s, a[0], blockTime);
      if o.Some? {
        PaidInTurn(e, o.value, a[1..], b, blockTime);
      }
    }
  }

  /** A due request with a valid account and an invalid coin stops the loop wherever it stands. */
  lemma {:induction false} InvalidStops(e: Env, s: Chain, list: seq<R.Request>, r: R.Request, blockTime: int)
    requires r in list && Due(r, blockTime) && e.isAddr(r.account) && !ValidCoin(e, r.collateral)
    ensures EndRedeeming(e, s, list, blockTime) == None
    decreases |list|
  {
    hide Send, ValidCoin;
    if list[0] != r {
      var o := PayOne(e, s, list[0], blockTime);
      if o.Some? {
        InvalidStops(e, o.value, list[1..], r, blockTime);
      }
    }
  }

  /** A first ticket without an issue text whose author is an address: as long as the empty coin is
      invalid, every later block end stops the chain, whatever has happened in between. */
  lemma TicketStops(e: Env, c: Store.Codecs, f: Flat, s: Chain, st: Store.State, blockTime: int)
    requires Stands(c, f, s, st) && st.tickets != [] && st.tickets[0].issue == [] && e.isAddr(st.tickets[0].author)
    requires !ValidCoin(e, c.request.coin.empty) && blockTime > c.request.time.empty
    ensures StepFlat(e, c, f, Act(EndBlock(blockTime))) == None
  {
    hide Store.Represents, Store.SubCodecsRoundTrip, Store.ReadAll, EndRedeeming, PayRequests, Store.CounterPasses,
         Store.ParamsPass, Store.Listing, Store.BigEndian, ValidCoin, R.ParamsRequest;
    var r := R.TicketRequest(c.request, st.tickets[0]);
    ListingRead(c, f, s, st);
    assert r in Store.Strays(c, st);
    PayoutStands(e, c, f, s, st, Visited(c, st), blockTime);
    InvalidStops(e, s, Visited(c, st), r, blockTime);
  }
}
