/** The hal module's byte-keyed store: tickets, their counter, params and redeem requests
    side by side, and the typed state it stands for. */
module Store {
  import opened Words
  import opened Wire
  import opened ByteOrder
  import T = Tickets
  import P = Params
  import R = RedeemRequests
  import Records

  type KV = map<Bytes, Bytes>

  // ----- keys (keys.go) -----

  const TICKET_KEY: Bytes := [0x74, 0x69, 0x63, 0x6B, 0x65, 0x74, 0x5F, 0x6B, 0x65, 0x79] // "ticket_key"
  const COUNTER_KEY: Bytes := // "ticket_key_counter"
    [0x74, 0x69, 0x63, 0x6B, 0x65, 0x74, 0x5F, 0x6B, 0x65, 0x79, 0x5F, 0x63, 0x6F, 0x75, 0x6E, 0x74, 0x65, 0x72]
  const PARAMS_KEY: Bytes := [0x70, 0x5F, 0x68, 0x61, 0x6C] // "p_hal"
  const REQUEST_PREFIX: Bytes := // "RedeemRequest-"
    [0x52, 0x65, 0x64, 0x65, 0x65, 0x6D, 0x52, 0x65, 0x71, 0x75, 0x65, 0x73, 0x74, 0x2D]

  /** The id whose eight key bytes spell "_counter". */
  const COUNTER_ID := 0x5F63_6F75_6E74_6572

  /** n in k bytes, most significant first, higher bytes cut off. */
  function BigEndian(n: nat, k: nat): (r: Bytes)
    ensures |r| == k
  {
    if k == 0 then [] else BigEndian(n / 256, k - 1) + [n % 256]
  }

  function FromBigEndian(b: Bytes): nat
  {
    if b == [] then 0 else 256 * FromBigEndian(b[..|b| - 1]) + b[|b| - 1]
  }

  function Pow256(k: nat): nat { if k == 0 then 1 else 256 * Pow256(k - 1) }

  lemma {:induction false} BigEndianRoundTrip(n: nat, k: nat)
    requires n < Pow256(k)
    ensures FromBigEndian(BigEndian(n, k)) == n
  {
    if k > 0 {
      BigEndianRoundTrip(n / 256, k - 1);
      assert BigEndian(n, k)[..k - 1] == BigEndian(n / 256, k - 1);
    }
  }

  lemma EightBytes(n: Uint64)
    ensures FromBigEndian(BigEndian(n, 8)) == n
  {
    assert Pow256(4) == 0x1_0000_0000;
    assert Pow256(8) == TWO_64 by { assert Pow256(6) == 0x1_0000 * Pow256(4); }
    BigEndianRoundTrip(n, 8);
  }

  lemma {:induction false} FirstByteZero(n: nat, k: nat)
    requires k > 0 && n < Pow256(k - 1)
    ensures BigEndian(n, k)[0] == 0
  {
    if k > 1 {
      FirstByteZero(n / 256, k - 1);
    }
  }

  function TicketKey(id: Uint64): Bytes { TICKET_KEY + BigEndian(id, 8) }

  function RequestKey(account: Bytes): Bytes { REQUEST_PREFIX + account }

  lemma TicketKeyInjective(i: Uint64, j: Uint64)
    requires TicketKey(i) == TicketKey(j)
    ensures i == j
  {
    EightBytes(i);
    EightBytes(j);
    hide BigEndian, FromBigEndian;
    assert TicketKey(i)[10..] == BigEndian(i, 8);
    assert TicketKey(j)[10..] == BigEndian(j, 8);
  }

  lemma CounterIdSpellsCounter()
    ensures TicketKey(COUNTER_ID) == COUNTER_KEY
  {
    hide BigEndian;
    BigEndianZero();
    BigEndianSnoc(0, 0x5F, 0);
    BigEndianSnoc(0x5F, 0x63, 1);
    BigEndianSnoc(0x5F63, 0x6F, 2);
    BigEndianSnoc(0x5F63_6F, 0x75, 3);
    BigEndianSnoc(0x5F63_6F75, 0x6E, 4);
    BigEndianSnoc(0x5F63_6F75_6E, 0x74, 5);
    BigEndianSnoc(0x5F63_6F75_6E74, 0x65, 6);
    BigEndianSnoc(0x5F63_6F75_6E74_65, 0x72, 7);
  }

  lemma BigEndianZero()
    ensures BigEndian(0, 0) == []
  {
  }

  lemma BigEndianSnoc(n: nat, b: Byte, k: nat)
    ensures BigEndian(256 * n + b, k + 1) == BigEndian(n, k) + [b]
  {
  }

  /** The only ticket key that collides with another kind of key is the counter's own. */
  lemma KeysApart(id: Uint64, account: Bytes)
    ensures TicketKey(id) == COUNTER_KEY <==> id == COUNTER_ID
    ensures TicketKey(id) != PARAMS_KEY && TicketKey(id) != RequestKey(account)
    ensures COUNTER_KEY != PARAMS_KEY && COUNTER_KEY != RequestKey(account) && PARAMS_KEY != RequestKey(account)
  {
    CounterIdSpellsCounter();
    if TicketKey(id) == COUNTER_KEY {
      TicketKeyInjective(id, COUNTER_ID);
    }
    FirstBytes(id, account);
  }

  lemma FirstBytes(id: Uint64, account: Bytes)
    ensures TicketKey(id)[0] == 0x74 && RequestKey(account)[0] == 0x52
  {
  }

  /** The keys as texts; a ticket's ends in its id, eight bytes, most significant first. */
  lemma KeyTexts(id: Uint64, account: Bytes)
    ensures TicketKey(id)[..10] == Ascii("ticket_key") && |TicketKey(id)| == 18
    ensures FromBigEndian(TicketKey(id)[10..]) == id
    ensures COUNTER_KEY == Ascii("ticket_key_counter") && PARAMS_KEY == Ascii("p_hal")
    ensures RequestKey(account) == Ascii("RedeemRequest-") + account
  {
    hide BigEndian, FromBigEndian;
    EightBytes(id);
    assert TicketKey(id)[10..] == BigEndian(id, 8);
    assert Ascii("ticket_key") == TICKET_KEY && TicketKey(id)[..10] == TICKET_KEY;
    assert Ascii("ticket_key_counter") == COUNTER_KEY;
    assert Ascii("RedeemRequest-") == REQUEST_PREFIX;
  }

  lemma RequestKeyInjective(a: Bytes, b: Bytes)
    requires RequestKey(a) == RequestKey(b)
    ensures a == b
  {
    assert RequestKey(a)[14..] == a && RequestKey(b)[14..] == b;
  }

  // ----- the typed state -----

  /** Tickets in the order of their ids, redeem requests by account, and the params. */
  datatype State = State(tickets: seq<T.Ticket>, requests: map<Bytes, R.Request>, params: Option<P.Params>)

  datatype Codecs = Codecs(request: R.Codecs, dur: SubCodec<int>)

  predicate Holds(s: KV, k: Bytes, v: Bytes) { k in s && s[k] == v }

  ghost predicate TicketsStored(s: KV, ts: seq<T.Ticket>)
  {
    && |ts| <= COUNTER_ID
    && (forall i :: 0 <= i < |ts| ==>
          ts[i].id == i && T.Size(ts[i]) <= MAX_INT && Holds(s, TicketKey(i), T.Marshalled(ts[i])))
    && (if |ts| == 0 then COUNTER_KEY !in s else Holds(s, COUNTER_KEY, BigEndian(|ts|, 8)))
  }

  ghost predicate RequestsStored(c: Codecs, s: KV, rs: map<Bytes, R.Request>)
  {
    forall a :: a in rs ==>
      && rs[a].account == a && |R.Marshalled(c.request, rs[a])| <= MAX_INT
      && Holds(s, RequestKey(a), R.Marshalled(c.request, rs[a]))
  }

  ghost predicate ParamsStored(c: Codecs, s: KV, p: Option<P.Params>)
  {
    match p
    case None => PARAMS_KEY !in s
    case Some(q) => P.ParamsSize(c.dur, q) <= MAX_INT && Holds(s, PARAMS_KEY, P.ParamsBytes(c.dur, q))
  }

  /** Whose key k is. */
  ghost predicate Owned(k: Bytes, st: State)
  {
    || (exists i: Uint64 :: i < |st.tickets| && k == TicketKey(i))
    || (k == COUNTER_KEY && st.tickets != [])
    || (exists a :: a in st.requests && k == RequestKey(a))
    || (k == PARAMS_KEY && st.params.Some?)
  }

  /** The flat store holds exactly the typed state, nothing missing and nothing more. */
  ghost predicate Represents(c: Codecs, s: KV, st: State)
  {
    && TicketsStored(s, st.tickets)
    && RequestsStored(c, s, st.requests)
    && ParamsStored(c, s, st.params)
    && forall k :: k in s ==> Owned(k, st)
  }

  lemma EmptyRepresentsNothing(c: Codecs)
    ensures Represents(c, map[], State([], map[], None))
  {
  }

  // ----- reading the counter and the tickets -----

  /** binary.BigEndian.Uint64 panics on fewer than eight bytes. */
  function TicketCount(s: KV): Option<nat>
  {
    if COUNTER_KEY !in s then Some(0)
    else if |s[COUNTER_KEY]| < 8 then None
    else Some(FromBigEndian(s[COUNTER_KEY][..8]))
  }

  lemma CountsTickets(c: Codecs, s: KV, st: State)
    requires Represents(c, s, st)
    ensures TicketCount(s) == Some(|st.tickets|)
  {
    hide BigEndian, FromBigEndian;
    if st.tickets != [] {
      EightBytes(|st.tickets|);
      assert BigEndian(|st.tickets|, 8)[..8] == BigEndian(|st.tickets|, 8);
    }
  }

  /** Every ticket appended so far reads back unchanged under its id. */
  lemma TicketsReadBack(c: Codecs, s: KV, st: State, i: Uint64)
    requires Represents(c, s, st) && i < |st.tickets|
    ensures TicketKey(i) in s
    ensures Decode(s[TicketKey(i)], 0, T.EMPTY, T.SCHEMA) == Outcome(st.tickets[i], None)
  {
    hide Decode, TicketKey, T.Marshalled, T.Size;
    T.RoundTrip(st.tickets[i]);
  }

  // ----- AppendTicket -----

  function Append(s: KV, t: T.Ticket): KV
  {
    s[TicketKey(t.id) := T.Marshalled(t)][COUNTER_KEY := BigEndian((t.id + 1) % TWO_64, 8)]
  }

  /** Appending to the store appends to the sequence, exactly until the ticket key reaches
      the counter's own key. */
  lemma AppendRefines(c: Codecs, s: KV, st: State, t: T.Ticket)
    requires Represents(c, s, st) && t.id == |st.tickets| && T.Size(t) <= MAX_INT
    requires t.id < COUNTER_ID
    ensures Represents(c, Append(s, t), st.(tickets := st.tickets + [t]))
  {
    hide TicketsStored, RequestsStored, ParamsStored, Owned;
    AppendTicketsStored(s, st.tickets, t);
    AppendRequestsStored(c, s, st.requests, t);
    AppendParamsStored(c, s, st.params, t);
    AppendOwned(c, s, st, t);
  }

  lemma AppendTicketsStored(s: KV, ts: seq<T.Ticket>, t: T.Ticket)
    requires TicketsStored(s, ts) && t.id == |ts| < COUNTER_ID && T.Size(t) <= MAX_INT
    ensures TicketsStored(Append(s, t), ts + [t])
  {
    hide TicketKey, BigEndian, T.Marshalled, T.Size;
    var s', ts' := Append(s, t), ts + [t];
    forall i: Uint64 | i < |ts'|
      ensures ts'[i].id == i && T.Size(ts'[i]) <= MAX_INT && Holds(s', TicketKey(i), T.Marshalled(ts'[i]))
    {
      KeysApart(i, []);
      if i < t.id && TicketKey(i) == TicketKey(t.id) {
        TicketKeyInjective(i, t.id);
      }
    }
    assert Holds(s', COUNTER_KEY, BigEndian(|ts'|, 8));
  }

  lemma AppendRequestsStored(c: Codecs, s: KV, rs: map<Bytes, R.Request>, t: T.Ticket)
    requires RequestsStored(c, s, rs)
    ensures RequestsStored(c, Append(s, t), rs)
  {
    hide TicketKey, BigEndian, T.Marshalled, RequestKey, R.Marshalled;
    forall a | a in rs
      ensures Holds(Append(s, t), RequestKey(a), R.Marshalled(c.request, rs[a]))
    {
      KeysApart(t.id, a);
    }
  }

  lemma AppendParamsStored(c: Codecs, s: KV, p: Option<P.Params>, t: T.Ticket)
    requires ParamsStored(c, s, p)
    ensures ParamsStored(c, Append(s, t), p)
  {
  }

  lemma AppendOwned(c: Codecs, s: KV, st: State, t: T.Ticket)
    requires t.id == |st.tickets| && forall k :: k in s ==> Owned(k, st)
    ensures forall k :: k in Append(s, t) ==> Owned(k, st.(tickets := st.tickets + [t]))
  {
  }

  /** The ticket with that id is overwritten by the counter at once and can never be read back. */
  lemma AppendCollides(s: KV, t: T.Ticket)
    requires t.id == COUNTER_ID
    ensures Append(s, t)[TicketKey(t.id)] == BigEndian(COUNTER_ID + 1, 8)
    ensures TicketCount(Append(s, t)) == Some(COUNTER_ID + 1)
  {
    hide BigEndian, FromBigEndian, T.Marshalled;
    CounterIdSpellsCounter();
    EightBytes(COUNTER_ID + 1);
    assert BigEndian(COUNTER_ID + 1, 8)[..8] == BigEndian(COUNTER_ID + 1, 8);
  }

  // ----- redeem requests and params -----

  function SetRequest(c: Codecs, s: KV, r: R.Request): KV
  {
    s[RequestKey(r.account) := R.Marshalled(c.request, r)]
  }

  function DeleteRequest(s: KV, account: Bytes): KV { s - {RequestKey(account)} }

  function SetParams(c: Codecs, s: KV, p: P.Params): KV { s[PARAMS_KEY := P.ParamsBytes(c.dur, p)] }

  /** Writing at a key of another kind keeps the tickets and their counter. */
  lemma TicketsUntouched(s: KV, s': KV, ts: seq<T.Ticket>)
    requires TicketsStored(s, ts)
    requires forall i: Uint64 :: i < |ts| && TicketKey(i) in s ==> Holds(s', TicketKey(i), s[TicketKey(i)])
    requires COUNTER_KEY in s <==> COUNTER_KEY in s'
    requires COUNTER_KEY in s ==> s'[COUNTER_KEY] == s[COUNTER_KEY]
    ensures TicketsStored(s', ts)
  {
  }

  lemma SetRequestRefines(c: Codecs, s: KV, st: State, r: R.Request)
    requires Represents(c, s, st) && |R.Marshalled(c.request, r)| <= MAX_INT
    ensures Represents(c, SetRequest(c, s, r), st.(requests := st.requests[r.account := r]))
  {
    hide TicketKey, RequestKey, T.Marshalled, T.Size, R.Marshalled, P.ParamsBytes, P.ParamsSize, BigEndian,
         TicketsStored;
    var s', st' := SetRequest(c, s, r), st.(requests := st.requests[r.account := r]);
    forall i: Uint64
      ensures TicketKey(i) != RequestKey(r.account)
    {
      KeysApart(i, r.account);
    }
    KeysApart(0, r.account);
    TicketsUntouched(s, s', st.tickets);
    forall a | a in st.requests && a != r.account
      ensures RequestKey(a) != RequestKey(r.account)
    {
      if RequestKey(a) == RequestKey(r.account) {
        RequestKeyInjective(a, r.account);
      }
    }
    forall k | k in s'
      ensures Owned(k, st')
    {
      if k == RequestKey(r.account) {
        assert r.account in st'.requests;
      } else {
        OwnedByMore(k, st, st');
      }
    }
  }

  lemma OwnedByMore(k: Bytes, st: State, st': State)
    requires Owned(k, st) && st'.tickets == st.tickets
    requires st.params.Some? ==> st'.params.Some?
    requires forall a :: a in st.requests ==> a in st'.requests
    ensures Owned(k, st')
  {
  }

  lemma DeleteRequestRefines(c: Codecs, s: KV, st: State, account: Bytes)
    requires Represents(c, s, st)
    ensures Represents(c, DeleteRequest(s, account), st.(requests := st.requests - {account}))
  {
    hide TicketKey, RequestKey, T.Marshalled, T.Size, R.Marshalled, P.ParamsBytes, P.ParamsSize, BigEndian,
         TicketsStored, RequestsStored;
    var s', st' := DeleteRequest(s, account), st.(requests := st.requests - {account});
    forall i: Uint64
      ensures TicketKey(i) != RequestKey(account)
    {
      KeysApart(i, account);
    }
    KeysApart(0, account);
    TicketsUntouched(s, s', st.tickets);
    DeleteRequestsStored(c, s, st.requests, account);
    forall k | k in s'
      ensures Owned(k, st')
    {
      assert Owned(k, st);
    }
  }

  lemma DeleteRequestsStored(c: Codecs, s: KV, rs: map<Bytes, R.Request>, account: Bytes)
    requires RequestsStored(c, s, rs)
    ensures RequestsStored(c, DeleteRequest(s, account), rs - {account})
  {
    hide RequestKey, R.Marshalled;
    forall a | a in rs && a != account
      ensures RequestKey(a) != RequestKey(account)
    {
      if RequestKey(a) == RequestKey(account) {
        RequestKeyInjective(a, account);
      }
    }
  }

  lemma SetParamsRefines(c: Codecs, s: KV, st: State, p: P.Params)
    requires Represents(c, s, st) && P.ParamsSize(c.dur, p) <= MAX_INT
    ensures Represents(c, SetParams(c, s, p), st.(params := Some(p)))
  {
    hide TicketKey, RequestKey, T.Marshalled, T.Size, R.Marshalled, P.ParamsBytes, P.ParamsSize, BigEndian,
         TicketsStored;
    var s', st' := SetParams(c, s, p), st.(params := Some(p));
    forall i: Uint64
      ensures TicketKey(i) != PARAMS_KEY
    {
      KeysApart(i, []);
    }
    forall a | a in st.requests
      ensures RequestKey(a) != PARAMS_KEY
    {
      KeysApart(0, a);
    }
    KeysApart(0, []);
    TicketsUntouched(s, s', st.tickets);
    forall k | k in s'
      ensures Owned(k, st')
    {
      if k != PARAMS_KEY {
        OwnedByMore(k, st, st');
      }
    }
  }

  /** GetParams decodes what SetParams stored. */
  lemma ParamsReadBack(c: Codecs, s: KV, st: State)
    requires Represents(c, s, st) && st.params.Some? && c.dur.empty == 0 && RoundTrips(c.dur, st.params.value.redeemDur)
    ensures PARAMS_KEY in s
    ensures Decode(s[PARAMS_KEY], 0, P.EMPTY, P.ParamsSchema(c.dur)) == Outcome(st.params.value, None)
  {
    hide Decode, TicketsStored, RequestsStored, Owned, P.ParamsBytes, P.ParamsSize, P.ParamsSchema;
    P.ParamsRoundTrip(c.dur, st.params.value);
  }

  // ----- GetAllRedeemRequests: one reader over values of every kind -----

  predicate Accepted(c: Codecs, v: Bytes) { R.Unmarshalled(c.request, v).err == None }

  /** What the reader returns when it meets the keys in this order. */
  function ReadAll(c: Codecs, s: KV, keys: seq<Bytes>): seq<R.Request>
  {
    if keys == [] then []
    else
      var rest := ReadAll(c, s, keys[1..]);
      if keys[0] in s && Accepted(c, s[keys[0]]) then [R.Unmarshalled(c.request, s[keys[0]]).msg] + rest else rest
  }

  predicate FirstTicketPasses(c: Codecs, st: State)
  {
    st.tickets != [] &&
    var issue := st.tickets[0].issue;
    issue == [] || c.request.coin.dec(c.request.coin.empty, issue).err == None
  }

  predicate ParamsPass(c: Codecs, st: State)
  {
    st.params.Some? && st.params.value.maxRedeemEntries == 0 &&
    c.request.time.dec(c.request.time.empty, P.MetaBytes(st.params.value.collateralMetas)).err == None
  }

  ghost predicate IsRequestKey(k: Bytes, st: State) { exists a :: a in st.requests && k == RequestKey(a) }

  /** The coins and times of the stored requests survive their own codecs. */
  predicate SubCodecsRoundTrip(c: Codecs, st: State)
  {
    forall a :: a in st.requests ==>
      RoundTrips(c.request.coin, st.requests[a].collateral) && RoundTrips(c.request.time, st.requests[a].completiontime)
  }

  lemma AcceptedRequest(c: Codecs, s: KV, st: State, a: Bytes)
    requires Represents(c, s, st) && SubCodecsRoundTrip(c, st) && a in st.requests
    ensures RequestKey(a) in s
    ensures R.Unmarshalled(c.request, s[RequestKey(a)]) == Outcome(st.requests[a], None)
  {
    hide TicketsStored, ParamsStored, Owned, R.Unmarshalled, R.Marshalled, RequestKey;
    R.RoundTrip(c.request, st.requests[a]);
  }

  lemma AcceptedTicket(c: Codecs, s: KV, st: State, i: Uint64)
    requires Represents(c, s, st) && i < |st.tickets|
    ensures TicketKey(i) in s
    ensures Accepted(c, s[TicketKey(i)]) <==> i == 0 && FirstTicketPasses(c, st)
  {
    hide ParamsStored, RequestsStored, Owned, R.Unmarshalled, TicketKey, T.Marshalled, T.Size, BigEndian;
    R.TicketAccepted(c.request, st.tickets[i]);
  }

  /** v is a sequence of records that the request schema takes; by Records.OneReading there is at
      most one to look at. */
  ghost predicate ReadsAsRequest(c: Codecs, v: Bytes)
  {
    exists rs ::
      && Records.AllWellFormed(rs) && Records.BytesAll(rs) == v
      && Records.Replay(rs, R.Empty(c.request), R.RequestSchema(c.request)).Some?
  }

  ghost predicate CounterPasses(c: Codecs, st: State)
  {
    st.tickets != [] && ReadsAsRequest(c, BigEndian(|st.tickets|, 8))
  }

  /** Exactly which values of any kind the reader takes for redeem requests. */
  lemma AcceptedIff(c: Codecs, v: Bytes)
    requires |v| <= MAX_INT
    ensures Accepted(c, v) <==> ReadsAsRequest(c, v)
  {
    hide Decode, Records.AllWellFormed, Records.BytesAll, Records.Replay, R.RequestSchema;
    var m, S := R.Empty(c.request), R.RequestSchema(c.request);
    if Accepted(c, v) {
      Records.DecodeIff(v, m, R.Unmarshalled(c.request, v).msg, S);
    } else if ReadsAsRequest(c, v) {
      var rs :| Records.AllWellFormed(rs) && Records.BytesAll(rs) == v && Records.Replay(rs, m, S).Some?;
      Records.DecodeIff(v, m, Records.Replay(rs, m, S).value, S);
      assert false;
    }
  }

  /** Below 2^56 the counter's first byte is zero, which starts no record. */
  lemma CounterRejected(c: Codecs, n: nat)
    requires n < 0x100_0000_0000_0000
    ensures !Accepted(c, BigEndian(n, 8))
  {
    hide R.Unmarshalled;
    assert Pow256(4) == 0x1_0000_0000;
    assert Pow256(7) == 0x100_0000 * Pow256(4);
    FirstByteZero(n, 8);
    R.ZeroByteRejected(c.request, BigEndian(n, 8));
  }

  /** Beyond 2^56 a counter value can pass. */
  lemma CounterCanPass(c: Codecs)
    ensures Accepted(c, BigEndian(0x0A06_0000_0000_0000, 8))
  {
    hide BigEndian, R.Unmarshalled;
    BigEndianZero();
    BigEndianSnoc(0, 0x0A, 0);
    BigEndianSnoc(0x0A, 6, 1);
    BigEndianSnoc(0x0A06, 0, 2);
    BigEndianSnoc(0x0A06_00, 0, 3);
    BigEndianSnoc(0x0A06_0000, 0, 4);
    BigEndianSnoc(0x0A06_0000_00, 0, 5);
    BigEndianSnoc(0x0A06_0000_0000, 0, 6);
    BigEndianSnoc(0x0A06_0000_0000_00, 0, 7);
    assert BigEndian(0x0A06_0000_0000_0000, 8) == [0x0A, 6, 0, 0, 0, 0, 0, 0];
    R.AccountFieldAccepted(c.request);
  }

  lemma AcceptedParams(c: Codecs, s: KV, st: State)
    requires Represents(c, s, st) && st.params.Some?
    ensures PARAMS_KEY in s
    ensures Accepted(c, s[PARAMS_KEY]) <==> ParamsPass(c, st)
  {
    hide TicketsStored, RequestsStored, Owned, R.Unmarshalled, P.ParamsBytes, P.ParamsSize, P.MetaBytes;
    R.ParamsAccepted(c.request, c.dur, st.params.value);
  }

  /** Which stored values the reader takes for redeem requests: the genuine ones, the first ticket,
      the params and the counter under the stated conditions, and nothing else. */
  lemma AcceptedKeys(c: Codecs, s: KV, st: State, k: Bytes)
    requires Represents(c, s, st) && SubCodecsRoundTrip(c, st) && k in s
    ensures Accepted(c, s[k]) <==>
            || IsRequestKey(k, st)
            || (k == TicketKey(0) && FirstTicketPasses(c, st))
            || (k == PARAMS_KEY && ParamsPass(c, st))
            || (k == COUNTER_KEY && CounterPasses(c, st))
  {
    hide TicketsStored, RequestsStored, ParamsStored, R.Unmarshalled, TicketKey, RequestKey,
         FirstTicketPasses, ParamsPass, CounterPasses, SubCodecsRoundTrip;
    assert Owned(k, st);
    if IsRequestKey(k, st) {
      var a :| a in st.requests && k == RequestKey(a);
      AcceptedRequest(c, s, st, a);
      KeysApart(0, a);
    } else if k == PARAMS_KEY {
      KeysApart(0, []);
      NotATicket(k);
      AcceptedParams(c, s, st);
    } else {
      TicketOrCounter(c, s, st, k);
    }
  }

  lemma NotATicket(k: Bytes)
    requires k == PARAMS_KEY
    ensures forall i: Uint64 :: TicketKey(i) != k
  {
  }

  lemma TicketOrCounter(c: Codecs, s: KV, st: State, k: Bytes)
    requires Represents(c, s, st) && k in s && k != PARAMS_KEY && !IsRequestKey(k, st)
    ensures Accepted(c, s[k]) <==>
            || (k == TicketKey(0) && FirstTicketPasses(c, st))
            || (k == COUNTER_KEY && CounterPasses(c, st))
  {
    hide RequestsStored, ParamsStored, R.Unmarshalled, TicketKey, RequestKey, FirstTicketPasses, BigEndian,
         ReadsAsRequest;
    assert Owned(k, st);
    if k == COUNTER_KEY {
      KeysApart(0, []);
      CounterNotTicket(s, st, k);
      AcceptedIff(c, s[k]);
    } else {
      var i: Uint64 :| i < |st.tickets| && k == TicketKey(i);
      AcceptedTicket(c, s, st, i);
      if k == TicketKey(0) {
        TicketKeyInjective(i, 0);
      }
    }
  }

  lemma CounterNotTicket(s: KV, st: State, k: Bytes)
    requires TicketsStored(s, st.tickets) && k == COUNTER_KEY && k in s
    ensures st.tickets != [] && s[k] == BigEndian(|st.tickets|, 8)
  {
  }

  /** rs are exactly the requests of m, each once, in the order of the accounts. */
  ghost predicate Lists(rs: seq<R.Request>, m: map<Bytes, R.Request>)
  {
    && (forall i :: 0 <= i < |rs| ==> rs[i].account in m && m[rs[i].account] == rs[i])
    && (forall i, j :: 0 <= i < j < |rs| ==> Less(rs[i].account, rs[j].account))
    && (forall a :: a in m ==> exists i :: 0 <= i < |rs| && rs[i].account == a)
  }

  /** The state in which the reader sees redeem requests only. */
  ghost predicate OthersRejected(c: Codecs, st: State)
  {
    !FirstTicketPasses(c, st) && !ParamsPass(c, st) && !CounterPasses(c, st)
  }

  // ----- what the reader returns -----

  /** The requests in the order of their accounts. */
  ghost function Listing(rs: map<Bytes, R.Request>): seq<R.Request>
  {
    var accounts := Sorted(rs.Keys);
    seq(|accounts|, i requires 0 <= i < |accounts| => assert accounts[i] in rs.Keys; rs[accounts[i]])
  }

  /** Values of other kinds that are taken for requests, in key order. */
  ghost function Strays(c: Codecs, st: State): seq<R.Request>
  {
    (if ParamsPass(c, st) then [R.ParamsRequest(c.request, c.dur, st.params.value)] else [])
    + (if FirstTicketPasses(c, st) then [R.TicketRequest(c.request, st.tickets[0])] else [])
    + (if CounterPasses(c, st) then [R.Unmarshalled(c.request, BigEndian(|st.tickets|, 8)).msg] else [])
  }

  ghost function StrayKeys(c: Codecs, st: State): seq<Bytes>
  {
    (if ParamsPass(c, st) then [PARAMS_KEY] else [])
    + (if FirstTicketPasses(c, st) then [TicketKey(0)] else [])
    + (if CounterPasses(c, st) then [COUNTER_KEY] else [])
  }

  ghost function GenuineKeys(rs: map<Bytes, R.Request>): seq<Bytes>
  {
    var accounts := Sorted(rs.Keys);
    seq(|accounts|, i requires 0 <= i < |accounts| => RequestKey(accounts[i]))
  }

  lemma ListingLists(rs: map<Bytes, R.Request>)
    requires forall a :: a in rs ==> rs[a].account == a
    ensures Lists(Listing(rs), rs)
  {
    hide Less, Sorted;
    var accounts, list := Sorted(rs.Keys), Listing(rs);
    assert forall i :: 0 <= i < |accounts| ==> accounts[i] in rs.Keys && list[i].account == accounts[i];
    forall a | a in rs
      ensures exists i :: 0 <= i < |list| && list[i].account == a
    {
      var i :| 0 <= i < |accounts| && accounts[i] == a;
      assert list[i].account == a;
    }
  }

  /** The keys whose values decode, as visited. */
  function Passing(c: Codecs, s: KV, keys: seq<Bytes>): seq<Bytes>
  {
    if keys == [] then []
    else (if keys[0] in s && Accepted(c, s[keys[0]]) then [keys[0]] else []) + Passing(c, s, keys[1..])
  }

  function Decoded(c: Codecs, s: KV, keys: seq<Bytes>): seq<R.Request>
    requires forall k :: k in keys ==> k in s
  {
    seq(|keys|, i requires 0 <= i < |keys| => assert keys[i] in keys; R.Unmarshalled(c.request, s[keys[i]]).msg)
  }

  lemma {:induction false} PassingMembers(c: Codecs, s: KV, keys: seq<Bytes>, k: Bytes)
    ensures k in Passing(c, s, keys) <==> k in keys && k in s && Accepted(c, s[k])
  {
    hide Accepted;
    if keys != [] {
      PassingMembers(c, s, keys[1..], k);
      assert keys == [keys[0]] + keys[1..];
    }
  }

  lemma {:induction false} ReadAllPassing(c: Codecs, s: KV, keys: seq<Bytes>)
    ensures forall k :: k in Passing(c, s, keys) ==> k in s
    ensures ReadAll(c, s, keys) == Decoded(c, s, Passing(c, s, keys))
  {
    hide Accepted, R.Unmarshalled;
    if keys != [] {
      ReadAllPassing(c, s, keys[1..]);
    }
  }

  lemma {:induction false} PassingAscends(c: Codecs, s: KV, keys: seq<Bytes>)
    requires Ascending(keys)
    ensures Ascending(Passing(c, s, keys))
  {
    hide Accepted, Less;
    if keys != [] {
      var rest := Passing(c, s, keys[1..]);
      PassingAscends(c, s, keys[1..]);
      forall k | k in rest
        ensures Less(keys[0], k)
      {
        PassingMembers(c, s, keys[1..], k);
      }
      FirstAscends(keys[0], rest);
    }
  }

  lemma FirstAscends(k: Bytes, rest: seq<Bytes>)
    requires Ascending(rest) && forall k' :: k' in rest ==> Less(k, k')
    ensures Ascending([k] + rest)
  {
    hide Less;
    forall i, j | 0 <= i < j < |[k] + rest|
      ensures Less(([k] + rest)[i], ([k] + rest)[j])
    {
      assert ([k] + rest)[j] == rest[j - 1] && rest[j - 1] in rest;
    }
  }

  lemma BothAscend(a: seq<Bytes>, b: seq<Bytes>)
    requires Ascending(a) && Ascending(b) && forall k, k' :: k in a && k' in b ==> Less(k, k')
    ensures Ascending(a + b)
  {
    hide Less;
    forall i, j | 0 <= i < j < |a + b|
      ensures Less((a + b)[i], (a + b)[j])
    {
      if i < |a| <= j {
        assert a[i] in a && b[j - |a|] in b;
      }
    }
  }

  lemma GenuineAscend(rs: map<Bytes, R.Request>)
    ensures Ascending(GenuineKeys(rs))
  {
    hide Less, Sorted;
    var accounts, keys := Sorted(rs.Keys), GenuineKeys(rs);
    forall i, j | 0 <= i < j < |keys|
      ensures Less(keys[i], keys[j])
    {
      CommonPrefix(REQUEST_PREFIX, accounts[i], accounts[j]);
    }
  }

  /** Request keys come before the params, those before the first ticket, that before the counter. */
  lemma KindsInOrder(account: Bytes)
    ensures Less(RequestKey(account), PARAMS_KEY) && Less(RequestKey(account), TicketKey(0))
    ensures Less(RequestKey(account), COUNTER_KEY)
    ensures Less(PARAMS_KEY, TicketKey(0)) && Less(PARAMS_KEY, COUNTER_KEY)
    ensures Less(TicketKey(0), COUNTER_KEY)
  {
    hide BigEndian;
    FirstBytes(0, account);
    var suffix := COUNTER_KEY[10..];
    assert COUNTER_KEY == TICKET_KEY + suffix;
    assert Pow256(4) == 0x1_0000_0000;
    assert Pow256(7) == 0x100_0000 * Pow256(4);
    FirstByteZero(0, 8);
    CommonPrefix(TICKET_KEY, BigEndian(0, 8), suffix);
  }

  lemma StraysAscend(c: Codecs, st: State)
    ensures Ascending(StrayKeys(c, st))
  {
    hide Less, TicketKey, ParamsPass, FirstTicketPasses, CounterPasses;
    KindsInOrder([]);
  }

  /** Genuine keys and strays, in this order, are the keys that pass. */
  lemma ExpectedKeys(c: Codecs, s: KV, st: State, keys: seq<Bytes>)
    requires Represents(c, s, st) && SubCodecsRoundTrip(c, st) && Enumerates(keys, s.Keys)
    ensures Passing(c, s, keys) == GenuineKeys(st.requests) + StrayKeys(c, st)
  {
    hide Represents, SubCodecsRoundTrip, Less, Passing, GenuineKeys, StrayKeys, Accepted;
    var S := set k | k in s && Accepted(c, s[k]);
    var expected := GenuineKeys(st.requests) + StrayKeys(c, st);
    PassingAscends(c, s, keys);
    ExpectedAscend(c, st);
    forall k
      ensures k in Passing(c, s, keys) <==> k in S
      ensures k in expected <==> k in S
    {
      PassingMembers(c, s, keys, k);
      ExpectedMember(c, s, st, k);
      assert k in s <==> k in s.Keys;
    }
    EnumerationUnique(Passing(c, s, keys), expected, S);
  }

  lemma ExpectedAscend(c: Codecs, st: State)
    ensures Ascending(GenuineKeys(st.requests) + StrayKeys(c, st))
  {
    hide Less, ParamsPass, FirstTicketPasses, CounterPasses, TicketKey, RequestKey;
    var genuine, strays := GenuineKeys(st.requests), StrayKeys(c, st);
    GenuineAscend(st.requests);
    StraysAscend(c, st);
    forall k, k' | k in genuine && k' in strays
      ensures Less(k, k')
    {
      var i :| 0 <= i < |genuine| && genuine[i] == k;
      KindsInOrder(Sorted(st.requests.Keys)[i]);
    }
    BothAscend(genuine, strays);
  }

  lemma ExpectedMember(c: Codecs, s: KV, st: State, k: Bytes)
    requires Represents(c, s, st) && SubCodecsRoundTrip(c, st)
    ensures k in GenuineKeys(st.requests) + StrayKeys(c, st) <==> k in s && Accepted(c, s[k])
  {
    hide Represents, SubCodecsRoundTrip, Accepted, ParamsPass, FirstTicketPasses, CounterPasses, TicketKey, RequestKey;
    GenuineMember(st, k);
    StraysStored(c, s, st);
    if IsRequestKey(k, st) {
      var a :| a in st.requests && k == RequestKey(a);
      RequestStored(c, s, st, a);
    }
    if k in s {
      AcceptedKeys(c, s, st, k);
    }
  }

  lemma GenuineMember(st: State, k: Bytes)
    ensures k in GenuineKeys(st.requests) <==> IsRequestKey(k, st)
  {
    hide RequestKey, Sorted;
    var accounts, keys := Sorted(st.requests.Keys), GenuineKeys(st.requests);
    if k in keys {
      var i :| 0 <= i < |keys| && keys[i] == k;
      assert accounts[i] in st.requests.Keys;
    }
    if IsRequestKey(k, st) {
      var a :| a in st.requests && k == RequestKey(a);
      assert a in st.requests.Keys;
      var i :| 0 <= i < |accounts| && accounts[i] == a;
      assert keys[i] == k;
    }
  }

  lemma StraysStored(c: Codecs, s: KV, st: State)
    requires Represents(c, s, st)
    ensures ParamsPass(c, st) ==> PARAMS_KEY in s && s[PARAMS_KEY] == P.ParamsBytes(c.dur, st.params.value)
    ensures FirstTicketPasses(c, st) ==> TicketKey(0) in s && s[TicketKey(0)] == T.Marshalled(st.tickets[0])
    ensures CounterPasses(c, st) ==> COUNTER_KEY in s && s[COUNTER_KEY] == BigEndian(|st.tickets|, 8)
  {
    hide TicketKey, T.Marshalled, T.Size, P.ParamsBytes, P.ParamsSize, BigEndian, RequestsStored, Owned, ReadsAsRequest;
  }

  lemma RequestStored(c: Codecs, s: KV, st: State, a: Bytes)
    requires Represents(c, s, st) && a in st.requests
    ensures RequestKey(a) in s && st.requests[a].account == a
  {
    hide TicketsStored, ParamsStored, Owned, R.Marshalled, RequestKey;
  }

  lemma DecodedAdd(c: Codecs, s: KV, a: seq<Bytes>, b: seq<Bytes>)
    requires forall k :: k in a + b ==> k in s
    ensures (forall k :: k in a ==> k in s) && (forall k :: k in b ==> k in s)
    ensures Decoded(c, s, a + b) == Decoded(c, s, a) + Decoded(c, s, b)
  {
    hide R.Unmarshalled;
    assert forall k :: k in a ==> k in a + b;
    assert forall k :: k in b ==> k in a + b;
  }

  lemma GenuineDecoded(c: Codecs, s: KV, st: State)
    requires Represents(c, s, st) && SubCodecsRoundTrip(c, st) && forall k :: k in GenuineKeys(st.requests) ==> k in s
    ensures Decoded(c, s, GenuineKeys(st.requests)) == Listing(st.requests)
  {
    hide Represents, SubCodecsRoundTrip, Sorted, RequestKey, R.Unmarshalled;
    var accounts, keys := Sorted(st.requests.Keys), GenuineKeys(st.requests);
    forall i | 0 <= i < |keys|
      ensures Decoded(c, s, keys)[i] == Listing(st.requests)[i]
    {
      assert accounts[i] in st.requests.Keys;
      AcceptedRequest(c, s, st, accounts[i]);
    }
  }

  lemma StraysDecoded(c: Codecs, s: KV, st: State)
    requires Represents(c, s, st) && forall k :: k in StrayKeys(c, st) ==> k in s
    ensures Decoded(c, s, StrayKeys(c, st)) == Strays(c, st)
  {
    hide Represents, TicketKey, R.Unmarshalled, R.TicketRequest, R.ParamsRequest, ParamsPass, FirstTicketPasses,
         CounterPasses, BigEndian;
    StraysStored(c, s, st);
    StrayValues(c, s, st);
  }

  lemma StrayValues(c: Codecs, s: KV, st: State)
    requires Represents(c, s, st)
    ensures ParamsPass(c, st) ==>
              R.Unmarshalled(c.request, P.ParamsBytes(c.dur, st.params.value)).msg ==
              R.ParamsRequest(c.request, c.dur, st.params.value)
    ensures FirstTicketPasses(c, st) ==>
              R.Unmarshalled(c.request, T.Marshalled(st.tickets[0])).msg == R.TicketRequest(c.request, st.tickets[0])
  {
    hide TicketKey, T.Marshalled, T.Size, P.ParamsBytes, P.ParamsSize, P.MetaBytes, BigEndian, RequestsStored, Owned,
         R.Unmarshalled;
    if ParamsPass(c, st) {
      R.ParamsAccepted(c.request, c.dur, st.params.value);
    }
    if FirstTicketPasses(c, st) {
      R.TicketAccepted(c.request, st.tickets[0]);
    }
  }

  /** What the reader returns, in every state: the requests in the order of their accounts, then the
      params, the first ticket and the counter, as far as they pass. */
  lemma ReadsExactly(c: Codecs, s: KV, st: State, keys: seq<Bytes>)
    requires Represents(c, s, st) && SubCodecsRoundTrip(c, st) && Enumerates(keys, s.Keys)
    ensures ReadAll(c, s, keys) == Listing(st.requests) + Strays(c, st)
  {
    hide Represents, SubCodecsRoundTrip, Less, ReadAll, Passing, Decoded, GenuineKeys, StrayKeys, Listing, Strays;
    ReadAllPassing(c, s, keys);
    ExpectedKeys(c, s, st, keys);
    DecodedAdd(c, s, GenuineKeys(st.requests), StrayKeys(c, st));
    GenuineDecoded(c, s, st);
    StraysDecoded(c, s, st);
  }

  function Accounts(list: seq<R.Request>): seq<Bytes> { seq(|list|, i requires 0 <= i < |list| => list[i].account) }

  lemma AccountsEnumerate(list: seq<R.Request>, rs: map<Bytes, R.Request>)
    requires Lists(list, rs)
    ensures Enumerates(Accounts(list), rs.Keys)
  {
    hide Less;
    var keys := Accounts(list);
    forall a | a in rs.Keys
      ensures a in keys
    {
      var i :| 0 <= i < |list| && list[i].account == a;
      assert keys[i] == a;
    }
  }

  /** The reader returns the typed state's requests, each once and nothing else, exactly in the
      states in which no value of another kind passes. */
  lemma ReadsGenuineIff(c: Codecs, s: KV, st: State, keys: seq<Bytes>)
    requires Represents(c, s, st) && SubCodecsRoundTrip(c, st) && Enumerates(keys, s.Keys)
    ensures Lists(ReadAll(c, s, keys), st.requests) <==> OthersRejected(c, st)
  {
    hide Represents, Less, ReadAll, SubCodecsRoundTrip, Lists, OthersRejected, Listing, Strays;
    ReadsExactly(c, s, st, keys);
    forall a | a in st.requests
      ensures st.requests[a].account == a
    {
      RequestStored(c, s, st, a);
    }
    ListingLists(st.requests);
    ListsSize(Listing(st.requests), st.requests);
    NoStrays(c, st);
    assert Listing(st.requests) + [] == Listing(st.requests);
    if Lists(ReadAll(c, s, keys), st.requests) {
      ListsSize(ReadAll(c, s, keys), st.requests);
    }
  }

  lemma ListsSize(list: seq<R.Request>, rs: map<Bytes, R.Request>)
    requires Lists(list, rs)
    ensures |list| == |rs|
  {
    hide Less, Lists;
    AccountsEnumerate(list, rs);
    EnumerationSize(Accounts(list), rs.Keys);
  }

  lemma NoStrays(c: Codecs, st: State)
    ensures OthersRejected(c, st) <==> |Strays(c, st)| == 0
  {
    hide ParamsPass, FirstTicketPasses, CounterPasses, R.ParamsRequest, R.TicketRequest, R.Unmarshalled, BigEndian;
  }

  /** A first ticket without an issue text is taken for a redeem request in a store that holds none,
      whatever its additional info. */
  lemma ReaderStrays(c: Codecs, author: Bytes, info: Bytes, keys: seq<Bytes>)
    requires T.Size(T.Ticket(author, [], 0, info)) <= MAX_INT
    requires Enumerates(keys, Append(map[], T.Ticket(author, [], 0, info)).Keys)
    ensures var t := T.Ticket(author, [], 0, info);
            && Represents(c, Append(map[], t), State([t], map[], None))
            && R.Request(author, c.request.coin.empty, c.request.time.empty) in ReadAll(c, Append(map[], t), keys)
  {
    hide Represents, T.Size, Append, ReadAll, Less, CounterPasses;
    var t := T.Ticket(author, [], 0, info);
    EmptyRepresentsNothing(c);
    AppendRefines(c, map[], State([], map[], None), t);
    assert [] + [t] == [t];
    ReadsExactly(c, Append(map[], t), State([t], map[], None), keys);
    assert Strays(c, State([t], map[], None))[0] == R.TicketRequest(c.request, t);
  }

  // ----- whole runs -----

  datatype Op =
    | AppendOp(ticket: T.Ticket)
    | RequestOp(request: R.Request)
    | DeleteOp(account: Bytes)
    | ParamsOp(params: P.Params)

  /** What the keeper does to the store. */
  function StepStore(c: Codecs, s: KV, op: Op): KV
  {
    match op
    case AppendOp(t) =>
      var n := TicketCount(s);
      if n == None || n.value >= TWO_64 then s else Append(s, t.(id := n.value))
    case RequestOp(r) => SetRequest(c, s, r)
    case DeleteOp(a) => DeleteRequest(s, a)
    case ParamsOp(p) => SetParams(c, s, p)
  }

  /** What is meant. */
  function StepState(st: State, op: Op): State
  {
    match op
    case AppendOp(t) => st.(tickets := st.tickets + [t.(id := |st.tickets| % TWO_64)])
    case RequestOp(r) => st.(requests := st.requests[r.account := r])
    case DeleteOp(a) => st.(requests := st.requests - {a})
    case ParamsOp(p) => st.(params := Some(p))
  }

  function RunStore(c: Codecs, ops: seq<Op>): KV
  {
    if ops == [] then map[] else StepStore(c, RunStore(c, ops[..|ops| - 1]), ops[|ops| - 1])
  }

  function RunState(ops: seq<Op>): State
  {
    if ops == [] then State([], map[], None) else StepState(RunState(ops[..|ops| - 1]), ops[|ops| - 1])
  }

  /** The value fits in a Go slice. */
  ghost predicate Fits(c: Codecs, op: Op)
  {
    match op
    case AppendOp(t) => forall id: Uint64 :: T.Size(t.(id := id)) <= MAX_INT
    case RequestOp(r) => |R.Marshalled(c.request, r)| <= MAX_INT
    case DeleteOp(_) => true
    case ParamsOp(p) => P.ParamsSize(c.dur, p) <= MAX_INT
  }

  lemma StepRefines(c: Codecs, s: KV, st: State, op: Op)
    requires Represents(c, s, st) && Fits(c, op)
    requires op.AppendOp? ==> |st.tickets| < COUNTER_ID
    ensures Represents(c, StepStore(c, s, op), StepState(st, op))
  {
    hide Represents, TicketCount, Append, SetRequest, DeleteRequest, SetParams, T.Size, R.Marshalled, P.ParamsSize;
    match op
    case AppendOp(t) =>
      CountsTickets(c, s, st);
      AppendRefines(c, s, st, t.(id := |st.tickets|));
    case RequestOp(r) => SetRequestRefines(c, s, st, r);
    case DeleteOp(a) => DeleteRequestRefines(c, s, st, a);
    case ParamsOp(p) => SetParamsRefines(c, s, st, p);
  }

  /** Every run of the keeper on the flat store is a run on the typed state, as long as no more
      tickets were appended than the id that spells "_counter". */
  lemma {:induction false} RunRefines(c: Codecs, ops: seq<Op>)
    requires forall i :: 0 <= i < |ops| ==> Fits(c, ops[i])
    requires |RunState(ops).tickets| <= COUNTER_ID
    ensures Represents(c, RunStore(c, ops), RunState(ops))
  {
    hide Represents, Fits, StepStore;
    if ops == [] {
      EmptyRepresentsNothing(c);
    } else {
      var n := |ops| - 1;
      RunRefines(c, ops[..n]);
      StepRefines(c, RunStore(c, ops[..n]), RunState(ops[..n]), ops[n]);
    }
  }

  // ----- the keeper -----

  /** What one round of the metadata loop adds: newline, name, colon, blank, value. */
  function InfoLine(name: Bytes, value: Bytes): Bytes { [0x0A] + name + [0x3A, 0x20] + value }

  function InfoLines(metadata: map<Bytes, Bytes>, order: seq<Bytes>): Bytes
    requires forall k :: k in order ==> k in metadata
  {
    if order == [] then []
    else
      var n := |order| - 1;
      InfoLines(metadata, order[..n]) + InfoLine(order[n], metadata[order[n]])
  }

  /** status: Creater, timestamp: the block's, chain ID: the chain's. */
  function Metadata(blockTime: Bytes, chainID: Bytes): map<Bytes, Bytes>
  {
    map[[0x73, 0x74, 0x61, 0x74, 0x75, 0x73] := [0x43, 0x72, 0x65, 0x61, 0x74, 0x65, 0x72],
        [0x74, 0x69, 0x6D, 0x65, 0x73, 0x74, 0x61, 0x6D, 0x70] := blockTime,
        [0x63, 0x68, 0x61, 0x69, 0x6E, 0x20, 0x49, 0x44] := chainID]
  }

  /** info is post with three lines behind it, in some order: status, timestamp and chain ID. */
  predicate AddsLines(post: Bytes, info: Bytes, blockTime: Bytes, chainID: Bytes)
  {
    InSomeOrder(post, info, Ascii("\nstatus: Creater"), Ascii("\ntimestamp: ") + blockTime,
                Ascii("\nchain ID: ") + chainID)
  }

  predicate InSomeOrder(post: Bytes, info: Bytes, s: Bytes, t: Bytes, c: Bytes)
  {
    || info == post + s + t + c || info == post + s + c + t || info == post + t + s + c
    || info == post + t + c + s || info == post + c + s + t || info == post + c + t + s
  }

  const STATUS: Bytes := [0x73, 0x74, 0x61, 0x74, 0x75, 0x73]
  const TIMESTAMP: Bytes := [0x74, 0x69, 0x6D, 0x65, 0x73, 0x74, 0x61, 0x6D, 0x70]
  const CHAIN_ID: Bytes := [0x63, 0x68, 0x61, 0x69, 0x6E, 0x20, 0x49, 0x44]

  lemma StatusLine(blockTime: Bytes, chainID: Bytes)
    ensures var m := Metadata(blockTime, chainID);
            STATUS in m && InfoLine(STATUS, m[STATUS]) == Ascii("\nstatus: Creater")
  {
    var text := Ascii("\nstatus: Creater");
    assert text == [0x0A, 0x73, 0x74, 0x61, 0x74, 0x75, 0x73, 0x3A, 0x20, 0x43, 0x72, 0x65, 0x61, 0x74, 0x65, 0x72];
  }

  lemma TimestampLine(blockTime: Bytes, chainID: Bytes)
    ensures var m := Metadata(blockTime, chainID);
            TIMESTAMP in m && InfoLine(TIMESTAMP, m[TIMESTAMP]) == Ascii("\ntimestamp: ") + blockTime
  {
    assert Ascii("\ntimestamp: ") == [0x0A] + TIMESTAMP + [0x3A, 0x20];
  }

  lemma ChainLine(blockTime: Bytes, chainID: Bytes)
    ensures var m := Metadata(blockTime, chainID);
            CHAIN_ID in m && InfoLine(CHAIN_ID, m[CHAIN_ID]) == Ascii("\nchain ID: ") + chainID
  {
    assert Ascii("\nchain ID: ") == [0x0A] + CHAIN_ID + [0x3A, 0x20];
  }

  lemma MetadataKeys(blockTime: Bytes, chainID: Bytes)
    ensures Metadata(blockTime, chainID).Keys == {STATUS, TIMESTAMP, CHAIN_ID}
    ensures |Metadata(blockTime, chainID)| == 3 && STATUS != TIMESTAMP && TIMESTAMP != CHAIN_ID && STATUS != CHAIN_ID
  {
    assert STATUS[0] == 0x73 && TIMESTAMP[0] == 0x74 && CHAIN_ID[0] == 0x63;
    var m := Metadata(blockTime, chainID);
    assert m.Keys == {STATUS, TIMESTAMP, CHAIN_ID};
    assert |m| == |m.Keys|;
  }

  lemma ThreeLines(m: map<Bytes, Bytes>, order: seq<Bytes>)
    requires |order| == 3 && forall k :: k in order ==> k in m
    ensures InfoLines(m, order) == InfoLine(order[0], m[order[0]]) + InfoLine(order[1], m[order[1]])
                                   + InfoLine(order[2], m[order[2]])
  {
    hide InfoLine;
    var o1, o2 := order[..1], order[..2];
    assert o1[..0] == [] && o2[..1] == o1;
    assert InfoLines(m, o1) == [] + InfoLine(order[0], m[order[0]]);
  }

  /** Whatever order the map yields its entries in, these lines come out. */
  lemma LinesAdded(post: Bytes, blockTime: Bytes, chainID: Bytes, order: seq<Bytes>)
    requires var m := Metadata(blockTime, chainID); (forall k :: k in order <==> k in m) && |order| == |m|
    ensures AddsLines(post, post + InfoLines(Metadata(blockTime, chainID), order), blockTime, chainID)
  {
    hide Metadata, InfoLine, InfoLines, Ascii, InSomeOrder;
    var m := Metadata(blockTime, chainID);
    MetadataKeys(blockTime, chainID);
    StatusLine(blockTime, chainID);
    TimestampLine(blockTime, chainID);
    ChainLine(blockTime, chainID);
    ThreeLines(m, order);
    ThreeInOrder(post, m, order, STATUS, TIMESTAMP, CHAIN_ID);
  }

  lemma ThreeInOrder(post: Bytes, m: map<Bytes, Bytes>, order: seq<Bytes>, a: Bytes, b: Bytes, c: Bytes)
    requires |order| == 3 && a in order && b in order && c in order && a != b && b != c && a != c
    requires forall k :: k in order ==> k in m
    ensures InSomeOrder(post, post + (InfoLine(order[0], m[order[0]]) + InfoLine(order[1], m[order[1]])
                                      + InfoLine(order[2], m[order[2]])),
                        InfoLine(a, m[a]), InfoLine(b, m[b]), InfoLine(c, m[c]))
  {
    hide InfoLine;
    var x, y, z := InfoLine(order[0], m[order[0]]), InfoLine(order[1], m[order[1]]), InfoLine(order[2], m[order[2]]);
    assert post + (x + y + z) == post + x + y + z;
  }

  /** The ticket under the id it was given reads back; at the id that spells the counter's key it does
      not, by AppendCollides. */
  lemma AppendedReadsBack(s: KV, t: T.Ticket)
    requires T.Size(t) <= MAX_INT && t.id != COUNTER_ID
    ensures TicketKey(t.id) in Append(s, t)
    ensures Decode(Append(s, t)[TicketKey(t.id)], 0, T.EMPTY, T.SCHEMA) == Outcome(t, None)
  {
    hide Decode, TicketKey, T.Marshalled, T.Size, BigEndian;
    KeysApart(t.id, []);
    T.RoundTrip(t);
  }

  /** The counter moves on by one, wrapping in 64 bits. */
  lemma CounterAdvances(s: KV, t: T.Ticket)
    ensures TicketCount(Append(s, t)) == Some(if t.id == TWO_64 - 1 then 0 else t.id + 1)
  {
    hide BigEndian, FromBigEndian, TicketKey, T.Marshalled;
    var n := if t.id == TWO_64 - 1 then 0 else t.id + 1;
    EightBytes(n);
    assert BigEndian(n, 8)[..8] == BigEndian(n, 8);
  }

  class Keeper {
    const codecs: Codecs
    var store: KV

    constructor (codecs: Codecs)
      ensures store == map[] && this.codecs == codecs
    {
      this.codecs := codecs;
      store := map[];
    }

    method GetTicketCount() returns (count: Option<nat>)
      ensures count == TicketCount(store)
      ensures COUNTER_KEY !in store ==> count == Some(0)
      ensures count == None <==> COUNTER_KEY in store && |store[COUNTER_KEY]| < 8
    {
      if COUNTER_KEY !in store {
        return Some(0);
      }
      var bz := store[COUNTER_KEY];
      count := if |bz| < 8 then None else Some(FromBigEndian(bz[..8]));
    }

    /** The counter reads back as set; every other entry stays. */
    method SetTicketCounter(count: Uint64)
      modifies this
      ensures TicketCount(store) == Some(count)
      ensures store - {COUNTER_KEY} == old(store) - {COUNTER_KEY}
      ensures store == old(store)[COUNTER_KEY := BigEndian(count, 8)]
    {
      hide BigEndian, FromBigEndian;
      EightBytes(count);
      assert BigEndian(count, 8)[..8] == BigEndian(count, 8);
      store := store[COUNTER_KEY := BigEndian(count, 8)];
    }

    /** The metadata are visited in whatever order the map yields them; `order` is that order. */
    method AddMetadata(info: Bytes, metadata: map<Bytes, Bytes>) returns (r: Bytes, ghost order: seq<Bytes>)
      ensures (forall k :: k in order <==> k in metadata) && |order| == |metadata|
      ensures r == info + InfoLines(metadata, order)
    {
      r, order := info, [];
      var todo := metadata.Keys;
      while todo != {}
        invariant todo <= metadata.Keys
        invariant (forall k :: k in order <==> k in metadata && k !in todo) && |order| + |todo| == |metadata|
        invariant r == info + InfoLines(metadata, order)
        decreases todo
      {
        var k :| k in todo;
        ghost var order' := order + [k];
        assert order'[..|order|] == order;
        r := r + InfoLine(k, metadata[k]);
        order, todo := order', todo - {k};
      }
    }

    /** Returns the id given to the ticket, or None where the counter's bytes make the source panic. The
        post is stored under that id with three lines added to its info, and reads back from there. */
    method AppendTicket(post: T.Ticket, blockTime: Bytes, chainID: Bytes)
      returns (id: Option<Uint64>, ghost stored: T.Ticket)
      modifies this
      ensures match TicketCount(old(store))
              case None => id == None && store == old(store)
              case Some(n) =>
                && n < TWO_64 && id == Some(n) && store == Append(old(store), stored)
                && stored == post.(id := n, additionalInfo := stored.additionalInfo)
                && AddsLines(post.additionalInfo, stored.additionalInfo, blockTime, chainID)
                && (n != COUNTER_ID && T.Size(stored) <= MAX_INT ==>
                      && TicketKey(n) in store
                      && Decode(store[TicketKey(n)], 0, T.EMPTY, T.SCHEMA) == Outcome(stored, None))
    {
      hide FromBigEndian, BigEndian, InfoLines, T.Marshalled, T.Size, TicketKey, Metadata, AddsLines, Decode;
      stored := post;
      var count := GetTicketCount();
      if count == None {
        return None, post;
      }
      CountFits(store);
      var info;
      ghost var order;
      info, order := AddMetadata(post.additionalInfo, Metadata(blockTime, chainID));
      LinesAdded(post.additionalInfo, blockTime, chainID, order);
      var ticket := post.(id := count.value, additionalInfo := info);
      store := store[TicketKey(ticket.id) := T.Marshalled(ticket)];
      SetTicketCounter((count.value + 1) % TWO_64);
      id, stored := Some(count.value), ticket;
      if ticket.id != COUNTER_ID && T.Size(ticket) <= MAX_INT {
        AppendedReadsBack(old(store), ticket);
      }
    }

    method StoreParams(p: P.Params)
      modifies this
      ensures store == SetParams(codecs, old(store), p)
    {
      store := store[PARAMS_KEY := P.ParamsBytes(codecs.dur, p)];
    }

    /** The stored params, empty ones without an entry; None is the panic on bytes that do not decode. */
    method GetParams() returns (p: Option<P.Params>)
      requires forall k :: k in store ==> |store[k]| <= MAX_INT
      ensures if PARAMS_KEY !in store then p == Some(P.EMPTY)
              else var o := Decode(store[PARAMS_KEY], 0, P.EMPTY, P.ParamsSchema(codecs.dur));
                   p == if o.err == None then Some(o.msg) else None
    {
      hide Decode, P.ParamsSchema;
      if PARAMS_KEY !in store {
        return Some(P.EMPTY);
      }
      var m := new P.ParamsMessage(codecs.dur, P.EMPTY);
      var err := m.Unmarshal(store[PARAMS_KEY]);
      p := if err == None then Some(m.Contents()) else None;
    }

    method SetRedeemRequest(r: R.Request)
      modifies this
      ensures store == SetRequest(codecs, old(store), r)
    {
      store := store[RequestKey(r.account) := R.Marshalled(codecs.request, r)];
    }

    method DeleteRedeemRequest(account: Bytes)
      modifies this
      ensures store == DeleteRequest(old(store), account)
    {
      store := store - {RequestKey(account)};
    }

    /** Reads every value as a redeem request, in key order, and drops what does not decode. */
    method GetAllRedeemRequests() returns (requests: seq<R.Request>, ghost keys: seq<Bytes>)
      requires forall k :: k in store ==> |store[k]| <= MAX_INT
      ensures Enumerates(keys, store.Keys) && requests == ReadAll(codecs, store, keys)
    {
      hide R.Unmarshalled, Accepted, Less, ReadAll;
      var found := KeysInOrder(store.Keys);
      keys := found;
      requests := [];
      for i := 0 to |found|
        invariant requests + ReadAll(codecs, store, found[i..]) == ReadAll(codecs, store, found)
      {
        ReadAllNext(codecs, store, found, i);
        assert found[i] in store.Keys;
        var request := ReadRequest(store[found[i]]);
        if request.Some? {
          requests := requests + [request.value];
        }
      }
      ReadAllNone(codecs, store, found);
    }

    /** A value decoded as a request; None is the error, which is logged. */
    method ReadRequest(v: Bytes) returns (r: Option<R.Request>)
      requires |v| <= MAX_INT
      ensures r == if Accepted(codecs, v) then Some(R.Unmarshalled(codecs.request, v).msg) else None
    {
      hide R.RequestSchema, Decode;
      var request := new R.RedeemRequestMessage(codecs.request);
      var err := request.Unmarshal(v);
      r := if err == None then Some(request.Contents()) else None;
    }
  }

  lemma ReadAllNext(c: Codecs, s: KV, keys: seq<Bytes>, i: nat)
    requires i < |keys|
    ensures ReadAll(c, s, keys[i..]) ==
            (if keys[i] in s && Accepted(c, s[keys[i]]) then [R.Unmarshalled(c.request, s[keys[i]]).msg] else [])
            + ReadAll(c, s, keys[i + 1..])
  {
  }

  lemma ReadAllNone(c: Codecs, s: KV, keys: seq<Bytes>)
    ensures ReadAll(c, s, keys[|keys|..]) == []
  {
  }

  lemma CountFits(s: KV)
    requires TicketCount(s).Some?
    ensures TicketCount(s).value < TWO_64
  {
    if COUNTER_KEY in s {
      assert Pow256(4) == 0x1_0000_0000;
      assert Pow256(8) == TWO_64 by { assert Pow256(6) == 0x1_0000 * Pow256(4); }
      FromBigEndianBound(s[COUNTER_KEY][..8]);
    }
  }

  lemma {:induction false} FromBigEndianBound(b: Bytes)
    ensures FromBigEndian(b) < Pow256(|b|)
  {
    if b != [] {
      FromBigEndianBound(b[..|b| - 1]);
    }
  }
}
