/** The NEAR event registry: maps and sets of accounts flattened into one key-value storage.
    Layout, as near-sdk has it: a collection's prefix followed by the Borsh bytes of the key. */
module Registry {
  import opened Words

  /** NEAR account ids have 2 to 64 bytes. */
  type AccountId = a: Bytes | 2 <= |a| <= 64 witness [0x61, 0x61]

  datatype Event = Event(createdTimestamp: Uint64, isLive: bool, title: Option<Bytes>)

  /** What a storage cell holds: an event, a set (which is stored as its prefix), or a set member's mark. */
  datatype Cell = EventCell(event: Event) | SetCell(prefix: Bytes) | Mark

  type Storage = map<Bytes, Cell>

  // ----- keys (storage.rs) -----

  const PRIVILEGED: Bytes := [0x70, 0x72, 0x69, 0x76, 0x5F, 0x63, 0x6C, 0x75, 0x62, 0x73] // "priv_clubs"
  const EVENTS: Bytes := [0x65, 0x76, 0x65, 0x6E, 0x74, 0x73] // "events"
  const REGISTERED: Bytes := // "ev_to_registered"
    [0x65, 0x76, 0x5F, 0x74, 0x6F, 0x5F, 0x72, 0x65, 0x67, 0x69, 0x73, 0x74, 0x65, 0x72, 0x65, 0x64]
  const EVENT: Bytes := [0x65, 0x76, 0x65, 0x6E, 0x74] // "event"

  /** n in decimal, as ASCII. */
  function Decimal(n: nat): (r: Bytes)
    ensures |r| >= 1 && forall i :: 0 <= i < |r| ==> 0x30 <= r[i] <= 0x39
  {
    if n < 10 then [0x30 + n] else Decimal(n / 10) + [0x30 + n % 10]
  }

  function LittleEndian(n: nat, k: nat): (r: Bytes)
    ensures |r| == k
  {
    if k == 0 then [] else [n % 256] + LittleEndian(n / 256, k - 1)
  }

  function UsersPrefix(e: nat): Bytes { EVENT + Decimal(e) }

  function EventKey(e: Uint64): Bytes { EVENTS + LittleEndian(e, 8) }

  function UsersKey(e: Uint64): Bytes { REGISTERED + LittleEndian(e, 8) }

  function MemberKey(prefix: Bytes, a: AccountId): Bytes { prefix + (LittleEndian(|a|, 4) + a) }

  function ClubKey(a: AccountId): Bytes { MemberKey(PRIVILEGED, a) }

  function UserKey(e: nat, a: AccountId): Bytes { MemberKey(UsersPrefix(e), a) }

  /** The number that ASCII digits spell, most significant first. */
  function ReadDecimal(b: Bytes): int
  {
    if b == [] then 0 else 10 * ReadDecimal(b[..|b| - 1]) - 0x30 + b[|b| - 1]
  }

  /** The digits spell the number, without leading zeros. */
  lemma {:induction false} DecimalSpells(n: nat)
    ensures ReadDecimal(Decimal(n)) == n && (n > 0 ==> Decimal(n)[0] != 0x30) && (n == 0 ==> Decimal(n) == [0x30])
  {
    if n < 10 {
      assert [0x30 + n][..0] == [];
    } else {
      DecimalSpells(n / 10);
      var k := |Decimal(n)| - 1;
      assert Decimal(n)[..k] == Decimal(n / 10);
    }
  }

  lemma DecimalInjective(n: nat, m: nat)
    requires Decimal(n) == Decimal(m)
    ensures n == m
  {
    hide Decimal, ReadDecimal;
    DecimalSpells(n);
    DecimalSpells(m);
  }

  /** The number that bytes spell, least significant first. */
  function ReadLittleEndian(b: Bytes): nat
  {
    if b == [] then 0 else b[0] + 256 * ReadLittleEndian(b[1..])
  }

  lemma {:induction false} LittleEndianSpells(n: nat, k: nat)
    requires n < Shl(1, 8 * k)
    ensures ReadLittleEndian(LittleEndian(n, k)) == n
  {
    if k > 0 {
      ShlFour(1, 8 * (k - 1));
      ShlFour(1, 8 * (k - 1) + 4);
      LittleEndianSpells(n / 256, k - 1);
      assert LittleEndian(n, k)[1..] == LittleEndian(n / 256, k - 1);
    }
  }

  lemma LittleEndianInjective(n: nat, m: nat, k: nat)
    requires LittleEndian(n, k) == LittleEndian(m, k) && n < Shl(1, 8 * k) && m < Shl(1, 8 * k)
    ensures n == m
  {
    hide LittleEndian, ReadLittleEndian, Shl;
    LittleEndianSpells(n, k);
    LittleEndianSpells(m, k);
  }

  lemma LengthBytes(a: AccountId)
    ensures LittleEndian(|a|, 4) == [|a|, 0, 0, 0]
  {
    assert |a| / 256 == 0 && |a| % 256 == |a|;
    assert LittleEndian(0, 3) == [0] + LittleEndian(0, 2);
    assert LittleEndian(0, 2) == [0] + LittleEndian(0, 1);
    assert LittleEndian(0, 1) == [0] + LittleEndian(0, 0);
  }

  /** After "event": the decimal id, then the account's length byte and a zero byte. The zero
      can be neither a digit nor a length, so the id ends at the same place in equal keys. */
  lemma UserKeyInjective(e: nat, a: AccountId, e': nat, a': AccountId)
    requires UserKey(e, a) == UserKey(e', a')
    ensures e == e' && a == a'
  {
    var d, d' := Decimal(e), Decimal(e');
    if |d| < |d'| {
      DigitsEndTogether(e, a, e', a');
      assert false;
    } else if |d'| < |d| {
      DigitsEndTogether(e', a', e, a);
      assert false;
    } else {
      SameLength(e, a, e', a');
    }
  }

  lemma UserKeyAt(e: nat, a: AccountId)
    ensures var k, d := UserKey(e, a), Decimal(e);
            && |k| == 5 + |d| + 4 + |a| && k[5..5 + |d|] == d
            && k[5 + |d|] == |a| && k[6 + |d|] == 0 && k[9 + |d|..] == a
            && forall i :: 5 <= i < 5 + |d| ==> k[i] >= 0x30
  {
    hide Decimal, LittleEndian;
    LengthBytes(a);
    var k, d := UserKey(e, a), Decimal(e);
    assert k == EVENT + d + [|a|, 0, 0, 0] + a;
    assert forall i :: 5 <= i < 5 + |d| ==> k[i] == d[i - 5];
  }

  lemma DigitsEndTogether(e: nat, a: AccountId, e': nat, a': AccountId)
    requires UserKey(e, a) == UserKey(e', a')
    ensures |Decimal(e)| >= |Decimal(e')|
  {
    hide Decimal, UserKey;
    UserKeyAt(e, a);
    UserKeyAt(e', a');
    var n, n' := |Decimal(e)|, |Decimal(e')|;
    if n < n' {
      assert false;
    }
  }

  lemma SameLength(e: nat, a: AccountId, e': nat, a': AccountId)
    requires UserKey(e, a) == UserKey(e', a') && |Decimal(e)| == |Decimal(e')|
    ensures e == e' && a == a'
  {
    hide Decimal, UserKey;
    UserKeyAt(e, a);
    UserKeyAt(e', a');
    DecimalInjective(e, e');
  }

  /** The keys as texts: prefix and little-endian id for the two maps, prefix and account for the sets,
      a set's prefix ending in the decimal id. */
  lemma KeyTexts(e: Uint64, a: AccountId)
    ensures EventKey(e) == Ascii("events") + LittleEndian(e, 8)
    ensures UsersKey(e) == Ascii("ev_to_registered") + LittleEndian(e, 8)
    ensures UserKey(e, a) == Ascii("event") + Decimal(e) + [|a|, 0, 0, 0] + a
    ensures ClubKey(a) == Ascii("priv_clubs") + [|a|, 0, 0, 0] + a
  {
    hide LittleEndian, Decimal;
    LengthBytes(a);
    assert Ascii("events") == EVENTS && Ascii("ev_to_registered") == REGISTERED;
    assert Ascii("event") == EVENT && Ascii("priv_clubs") == PRIVILEGED;
  }

  lemma EventKeysInjective(e: Uint64, e': Uint64)
    ensures EventKey(e) == EventKey(e') ==> e == e'
    ensures UsersKey(e) == UsersKey(e') ==> e == e'
  {
    hide LittleEndian;
    PowersOfTwo();
    if EventKey(e) == EventKey(e') {
      assert EventKey(e)[6..] == LittleEndian(e, 8) && EventKey(e')[6..] == LittleEndian(e', 8);
      LittleEndianInjective(e, e', 8);
    }
    if UsersKey(e) == UsersKey(e') {
      assert UsersKey(e)[16..] == LittleEndian(e, 8) && UsersKey(e')[16..] == LittleEndian(e', 8);
      LittleEndianInjective(e, e', 8);
    }
  }

  lemma ClubKeyInjective(a: AccountId, a': AccountId)
    requires ClubKey(a) == ClubKey(a')
    ensures a == a'
  {
    hide LittleEndian;
    assert ClubKey(a)[14..] == a && ClubKey(a')[14..] == a';
  }

  /** No two collections share a key. */
  lemma CollectionsApart(e: Uint64, e': Uint64, n: nat, a: AccountId, b: AccountId)
    ensures EventKey(e) != UsersKey(e') && EventKey(e) != UserKey(n, a) && EventKey(e) != ClubKey(b)
    ensures UsersKey(e) != UserKey(n, a) && UsersKey(e) != ClubKey(b) && UserKey(n, a) != ClubKey(b)
  {
    hide LittleEndian, Decimal;
    assert EventKey(e)[2] == 0x65 && EventKey(e)[5] == 0x73;
    assert UsersKey(e')[2] == 0x5F && UsersKey(e)[2] == 0x5F && UsersKey(e)[0] == 0x65;
    assert UserKey(n, a)[0] == 0x65 && UserKey(n, a)[2] == 0x65 && UserKey(n, a)[5] == Decimal(n)[0];
    assert ClubKey(b)[0] == 0x70;
  }

  // ----- the contract on flat storage (lib.rs); None is a panic, which reverts the call -----

  /** `checked` says whether the crate was built with overflow checks: the members' manifests ask for
      them, but a profile is read from the workspace's own manifest, which has none. */
  datatype Contract = Contract(checked: bool, storage: Storage, owner: AccountId, next: Uint16)

  datatype Call =
    | AddNewEvent(timestamp: Uint64, title: Bytes)
    | RemoveEvent(signer: AccountId, event: Uint64)
    | MakeEventOffline(signer: AccountId, event: Uint64)
    | AddPrivilegedClub(signer: AccountId, club: AccountId)
    | RemovePrivilegedClub(signer: AccountId, club: AccountId)
    | RegisterForAnEvent(predecessor: AccountId, event: Uint64, account: AccountId)
    | SetOwner(signer: AccountId, newOwner: AccountId)

  function IsLiveEvent(s: Storage, e: Uint64): bool
  {
    EventKey(e) in s && s[EventKey(e)].EventCell? && s[EventKey(e)].event.isLive
  }

  /** The increment of a u16 that wraps. */
  function Next(n: Uint16): Uint16 { if n == U16_MAX then 0 else n + 1 }

  function Execute(ct: Contract, call: Call): Option<Contract>
  {
    var s := ct.storage;
    match call
    case AddNewEvent(ts, title) =>
      if ct.checked && ct.next == U16_MAX then None // next_event_idx += 1 overflows a u16
      else
        var event := Event(ts, true, Some(title));
        var s' := s[EventKey(ct.next) := EventCell(event)][UsersKey(ct.next) := SetCell(UsersPrefix(ct.next))];
        Some(ct.(storage := s', next := Next(ct.next)))
    case RemoveEvent(signer, e) =>
      if signer != ct.owner then None
      else Some(ct.(storage := s - {EventKey(e)} - {UsersKey(e)}))
    case MakeEventOffline(signer, e) =>
      if signer != ct.owner then None
      else if EventKey(e) !in s then None
      else Some(ct) // the flag is cleared on a copy that is not stored back
    case AddPrivilegedClub(signer, club) =>
      if signer != ct.owner then None else Some(ct.(storage := s[ClubKey(club) := Mark]))
    case RemovePrivilegedClub(signer, club) =>
      if signer != ct.owner then None else Some(ct.(storage := s - {ClubKey(club)}))
    case RegisterForAnEvent(pred, e, account) =>
      if ClubKey(pred) !in s then None
      else if !IsLiveEvent(s, e) then None
      else if UsersKey(e) !in s || !s[UsersKey(e)].SetCell? then None
      else Some(ct.(storage := s[MemberKey(s[UsersKey(e)].prefix, account) := Mark]))
    case SetOwner(signer, o) =>
      if signer != ct.owner then None else Some(ct.(owner := o))
  }

  /** get_event; None is the panic of unwrap. */
  function GetEvent(ct: Contract, e: Uint64): Option<Event>
  {
    var s, k := ct.storage, EventKey(e);
    if k in s && s[k].EventCell? then Some(s[k].event) else None
  }

  /** check_user_registered; None is the panic of unwrap. */
  function CheckUserRegistered(ct: Contract, e: Uint64, account: AccountId): Option<bool>
  {
    var s := ct.storage;
    if EventKey(e) !in s then Some(false)
    else if UsersKey(e) !in s || !s[UsersKey(e)].SetCell? then None
    else Some(MemberKey(s[UsersKey(e)].prefix, account) in s)
  }

  // ----- what is meant -----

  /** The events that exist and the marks ever left for an event and an account: a mark outlives its
      event, so it counts again if the event's id is given out again. */
  datatype Registry = Registry(checked: bool, live: map<Uint64, Event>, marks: set<(Uint64, AccountId)>,
                               clubs: set<AccountId>, owner: AccountId, next: Uint16)

  function Meant(r: Registry, call: Call): Option<Registry>
  {
    match call
    case AddNewEvent(ts, title) =>
      if r.checked && r.next == U16_MAX then None
      else Some(r.(live := r.live[r.next := Event(ts, true, Some(title))], next := Next(r.next)))
    case RemoveEvent(signer, e) => if signer != r.owner then None else Some(r.(live := r.live - {e}))
    case MakeEventOffline(signer, e) => if signer != r.owner || e !in r.live then None else Some(r)
    case AddPrivilegedClub(signer, club) => if signer != r.owner then None else Some(r.(clubs := r.clubs + {club}))
    case RemovePrivilegedClub(signer, club) => if signer != r.owner then None else Some(r.(clubs := r.clubs - {club}))
    case RegisterForAnEvent(pred, e, account) =>
      if pred !in r.clubs || e !in r.live then None else Some(r.(marks := r.marks + {(e, account)}))
    case SetOwner(signer, o) => if signer != r.owner then None else Some(r.(owner := o))
  }

  /** The flat storage stands for the registry. */
  ghost predicate Stands(ct: Contract, r: Registry)
  {
    && ct.checked == r.checked && ct.owner == r.owner && ct.next == r.next
    && EventsStand(ct.storage, r.live)
    && (forall e: Uint64, a: AccountId :: (e, a) in r.marks <==> UserKey(e, a) in ct.storage)
    && (forall a: AccountId :: a in r.clubs <==> ClubKey(a) in ct.storage)
  }

  ghost predicate EventsStand(s: Storage, live: map<Uint64, Event>)
  {
    && (forall e: Uint64 :: e in live <==> EventKey(e) in s)
    && (forall e: Uint64 :: e in live ==> s[EventKey(e)] == EventCell(live[e]) && live[e].isLive)
    && (forall e: Uint64 :: e in live ==> UsersKey(e) in s && s[UsersKey(e)] == SetCell(UsersPrefix(e)))
  }

  /** check_user_registered answers for the registry and never panics. */
  lemma CheckAnswers(ct: Contract, r: Registry, e: Uint64, a: AccountId)
    requires Stands(ct, r)
    ensures CheckUserRegistered(ct, e, a) == Some(e in r.live && (e, a) in r.marks)
  {
  }

  const ANYONE: AccountId := [0x61, 0x61]

  lemma EventKeyApart(e0: Uint64)
    ensures forall e: Uint64 :: EventKey(e) == EventKey(e0) ==> e == e0
    ensures forall e: Uint64 :: UsersKey(e) != EventKey(e0)
    ensures forall n: nat, a: AccountId :: UserKey(n, a) != EventKey(e0)
    ensures forall a: AccountId :: ClubKey(a) != EventKey(e0)
  {
    hide EventKey, UsersKey, UserKey, ClubKey;
    forall e: Uint64
      ensures EventKey(e) == EventKey(e0) ==> e == e0
    {
      EventKeysInjective(e, e0);
    }
    forall e: Uint64
      ensures UsersKey(e) != EventKey(e0)
    {
      CollectionsApart(e0, e, 0, ANYONE, ANYONE);
    }
    forall n: nat, a: AccountId
      ensures UserKey(n, a) != EventKey(e0)
    {
      CollectionsApart(e0, e0, n, a, ANYONE);
    }
    forall a: AccountId
      ensures ClubKey(a) != EventKey(e0)
    {
      CollectionsApart(e0, e0, 0, ANYONE, a);
    }
  }

  lemma UsersKeyApart(e0: Uint64)
    ensures forall e: Uint64 :: UsersKey(e) == UsersKey(e0) ==> e == e0
    ensures forall e: Uint64 :: EventKey(e) != UsersKey(e0)
    ensures forall n: nat, a: AccountId :: UserKey(n, a) != UsersKey(e0)
    ensures forall a: AccountId :: ClubKey(a) != UsersKey(e0)
  {
    hide EventKey, UsersKey, UserKey, ClubKey;
    forall e: Uint64
      ensures UsersKey(e) == UsersKey(e0) ==> e == e0
    {
      EventKeysInjective(e, e0);
    }
    forall e: Uint64
      ensures EventKey(e) != UsersKey(e0)
    {
      CollectionsApart(e, e0, 0, ANYONE, ANYONE);
    }
    forall n: nat, a: AccountId
      ensures UserKey(n, a) != UsersKey(e0)
    {
      CollectionsApart(e0, e0, n, a, ANYONE);
    }
    forall a: AccountId
      ensures ClubKey(a) != UsersKey(e0)
    {
      CollectionsApart(e0, e0, 0, ANYONE, a);
    }
  }

  lemma UserKeyApart(n0: nat, a0: AccountId)
    ensures forall n: nat, a: AccountId :: UserKey(n, a) == UserKey(n0, a0) ==> n == n0 && a == a0
    ensures forall e: Uint64 :: EventKey(e) != UserKey(n0, a0)
    ensures forall e: Uint64 :: UsersKey(e) != UserKey(n0, a0)
    ensures forall a: AccountId :: ClubKey(a) != UserKey(n0, a0)
  {
    hide EventKey, UsersKey, UserKey, ClubKey;
    forall n: nat, a: AccountId
      ensures UserKey(n, a) == UserKey(n0, a0) ==> n == n0 && a == a0
    {
      if UserKey(n, a) == UserKey(n0, a0) {
        UserKeyInjective(n, a, n0, a0);
      }
    }
    forall e: Uint64
      ensures EventKey(e) != UserKey(n0, a0)
    {
      CollectionsApart(e, e, n0, a0, ANYONE);
    }
    forall e: Uint64
      ensures UsersKey(e) != UserKey(n0, a0)
    {
      CollectionsApart(e, e, n0, a0, ANYONE);
    }
    forall a: AccountId
      ensures ClubKey(a) != UserKey(n0, a0)
    {
      CollectionsApart(0, 0, n0, a0, a);
    }
  }

  lemma ClubKeyApart(a0: AccountId)
    ensures forall a: AccountId :: ClubKey(a) == ClubKey(a0) ==> a == a0
    ensures forall e: Uint64 :: EventKey(e) != ClubKey(a0)
    ensures forall e: Uint64 :: UsersKey(e) != ClubKey(a0)
    ensures forall n: nat, a: AccountId :: UserKey(n, a) != ClubKey(a0)
  {
    hide EventKey, UsersKey, UserKey, ClubKey;
    forall a: AccountId
      ensures ClubKey(a) == ClubKey(a0) ==> a == a0
    {
      if ClubKey(a) == ClubKey(a0) {
        ClubKeyInjective(a, a0);
      }
    }
    forall e: Uint64
      ensures EventKey(e) != ClubKey(a0)
    {
      CollectionsApart(e, e, 0, ANYONE, a0);
    }
    forall e: Uint64
      ensures UsersKey(e) != ClubKey(a0)
    {
      CollectionsApart(e, e, 0, ANYONE, a0);
    }
    forall n: nat, a: AccountId
      ensures UserKey(n, a) != ClubKey(a0)
    {
      CollectionsApart(0, 0, n, a, a0);
    }
  }

  lemma AddStands(ct: Contract, r: Registry, ts: Uint64, title: Bytes)
    requires Stands(ct, r) && !(r.checked && r.next == U16_MAX)
    ensures Stands(Execute(ct, AddNewEvent(ts, title)).value, Meant(r, AddNewEvent(ts, title)).value)
  {
    hide EventKey, UsersKey, UserKey, ClubKey, UsersPrefix, EventsStand;
    EventKeyApart(r.next);
    UsersKeyApart(r.next);
    EventsAdded(ct.storage, r.live, r.next, Event(ts, true, Some(title)));
  }

  lemma EventsAdded(s: Storage, live: map<Uint64, Event>, e: Uint64, event: Event)
    requires EventsStand(s, live) && event.isLive
    ensures EventsStand(s[EventKey(e) := EventCell(event)][UsersKey(e) := SetCell(UsersPrefix(e))], live[e := event])
  {
    hide EventKey, UsersKey, UserKey, ClubKey, UsersPrefix;
    EventKeyApart(e);
    UsersKeyApart(e);
  }

  lemma RemoveStands(ct: Contract, r: Registry, e: Uint64)
    requires Stands(ct, r)
    ensures Stands(ct.(storage := ct.storage - {EventKey(e)} - {UsersKey(e)}), r.(live := r.live - {e}))
  {
    hide EventKey, UsersKey, UserKey, ClubKey, UsersPrefix, EventsStand;
    EventKeyApart(e);
    UsersKeyApart(e);
    EventsRemoved(ct.storage, r.live, e);
  }

  lemma EventsRemoved(s: Storage, live: map<Uint64, Event>, e: Uint64)
    requires EventsStand(s, live)
    ensures EventsStand(s - {EventKey(e)} - {UsersKey(e)}, live - {e})
  {
    hide EventKey, UsersKey, UserKey, ClubKey, UsersPrefix;
    EventKeyApart(e);
    UsersKeyApart(e);
  }

  lemma ClubsStand(ct: Contract, r: Registry, club: AccountId)
    requires Stands(ct, r)
    ensures Stands(ct.(storage := ct.storage[ClubKey(club) := Mark]), r.(clubs := r.clubs + {club}))
    ensures Stands(ct.(storage := ct.storage - {ClubKey(club)}), r.(clubs := r.clubs - {club}))
  {
    hide EventKey, UsersKey, UserKey, ClubKey, UsersPrefix;
    ClubKeyApart(club);
  }

  lemma RegisterStands(ct: Contract, r: Registry, pred: AccountId, e: Uint64, account: AccountId)
    requires Stands(ct, r) && pred in r.clubs && e in r.live
    ensures var call := RegisterForAnEvent(pred, e, account);
            Execute(ct, call).Some? && Stands(Execute(ct, call).value, Meant(r, call).value)
  {
    hide EventKey, UsersKey, UserKey, ClubKey, UsersPrefix;
    UserKeyApart(e, account);
    RegisterWrites(ct, r, pred, e, account);
  }

  lemma RegisterWrites(ct: Contract, r: Registry, pred: AccountId, e: Uint64, account: AccountId)
    requires Stands(ct, r) && pred in r.clubs && e in r.live
    ensures Execute(ct, RegisterForAnEvent(pred, e, account))
         == Some(ct.(storage := ct.storage[UserKey(e, account) := Mark]))
  {
  }

  /** Each call does to the flat storage what is meant, and panics exactly when it should. */
  lemma CallRefines(ct: Contract, r: Registry, call: Call)
    requires Stands(ct, r)
    ensures Execute(ct, call).Some? <==> Meant(r, call).Some?
    ensures Execute(ct, call).Some? ==> Stands(Execute(ct, call).value, Meant(r, call).value)
  {
    hide EventKey, UsersKey, UserKey, ClubKey, UsersPrefix;
    match call
    case AddNewEvent(ts, title) =>
      if !(r.checked && r.next == U16_MAX) {
        AddStands(ct, r, ts, title);
      }
    case RemoveEvent(signer, e) =>
      RemoveStands(ct, r, e);
    case MakeEventOffline(signer, e) =>
    case AddPrivilegedClub(signer, club) =>
      ClubsStand(ct, r, club);
    case RemovePrivilegedClub(signer, club) =>
      ClubsStand(ct, r, club);
    case RegisterForAnEvent(pred, e, account) =>
      if pred in r.clubs && e in r.live {
        RegisterStands(ct, r, pred, e, account);
      }
    case SetOwner(signer, o) =>
  }

  // ----- whole runs -----

  function Init(checked: bool, owner: AccountId): Contract { Contract(checked, map[], owner, 1) }

  /** A call that panics leaves everything as it was. */
  function Run(ct0: Contract, calls: seq<Call>): Contract
  {
    if calls == [] then ct0
    else
      var n := |calls| - 1;
      var ct := Run(ct0, calls[..n]);
      var r := Execute(ct, calls[n]);
      if r.Some? then r.value else ct
  }

  function InitMeant(checked: bool, owner: AccountId): Registry { Registry(checked, map[], {}, {}, owner, 1) }

  function RunMeant(r0: Registry, calls: seq<Call>): Registry
  {
    if calls == [] then r0
    else
      var n := |calls| - 1;
      var r := RunMeant(r0, calls[..n]);
      var r' := Meant(r, calls[n]);
      if r'.Some? then r'.value else r
  }

  lemma {:induction false} RunStands(checked: bool, owner: AccountId, calls: seq<Call>)
    ensures Stands(Run(Init(checked, owner), calls), RunMeant(InitMeant(checked, owner), calls))
  {
    hide Stands, Execute, Meant;
    if calls == [] {
      InitStands(checked, owner);
    } else {
      var n := |calls| - 1;
      RunStands(checked, owner, calls[..n]);
      CallRefines(Run(Init(checked, owner), calls[..n]), RunMeant(InitMeant(checked, owner), calls[..n]), calls[n]);
    }
  }

  lemma InitStands(checked: bool, owner: AccountId)
    ensures Stands(Init(checked, owner), InitMeant(checked, owner))
  {
  }

  // ----- the history of a run of the registry -----

  /** Call k of the run took effect; on storage it does so in the same runs, by CallRefines. */
  predicate Effective(r0: Registry, calls: seq<Call>, k: nat)
    requires k < |calls|
  {
    Meant(RunMeant(r0, calls[..k]), calls[k]).Some?
  }

  /** Call k registered account a for event e. */
  predicate Registers(r0: Registry, calls: seq<Call>, k: nat, e: Uint64, a: AccountId)
    requires k < |calls|
  {
    calls[k].RegisterForAnEvent? && calls[k].event == e && calls[k].account == a && Effective(r0, calls, k)
  }

  predicate Removes(r0: Registry, calls: seq<Call>, k: nat, e: Uint64)
    requires k < |calls|
  {
    calls[k].RemoveEvent? && calls[k].event == e && Effective(r0, calls, k)
  }

  /** Call k gave out the id e. */
  predicate Creates(r0: Registry, calls: seq<Call>, k: nat, e: Uint64)
    requires k < |calls|
  {
    calls[k].AddNewEvent? && RunMeant(r0, calls[..k]).next == e && Effective(r0, calls, k)
  }

  ghost predicate NotRemovedSince(r0: Registry, calls: seq<Call>, k: nat, e: Uint64)
  {
    forall j :: k < j < |calls| ==> !Removes(r0, calls, j, e)
  }

  ghost predicate EverRegistered(r0: Registry, calls: seq<Call>, e: Uint64, a: AccountId)
  {
    exists k :: 0 <= k < |calls| && Registers(r0, calls, k, e, a)
  }

  ghost predicate ExistsInHistory(r0: Registry, calls: seq<Call>, e: Uint64)
  {
    exists k :: 0 <= k < |calls| && Creates(r0, calls, k, e) && NotRemovedSince(r0, calls, k, e)
  }

  ghost predicate RegisteredInHistory(r0: Registry, calls: seq<Call>, e: Uint64, a: AccountId)
  {
    exists k :: 0 <= k < |calls| && Registers(r0, calls, k, e, a) && NotRemovedSince(r0, calls, k, e)
  }

  /** What happened up to a call does not depend on what comes after it. */
  lemma SamePast(r0: Registry, calls: seq<Call>, k: nat, e: Uint64, a: AccountId)
    requires k + 1 < |calls|
    ensures var pre := calls[..|calls| - 1];
            && Registers(r0, pre, k, e, a) == Registers(r0, calls, k, e, a)
            && Removes(r0, pre, k, e) == Removes(r0, calls, k, e)
            && Creates(r0, pre, k, e) == Creates(r0, calls, k, e)
  {
    hide RunMeant, Meant;
    assert calls[..|calls| - 1][..k] == calls[..k];
  }

  lemma NotRemovedStep(r0: Registry, calls: seq<Call>, k: nat, e: Uint64)
    requires k + 1 < |calls|
    ensures var n := |calls| - 1;
            NotRemovedSince(r0, calls, k, e) <==>
            NotRemovedSince(r0, calls[..n], k, e) && !Removes(r0, calls, n, e)
  {
    hide Removes;
    var n := |calls| - 1;
    forall j | k < j < n
      ensures Removes(r0, calls[..n], j, e) == Removes(r0, calls, j, e)
    {
      SamePast(r0, calls, j, e, ANYONE);
    }
  }

  lemma EverStep(r0: Registry, calls: seq<Call>, e: Uint64, a: AccountId)
    requires calls != []
    ensures var n := |calls| - 1;
            EverRegistered(r0, calls, e, a) <==> EverRegistered(r0, calls[..n], e, a) || Registers(r0, calls, n, e, a)
  {
    hide Registers;
    var n := |calls| - 1;
    forall k | 0 <= k < n
      ensures Registers(r0, calls[..n], k, e, a) == Registers(r0, calls, k, e, a)
    {
      SamePast(r0, calls, k, e, a);
    }
  }

  lemma ExistsStep(r0: Registry, calls: seq<Call>, e: Uint64)
    requires calls != []
    ensures var n := |calls| - 1;
            ExistsInHistory(r0, calls, e) <==>
            Creates(r0, calls, n, e) || (ExistsInHistory(r0, calls[..n], e) && !Removes(r0, calls, n, e))
  {
    hide Creates, NotRemovedSince, Removes;
    var n := |calls| - 1;
    forall k | 0 <= k < n
      ensures Creates(r0, calls[..n], k, e) == Creates(r0, calls, k, e)
      ensures NotRemovedSince(r0, calls, k, e) <==>
              NotRemovedSince(r0, calls[..n], k, e) && !Removes(r0, calls, n, e)
    {
      SamePast(r0, calls, k, e, ANYONE);
      NotRemovedStep(r0, calls, k, e);
    }
    NothingAfter(r0, calls, e);
    SomeCreated(r0, calls, e);
  }

  lemma NothingAfter(r0: Registry, calls: seq<Call>, e: Uint64)
    requires calls != []
    ensures NotRemovedSince(r0, calls, |calls| - 1, e)
  {
  }

  /** Splitting off the last call of the ones that could have created e. */
  lemma SomeCreated(r0: Registry, calls: seq<Call>, e: Uint64)
    requires calls != []
    ensures ExistsInHistory(r0, calls, e) <==>
            || (Creates(r0, calls, |calls| - 1, e) && NotRemovedSince(r0, calls, |calls| - 1, e))
            || exists k :: 0 <= k < |calls| - 1 && Creates(r0, calls, k, e) && NotRemovedSince(r0, calls, k, e)
  {
    hide Creates, NotRemovedSince;
  }

  /** What one call does to one event and one mark. */
  lemma MeantStep(r: Registry, call: Call, e: Uint64, a: AccountId)
    ensures var r' := Meant(r, call);
            r'.Some? ==>
              && (e in r'.value.live <==>
                  || (call.AddNewEvent? && r.next == e)
                  || (e in r.live && !(call.RemoveEvent? && call.event == e)))
              && ((e, a) in r'.value.marks <==>
                  (e, a) in r.marks || (call.RegisterForAnEvent? && call.event == e && call.account == a))
  {
  }

  /** The events that exist are those created and not removed since; marks are never taken back. */
  lemma {:induction false} StateFromHistory(r0: Registry, calls: seq<Call>, e: Uint64, a: AccountId)
    requires r0.live == map[] && r0.marks == {}
    ensures e in RunMeant(r0, calls).live <==> ExistsInHistory(r0, calls, e)
    ensures (e, a) in RunMeant(r0, calls).marks <==> EverRegistered(r0, calls, e, a)
  {
    hide Meant, ExistsInHistory, EverRegistered;
    if calls == [] {
      NoHistory(r0, e, a);
    } else {
      var n := |calls| - 1;
      StateFromHistory(r0, calls[..n], e, a);
      ExistsStep(r0, calls, e);
      EverStep(r0, calls, e, a);
      MeantStep(RunMeant(r0, calls[..n]), calls[n], e, a);
    }
  }

  lemma NoHistory(r0: Registry, e: Uint64, a: AccountId)
    ensures !ExistsInHistory(r0, [], e) && !EverRegistered(r0, [], e, a)
  {
  }

  /** check_user_registered holds exactly when the event exists and the account was ever registered
      under its id, in every run of either build. */
  lemma CheckIsHistory(checked: bool, owner: AccountId, calls: seq<Call>, e: Uint64, a: AccountId)
    ensures var r0 := InitMeant(checked, owner);
            CheckUserRegistered(Run(Init(checked, owner), calls), e, a) ==
            Some(ExistsInHistory(r0, calls, e) && EverRegistered(r0, calls, e, a))
  {
    hide ExistsInHistory, EverRegistered, CheckUserRegistered, Stands, Run, RunMeant;
    RunStands(checked, owner, calls);
    CheckAnswers(Run(Init(checked, owner), calls), RunMeant(InitMeant(checked, owner), calls), e, a);
    StateFromHistory(InitMeant(checked, owner), calls, e, a);
  }

  // ----- the stored events -----

  /** Call k is the last that gave out the id e, and the event was not removed since. */
  ghost predicate LastCreates(r0: Registry, calls: seq<Call>, k: nat, e: Uint64)
    requires k < |calls|
  {
    && Creates(r0, calls, k, e) && NotRemovedSince(r0, calls, k, e)
    && forall i :: k < i < |calls| ==> !Creates(r0, calls, i, e)
  }

  lemma {:induction false} LastCreation(r0: Registry, calls: seq<Call>, e: Uint64, k: nat) returns (i: nat)
    requires k < |calls| && Creates(r0, calls, k, e) && NotRemovedSince(r0, calls, k, e)
    ensures i < |calls| && LastCreates(r0, calls, i, e)
    decreases |calls| - k
  {
    hide Removes, Creates;
    i := k;
    if !LastCreates(r0, calls, k, e) {
      i :| k < i < |calls| && Creates(r0, calls, i, e);
      i := LastCreation(r0, calls, e, i);
    }
  }

  lemma LastCreatesStep(r0: Registry, calls: seq<Call>, k: nat, e: Uint64)
    requires k + 1 < |calls| && LastCreates(r0, calls, k, e)
    ensures var n := |calls| - 1;
            LastCreates(r0, calls[..n], k, e) && !Removes(r0, calls, n, e) && !Creates(r0, calls, n, e)
  {
    hide Removes, Creates, NotRemovedSince;
    var n := |calls| - 1;
    NotRemovedStep(r0, calls, k, e);
    SamePast(r0, calls, k, e, ANYONE);
    forall i | k < i < n
      ensures !Creates(r0, calls[..n], i, e)
    {
      SamePast(r0, calls, i, e, ANYONE);
    }
  }

  /** What one call does to a stored event. */
  lemma EventStep(r: Registry, call: Call, e: Uint64)
    ensures var r' := Meant(r, call);
            r'.Some? ==>
              if call.AddNewEvent? && r.next == e
              then e in r'.value.live && r'.value.live[e] == Event(call.timestamp, true, Some(call.title))
              else e in r.live && !(call.RemoveEvent? && call.event == e) ==>
                     e in r'.value.live && r'.value.live[e] == r.live[e]
  {
  }

  lemma {:induction false} EventFromHistory(r0: Registry, calls: seq<Call>, k: nat, e: Uint64)
    requires k < |calls| && LastCreates(r0, calls, k, e)
    ensures var r := RunMeant(r0, calls);
            e in r.live && r.live[e] == Event(calls[k].timestamp, true, Some(calls[k].title))
    decreases |calls|
  {
    hide Meant, LastCreates, NotRemovedSince;
    var n := |calls| - 1;
    EventStep(RunMeant(r0, calls[..n]), calls[n], e);
    if k < n {
      LastCreatesStep(r0, calls, k, e);
      EventFromHistory(r0, calls[..n], k, e);
    } else {
      LastCreatesNow(r0, calls, k, e);
    }
  }

  lemma LastCreatesNow(r0: Registry, calls: seq<Call>, k: nat, e: Uint64)
    requires k < |calls| && LastCreates(r0, calls, k, e)
    ensures Creates(r0, calls, k, e)
  {
  }

  /** In every run of either build, an event can be read exactly while it exists, and then it is live and
      has the time and title of the last call that created it. */
  lemma EventIsHistory(checked: bool, owner: AccountId, calls: seq<Call>, e: Uint64)
    ensures var r0, o := InitMeant(checked, owner), GetEvent(Run(Init(checked, owner), calls), e);
            && (o.Some? <==> ExistsInHistory(r0, calls, e))
            && (o.Some? ==> exists k :: 0 <= k < |calls| && LastCreates(r0, calls, k, e))
            && forall k :: 0 <= k < |calls| && LastCreates(r0, calls, k, e) ==>
                 o == Some(Event(calls[k].timestamp, true, Some(calls[k].title)))
  {
    hide Run, RunMeant, NotRemovedSince, Effective, Stands, GetEvent;
    var r0, ct := InitMeant(checked, owner), Run(Init(checked, owner), calls);
    RunStands(checked, owner, calls);
    EventAnswers(ct, RunMeant(r0, calls), e);
    StateFromHistory(r0, calls, e, ANYONE);
    if ExistsInHistory(r0, calls, e) {
      var k :| 0 <= k < |calls| && Creates(r0, calls, k, e) && NotRemovedSince(r0, calls, k, e);
      var i := LastCreation(r0, calls, e, k);
    }
    forall k | 0 <= k < |calls| && LastCreates(r0, calls, k, e)
      ensures GetEvent(ct, e) == Some(Event(calls[k].timestamp, true, Some(calls[k].title)))
    {
      EventFromHistory(r0, calls, k, e);
    }
  }

  lemma EventAnswers(ct: Contract, r: Registry, e: Uint64)
    requires Stands(ct, r)
    ensures GetEvent(ct, e) == if e in r.live then Some(r.live[e]) else None
  {
    hide EventKey, UsersKey, UserKey, ClubKey, UsersPrefix;
  }

  // ----- who may call what -----

  /** The owner after the calls: each owner may name the next. */
  function OwnerAfter(owner: AccountId, calls: seq<Call>): AccountId
  {
    if calls == [] then owner
    else
      var n := |calls| - 1;
      var before := OwnerAfter(owner, calls[..n]);
      if calls[n].SetOwner? && calls[n].signer == before then calls[n].newOwner else before
  }

  lemma {:induction false} OwnerFromHistory(r0: Registry, calls: seq<Call>)
    ensures RunMeant(r0, calls).owner == OwnerAfter(r0.owner, calls)
  {
    if calls != [] {
      OwnerFromHistory(r0, calls[..|calls| - 1]);
    }
  }

  predicate AddsClub(r0: Registry, calls: seq<Call>, k: nat, club: AccountId)
    requires k < |calls|
  {
    calls[k].AddPrivilegedClub? && calls[k].club == club && calls[k].signer == OwnerAfter(r0.owner, calls[..k])
  }

  predicate RemovesClub(r0: Registry, calls: seq<Call>, k: nat, club: AccountId)
    requires k < |calls|
  {
    calls[k].RemovePrivilegedClub? && calls[k].club == club && calls[k].signer == OwnerAfter(r0.owner, calls[..k])
  }

  /** The owner of the time added the club, and none has removed it since. */
  ghost predicate ClubInHistory(r0: Registry, calls: seq<Call>, club: AccountId)
  {
    exists k :: 0 <= k < |calls| && AddsClub(r0, calls, k, club)
                && forall j :: k < j < |calls| ==> !RemovesClub(r0, calls, j, club)
  }

  lemma ClubStep(r0: Registry, calls: seq<Call>, club: AccountId)
    requires calls != []
    ensures var n := |calls| - 1;
            ClubInHistory(r0, calls, club) <==>
            AddsClub(r0, calls, n, club) || (ClubInHistory(r0, calls[..n], club) && !RemovesClub(r0, calls, n, club))
  {
    hide AddsClub, RemovesClub;
    var n := |calls| - 1;
    var pre := calls[..n];
    forall k | 0 <= k < n
      ensures AddsClub(r0, pre, k, club) == AddsClub(r0, calls, k, club)
      ensures RemovesClub(r0, pre, k, club) == RemovesClub(r0, calls, k, club)
    {
      SameClubPast(r0, calls, k, club);
    }
    if ClubInHistory(r0, pre, club) && !RemovesClub(r0, calls, n, club) {
      var k :| 0 <= k < n && AddsClub(r0, pre, k, club) && forall j :: k < j < n ==> !RemovesClub(r0, pre, j, club);
      assert AddsClub(r0, calls, k, club);
    }
  }

  lemma SameClubPast(r0: Registry, calls: seq<Call>, k: nat, club: AccountId)
    requires k + 1 < |calls|
    ensures var pre := calls[..|calls| - 1];
            && AddsClub(r0, pre, k, club) == AddsClub(r0, calls, k, club)
            && RemovesClub(r0, pre, k, club) == RemovesClub(r0, calls, k, club)
  {
    hide OwnerAfter;
    assert calls[..|calls| - 1][..k] == calls[..k];
  }

  lemma {:induction false} ClubsFromHistory(r0: Registry, calls: seq<Call>, club: AccountId)
    requires r0.clubs == {}
    ensures club in RunMeant(r0, calls).clubs <==> ClubInHistory(r0, calls, club)
  {
    hide ClubInHistory, OwnerAfter;
    if calls == [] {
      NoClubs(r0, club);
    } else {
      var n := |calls| - 1;
      ClubsFromHistory(r0, calls[..n], club);
      ClubStep(r0, calls, club);
      OwnerFromHistory(r0, calls[..n]);
    }
  }

  lemma NoClubs(r0: Registry, club: AccountId)
    ensures !ClubInHistory(r0, [], club)
  {
  }

  /** What a call after the given ones needs. */
  ghost predicate Allowed(checked: bool, owner: AccountId, calls: seq<Call>, call: Call)
  {
    var r0 := InitMeant(checked, owner);
    match call
    case AddNewEvent(_, _) => !checked || Added(r0, calls) < 65534
    case RemoveEvent(signer, _) => signer == OwnerAfter(owner, calls)
    case MakeEventOffline(signer, e) => signer == OwnerAfter(owner, calls) && ExistsInHistory(r0, calls, e)
    case AddPrivilegedClub(signer, _) => signer == OwnerAfter(owner, calls)
    case RemovePrivilegedClub(signer, _) => signer == OwnerAfter(owner, calls)
    case RegisterForAnEvent(pred, e, _) => ClubInHistory(r0, calls, pred) && ExistsInHistory(r0, calls, e)
    case SetOwner(signer, _) => signer == OwnerAfter(owner, calls)
  }

  /** A call takes effect exactly if the history allows it: owners act for the contract, clubs that are
      still privileged register accounts, and only for events that exist. */
  lemma AllowedIff(checked: bool, owner: AccountId, calls: seq<Call>, call: Call)
    ensures Execute(Run(Init(checked, owner), calls), call).Some? <==> Allowed(checked, owner, calls, call)
  {
    hide Stands, Run, RunMeant, Execute, ExistsInHistory, ClubInHistory, OwnerAfter, Added;
    var r0 := InitMeant(checked, owner);
    var r := RunMeant(r0, calls);
    RunStands(checked, owner, calls);
    CallRefines(Run(Init(checked, owner), calls), r, call);
    OwnerFromHistory(r0, calls);
    NextFromCount(checked, owner, calls);
    match call
    case MakeEventOffline(_, e) => StateFromHistory(r0, calls, e, ANYONE);
    case RegisterForAnEvent(pred, e, _) =>
      StateFromHistory(r0, calls, e, ANYONE);
      ClubsFromHistory(r0, calls, pred);
    case _ =>
  }

  // ----- when that means "registered and not removed since" -----

  /** After its last removal, the event's id was given out again, and the account has registered
      before that removal but not after it. */
  ghost predicate ComesBack(r0: Registry, calls: seq<Call>, e: Uint64, a: AccountId)
  {
    exists j ::
      && 0 <= j < |calls| && Removes(r0, calls, j, e) && NotRemovedSince(r0, calls, j, e)
      && (exists i :: j < i < |calls| && Creates(r0, calls, i, e))
      && (exists k :: 0 <= k < j && Registers(r0, calls, k, e, a))
      && forall k :: j < k < |calls| ==> !Registers(r0, calls, k, e, a)
  }

  lemma {:induction false} LastRemoval(r0: Registry, calls: seq<Call>, e: Uint64, k: nat) returns (j: nat)
    requires k < |calls| && !NotRemovedSince(r0, calls, k, e)
    ensures k < j < |calls| && Removes(r0, calls, j, e) && NotRemovedSince(r0, calls, j, e)
    decreases |calls| - k
  {
    hide Removes;
    j :| k < j < |calls| && Removes(r0, calls, j, e);
    if !NotRemovedSince(r0, calls, j, e) {
      j := LastRemoval(r0, calls, e, j);
    }
  }

  lemma {:induction false} RegisteredExists(r0: Registry, calls: seq<Call>, e: Uint64, a: AccountId)
    requires r0.live == map[] && r0.marks == {} && RegisteredInHistory(r0, calls, e, a)
    ensures ExistsInHistory(r0, calls, e) && EverRegistered(r0, calls, e, a)
  {
    hide Removes, Creates, NotRemovedSince, Registers;
    var k :| 0 <= k < |calls| && Registers(r0, calls, k, e, a) && NotRemovedSince(r0, calls, k, e);
    RegisteredLater(r0, calls, e, a, k);
  }

  /** A registration shows that the event existed, and it exists until it is removed. */
  lemma {:induction false} RegisteredLater(r0: Registry, calls: seq<Call>, e: Uint64, a: AccountId, k: nat)
    requires r0.live == map[] && r0.marks == {} && k < |calls|
    requires Registers(r0, calls, k, e, a) && NotRemovedSince(r0, calls, k, e)
    ensures ExistsInHistory(r0, calls, e)
    decreases |calls|
  {
    hide Meant, RunMeant, ExistsInHistory, NotRemovedSince, Effective;
    var n := |calls| - 1;
    ExistsStep(r0, calls, e);
    if k == n {
      RegistersLive(r0, calls, k, e, a);
      StateFromHistory(r0, calls[..n], e, a);
    } else {
      SamePast(r0, calls, k, e, a);
      NotRemovedStep(r0, calls, k, e);
      RegisteredLater(r0, calls[..n], e, a, k);
    }
  }

  lemma RegistersLive(r0: Registry, calls: seq<Call>, k: nat, e: Uint64, a: AccountId)
    requires k < |calls| && Registers(r0, calls, k, e, a)
    ensures e in RunMeant(r0, calls[..k]).live && !Removes(r0, calls, k, e)
  {
    hide RunMeant;
  }

  lemma BackIsNotHistory(r0: Registry, calls: seq<Call>, e: Uint64, a: AccountId)
    requires ComesBack(r0, calls, e, a)
    ensures ExistsInHistory(r0, calls, e) && EverRegistered(r0, calls, e, a) && !RegisteredInHistory(r0, calls, e, a)
  {
    hide Removes, Creates, Registers;
    var j :| 0 <= j < |calls| && Removes(r0, calls, j, e) && NotRemovedSince(r0, calls, j, e)
             && (exists i :: j < i < |calls| && Creates(r0, calls, i, e))
             && (exists k :: 0 <= k < j && Registers(r0, calls, k, e, a))
             && forall k :: j < k < |calls| ==> !Registers(r0, calls, k, e, a);
    var i :| j < i < |calls| && Creates(r0, calls, i, e);
    assert NotRemovedSince(r0, calls, i, e);
    if RegisteredInHistory(r0, calls, e, a) {
      var k :| 0 <= k < |calls| && Registers(r0, calls, k, e, a) && NotRemovedSince(r0, calls, k, e);
      NotBoth(r0, calls, j, e, a);
      assert false;
    }
  }

  lemma NotBoth(r0: Registry, calls: seq<Call>, k: nat, e: Uint64, a: AccountId)
    requires k < |calls|
    ensures !(Registers(r0, calls, k, e, a) && Removes(r0, calls, k, e))
    ensures !(Creates(r0, calls, k, e) && Removes(r0, calls, k, e))
  {
  }

  lemma LostIsBack(r0: Registry, calls: seq<Call>, e: Uint64, a: AccountId)
    requires ExistsInHistory(r0, calls, e) && EverRegistered(r0, calls, e, a) && !RegisteredInHistory(r0, calls, e, a)
    ensures ComesBack(r0, calls, e, a)
  {
    hide Removes, Creates, Registers;
    var i :| 0 <= i < |calls| && Creates(r0, calls, i, e) && NotRemovedSince(r0, calls, i, e);
    var k :| 0 <= k < |calls| && Registers(r0, calls, k, e, a);
    var j := LastRemoval(r0, calls, e, k);
    NotBoth(r0, calls, j, e, a);
    assert i > j;
    forall k' | j < k' < |calls|
      ensures !Registers(r0, calls, k', e, a)
    {
      if Registers(r0, calls, k', e, a) {
        assert false;
      }
    }
  }

  /** The query means "registered and the event not removed since" exactly when no removed event of
      the account's has come back under its id. */
  lemma MeansRegisteredIff(checked: bool, owner: AccountId, calls: seq<Call>, e: Uint64, a: AccountId)
    ensures var r0 := InitMeant(checked, owner);
            ComesBack(r0, calls, e, a) <==>
            CheckUserRegistered(Run(Init(checked, owner), calls), e, a) != Some(RegisteredInHistory(r0, calls, e, a))
  {
    hide ExistsInHistory, EverRegistered, RegisteredInHistory, ComesBack, CheckUserRegistered, Run;
    var r0 := InitMeant(checked, owner);
    CheckIsHistory(checked, owner, calls, e, a);
    if ComesBack(r0, calls, e, a) {
      BackIsNotHistory(r0, calls, e, a);
    } else if RegisteredInHistory(r0, calls, e, a) {
      RegisteredExists(r0, calls, e, a);
    } else if ExistsInHistory(r0, calls, e) && EverRegistered(r0, calls, e, a) {
      LostIsBack(r0, calls, e, a);
      assert false;
    }
  }

  // ----- ids given out once -----

  /** How many events were added. */
  function Added(r0: Registry, calls: seq<Call>): nat
  {
    if calls == [] then 0
    else
      var n := |calls| - 1;
      Added(r0, calls[..n]) + if calls[n].AddNewEvent? && Effective(r0, calls, n) then 1 else 0
  }

  lemma {:induction false} NextFromCount(checked: bool, owner: AccountId, calls: seq<Call>)
    ensures var r0 := InitMeant(checked, owner);
            var r := RunMeant(r0, calls);
            && r.checked == checked && r.next == (1 + Added(r0, calls)) % 0x1_0000
            && (checked ==> Added(r0, calls) < U16_MAX)
  {
    if calls != [] {
      NextFromCount(checked, owner, calls[..|calls| - 1]);
    }
  }

  lemma {:induction false} AddedGrows(r0: Registry, calls: seq<Call>, k: nat, k': nat)
    requires k <= k' <= |calls|
    ensures Added(r0, calls[..k]) <= Added(r0, calls[..k']) <= Added(r0, calls)
    ensures k < k' && calls[k].AddNewEvent? && Effective(r0, calls, k) ==>
              Added(r0, calls[..k]) < Added(r0, calls[..k'])
    decreases |calls|, k'
  {
    hide Meant, RunMeant;
    if k' < |calls| {
      var pre := calls[..|calls| - 1];
      AddedGrows(r0, pre, k, k');
      assert pre[..k] == calls[..k] && pre[..k'] == calls[..k'];
    } else {
      assert calls[..k'] == calls;
      if k < k' {
        var n := |calls| - 1;
        AddedGrows(r0, calls, k, n);
        assert calls[..n][..k] == calls[..k];
        AddedStep(r0, calls);
      }
    }
  }

  lemma AddedStep(r0: Registry, calls: seq<Call>)
    requires calls != []
    ensures var n := |calls| - 1;
            Added(r0, calls) ==
            Added(r0, calls[..n]) + if calls[n].AddNewEvent? && Effective(r0, calls, n) then 1 else 0
  {
  }

  /** Up to 65536 events, no id is given out twice; a checked build never gets beyond that. */
  lemma IdsOnce(checked: bool, owner: AccountId, calls: seq<Call>, i: nat, i': nat, e: Uint64)
    requires i < i' < |calls| && (checked || Added(InitMeant(checked, owner), calls) <= 0x1_0000)
    ensures var r0 := InitMeant(checked, owner);
            !(Creates(r0, calls, i, e) && Creates(r0, calls, i', e))
  {
    hide RunMeant, Added, Meant;
    var r0 := InitMeant(checked, owner);
    if Creates(r0, calls, i, e) && Creates(r0, calls, i', e) {
      assert calls[..|calls|] == calls;
      NextFromCount(checked, owner, calls[..i]);
      NextFromCount(checked, owner, calls[..i']);
      NextFromCount(checked, owner, calls);
      AddedGrows(r0, calls, i, i');
      AddedGrows(r0, calls, i', |calls|);
      assert false;
    }
  }

  /** So in a checked build, and up to 65536 events in any build, the query means "registered and the
      event not removed since". */
  lemma MeansRegistered(checked: bool, owner: AccountId, calls: seq<Call>, e: Uint64, a: AccountId)
    requires checked || Added(InitMeant(checked, owner), calls) <= 0x1_0000
    ensures var r0 := InitMeant(checked, owner);
            CheckUserRegistered(Run(Init(checked, owner), calls), e, a) == Some(RegisteredInHistory(r0, calls, e, a))
  {
    hide CheckUserRegistered, Run, RegisteredInHistory, Registers, Removes, Creates, RunMeant, Added;
    var r0 := InitMeant(checked, owner);
    MeansRegisteredIff(checked, owner, calls, e, a);
    if ComesBack(r0, calls, e, a) {
      var j :| 0 <= j < |calls| && Removes(r0, calls, j, e) && NotRemovedSince(r0, calls, j, e)
               && (exists i :: j < i < |calls| && Creates(r0, calls, i, e))
               && (exists k :: 0 <= k < j && Registers(r0, calls, k, e, a));
      var i :| j < i < |calls| && Creates(r0, calls, i, e);
      var k :| 0 <= k < j && Registers(r0, calls, k, e, a);
      var i0 := CreatedBefore(r0, calls, k, e, a);
      IdsOnce(checked, owner, calls, i0, i, e);
      assert false;
    }
  }

  lemma CreatedBefore(r0: Registry, calls: seq<Call>, k: nat, e: Uint64, a: AccountId) returns (i: nat)
    requires r0.live == map[] && r0.marks == {} && k < |calls| && Registers(r0, calls, k, e, a)
    ensures i < k && Creates(r0, calls, i, e)
  {
    hide RunMeant, Meant;
    RegistersLive(r0, calls, k, e, a);
    StateFromHistory(r0, calls[..k], e, a);
    i :| 0 <= i < |calls[..k]| && Creates(r0, calls[..k], i, e) && NotRemovedSince(r0, calls[..k], i, e);
    assert calls[..k][..i] == calls[..i];
  }

  // ----- a removed event that comes back -----

  /** A club registers an account for the first event, the owner removes it, and 65536 events follow. */
  function Adds(n: nat): seq<Call> { seq(n, _ => AddNewEvent(0, [])) }

  function Comeback(owner: AccountId, a: AccountId): seq<Call>
  {
    [AddPrivilegedClub(owner, owner), AddNewEvent(0, []), RegisterForAnEvent(owner, 1, a), RemoveEvent(owner, 1)]
  }

  const FIRST := Event(0, true, Some([]))

  lemma ComebackStart(owner: AccountId, a: AccountId)
    ensures RunMeant(InitMeant(false, owner), Comeback(owner, a)) ==
            Registry(false, map[], {(1, a)}, {owner}, owner, 2)
  {
    hide Meant;
    var r0, calls := InitMeant(false, owner), Comeback(owner, a);
    var c1, c2, c3 := calls[..1], calls[..2], calls[..3];
    assert c1[..0] == [] && c2[..1] == c1 && c3[..2] == c2 && calls[..3] == c3;
    FirstCalls(owner, a);
    assert RunMeant(r0, c1) == Registry(false, map[], {}, {owner}, owner, 1);
    assert RunMeant(r0, c2) == Registry(false, map[1 := FIRST], {}, {owner}, owner, 2);
    assert RunMeant(r0, c3) == Registry(false, map[1 := FIRST], {(1, a)}, {owner}, owner, 2);
  }

  lemma FirstCalls(owner: AccountId, a: AccountId)
    ensures Meant(InitMeant(false, owner), AddPrivilegedClub(owner, owner)) ==
            Some(Registry(false, map[], {}, {owner}, owner, 1))
    ensures Meant(Registry(false, map[], {}, {owner}, owner, 1), AddNewEvent(0, [])) ==
            Some(Registry(false, map[1 := FIRST], {}, {owner}, owner, 2))
    ensures Meant(Registry(false, map[1 := FIRST], {}, {owner}, owner, 2), RegisterForAnEvent(owner, 1, a)) ==
            Some(Registry(false, map[1 := FIRST], {(1, a)}, {owner}, owner, 2))
    ensures Meant(Registry(false, map[1 := FIRST], {(1, a)}, {owner}, owner, 2), RemoveEvent(owner, 1)) ==
            Some(Registry(false, map[], {(1, a)}, {owner}, owner, 2))
  {
    var none: set<AccountId>, unmarked: set<(Uint64, AccountId)>, gone: map<Uint64, Event> := {}, {}, map[];
    assert none + {owner} == {owner} && unmarked + {(1, a)} == {(1, a)};
    assert map[1 := FIRST] - {1} == gone;
  }

  lemma {:induction false} AddsRun(r0: Registry, calls: seq<Call>, n: nat)
    requires !RunMeant(r0, calls).checked
    ensures var r, r' := RunMeant(r0, calls), RunMeant(r0, calls + Adds(n));
            && !r'.checked && r'.next == (r.next + n) % 0x1_0000 && r'.marks == r.marks
            && (n > 0 ==> (r.next + n - 1) % 0x1_0000 in r'.live)
  {
    hide Meant, RunMeant;
    if n == 0 {
      assert calls + Adds(0) == calls;
    } else {
      AddsRun(r0, calls, n - 1);
      AddsLast(r0, calls, n);
      AddMeant(RunMeant(r0, calls + Adds(n - 1)));
    }
  }

  lemma AddsLast(r0: Registry, calls: seq<Call>, n: nat)
    requires n > 0
    ensures var r, o := RunMeant(r0, calls + Adds(n - 1)), Meant(RunMeant(r0, calls + Adds(n - 1)), AddNewEvent(0, []));
            RunMeant(r0, calls + Adds(n)) == if o.Some? then o.value else r
  {
    hide Meant;
    var all := calls + Adds(n);
    assert all[..|all| - 1] == calls + Adds(n - 1) && all[|all| - 1] == AddNewEvent(0, []);
  }

  lemma AddMeant(r: Registry)
    requires !r.checked
    ensures var o := Meant(r, AddNewEvent(0, []));
            && o.Some? && !o.value.checked && o.value.next == (r.next + 1) % 0x1_0000
            && r.next in o.value.live && o.value.marks == r.marks
  {
  }

  /** Without overflow checks: the query says registered for an event that is not the one the account
      registered for. */
  lemma RemovedComesBack(owner: AccountId, a: AccountId)
    ensures var r0, calls := InitMeant(false, owner), Comeback(owner, a) + Adds(0x1_0000);
            && CheckUserRegistered(Run(Init(false, owner), calls), 1, a) == Some(true)
            && !RegisteredInHistory(r0, calls, 1, a)
  {
    hide RunMeant, Run, CheckUserRegistered, Stands, Registers, Removes, Adds;
    var r0, calls := InitMeant(false, owner), Comeback(owner, a) + Adds(0x1_0000);
    ComebackStart(owner, a);
    AddsRun(r0, Comeback(owner, a), 0x1_0000);
    RunStands(false, owner, calls);
    CheckAnswers(Run(Init(false, owner), calls), RunMeant(r0, calls), 1, a);
    OnlyThen(owner, a);
  }

  lemma OnlyThen(owner: AccountId, a: AccountId)
    ensures var r0, calls := InitMeant(false, owner), Comeback(owner, a) + Adds(0x1_0000);
            !RegisteredInHistory(r0, calls, 1, a)
  {
    hide RunMeant;
    var r0, calls := InitMeant(false, owner), Comeback(owner, a) + Adds(0x1_0000);
    assert calls[..3] == Comeback(owner, a)[..3] && calls[3] == RemoveEvent(owner, 1);
    RemovalTakesEffect(owner, a);
    assert Removes(r0, calls, 3, 1);
  }

  lemma RemovalTakesEffect(owner: AccountId, a: AccountId)
    ensures Effective(InitMeant(false, owner), Comeback(owner, a), 3)
  {
    hide Meant;
    var r0, calls := InitMeant(false, owner), Comeback(owner, a);
    var c1, c2, c3 := calls[..1], calls[..2], calls[..3];
    assert c1[..0] == [] && c2[..1] == c1 && c3[..2] == c2 && calls[..3] == c3;
    FirstCalls(owner, a);
    assert RunMeant(r0, c1) == Registry(false, map[], {}, {owner}, owner, 1);
    assert RunMeant(r0, c2) == Registry(false, map[1 := FIRST], {}, {owner}, owner, 2);
  }

  // ----- the contract's methods -----

  class AssociatedContract {
    const checked: bool
    var storage: Storage
    var owner: AccountId
    var nextEventIdx: Uint16

    function Contents(): Contract
      reads this
    {
      Contract(checked, storage, owner, nextEventIdx)
    }

    constructor (checked: bool, ownerId: AccountId)
      ensures Contents() == Init(checked, ownerId)
    {
      this.checked := checked;
      storage, owner, nextEventIdx := map[], ownerId, 1;
    }

    /** The id of the new event; None where the increment is checked, overflows, and the call reverts. */
    method AddEvent(timestamp: Uint64, title: Bytes) returns (id: Option<nat>)
      modifies this
      ensures var r := Execute(old(Contents()), AddNewEvent(timestamp, title));
              if r.Some? then id == Some(old(nextEventIdx)) && Contents() == r.value
              else id == None && Contents() == old(Contents())
    {
      hide EventKey, UsersKey, UsersPrefix;
      var saved := storage;
      storage := storage[EventKey(nextEventIdx) := EventCell(Event(timestamp, true, Some(title)))];
      storage := storage[UsersKey(nextEventIdx) := SetCell(UsersPrefix(nextEventIdx))];
      var created := nextEventIdx;
      if checked && nextEventIdx + 1 > U16_MAX {
        storage := saved;
        return None;
      }
      nextEventIdx := (nextEventIdx + 1) % 0x1_0000;
      return Some(created);
    }

    method Remove(signer: AccountId, eventId: Uint64) returns (ok: bool)
      modifies this
      ensures var r := Execute(old(Contents()), RemoveEvent(signer, eventId));
              ok == r.Some? && Contents() == if ok then r.value else old(Contents())
    {
      if signer != owner {
        return false;
      }
      storage := storage - {EventKey(eventId)};
      storage := storage - {UsersKey(eventId)};
      return true;
    }

    /** Clears the flag on a copy of the event; the stored event keeps it. */
    method TakeOffline(signer: AccountId, eventId: Uint64) returns (ok: bool)
      modifies this
      ensures var r := Execute(old(Contents()), MakeEventOffline(signer, eventId));
              ok == r.Some? && Contents() == old(Contents())
    {
      return signer == owner && EventKey(eventId) in storage;
    }

    method AddClub(signer: AccountId, club: AccountId) returns (ok: bool)
      modifies this
      ensures var r := Execute(old(Contents()), AddPrivilegedClub(signer, club));
              ok == r.Some? && Contents() == if ok then r.value else old(Contents())
    {
      if signer != owner {
        return false;
      }
      storage := storage[ClubKey(club) := Mark];
      return true;
    }

    method RemoveClub(signer: AccountId, club: AccountId) returns (ok: bool)
      modifies this
      ensures var r := Execute(old(Contents()), RemovePrivilegedClub(signer, club));
              ok == r.Some? && Contents() == if ok then r.value else old(Contents())
    {
      if signer != owner {
        return false;
      }
      storage := storage - {ClubKey(club)};
      return true;
    }

    method Register(predecessor: AccountId, eventId: Uint64, account: AccountId) returns (ok: bool)
      modifies this
      ensures var r := Execute(old(Contents()), RegisterForAnEvent(predecessor, eventId, account));
              ok == r.Some? && Contents() == if ok then r.value else old(Contents())
    {
      if ClubKey(predecessor) !in storage {
        return false;
      }
      if EventKey(eventId) !in storage {
        return false;
      }
      var cell := storage[EventKey(eventId)];
      if !cell.EventCell? || !cell.event.isLive {
        return false;
      }
      if UsersKey(eventId) !in storage || !storage[UsersKey(eventId)].SetCell? {
        return false;
      }
      storage := storage[MemberKey(storage[UsersKey(eventId)].prefix, account) := Mark];
      return true;
    }

    method ReadEvent(eventId: Uint64) returns (r: Option<Event>)
      ensures r == GetEvent(Contents(), eventId)
    {
      if EventKey(eventId) !in storage {
        return None;
      }
      var cell := storage[EventKey(eventId)];
      r := if cell.EventCell? then Some(cell.event) else None;
    }

    method IsRegistered(eventId: Uint64, account: AccountId) returns (r: Option<bool>)
      ensures r == CheckUserRegistered(Contents(), eventId, account)
    {
      if EventKey(eventId) !in storage {
        return Some(false);
      }
      if UsersKey(eventId) !in storage || !storage[UsersKey(eventId)].SetCell? {
        return None;
      }
      return Some(MemberKey(storage[UsersKey(eventId)].prefix, account) in storage);
    }
  }
}
