/** The factory's pair registry: keys of unordered asset pairs and the paged walk over them. */
module Pairs {
  import opened Words
  import opened ByteOrder

  const MAX_LIMIT := 30
  const DEFAULT_LIMIT := 10

  /** The bytes of an asset's denomination or contract address. */
  type AssetInfo = Bytes

  function PairKey(a: AssetInfo, b: AssetInfo): Bytes
  {
    if Less(b, a) then b + a else a + b
  }

  /** The key does not depend on the order in which the assets are given: the lesser one comes first. */
  lemma PairKeySymmetric(a: AssetInfo, b: AssetInfo)
    ensures PairKey(a, b) == PairKey(b, a)
    ensures Less(a, b) ==> PairKey(b, a) == a + b
    ensures a == b ==> PairKey(a, b) == a + a
  {
    Trichotomy(a, b);
  }

  /** The two assets in the order in which the key holds them. */
  function InOrder(a: AssetInfo, b: AssetInfo): (AssetInfo, AssetInfo)
  {
    if Less(b, a) then (b, a) else (a, b)
  }

  /** The key has no delimiter: two unordered pairs share it exactly if they are the same pair, or a
      stretch w of bytes at the seam belongs to the second asset of one and the first of the other. */
  lemma KeysCollideIff(a: AssetInfo, b: AssetInfo, c: AssetInfo, d: AssetInfo)
    ensures PairKey(a, b) == PairKey(c, d) <==>
            var (p, q) := (InOrder(a, b), InOrder(c, d));
            || p == q
            || (exists w: Bytes :: w != [] && q.0 == p.0 + w && p.1 == w + q.1)
            || (exists w: Bytes :: w != [] && p.0 == q.0 + w && q.1 == w + p.1)
  {
    hide Less;
    var (p, q) := (InOrder(a, b), InOrder(c, d));
    if PairKey(a, b) == PairKey(c, d) {
      if |p.0| <= |q.0| {
        SeamMoves(p.0, p.1, q.0, q.1);
      } else {
        SeamMoves(q.0, q.1, p.0, p.1);
      }
    } else {
      forall w: Bytes
        ensures !(q.0 == p.0 + w && p.1 == w + q.1) && !(p.0 == q.0 + w && q.1 == w + p.1)
      {
        assert (p.0 + w) + q.1 == p.0 + (w + q.1) && (q.0 + w) + p.1 == q.0 + (w + p.1);
      }
    }
  }

  lemma SeamMoves(x: Bytes, y: Bytes, u: Bytes, v: Bytes)
    requires x + y == u + v && |x| <= |u|
    ensures (x == u && y == v) || exists w: Bytes :: w != [] && u == x + w && y == w + v
  {
    var w := u[|x|..];
    assert (x + y)[..|x|] == x && (u + v)[..|x|] == u[..|x|];
    assert (x + y)[|x|..] == y && (u + v)[|x|..] == w + v;
    assert u == x + w;
  }

  /** "a" with "bc" and "ab" with "c" are different pairs under one key. */
  lemma KeysCollide()
    ensures PairKey([97], [98, 99]) == PairKey([97, 98], [99])
  {
    assert [97] + [98, 99] == [97, 98] + [99];
  }

  /** The exclusive lower bound for the next page: the pair's key and a byte 1. */
  function RangeStart(after: Option<(AssetInfo, AssetInfo)>): Option<Bytes>
  {
    if after == None then None else Some(PairKey(after.value.0, after.value.1) + [1])
  }

  function EffectiveLimit(limit: Option<nat>): nat
  {
    var n := if limit == None then DEFAULT_LIMIT else limit.value;
    if n < MAX_LIMIT then n else MAX_LIMIT
  }

  /** Keys strictly above the bound, in the order given. */
  function Above(keys: seq<Bytes>, bound: Option<Bytes>): seq<Bytes>
  {
    if keys == [] then []
    else if bound == None || Less(bound.value, keys[0]) then [keys[0]] + Above(keys[1..], bound)
    else Above(keys[1..], bound)
  }

  function Take(s: seq<Bytes>, n: nat): (r: seq<Bytes>)
    ensures r <= s
  {
    if |s| <= n then s else s[..n]
  }

  /** The keys of the page that read_pairs returns for a registry with these keys, in order. */
  function PageKeys(keys: seq<Bytes>, start: Option<Bytes>, limit: Option<nat>): seq<Bytes>
  {
    Take(Above(keys, start), EffectiveLimit(limit))
  }

  /** read_pairs: the addresses stored under those keys. */
  ghost function ReadPairs<Addr>(pairs: map<Bytes, Addr>, after: Option<(AssetInfo, AssetInfo)>, limit: Option<nat>):
    (r: seq<Addr>)
    ensures |r| == |PageKeys(Sorted(pairs.Keys), RangeStart(after), limit)| <= 30
    ensures limit == None ==> |r| <= 10
    ensures forall i :: 0 <= i < |r| ==>
              var k := PageKeys(Sorted(pairs.Keys), RangeStart(after), limit)[i]; k in pairs && r[i] == pairs[k]
  {
    var page := PageKeys(Sorted(pairs.Keys), RangeStart(after), limit);
    PageFrom(Sorted(pairs.Keys), RangeStart(after), limit);
    seq(|page|, i requires 0 <= i < |page| => assert page[i] in pairs.Keys; pairs[page[i]])
  }

  function Least(x: nat, y: nat, z: nat): (r: nat)
    ensures r <= x && r <= y && r <= z && (r == x || r == y || r == z)
  {
    if x <= y && x <= z then x else if y <= z then y else z
  }

  /** The registered keys above the bound. */
  ghost function KeysAbove(S: set<Bytes>, bound: Option<Bytes>): set<Bytes>
  {
    set k | k in S && (bound == None || Less(bound.value, k))
  }

  lemma {:induction false} AboveAscends(keys: seq<Bytes>, bound: Option<Bytes>)
    requires Ascending(keys)
    ensures Ascending(Above(keys, bound))
    ensures forall k :: k in Above(keys, bound) <==> k in keys && (bound == None || Less(bound.value, k))
  {
    hide Less;
    if keys != [] {
      AboveAscends(keys[1..], bound);
      assert keys == [keys[0]] + keys[1..];
      forall k | k in Above(keys[1..], bound)
        ensures Less(keys[0], k)
      {
        var i :| 0 <= i < |keys[1..]| && keys[1..][i] == k;
        assert Less(keys[0], keys[i + 1]);
      }
      LeastFirst(keys[0], Above(keys[1..], bound));
    }
  }

  lemma LeastFirst(k: Bytes, rest: seq<Bytes>)
    requires Ascending(rest) && forall k' :: k' in rest ==> Less(k, k')
    ensures Ascending([k] + rest)
  {
    hide Less;
    forall i, j | 0 <= i < j < |[k] + rest|
      ensures Less(([k] + rest)[i], ([k] + rest)[j])
    {
      assert ([k] + rest)[j] == rest[j - 1] && rest[j - 1] in rest;
    }
  }

  lemma AboveSorted(S: set<Bytes>, bound: Option<Bytes>)
    ensures Above(Sorted(S), bound) == Sorted(KeysAbove(S, bound))
  {
    hide Less, Sorted, Above;
    AboveAscends(Sorted(S), bound);
    EnumerationUnique(Above(Sorted(S), bound), Sorted(KeysAbove(S, bound)), KeysAbove(S, bound));
  }

  /** The page is the first of the keys above the bound: 30, as many as asked for, or all of them. */
  lemma PageExact(S: set<Bytes>, start: Option<Bytes>, limit: Option<nat>)
    ensures var above, page := KeysAbove(S, start), PageKeys(Sorted(S), start, limit);
            && page <= Sorted(above) && |Sorted(above)| == |above|
            && |page| == Least(30, if limit == None then 10 else limit.value, |above|)
  {
    hide Less, Sorted, Above, KeysAbove;
    AboveSorted(S, start);
    EnumerationSize(Sorted(KeysAbove(S, start)), KeysAbove(S, start));
  }

  /** read_pairs returns the addresses of the first registered keys above the bound, in order: 30, as
      many as asked for, 10 if nothing was, or all of them, whichever is least. */
  lemma ReadPairsExact<Addr>(pairs: map<Bytes, Addr>, after: Option<(AssetInfo, AssetInfo)>, limit: Option<nat>)
    ensures var above, r := KeysAbove(pairs.Keys, RangeStart(after)), ReadPairs(pairs, after, limit);
            && |r| == Least(30, if limit == None then 10 else limit.value, |above|)
            && |r| <= |Sorted(above)| && (forall k :: k in Sorted(above) ==> k in pairs)
            && forall i :: 0 <= i < |r| ==> r[i] == pairs[Sorted(above)[i]]
  {
    hide Less, Sorted, PageKeys, ReadPairs, RangeStart;
    PageExact(pairs.Keys, RangeStart(after), limit);
    assert forall k :: k in KeysAbove(pairs.Keys, RangeStart(after)) ==> k in pairs.Keys;
  }

  lemma PageFrom(keys: seq<Bytes>, start: Option<Bytes>, limit: Option<nat>)
    ensures forall k :: k in PageKeys(keys, start, limit) ==> k in keys
  {
    AboveFrom(keys, start);
    var page := PageKeys(keys, start, limit);
    forall i | 0 <= i < |page|
      ensures page[i] in keys
    {
      assert page[i] == Above(keys, start)[i];
    }
  }

  lemma {:induction false} AboveFrom(keys: seq<Bytes>, bound: Option<Bytes>)
    ensures forall k :: k in Above(keys, bound) ==> k in keys
  {
    hide Less;
    if keys != [] {
      AboveFrom(keys[1..], bound);
    }
  }

  // ----- which keys a page skips -----

  /** k' lies between k and the bound built from k, so a page started after k passes it over. */
  predicate Shadowed(k: Bytes, k': Bytes)
  {
    Less(k, k') && !Less(k + [1], k')
  }

  lemma {:induction false} ShadowedShape(k: Bytes, k': Bytes)
    ensures Shadowed(k, k') <==> k' == k + [1] || (k + [0] <= k')
  {
    if k == [] {
      ShadowedByEmpty(k');
    } else if k' != [] && k[0] == k'[0] {
      ShadowedShape(k[1..], k'[1..]);
      assert (k + [1])[1..] == k[1..] + [1] && (k + [0])[1..] == k[1..] + [0];
      assert k' == [k'[0]] + k'[1..] && k == [k[0]] + k[1..];
      assert k + [1] == [k[0]] + (k[1..] + [1]) && k + [0] == [k[0]] + (k[1..] + [0]);
      assert k' == k + [1] <==> k'[1..] == k[1..] + [1];
      assert k + [0] <= k' <==> k[1..] + [0] <= k'[1..];
    } else {
      assert (k + [1])[0] == k[0] && (k + [0])[0] == k[0];
    }
  }

  lemma ShadowedByEmpty(k': Bytes)
    ensures Shadowed([], k') <==> k' == [1] || [0] <= k'
  {
    assert [] + [1] == [1];
    if k' != [] && k'[0] == 1 {
      assert [1][1..] == [];
      assert Less([1], k') <==> Less([], k'[1..]);
      assert k' == [k'[0]] + k'[1..];
    }
  }

  ghost predicate NoneShadowed(S: set<Bytes>)
  {
    forall k, k' :: k in S && k' in S ==> !Shadowed(k, k')
  }

  lemma ShadowedByte(k: Bytes, k': Bytes)
    ensures Shadowed(k, k') ==> |k| < |k'| && k'[|k|] <= 1
  {
    hide Shadowed;
    ShadowedShape(k, k');
  }

  /** Denominations and addresses consist of bytes above 1. */
  lemma PrintableKeys(S: set<Bytes>)
    requires forall k, i :: k in S && 0 <= i < |k| ==> k[i] > 1
    ensures NoneShadowed(S)
  {
    hide Shadowed;
    forall k, k' | k in S && k' in S
      ensures !Shadowed(k, k')
    {
      ShadowedByte(k, k');
    }
  }

  /** A page started after a registered key is the next stretch of keys, exactly when no
      registered key is shadowed by it. */
  lemma NextPageIff(keys: seq<Bytes>, k: Bytes)
    ensures Above(keys, Some(k + [1])) == Above(keys, Some(k)) <==> forall k' :: k' in keys ==> !Shadowed(k, k')
  {
    if Above(keys, Some(k + [1])) == Above(keys, Some(k)) {
      forall k' | k' in keys
        ensures !Shadowed(k, k')
      {
        AboveMember(keys, k, k');
        AboveMember(keys, k + [1], k');
      }
    } else if forall k' :: k' in keys ==> !Shadowed(k, k') {
      SameAbove(keys, k);
      assert false;
    }
  }

  lemma {:induction false} AboveMember(keys: seq<Bytes>, bound: Bytes, k: Bytes)
    ensures k in Above(keys, Some(bound)) <==> k in keys && Less(bound, k)
  {
    hide Less;
    if keys != [] {
      AboveMember(keys[1..], bound, k);
      assert keys == [keys[0]] + keys[1..];
    }
  }

  lemma {:induction false} SameAbove(keys: seq<Bytes>, k: Bytes)
    requires forall k' :: k' in keys ==> !Shadowed(k, k')
    ensures Above(keys, Some(k + [1])) == Above(keys, Some(k))
  {
    if keys != [] {
      SameAbove(keys[1..], k);
      assert !Shadowed(k, keys[0]);
      LessThanLonger(k);
      if Less(k + [1], keys[0]) {
        Transitive(k, k + [1], keys[0]);
      }
    }
  }

  lemma {:induction false} LessThanLonger(k: Bytes)
    ensures Less(k, k + [1])
  {
    if k != [] {
      LessThanLonger(k[1..]);
      assert (k + [1])[1..] == k[1..] + [1];
    }
  }

  // ----- the walk -----

  /** In an ascending list, what is above its i-th key is what follows it. */
  lemma {:induction false} AboveIndex(s: seq<Bytes>, i: nat)
    requires Ascending(s) && i < |s|
    ensures Above(s, Some(s[i])) == s[i + 1..]
  {
    hide Less;
    Trichotomy(s[i], s[0]);
    if i == 0 {
      AboveAll(s[1..], s[0]);
    } else {
      AboveIndex(s[1..], i - 1);
      assert Less(s[0], s[i]);
    }
  }

  lemma {:induction false} AboveAll(s: seq<Bytes>, k: Bytes)
    requires forall i :: 0 <= i < |s| ==> Less(k, s[i])
    ensures Above(s, Some(k)) == s
  {
    hide Less;
    if s != [] {
      AboveAll(s[1..], k);
    }
  }

  lemma {:induction false} AboveNothing(s: seq<Bytes>)
    ensures Above(s, None) == s
  {
    if s != [] {
      AboveNothing(s[1..]);
    }
  }

  /** Asking for page after page until one comes back empty, each page started after the assets of
      the last pair of the page before; `assets` are those of the pair at an address, `limits` the
      limits asked for. */
  ghost function Walk<Addr>(pairs: map<Bytes, Addr>, assets: Addr -> (AssetInfo, AssetInfo),
                            after: Option<(AssetInfo, AssetInfo)>, limits: nat -> Option<nat>, page: nat): seq<Addr>
    requires KeyedByAssets(pairs, assets)
    decreases |Above(Sorted(pairs.Keys), RangeStart(after))|
  {
    var found := ReadPairs(pairs, after, limits(page));
    if found == [] then []
    else
      PageShrinks(pairs, assets, after, limits(page));
      found + Walk(pairs, assets, Some(assets(found[|found| - 1])), limits, page + 1)
  }

  /** Every pair is registered under the key of its assets. */
  ghost predicate KeyedByAssets<Addr>(pairs: map<Bytes, Addr>, assets: Addr -> (AssetInfo, AssetInfo))
  {
    forall k :: k in pairs ==> PairKey(assets(pairs[k]).0, assets(pairs[k]).1) == k
  }

  lemma PageShrinks<Addr>(pairs: map<Bytes, Addr>, assets: Addr -> (AssetInfo, AssetInfo),
                          after: Option<(AssetInfo, AssetInfo)>, limit: Option<nat>)
    requires KeyedByAssets(pairs, assets) && ReadPairs(pairs, after, limit) != []
    ensures var found := ReadPairs(pairs, after, limit);
            var s := Sorted(pairs.Keys);
            |Above(s, RangeStart(Some(assets(found[|found| - 1]))))| < |Above(s, RangeStart(after))|
  {
    hide Less, PairKey, Sorted;
    var s, start := Sorted(pairs.Keys), RangeStart(after);
    var keys := PageKeys(s, start, limit);
    var last := keys[|keys| - 1];
    assert last == Above(s, start)[|keys| - 1];
    AboveShrinks(s, start, last);
  }

  lemma {:induction false} AboveShrinks(s: seq<Bytes>, start: Option<Bytes>, k: Bytes)
    requires k in Above(s, start)
    ensures |Above(s, Some(k + [1]))| < |Above(s, start)|
  {
    AboveFrom(s, start);
    if start.Some? {
      AboveMember(s, start.value, k);
    }
    NotBelow(s, start, k);
  }

  lemma {:induction false} NotBelow(s: seq<Bytes>, start: Option<Bytes>, k: Bytes)
    requires start == None || Less(start.value, k)
    ensures |Above(s, Some(k + [1]))| <= |Above(s, start)|
    ensures k in s ==> |Above(s, Some(k + [1]))| < |Above(s, start)|
  {
    if s != [] {
      NotBelow(s[1..], start, k);
      LessThanLonger(k);
      Trichotomy(k, k + [1]);
      if start.Some? && Less(k + [1], s[0]) {
        Transitive(k, k + [1], s[0]);
        Transitive(start.value, k, s[0]);
      }
      assert k in s ==> k == s[0] || k in s[1..];
    }
  }

  // ----- the keys a walk meets -----

  /** The addresses under the keys. */
  function Addresses<Addr>(pairs: map<Bytes, Addr>, keys: seq<Bytes>): seq<Addr>
    requires forall k :: k in keys ==> k in pairs
  {
    seq(|keys|, i requires 0 <= i < |keys| => assert keys[i] in keys; pairs[keys[i]])
  }

  /** The same walk on an ascending list of keys. */
  ghost function KeyWalk(s: seq<Bytes>, start: Option<Bytes>, limits: nat -> Option<nat>, page: nat): seq<Bytes>
    decreases |Above(s, start)|
  {
    var keys := PageKeys(s, start, limits(page));
    if keys == [] then []
    else
      assert keys[|keys| - 1] == Above(s, start)[|keys| - 1];
      AboveShrinks(s, start, keys[|keys| - 1]);
      keys + KeyWalk(s, Some(keys[|keys| - 1] + [1]), limits, page + 1)
  }

  lemma {:induction false} KeyWalkAbove(s: seq<Bytes>, start: Option<Bytes>, limits: nat -> Option<nat>, page: nat)
    ensures forall k :: k in KeyWalk(s, start, limits, page) ==> k in Above(s, start)
    decreases |Above(s, start)|
  {
    hide Less, Above;
    var keys := PageKeys(s, start, limits(page));
    if keys != [] {
      var last := keys[|keys| - 1];
      assert last == Above(s, start)[|keys| - 1];
      AboveShrinks(s, start, last);
      KeyWalkAbove(s, Some(last + [1]), limits, page + 1);
      forall k | k in Above(s, Some(last + [1]))
        ensures k in Above(s, start)
      {
        StillAbove(s, start, last, k);
      }
    }
  }

  lemma StillAbove(s: seq<Bytes>, start: Option<Bytes>, last: Bytes, k: Bytes)
    requires last in Above(s, start) && k in Above(s, Some(last + [1]))
    ensures k in Above(s, start)
  {
    hide Less, Above;
    AboveMember(s, last + [1], k);
    LessThanLonger(last);
    if start == None {
      AboveNothing(s);
    } else {
      AboveMember(s, start.value, last);
      AboveMember(s, start.value, k);
      Transitive(start.value, last, last + [1]);
      Transitive(start.value, last + [1], k);
    }
  }

  lemma {:induction false} WalkFollowsKeys<Addr>(pairs: map<Bytes, Addr>, assets: Addr -> (AssetInfo, AssetInfo),
                                                 after: Option<(AssetInfo, AssetInfo)>, limits: nat -> Option<nat>,
                                                 page: nat)
    requires KeyedByAssets(pairs, assets)
    ensures forall k :: k in KeyWalk(Sorted(pairs.Keys), RangeStart(after), limits, page) ==> k in pairs
    ensures Walk(pairs, assets, after, limits, page) ==
            Addresses(pairs, KeyWalk(Sorted(pairs.Keys), RangeStart(after), limits, page))
    decreases |Above(Sorted(pairs.Keys), RangeStart(after))|
  {
    hide Less, Sorted, Above, PairKey, ReadPairs, PageKeys, RangeStart, KeyedByAssets, Addresses;
    var s, start := Sorted(pairs.Keys), RangeStart(after);
    KeyWalkRegistered(pairs, start, limits, page);
    PageAddresses(pairs, assets, after, limits(page));
    var found, keys := ReadPairs(pairs, after, limits(page)), PageKeys(s, start, limits(page));
    if found != [] {
      PageShrinks(pairs, assets, after, limits(page));
      var next := Some(assets(found[|found| - 1]));
      WalkFollowsKeys(pairs, assets, next, limits, page + 1);
      AddressesAdd(pairs, keys, KeyWalk(s, RangeStart(next), limits, page + 1));
    } else {
      AddressesNone(pairs);
    }
  }

  lemma KeyWalkRegistered<Addr>(pairs: map<Bytes, Addr>, start: Option<Bytes>, limits: nat -> Option<nat>, page: nat)
    ensures forall k :: k in KeyWalk(Sorted(pairs.Keys), start, limits, page) ==> k in pairs
  {
    hide Less, Sorted, Above, KeyWalk;
    var s := Sorted(pairs.Keys);
    KeyWalkAbove(s, start, limits, page);
    AboveFrom(s, start);
    assert forall k :: k in s ==> k in pairs.Keys;
  }

  /** A page is the addresses of its keys, and the next one starts behind the last of them. */
  lemma PageAddresses<Addr>(pairs: map<Bytes, Addr>, assets: Addr -> (AssetInfo, AssetInfo),
                            after: Option<(AssetInfo, AssetInfo)>, limit: Option<nat>)
    requires KeyedByAssets(pairs, assets)
    ensures var found, keys := ReadPairs(pairs, after, limit), PageKeys(Sorted(pairs.Keys), RangeStart(after), limit);
            && (forall k :: k in keys ==> k in pairs) && found == Addresses(pairs, keys) && |found| == |keys|
            && (found != [] ==> RangeStart(Some(assets(found[|found| - 1]))) == Some(keys[|keys| - 1] + [1]))
  {
    hide Less, Sorted, PageKeys, PairKey;
  }

  lemma AddressesAdd<Addr>(pairs: map<Bytes, Addr>, keys: seq<Bytes>, rest: seq<Bytes>)
    requires (forall k :: k in keys ==> k in pairs) && forall k :: k in rest ==> k in pairs
    ensures Addresses(pairs, keys + rest) == Addresses(pairs, keys) + Addresses(pairs, rest)
  {
  }

  lemma AddressesNone<Addr>(pairs: map<Bytes, Addr>)
    ensures Addresses(pairs, []) == []
  {
  }

  /** Addresses of different keys are different, since the assets behind an address give its key. */
  lemma AddressesInjective<Addr>(pairs: map<Bytes, Addr>, assets: Addr -> (AssetInfo, AssetInfo),
                                 keys: seq<Bytes>, keys': seq<Bytes>)
    requires KeyedByAssets(pairs, assets)
    requires (forall k :: k in keys ==> k in pairs) && forall k :: k in keys' ==> k in pairs
    requires Addresses(pairs, keys) == Addresses(pairs, keys')
    ensures keys == keys'
  {
    hide PairKey;
    assert |keys| == |keys'|;
    forall i | 0 <= i < |keys|
      ensures keys[i] == keys'[i]
    {
      assert Addresses(pairs, keys)[i] == pairs[keys[i]] && Addresses(pairs, keys')[i] == pairs[keys'[i]];
    }
  }

  // ----- a walk without shadowed keys -----

  lemma {:induction false} KeyWalkFromIndex(s: seq<Bytes>, i: nat, limits: nat -> Option<nat>, page: nat)
    requires Ascending(s) && i < |s| && NoneShadowed(set k | k in s)
    requires forall p: nat :: EffectiveLimit(limits(p)) >= 1
    ensures KeyWalk(s, Some(s[i] + [1]), limits, page) == s[i + 1..]
    decreases |s| - i
  {
    hide Less, Shadowed, Above, NoneShadowed;
    NextPage(s, i, limits(page));
    var keys := PageKeys(s, Some(s[i] + [1]), limits(page));
    if keys != [] {
      var j := i + |keys|;
      assert keys[|keys| - 1] == s[j];
      KeyWalkFromIndex(s, j, limits, page + 1);
      assert s[i + 1..] == s[i + 1..j + 1] + s[j + 1..];
    }
  }

  /** The page after the i-th key: the keys behind it, as many as the limit allows. */
  lemma NextPage(s: seq<Bytes>, i: nat, limit: Option<nat>)
    requires Ascending(s) && i < |s| && NoneShadowed(set k | k in s)
    ensures var keys := PageKeys(s, Some(s[i] + [1]), limit);
            |keys| <= |s| - i - 1 && keys == s[i + 1..i + 1 + |keys|]
    ensures EffectiveLimit(limit) >= 1 && i + 1 < |s| ==> PageKeys(s, Some(s[i] + [1]), limit) != []
  {
    hide Less, Shadowed;
    var S := set k | k in s;
    assert forall k' :: k' in s ==> k' in S && s[i] in S;
    SameAbove(s, s[i]);
    AboveIndex(s, i);
    var keys := PageKeys(s, Some(s[i] + [1]), limit);
    assert keys == s[i + 1..][..|keys|];
  }

  lemma KeyWalkListsAll(S: set<Bytes>, limits: nat -> Option<nat>)
    requires NoneShadowed(S) && forall p: nat :: EffectiveLimit(limits(p)) >= 1
    ensures KeyWalk(Sorted(S), None, limits, 0) == Sorted(S)
  {
    hide Less, Shadowed, Sorted, NoneShadowed, PageKeys;
    var s := Sorted(S);
    assert (set k | k in s) == S;
    FirstPage(s, limits(0));
    var keys := PageKeys(s, None, limits(0));
    if keys != [] {
      KeyWalkFromIndex(s, |keys| - 1, limits, 1);
    }
  }

  /** The first page: as many of the keys as the limit allows. */
  lemma FirstPage(s: seq<Bytes>, limit: Option<nat>)
    ensures var keys := PageKeys(s, None, limit);
            keys <= s && s == keys + s[|keys|..] && (EffectiveLimit(limit) >= 1 && s != [] ==> keys != [])
  {
    hide Less, Above;
    AboveNothing(s);
  }

  // ----- a walk with a shadowed key -----

  function OneByOne(page: nat): Option<nat> { Some(1) }

  /** If a key shadows a later one, it shadows the one next to it. */
  lemma NextIsShadowed(s: seq<Bytes>, i: nat, j: nat)
    requires Ascending(s) && i < |s| && j < |s| && Shadowed(s[i], s[j])
    ensures i + 1 < |s| && Shadowed(s[i], s[i + 1])
  {
    hide Less;
    Trichotomy(s[i], s[j]);
    if i + 1 < j && Less(s[i] + [1], s[i + 1]) {
      Transitive(s[i] + [1], s[i + 1], s[j]);
    }
  }

  /** Key by key, the walk after the j-th key misses what the i-th shadows. */
  lemma {:induction false} KeyWalkMisses(s: seq<Bytes>, j: nat, i: nat, page: nat)
    requires Ascending(s) && j <= i && i + 1 < |s| && Shadowed(s[i], s[i + 1])
    ensures KeyWalk(s, Some(s[j] + [1]), OneByOne, page) != s[j + 1..]
    decreases i - j
  {
    hide Less, Shadowed, Above, KeyWalk;
    var start := Some(s[j] + [1]);
    if Shadowed(s[j], s[j + 1]) {
      KeyWalkAbove(s, start, OneByOne, page);
      ShadowedNotAbove(s, s[j], s[j + 1]);
      assert s[j + 1..][0] == s[j + 1];
    } else {
      NextOne(s, j, page);
      KeyWalkMisses(s, j + 1, i, page + 1);
      assert s[j + 1..] == [s[j + 1]] + s[j + 2..];
    }
  }

  lemma ShadowedNotAbove(s: seq<Bytes>, k: Bytes, k': Bytes)
    requires Shadowed(k, k')
    ensures k' !in Above(s, Some(k + [1]))
  {
    hide Less, Above;
    AboveMember(s, k + [1], k');
  }

  /** A page of one key after the j-th, whose neighbour it does not shadow. */
  lemma NextOne(s: seq<Bytes>, j: nat, page: nat)
    requires Ascending(s) && j + 1 < |s| && !Shadowed(s[j], s[j + 1])
    ensures KeyWalk(s, Some(s[j] + [1]), OneByOne, page) ==
            [s[j + 1]] + KeyWalk(s, Some(s[j + 1] + [1]), OneByOne, page + 1)
  {
    hide Less, Shadowed;
    forall k' | k' in s
      ensures !Shadowed(s[j], k')
    {
      var i :| 0 <= i < |s| && s[i] == k';
      if Shadowed(s[j], s[i]) {
        NextIsShadowed(s, j, i);
        assert false;
      }
    }
    SameAbove(s, s[j]);
    AboveIndex(s, j);
    var keys := PageKeys(s, Some(s[j] + [1]), OneByOne(page));
    assert keys == [s[j + 1]];
  }

  lemma KeyWalkMissesSome(S: set<Bytes>)
    requires !NoneShadowed(S)
    ensures KeyWalk(Sorted(S), None, OneByOne, 0) != Sorted(S)
  {
    hide Less, Shadowed, Sorted, KeyWalk;
    var s := Sorted(S);
    var k, k' :| k in S && k' in S && Shadowed(k, k');
    assert k in s && k' in s;
    var i :| 0 <= i < |s| && s[i] == k;
    var j :| 0 <= j < |s| && s[j] == k';
    NextIsShadowed(s, i, j);
    KeyWalkMisses(s, 0, i, 1);
    FirstOne(s);
    assert s == [s[0]] + s[1..];
  }

  lemma FirstOne(s: seq<Bytes>)
    requires s != []
    ensures KeyWalk(s, None, OneByOne, 0) == [s[0]] + KeyWalk(s, Some(s[0] + [1]), OneByOne, 1)
  {
    hide Less;
    AboveNothing(s);
    assert PageKeys(s, None, OneByOne(0)) == [s[0]];
  }

  // ----- the walk over the registry -----

  /** With these limits the walk lists every pair once, in key order. */
  ghost predicate ListsAll<Addr>(pairs: map<Bytes, Addr>, assets: Addr -> (AssetInfo, AssetInfo),
                                 limits: nat -> Option<nat>)
    requires KeyedByAssets(pairs, assets)
  {
    assert forall k :: k in Sorted(pairs.Keys) ==> k in pairs.Keys;
    Walk(pairs, assets, None, limits, 0) == Addresses(pairs, Sorted(pairs.Keys))
  }

  ghost predicate AtLeastOne(limits: nat -> Option<nat>)
  {
    forall p: nat :: limits(p) == None || limits(p).value >= 1
  }

  /** Walking page by page returns the address of every registered pair once, in key order and without
      a gap, whatever limits are asked for, exactly if no registered key shadows another. */
  lemma WalkListsAllIff<Addr>(pairs: map<Bytes, Addr>, assets: Addr -> (AssetInfo, AssetInfo))
    requires KeyedByAssets(pairs, assets)
    ensures (forall limits :: AtLeastOne(limits) ==> ListsAll(pairs, assets, limits)) <==> NoneShadowed(pairs.Keys)
  {
    hide Less, Sorted, NoneShadowed, KeyedByAssets, Walk, KeyWalk;
    if NoneShadowed(pairs.Keys) {
      forall limits | AtLeastOne(limits)
        ensures ListsAll(pairs, assets, limits)
      {
        assert forall p: nat :: EffectiveLimit(limits(p)) >= 1;
        KeyWalkListsAll(pairs.Keys, limits);
        WalkFollowsKeys(pairs, assets, None, limits, 0);
      }
    } else {
      var limits := OneByOne;
      WalkMissesSome(pairs, assets);
      assert AtLeastOne(limits) && !ListsAll(pairs, assets, limits);
    }
  }

  lemma WalkMissesSome<Addr>(pairs: map<Bytes, Addr>, assets: Addr -> (AssetInfo, AssetInfo))
    requires KeyedByAssets(pairs, assets) && !NoneShadowed(pairs.Keys)
    ensures !ListsAll(pairs, assets, OneByOne)
  {
    hide Less, Sorted, NoneShadowed, KeyedByAssets, Walk, KeyWalk, Addresses;
    WalkFollowsKeys(pairs, assets, None, OneByOne, 0);
    KeyWalkMissesSome(pairs.Keys);
    if ListsAll(pairs, assets, OneByOne) {
      AddressesInjective(pairs, assets, KeyWalk(Sorted(pairs.Keys), None, OneByOne, 0), Sorted(pairs.Keys));
      assert false;
    }
  }

  /** Two pairs, of the assets [] and [2] and of [] and [2, 0]: the page after the first passes over
      the second, and a walk pair by pair does not list both. */
  lemma WalkSkips<Addr>(x: Addr, y: Addr, assets: Addr -> (AssetInfo, AssetInfo))
    requires assets(x) == ([], [2]) && assets(y) == ([], [2, 0])
    ensures var pairs := map[[2] := x, [2, 0] := y];
            && Above([[2], [2, 0]], Some([2] + [1])) != Above([[2], [2, 0]], Some([2]))
            && KeyedByAssets(pairs, assets) && !ListsAll(pairs, assets, OneByOne)
  {
    hide Sorted, Walk, KeyWalk, ListsAll;
    var pairs := map[[2] := x, [2, 0] := y];
    assert PairKey([], [2]) == [2] && PairKey([], [2, 0]) == [2, 0];
    ShadowedShape([2], [2, 0]);
    assert [2] + [0] == [2, 0];
    NextPageIff([[2], [2, 0]], [2]);
    assert [2] in pairs.Keys && [2, 0] in pairs.Keys;
    WalkMissesSome(pairs, assets);
  }
}
