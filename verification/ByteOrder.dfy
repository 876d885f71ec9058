/** Byte strings in the order in which ordered stores iterate over them. */
module ByteOrder {
  import opened Words

  /** a is strictly before b, byte by byte; a proper prefix comes first. */
  predicate Less(a: Bytes, b: Bytes)
  {
    if b == [] then false
    else if a == [] then true
    else a[0] < b[0] || (a[0] == b[0] && Less(a[1..], b[1..]))
  }

  lemma {:induction false} Trichotomy(a: Bytes, b: Bytes)
    ensures !(Less(a, b) && Less(b, a)) && !Less(a, a)
    ensures Less(a, b) || a == b || Less(b, a)
    decreases |a|
  {
    if a != [] {
      Trichotomy(a[1..], if b != [] then b[1..] else []);
      if b != [] && a[0] == b[0] && a[1..] == b[1..] {
        assert a == [a[0]] + a[1..] == b;
      }
    }
  }

  lemma {:induction false} Transitive(a: Bytes, b: Bytes, c: Bytes)
    requires Less(a, b) && Less(b, c)
    ensures Less(a, c)
  {
    if a != [] && a[0] == b[0] && b[0] == c[0] {
      Transitive(a[1..], b[1..], c[1..]);
    }
  }

  lemma {:induction false} CommonPrefix(p: Bytes, a: Bytes, b: Bytes)
    ensures Less(p + a, p + b) <==> Less(a, b)
  {
    if p == [] {
      assert p + a == a && p + b == b;
    } else {
      CommonPrefix(p[1..], a, b);
      assert (p + a)[1..] == p[1..] + a && (p + b)[1..] == p[1..] + b;
    }
  }

  ghost predicate Ascending(s: seq<Bytes>)
  {
    forall i, j :: 0 <= i < j < |s| ==> Less(s[i], s[j])
  }

  /** s visits every element of S once, in order: what an iterator over keys S returns. */
  ghost predicate Enumerates(s: seq<Bytes>, S: set<Bytes>)
  {
    Ascending(s) && (forall k :: k in S ==> k in s) && (forall k :: k in s ==> k in S)
  }

  lemma {:induction false} LeastExists(S: set<Bytes>)
    requires S != {}
    ensures exists k :: k in S && forall k' :: k' in S && k' != k ==> Less(k, k')
    decreases S
  {
    hide Less;
    var x :| x in S;
    if S == {x} {
      assert forall k' :: k' in S && k' != x ==> Less(x, k');
    } else {
      var rest := S - {x};
      LeastExists(rest);
      var m :| m in rest && forall k' :: k' in rest && k' != m ==> Less(m, k');
      LeastOfBoth(S, x, m);
    }
  }

  lemma LeastOfBoth(S: set<Bytes>, x: Bytes, m: Bytes)
    requires x in S && m in S && m != x && forall k' :: k' in S - {x} && k' != m ==> Less(m, k')
    ensures exists k :: k in S && forall k' :: k' in S && k' != k ==> Less(k, k')
  {
    hide Less;
    Trichotomy(x, m);
    var least := if Less(x, m) then x else m;
    forall k' | k' in S && k' != least
      ensures Less(least, k')
    {
      if least == x && k' != m {
        Transitive(x, m, k');
      }
    }
  }

  /** The iteration order exists, for every set of keys. */
  ghost function Sorted(S: set<Bytes>): (s: seq<Bytes>)
    ensures Enumerates(s, S)
    decreases |S|
  {
    if S == {} then []
    else
      LeastExists(S);
      var k :| k in S && forall k' :: k' in S && k' != k ==> Less(k, k');
      PrependLeast(k, Sorted(S - {k}), S);
      [k] + Sorted(S - {k})
  }

  lemma PrependLeast(k: Bytes, rest: seq<Bytes>, S: set<Bytes>)
    requires k in S && forall k' :: k' in S && k' != k ==> Less(k, k')
    requires Enumerates(rest, S - {k})
    ensures Enumerates([k] + rest, S)
  {
    hide Less;
    var s := [k] + rest;
    forall i, j | 0 <= i < j < |s|
      ensures Less(s[i], s[j])
    {
      assert s[j] == rest[j - 1] && rest[j - 1] in rest;
    }
  }

  lemma {:induction false} EnumerationSize(s: seq<Bytes>, S: set<Bytes>)
    requires Enumerates(s, S)
    ensures |s| == |S|
    decreases |s|
  {
    hide Less;
    if s == [] {
      assert S == {};
    } else {
      var n := |s| - 1;
      assert s == s[..n] + [s[n]];
      forall i | 0 <= i < n
        ensures s[i] != s[n]
      {
        Trichotomy(s[i], s[n]);
      }
      EnumerationSize(s[..n], S - {s[n]});
    }
  }

  /** The store's iterator, started without bounds. */
  method KeysInOrder(S: set<Bytes>) returns (s: seq<Bytes>)
    ensures Enumerates(s, S)
  {
    s := [];
    var todo := S;
    while todo != {}
      invariant todo <= S && Enumerates(s, S - todo)
      invariant forall k, k' :: k in s && k' in todo ==> Less(k, k')
      decreases todo
    {
      LeastExists(todo);
      var k :| k in todo && forall k' :: k' in todo && k' != k ==> Less(k, k');
      s := s + [k];
      todo := todo - {k};
    }
    assert S - todo == S;
  }

  /** ... and is unique. */
  lemma {:induction false} EnumerationUnique(s: seq<Bytes>, t: seq<Bytes>, S: set<Bytes>)
    requires Enumerates(s, S) && Enumerates(t, S)
    ensures s == t
  {
    FirstIn(t);
    if s != [] {
      assert s[0] in S && s[0] in t;
      assert t[0] in S && t[0] in s;
      var j :| 0 <= j < |s| && s[j] == t[0];
      var i :| 0 <= i < |t| && t[i] == s[0];
      Trichotomy(s[0], t[0]);
      assert s[0] == t[0];
      TailEnumerates(s, S);
      TailEnumerates(t, S);
      EnumerationUnique(s[1..], t[1..], S - {s[0]});
      assert s == [s[0]] + s[1..] && t == [t[0]] + t[1..];
    }
  }

  lemma FirstIn(s: seq<Bytes>)
    ensures s == [] || s[0] in s
  {
  }

  lemma TailEnumerates(s: seq<Bytes>, S: set<Bytes>)
    requires s != [] && Enumerates(s, S)
    ensures Enumerates(s[1..], S - {s[0]})
  {
    forall k | k in S - {s[0]}
      ensures k in s[1..]
    {
      var i :| 0 <= i < |s| && s[i] == k;
      assert s[1..][i - 1] == k;
    }
    forall k | k in s[1..]
      ensures k in S - {s[0]}
    {
      var i :| 0 <= i < |s[1..]| && s[1..][i] == k;
      assert s[i + 1] == k;
      Trichotomy(s[0], k);
    }
  }
}
