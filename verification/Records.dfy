/** The language of the wire format: records of every wire type, groups nested to any depth, tags
    and lengths in any complete spelling. The skipper and the decoders accept exactly its words. */
module Records {
  import opened Words
  import opened Varint
  import opened Wire

  datatype Record =
    | VarintRec(tag: Bytes, value: Bytes)
    | Fixed64Rec(tag: Bytes, bytes: Bytes)
    | CountedRec(tag: Bytes, length: Bytes, bytes: Bytes)
    | GroupRec(tag: Bytes, fields: seq<Record>, close: Bytes)
    | Fixed32Rec(tag: Bytes, bytes: Bytes)

  /** A complete varint: at most ten bytes, not necessarily the shortest form. */
  predicate CompleteVarint(b: Bytes)
  {
    && 1 <= |b| <= 10
    && b[|b| - 1] < 128
    && forall i :: 0 <= i < |b| - 1 ==> b[i] >= 128
  }

  /** The number a varint spells, and what is left of it in 64 bits. */
  function Spells(b: Bytes): nat
  {
    if b == [] then 0 else b[0] % 128 + 128 * Spells(b[1..])
  }

  function Number64(b: Bytes): nat { Spells(b) % TWO_64 }

  function WireType(r: Record): nat
  {
    match r
    case VarintRec(_, _) => 0
    case Fixed64Rec(_, _) => 1
    case CountedRec(_, _, _) => 2
    case GroupRec(_, _, _) => 3
    case Fixed32Rec(_, _) => 5
  }

  /** A group may be closed by the end-group tag of any number: the skipper counts depth only. */
  predicate WellFormed(r: Record)
    decreases r
  {
    && CompleteVarint(r.tag) && Number64(r.tag) % 8 == WireType(r)
    && match r
       case VarintRec(_, v) => CompleteVarint(v)
       case Fixed64Rec(_, b) => |b| == 8
       case CountedRec(_, l, b) => CompleteVarint(l) && Number64(l) == |b| <= MAX_INT
       case GroupRec(_, rs, close) => Closes(close) && forall i :: 0 <= i < |rs| ==> WellFormed(rs[i])
       case Fixed32Rec(_, b) => |b| == 4
  }

  predicate Closes(close: Bytes) { CompleteVarint(close) && Number64(close) % 8 == 4 }

  predicate AllWellFormed(rs: seq<Record>) { forall i :: 0 <= i < |rs| ==> WellFormed(rs[i]) }

  function Bytes1(r: Record): Bytes
    decreases r, 1
  {
    match r
    case VarintRec(t, v) => t + v
    case Fixed64Rec(t, b) => t + b
    case CountedRec(t, l, b) => t + (l + b)
    case GroupRec(t, rs, close) => t + (BytesAll(rs) + close)
    case Fixed32Rec(t, b) => t + b
  }

  function BytesAll(rs: seq<Record>): Bytes
    decreases rs, 0
  {
    if rs == [] then [] else Bytes1(rs[0]) + BytesAll(rs[1..])
  }

  // ----- varints as the shift loops read them -----

  lemma {:induction false} ScanComplete(b: Bytes, y: Bytes, shift: nat)
    requires CompleteVarint(b) && shift + 7 * (|b| - 1) < 64
    ensures var v := Scan(b + y, shift);
            v.err == None && |v.digits| == |b| && v.Raw() == Spells(b) && (b + y)[|b|..] == y
  {
    if |b| > 1 {
      ScanComplete(b[1..], y, shift + 7);
      assert (b + y)[1..] == b[1..] + y;
    } else {
      assert Value([b[0]]) == b[0] + 128 * Value([]);
    }
  }

  lemma {:induction false} ScanTakes(s: Bytes, shift: nat)
    requires Scan(s, shift).err == None
    ensures var n := |Scan(s, shift).digits|;
            && 1 <= n <= |s| && shift + 7 * (n - 1) < 64 && Scan(s, shift).Raw() == Spells(s[..n])
            && s[n - 1] < 128 && forall i :: 0 <= i < n - 1 ==> s[i] >= 128
  {
    var n := |Scan(s, shift).digits|;
    if s[0] >= 128 {
      ScanTakes(s[1..], shift + 7);
      assert s[..n][1..] == s[1..][..n - 1];
      assert forall i :: 0 < i < n - 1 ==> s[i] == s[1..][i - 1];
    } else {
      assert Value([s[0]]) == s[0] + 128 * Value([]);
      assert s[..1][1..] == [];
    }
  }

  /** What a successful shift loop has read is a complete varint. */
  lemma ScanTakesVarint(s: Bytes)
    requires Scan(s, 0).err == None
    ensures var n := |Scan(s, 0).digits|;
            CompleteVarint(s[..n]) && Scan(s, 0).Raw() == Spells(s[..n]) && s == s[..n] + s[n..]
  {
    hide Scan, Spells;
    ScanTakes(s, 0);
  }

  lemma {:induction false} EncodedDigits(v: nat)
    ensures var b := Encode(v);
            Spells(b) == v && b[|b| - 1] < 128 && forall i :: 0 <= i < |b| - 1 ==> b[i] >= 128
  {
    if v >= 128 {
      EncodedDigits(v / 128);
      assert Encode(v)[1..] == Encode(v / 128);
      assert forall i :: 0 < i < |Encode(v)| ==> Encode(v)[i] == Encode(v / 128)[i - 1];
    } else {
      assert Spells([v]) == v % 128 + 128 * Spells([]);
    }
  }

  /** The writers' varints are complete and spell what was written. */
  lemma EncodedIsComplete(v: nat)
    requires v < TWO_64
    ensures CompleteVarint(Encode(v)) && Number64(Encode(v)) == v
  {
    hide Encode, Spells;
    EncodedDigits(v);
    EncodeAtMostTen(v);
  }

  // ----- the skipper steps over every record -----

  /** One tag and body at any depth of nesting. */
  lemma TagBody(tag: Bytes, body: Bytes, rest: Bytes, depth: nat, depth': nat)
    requires CompleteVarint(tag)
    requires Body(body + rest, Number64(tag) % 8, depth) == Ok(Element(|body|, depth'))
    ensures TagAndBody(tag + body + rest, depth) == Ok(Element(|tag + body|, depth'))
  {
    hide Spells, Body, Scan;
    ScanComplete(tag, body + rest, 0);
    assert tag + body + rest == tag + (body + rest);
  }

  lemma PlainBody(r: Record, rest: Bytes, depth: nat)
    requires WellFormed(r) && !r.GroupRec?
    ensures TagAndBody(Bytes1(r) + rest, depth) == Ok(Element(|Bytes1(r)|, depth))
  {
    hide TagAndBody, CompleteVarint, Spells, Scan;
    match r
    case VarintRec(t, v) =>
      ScanWhole(v, rest);
      TagBody(t, v, rest, depth, depth);
    case Fixed64Rec(t, b) =>
      TagBody(t, b, rest, depth, depth);
    case CountedRec(t, l, b) =>
      ScanWhole(l, b + rest);
      assert l + b + rest == l + (b + rest);
      TagBody(t, l + b, rest, depth, depth);
    case Fixed32Rec(t, b) =>
      TagBody(t, b, rest, depth, depth);
  }

  lemma ScanWhole(b: Bytes, y: Bytes)
    requires CompleteVarint(b)
    ensures var v := Scan(b + y, 0);
            v.err == None && |v.digits| == |b| && v.Raw() == Spells(b) && (b + y)[|b|..] == y
  {
    hide Scan, Spells;
    ScanComplete(b, y, 0);
  }

  /** skip* returns exactly the record's length; inside a group it goes on behind it. */
  lemma {:induction false} SkipOne(r: Record, rest: Bytes, at: nat, depth: nat)
    requires WellFormed(r) && at + |Bytes1(r)| <= MAX_INT
    requires depth == 0 || rest != []
    ensures Skip(Bytes1(r) + rest, at, depth) ==
            if depth == 0 then Ok(at + |Bytes1(r)|) else Skip(rest, at + |Bytes1(r)|, depth)
    decreases r, 1
  {
    hide TagAndBody, WellFormed;
    NotEmpty(r);
    var n := |Bytes1(r)|;
    if r.GroupRec? {
      SkipGroup(r, rest, at, depth);
    } else {
      PlainBody(r, rest, depth);
      assert (Bytes1(r) + rest)[n..] == rest;
    }
  }

  lemma NotEmpty(r: Record)
    requires WellFormed(r)
    ensures |Bytes1(r)| >= 1 && r.tag != [] && r.tag <= Bytes1(r)
  {
  }

  lemma {:induction false} SkipGroup(r: Record, rest: Bytes, at: nat, depth: nat)
    requires WellFormed(r) && at + |Bytes1(r)| <= MAX_INT && r.GroupRec?
    requires depth == 0 || rest != []
    ensures Skip(Bytes1(r) + rest, at, depth) ==
            if depth == 0 then Ok(at + |Bytes1(r)|) else Skip(rest, at + |Bytes1(r)|, depth)
    decreases r, 0
  {
    hide Skip, CompleteVarint, Number64;
    var inner := BytesAll(r.fields);
    var tail := r.close + rest;
    assert Bytes1(r) + rest == r.tag + (inner + tail);
    VarintNotEmpty(r.close);
    SkipBracket(r.tag, inner + tail, at, depth, depth + 1);
    SkipAll(r.fields, tail, at + |r.tag|, depth + 1);
    SkipBracket(r.close, rest, at + |r.tag| + |inner|, depth + 1, depth);
  }

  lemma VarintNotEmpty(b: Bytes)
    requires CompleteVarint(b)
    ensures b != []
  {
  }

  /** A start-group or end-group tag has no body: it only changes the depth. */
  lemma SkipBracket(tag: Bytes, rest: Bytes, at: nat, depth: nat, depth': nat)
    requires CompleteVarint(tag) && at + |tag| <= MAX_INT
    requires (Number64(tag) % 8 == 3 && depth' == depth + 1) || (Number64(tag) % 8 == 4 && depth' == depth - 1)
    requires depth' == 0 || rest != []
    ensures Skip(tag + rest, at, depth) == if depth' == 0 then Ok(at + |tag|) else Skip(rest, at + |tag|, depth')
  {
    hide TagAndBody, Scan, Number64;
    assert Body([] + rest, Number64(tag) % 8, depth) == Ok(Element(0, depth'));
    TagBody(tag, [], rest, depth, depth');
    assert tag + [] + rest == tag + rest && tag + [] == tag && (tag + rest)[|tag|..] == rest;
  }

  lemma {:induction false} SkipAll(rs: seq<Record>, rest: Bytes, at: nat, depth: nat)
    requires AllWellFormed(rs) && at + |BytesAll(rs)| <= MAX_INT && depth >= 1 && rest != []
    ensures Skip(BytesAll(rs) + rest, at, depth) == Skip(rest, at + |BytesAll(rs)|, depth)
    decreases rs, 0
  {
    hide Skip, WellFormed;
    if rs == [] {
      assert BytesAll(rs) + rest == rest;
    } else {
      var head, tail := Bytes1(rs[0]), BytesAll(rs[1..]);
      assert BytesAll(rs) + rest == head + (tail + rest);
      SkipOne(rs[0], tail + rest, at, depth);
      SkipAll(rs[1..], rest, at + |head|, depth);
    }
  }

  // ----- and over nothing else -----

  /** The rest of an open group: the records still to come in it, and its end. */
  datatype Level = Level(fields: seq<Record>, close: Bytes)

  ghost predicate WellLevels(ls: seq<Level>)
  {
    forall i :: 0 <= i < |ls| ==> AllWellFormed(ls[i].fields) && Closes(ls[i].close)
  }

  function LevelBytes(ls: seq<Level>): Bytes
  {
    if ls == [] then [] else BytesAll(ls[0].fields) + (ls[0].close + LevelBytes(ls[1..]))
  }

  lemma TagTaken(s: Bytes, depth: nat)
    requires TagAndBody(s, depth).Ok?
    ensures var n, el := |Scan(s, 0).digits|, TagAndBody(s, depth).value;
            && CompleteVarint(s[..n]) && s == s[..n] + s[n..] && 1 <= n <= el.used
            && Body(s[n..], Number64(s[..n]) % 8, depth) == Ok(Element(el.used - n, el.depth))
  {
    hide Scan, Spells, Body, CompleteVarint;
    ScanTakesVarint(s);
  }

  /** A round that keeps the depth has read one record. */
  lemma PlainTaken(s: Bytes, depth: nat) returns (r: Record)
    requires TagAndBody(s, depth).Ok? && TagAndBody(s, depth).value.depth == depth
    requires TagAndBody(s, depth).value.used <= |s|
    ensures WellFormed(r) && Bytes1(r) == s[..TagAndBody(s, depth).value.used]
    ensures r.tag == s[..|Scan(s, 0).digits|]
  {
    hide Scan, Spells, CompleteVarint, TagAndBody;
    TagTaken(s, depth);
    var n, used := |Scan(s, 0).digits|, TagAndBody(s, depth).value.used;
    var tag, body := s[..n], s[n..used];
    assert s[..used] == tag + body;
    if Number64(tag) % 8 == 0 {
      ScanTakesVarint(s[n..]);
      assert s[n..][..used - n] == body;
      r := VarintRec(tag, body);
    } else if Number64(tag) % 8 == 1 {
      r := Fixed64Rec(tag, body);
    } else if Number64(tag) % 8 == 2 {
      r := CountedTaken(s[n..], tag, used - n);
      assert s[n..][..used - n] == body;
    } else {
      r := Fixed32Rec(tag, body);
    }
  }

  lemma CountedTaken(s: Bytes, tag: Bytes, used: nat) returns (r: Record)
    requires CompleteVarint(tag) && Number64(tag) % 8 == 2 && used <= |s| && Scan(s, 0).err == None
    requires Int64(Scan(s, 0).Raw()) >= 0 && used == |Scan(s, 0).digits| + Int64(Scan(s, 0).Raw())
    ensures r.CountedRec? && WellFormed(r) && r.tag == tag && Bytes1(r) == tag + s[..used]
    ensures r.bytes == s[|Scan(s, 0).digits|..used]
  {
    hide Scan, Spells, CompleteVarint;
    ScanTakesVarint(s);
    var n := |Scan(s, 0).digits|;
    r := CountedRec(tag, s[..n], s[n..used]);
    assert s[..n] + s[n..used] == s[..used];
  }

  /** A round that changes the depth has read a bracket and nothing behind it. */
  lemma BracketTaken(s: Bytes, depth: nat)
    requires TagAndBody(s, depth).Ok? && TagAndBody(s, depth).value.depth != depth
    ensures var el := TagAndBody(s, depth).value;
            && el.used == |Scan(s, 0).digits| <= |s| && CompleteVarint(s[..el.used])
            && (el.depth == depth + 1 ==> Number64(s[..el.used]) % 8 == 3)
            && (el.depth != depth + 1 ==> el.depth == depth - 1 && Number64(s[..el.used]) % 8 == 4)
  {
    hide Scan, Spells, CompleteVarint, TagAndBody;
    TagTaken(s, depth);
  }

  lemma Opened(s: Bytes, at: nat, depth: nat)
    requires Skip(s, at, depth).Ok? && Skip(s, at, depth).value - at <= |s|
    ensures TagAndBody(s, depth).Ok?
    ensures var el := TagAndBody(s, depth).value;
            && 1 <= el.used <= |s| && s == s[..el.used] + s[el.used..]
            && (if el.depth == 0 then Skip(s, at, depth).value == at + el.used
                else Skip(s[el.used..], at + el.used, el.depth) == Skip(s, at, depth))
  {
    hide TagAndBody;
  }

  lemma TakeBehind(s: Bytes, i: nat, n: nat)
    requires i <= n <= |s|
    ensures s[..n] == s[..i] + s[i..][..n - i]
  {
  }

  /** Inside groups, what the skipper has read completes them one after the other. */
  lemma {:induction false} LevelsTaken(s: Bytes, at: nat, depth: nat) returns (ls: seq<Level>)
    requires depth >= 1 && Skip(s, at, depth).Ok? && Skip(s, at, depth).value - at <= |s|
    ensures |ls| == depth && WellLevels(ls) && LevelBytes(ls) == s[..Skip(s, at, depth).value - at]
    decreases |s|
  {
    hide Skip, TagAndBody, WellFormed, CompleteVarint, Number64, BytesAll;
    Opened(s, at, depth);
    var el, n := TagAndBody(s, depth).value, Skip(s, at, depth).value - at;
    if el.depth == 0 {
      BracketTaken(s, depth);
      ls := [Level([], s[..n])];
      LevelsDone(s[..n]);
    } else {
      var rest := LevelsTaken(s[el.used..], at + el.used, el.depth);
      TakeBehind(s, el.used, n);
      if el.depth == depth {
        var r := PlainTaken(s, depth);
        ls := LevelsField(r, rest);
      } else {
        BracketTaken(s, depth);
        ls := if el.depth == depth + 1 then LevelsOpen(s[..el.used], rest) else [Level([], s[..el.used])] + rest;
        if el.depth == depth + 1 {
          LevelsOpenWell(s[..el.used], rest);
        } else {
          LevelsClose(s[..el.used], rest);
        }
      }
    }
  }

  lemma LevelsDone(close: Bytes)
    requires Closes(close)
    ensures WellLevels([Level([], close)]) && LevelBytes([Level([], close)]) == close
  {
    assert LevelBytes([Level([], close)]) == [] + (close + LevelBytes([]));
  }

  lemma LevelsClose(close: Bytes, rest: seq<Level>)
    requires Closes(close) && WellLevels(rest)
    ensures WellLevels([Level([], close)] + rest) && LevelBytes([Level([], close)] + rest) == close + LevelBytes(rest)
  {
    hide Closes, WellFormed;
    assert ([Level([], close)] + rest)[1..] == rest;
    assert [] + (close + LevelBytes(rest)) == close + LevelBytes(rest);
  }

  /** A record in front of the innermost group's rest. */
  lemma LevelsField(r: Record, rest: seq<Level>) returns (ls: seq<Level>)
    requires WellFormed(r) && rest != [] && WellLevels(rest)
    ensures |ls| == |rest| && WellLevels(ls) && LevelBytes(ls) == Bytes1(r) + LevelBytes(rest)
    ensures ls == [Level([r] + rest[0].fields, rest[0].close)] + rest[1..]
  {
    hide WellFormed, Bytes1, Closes;
    ls := [Level([r] + rest[0].fields, rest[0].close)] + rest[1..];
    assert ls[1..] == rest[1..] && ([r] + rest[0].fields)[1..] == rest[0].fields;
    assert LevelBytes(ls) == Bytes1(r) + BytesAll(rest[0].fields) + (rest[0].close + LevelBytes(rest[1..]));
  }

  /** A group opened by tag, ended by the innermost level, is a record of the next. */
  function LevelsOpen(tag: Bytes, rest: seq<Level>): seq<Level>
    requires |rest| >= 2
  {
    var r := GroupRec(tag, rest[0].fields, rest[0].close);
    [Level([r] + rest[1].fields, rest[1].close)] + rest[2..]
  }

  lemma LevelsOpenWell(tag: Bytes, rest: seq<Level>)
    requires |rest| >= 2 && WellLevels(rest) && CompleteVarint(tag) && Number64(tag) % 8 == 3
    ensures WellLevels(LevelsOpen(tag, rest)) && LevelBytes(LevelsOpen(tag, rest)) == tag + LevelBytes(rest)
  {
    hide WellFormed, Closes, Bytes1, BytesAll, LevelBytes;
    GroupOfLevel(tag, rest);
    var r := GroupRec(tag, rest[0].fields, rest[0].close);
    var ls := LevelsField(r, rest[1..]);
    assert rest[1..][1..] == rest[2..] && rest[1..][0] == rest[1];
  }

  lemma GroupOfLevel(tag: Bytes, ls: seq<Level>)
    requires ls != [] && WellLevels(ls) && CompleteVarint(tag) && Number64(tag) % 8 == 3
    ensures var r := GroupRec(tag, ls[0].fields, ls[0].close);
            WellFormed(r) && Bytes1(r) + LevelBytes(ls[1..]) == tag + LevelBytes(ls)
  {
    hide CompleteVarint, Number64, BytesAll;
  }

  /** Outside groups, what the skipper has read is one record. */
  lemma RecordTaken(s: Bytes, at: nat) returns (r: Record)
    requires Skip(s, at, 0).Ok? && Skip(s, at, 0).value - at <= |s|
    ensures WellFormed(r) && Bytes1(r) == s[..Skip(s, at, 0).value - at]
    ensures r.tag == s[..|Scan(s, 0).digits|]
  {
    hide Skip, TagAndBody, CompleteVarint, Number64, Scan, BytesAll;
    Opened(s, at, 0);
    var el, n := TagAndBody(s, 0).value, Skip(s, at, 0).value - at;
    if el.depth == 0 {
      r := PlainTaken(s, 0);
    } else {
      BracketTaken(s, 0);
      var ls := LevelsTaken(s[el.used..], at + el.used, 1);
      TakeBehind(s, el.used, n);
      r := GroupRec(s[..el.used], ls[0].fields, ls[0].close);
      assert LevelBytes(ls) == BytesAll(ls[0].fields) + (ls[0].close + []) by {
        assert ls[1..] == [];
      }
      assert ls[0].close + [] == ls[0].close;
    }
  }

  /** The skipper succeeds within the buffer exactly on a record, and returns its length. */
  lemma SkipIff(s: Bytes, n: nat)
    requires |s| <= MAX_INT && n <= |s|
    ensures Skip(s, 0, 0) == Ok(n) <==> exists r :: WellFormed(r) && Bytes1(r) == s[..n]
  {
    hide Skip, WellFormed, Bytes1;
    if Skip(s, 0, 0) == Ok(n) {
      var r := RecordTaken(s, 0);
    } else if r :| WellFormed(r) && Bytes1(r) == s[..n] {
      assert s == s[..n] + s[n..];
      SkipOne(r, s[n..], 0, 0);
      assert false;
    }
  }

  // ----- what a decoder makes of records -----

  function FieldOf(r: Record): int { FieldNumber(Number64(r.tag)) }

  /** One record taken into m; None if the schema refuses it. */
  function Take<M>(r: Record, m: M, schema: Schema<M>): Option<M>
  {
    var num := FieldOf(r);
    if num <= 0 then None
    else if num !in schema.kinds then Some(m)
    else if schema.kinds[num] == Counted then
      if r.CountedRec? then Accepted(schema.put(m, Payload(num, r.bytes))) else None
    else
      if r.VarintRec? then Accepted(schema.put(m, Integer(num, Spells(r.value)))) else None
  }

  function Accepted<M>(o: Outcome<M>): Option<M> { if o.err == None then Some(o.msg) else None }

  /** The records taken one after the other. */
  function Replay<M>(rs: seq<Record>, m: M, schema: Schema<M>): Option<M>
  {
    if rs == [] then Some(m)
    else
      var o := Take(rs[0], m, schema);
      if o == None then None else Replay(rs[1..], o.value, schema)
  }

  /** What the field loop reads at the start of a record. */
  lemma TagRead(r: Record, rest: Bytes)
    requires WellFormed(r)
    ensures var s := Bytes1(r) + rest;
            var v := Scan(s, 0);
            && v.err == None && |v.digits| == |r.tag| && v.Raw() == Spells(r.tag)
            && s[|r.tag|..] == Bytes1(r)[|r.tag|..] + rest
  {
    hide Scan, Spells, BytesAll;
    var body := Bytes1(r)[|r.tag|..];
    NotEmpty(r);
    assert Bytes1(r) + rest == r.tag + (body + rest);
    ScanComplete(r.tag, body + rest, 0);
  }

  lemma ReadUnknownNumber(r: Record, rest: Bytes, at: nat, kinds: map<int, Kind>)
    requires WellFormed(r) && at + |Bytes1(r)| <= MAX_INT && FieldOf(r) > 0 && FieldOf(r) !in kinds
    ensures ReadField(Bytes1(r) + rest, at, kinds) == Read(None, |Bytes1(r)|, None)
  {
    hide Skip, Scan, Bytes1, Spells, WellFormed;
    TagRead(r, rest);
    NotEndGroup(r);
    SkipOne(r, rest, 0, 0);
  }

  lemma NotEndGroup(r: Record)
    requires WellFormed(r)
    ensures Number64(r.tag) % 8 == WireType(r) != 4
  {
  }

  lemma ReadKnownCounted(r: Record, rest: Bytes, at: nat, kinds: map<int, Kind>)
    requires WellFormed(r) && at + |Bytes1(r)| <= MAX_INT && FieldOf(r) > 0
    requires FieldOf(r) in kinds && kinds[FieldOf(r)] == Counted
    ensures if r.CountedRec? then
              ReadField(Bytes1(r) + rest, at, kinds) == Read(Some(Payload(FieldOf(r), r.bytes)), |Bytes1(r)|, None)
            else ReadField(Bytes1(r) + rest, at, kinds).err.Some?
  {
    hide Scan, Spells, CompleteVarint, BytesAll;
    TagRead(r, rest);
    NotEndGroup(r);
    if r.CountedRec? {
      assert Bytes1(r)[|r.tag|..] == r.length + r.bytes;
      CountedBody(r.length, r.bytes, rest, at + |r.tag|, FieldOf(r));
    }
  }

  lemma CountedBody(l: Bytes, b: Bytes, rest: Bytes, at: nat, num: int)
    requires CompleteVarint(l) && Number64(l) == |b| && at + |l + b| <= MAX_INT
    ensures ReadCounted(l + b + rest, at, num) == Read(Some(Payload(num, b)), |l + b|, None)
  {
    hide Scan, Spells, CompleteVarint;
    ScanWhole(l, b + rest);
    assert l + b + rest == l + (b + rest);
    assert (l + b + rest)[|l|..|l| + |b|] == b;
  }

  lemma ReadKnownVarint(r: Record, rest: Bytes, at: nat, kinds: map<int, Kind>)
    requires WellFormed(r) && FieldOf(r) > 0
    requires FieldOf(r) in kinds && kinds[FieldOf(r)] == Kind.Number
    ensures if r.VarintRec? then
              ReadField(Bytes1(r) + rest, at, kinds) ==
              Read(Some(Integer(FieldOf(r), Spells(r.value))), |Bytes1(r)|, None)
            else ReadField(Bytes1(r) + rest, at, kinds).err.Some?
  {
    hide Scan, Spells, CompleteVarint, BytesAll;
    TagRead(r, rest);
    NotEndGroup(r);
    if r.VarintRec? {
      assert Bytes1(r)[|r.tag|..] == r.value;
      ScanWhole(r.value, rest);
    }
  }

  lemma ReadIllegal(r: Record, rest: Bytes, at: nat, kinds: map<int, Kind>)
    requires WellFormed(r) && FieldOf(r) <= 0
    ensures ReadField(Bytes1(r) + rest, at, kinds).err.Some?
  {
    hide Scan, Spells, Bytes1, WellFormed;
    TagRead(r, rest);
    NotEndGroup(r);
  }

  /** Decoding a record and what follows is taking the record and decoding what follows. */
  lemma DecodeRecord<M>(r: Record, rest: Bytes, at: nat, m: M, schema: Schema<M>)
    requires WellFormed(r) && at + |Bytes1(r)| <= MAX_INT
    ensures var o := Take(r, m, schema);
            var d := Decode(Bytes1(r) + rest, at, m, schema);
            if o == None then d.err.Some? else d == Decode(rest, at + |Bytes1(r)|, o.value, schema)
  {
    hide ReadField, Spells, FieldOf, Bytes1, WellFormed;
    NotEmpty(r);
    assert (Bytes1(r) + rest)[|Bytes1(r)|..] == rest;
    if FieldOf(r) <= 0 {
      ReadIllegal(r, rest, at, schema.kinds);
    } else if FieldOf(r) !in schema.kinds {
      ReadUnknownNumber(r, rest, at, schema.kinds);
    } else if schema.kinds[FieldOf(r)] == Counted {
      ReadKnownCounted(r, rest, at, schema.kinds);
    } else {
      ReadKnownVarint(r, rest, at, schema.kinds);
    }
  }

  /** A round of the field loop that succeeds has read one record. */
  lemma FieldTaken(s: Bytes, at: nat, kinds: map<int, Kind>) returns (r: Record)
    requires ReadField(s, at, kinds).err == None
    ensures WellFormed(r) && Bytes1(r) == s[..ReadField(s, at, kinds).used]
  {
    hide Scan, Spells, CompleteVarint, Skip, BytesAll;
    ScanTakesVarint(s);
    var n, used := |Scan(s, 0).digits|, ReadField(s, at, kinds).used;
    var wire := Scan(s, 0).Raw() % TWO_64;
    if FieldNumber(wire) !in kinds {
      r := RecordTaken(s, 0);
    } else {
      TakeBehind(s, n, used);
      if kinds[FieldNumber(wire)] == Counted {
        r := CountedTaken(s[n..], s[..n], used - n);
      } else {
        ScanTakesVarint(s[n..]);
        r := VarintRec(s[..n], s[n..][..used - n]);
      }
    }
  }

  lemma {:induction false} DecodeRecords<M>(rs: seq<Record>, at: nat, m: M, schema: Schema<M>)
    requires AllWellFormed(rs) && at + |BytesAll(rs)| <= MAX_INT
    ensures var o := Replay(rs, m, schema);
            var d := Decode(BytesAll(rs), at, m, schema);
            if o == None then d.err.Some? else d == Outcome(o.value, None)
    decreases |rs|
  {
    hide Decode, Take, Bytes1, WellFormed;
    if rs == [] {
      DecodeNothing(at, m, schema);
    } else {
      DecodeRecord(rs[0], BytesAll(rs[1..]), at, m, schema);
      var o := Take(rs[0], m, schema);
      if o.Some? {
        DecodeRecords(rs[1..], at + |Bytes1(rs[0])|, o.value, schema);
      }
    }
  }

  lemma {:induction false} RecordsTaken<M>(s: Bytes, at: nat, m: M, schema: Schema<M>) returns (rs: seq<Record>)
    requires Decode(s, at, m, schema).err == None
    ensures AllWellFormed(rs) && BytesAll(rs) == s
    decreases |s|
  {
    hide ReadField, Bytes1, WellFormed;
    if s == [] {
      rs := [];
    } else {
      var r := FieldTaken(s, at, schema.kinds);
      var read := ReadField(s, at, schema.kinds);
      var rest := RecordsTaken(s[read.used..], at + read.used, Apply(read, m, schema).msg, schema);
      rs := [r] + rest;
      assert rs[1..] == rest && s == s[..read.used] + s[read.used..];
    }
  }

  /** The decoder's language: it succeeds exactly on concatenations of records that its schema takes
      one after the other, and the message is what they leave. */
  lemma DecodeIff<M>(s: Bytes, m: M, m': M, schema: Schema<M>)
    requires |s| <= MAX_INT
    ensures Decode(s, 0, m, schema) == Outcome(m', None) <==>
            exists rs :: AllWellFormed(rs) && BytesAll(rs) == s && Replay(rs, m, schema) == Some(m')
  {
    hide Decode, AllWellFormed, BytesAll, Replay;
    if Decode(s, 0, m, schema) == Outcome(m', None) {
      var rs := RecordsTaken(s, 0, m, schema);
      DecodeRecords(rs, 0, m, schema);
    } else if rs :| AllWellFormed(rs) && BytesAll(rs) == s && Replay(rs, m, schema) == Some(m') {
      DecodeRecords(rs, 0, m, schema);
      assert false;
    }
  }

  // ----- bytes have at most one reading -----

  lemma {:induction false} SameRecord(r: Record, x: Bytes, r': Record, y: Bytes)
    requires WellFormed(r) && WellFormed(r') && Bytes1(r) + x == Bytes1(r') + y
    ensures r == r' && x == y
    decreases r, 1
  {
    hide Scan, Spells, WellFormed, BytesAll, CompleteVarint;
    SameTag(r, x, r', y);
    match r
    case VarintRec(_, v) => SameVarint(r, x, r', y);
    case Fixed64Rec(_, _) => SameFixed(r, x, r', y);
    case CountedRec(_, _, _) => SameCounted(r, x, r', y);
    case Fixed32Rec(_, _) => SameFixed(r, x, r', y);
    case GroupRec(_, rs, close) =>
      GroupParts(r, x);
      GroupParts(r', y);
      SameFields(rs, close, x, r'.fields, r'.close, y);
  }

  lemma GroupParts(r: Record, x: Bytes)
    requires WellFormed(r) && r.GroupRec?
    ensures AllWellFormed(r.fields) && Closes(r.close)
    ensures Bytes1(r)[|r.tag|..] + x == BytesAll(r.fields) + (r.close + x)
  {
    hide CompleteVarint, Number64, Closes;
    GroupBytes(r, x);
  }

  lemma GroupBytes(r: Record, x: Bytes)
    requires r.GroupRec?
    ensures |Bytes1(r)| >= |r.tag| && Bytes1(r)[|r.tag|..] + x == BytesAll(r.fields) + (r.close + x)
  {
    hide BytesAll;
    assert Bytes1(r)[|r.tag|..] == BytesAll(r.fields) + r.close;
  }

  lemma SameTag(r: Record, x: Bytes, r': Record, y: Bytes)
    requires WellFormed(r) && WellFormed(r') && Bytes1(r) + x == Bytes1(r') + y
    ensures r.tag == r'.tag && WireType(r) == WireType(r')
    ensures Bytes1(r)[|r.tag|..] + x == Bytes1(r')[|r'.tag|..] + y
  {
    hide Scan, Spells, WellFormed, Bytes1;
    TagRead(r, x);
    TagRead(r', y);
    NotEmpty(r);
    NotEmpty(r');
    NotEndGroup(r);
    NotEndGroup(r');
    assert (Bytes1(r) + x)[..|r.tag|] == r.tag && (Bytes1(r') + y)[..|r'.tag|] == r'.tag;
  }

  lemma SameVarint(r: Record, x: Bytes, r': Record, y: Bytes)
    requires WellFormed(r) && WellFormed(r') && r.VarintRec? && r'.VarintRec? && r.tag == r'.tag
    requires Bytes1(r)[|r.tag|..] + x == Bytes1(r')[|r'.tag|..] + y
    ensures r == r' && x == y
  {
    hide Scan, Spells, CompleteVarint;
    assert Bytes1(r)[|r.tag|..] == r.value && Bytes1(r')[|r'.tag|..] == r'.value;
    SamePrefix(r.value, x, r'.value, y);
  }

  lemma SamePrefix(b: Bytes, x: Bytes, b': Bytes, y: Bytes)
    requires CompleteVarint(b) && CompleteVarint(b') && b + x == b' + y
    ensures b == b' && x == y
  {
    hide Scan, Spells, CompleteVarint;
    ScanWhole(b, x);
    ScanWhole(b', y);
    assert (b + x)[..|b|] == b && (b' + y)[..|b'|] == b';
  }

  lemma SameFixed(r: Record, x: Bytes, r': Record, y: Bytes)
    requires WellFormed(r) && WellFormed(r') && r.tag == r'.tag && WireType(r) == WireType(r')
    requires r.Fixed64Rec? || r.Fixed32Rec?
    requires Bytes1(r)[|r.tag|..] + x == Bytes1(r')[|r'.tag|..] + y
    ensures r == r' && x == y
  {
    hide Spells, CompleteVarint;
    var b, b' := r.bytes, r'.bytes;
    assert Bytes1(r)[|r.tag|..] == b && Bytes1(r')[|r'.tag|..] == b';
    assert (b + x)[..|b|] == b && (b' + y)[..|b'|] == b' && (b + x)[|b|..] == x && (b' + y)[|b'|..] == y;
  }

  lemma SameCounted(r: Record, x: Bytes, r': Record, y: Bytes)
    requires WellFormed(r) && WellFormed(r') && r.CountedRec? && r'.CountedRec? && r.tag == r'.tag
    requires Bytes1(r)[|r.tag|..] + x == Bytes1(r')[|r'.tag|..] + y
    ensures r == r' && x == y
  {
    hide Scan, Spells, CompleteVarint;
    var b, b' := r.bytes, r'.bytes;
    assert Bytes1(r)[|r.tag|..] + x == r.length + (b + x) && Bytes1(r')[|r'.tag|..] + y == r'.length + (b' + y);
    SamePrefix(r.length, b + x, r'.length, b' + y);
    assert (b + x)[..|b|] == b && (b' + y)[..|b'|] == b' && (b + x)[|b|..] == x && (b' + y)[|b'|..] == y;
  }

  /** No record starts like the end of a group. */
  lemma NotAClose(close: Bytes, x: Bytes, r: Record, y: Bytes)
    requires Closes(close) && WellFormed(r)
    ensures close + x != Bytes1(r) + y
  {
    hide Scan, Spells, Bytes1, WellFormed, CompleteVarint;
    ScanWhole(close, x);
    TagRead(r, y);
    NotEndGroup(r);
  }

  lemma {:induction false} SameFields(rs: seq<Record>, close: Bytes, x: Bytes,
                                      rs': seq<Record>, close': Bytes, y: Bytes)
    requires AllWellFormed(rs) && AllWellFormed(rs') && Closes(close) && Closes(close')
    requires BytesAll(rs) + (close + x) == BytesAll(rs') + (close' + y)
    ensures rs == rs' && close == close' && x == y
    decreases rs, 0
  {
    hide WellFormed, Closes, Bytes1;
    var z, z' := close + x, close' + y;
    if rs != [] {
      assert BytesAll(rs) + z == Bytes1(rs[0]) + (BytesAll(rs[1..]) + z);
    }
    if rs' != [] {
      assert BytesAll(rs') + z' == Bytes1(rs'[0]) + (BytesAll(rs'[1..]) + z');
    }
    if rs != [] && rs' != [] {
      SameRecord(rs[0], BytesAll(rs[1..]) + z, rs'[0], BytesAll(rs'[1..]) + z');
      SameFields(rs[1..], close, x, rs'[1..], close', y);
      assert rs == [rs[0]] + rs[1..] && rs' == [rs'[0]] + rs'[1..];
    } else if rs != [] {
      assert BytesAll(rs') + z' == z';
      NotAClose(close', y, rs[0], BytesAll(rs[1..]) + z);
    } else if rs' != [] {
      assert BytesAll(rs) + z == z;
      NotAClose(close, x, rs'[0], BytesAll(rs'[1..]) + z');
    } else {
      assert BytesAll(rs) + z == z && BytesAll(rs') + z' == z';
      SameClose(close, x, close', y);
    }
  }

  lemma SameClose(close: Bytes, x: Bytes, close': Bytes, y: Bytes)
    requires Closes(close) && Closes(close') && close + x == close' + y
    ensures close == close' && x == y
  {
    hide CompleteVarint;
    SamePrefix(close, x, close', y);
  }

  /** The format is unambiguous: bytes are the concatenation of at most one sequence of records. */
  lemma {:induction false} OneReading(rs: seq<Record>, rs': seq<Record>)
    requires AllWellFormed(rs) && AllWellFormed(rs') && BytesAll(rs) == BytesAll(rs')
    ensures rs == rs'
    decreases |rs|
  {
    hide WellFormed, Bytes1;
    if rs != [] {
      NotEmpty(rs[0]);
    }
    if rs' != [] {
      NotEmpty(rs'[0]);
    }
    if rs != [] && rs' != [] {
      SameRecord(rs[0], BytesAll(rs[1..]), rs'[0], BytesAll(rs'[1..]));
      OneReading(rs[1..], rs'[1..]);
      assert rs == [rs[0]] + rs[1..] && rs' == [rs'[0]] + rs'[1..];
    }
  }

  // ----- what a decoder answers on bytes it refuses -----

  /** n bytes that each announce another one. */
  predicate GoesOn(s: Bytes, n: nat) { n <= |s| && forall i :: 0 <= i < n ==> s[i] >= 128 }

  lemma {:induction false} ScanRefuses(s: Bytes, k: nat)
    requires k <= 10
    ensures Scan(s, 7 * (10 - k)).err == Some(IntOverflow) <==> GoesOn(s, k)
    ensures Scan(s, 7 * (10 - k)).err == Some(UnexpectedEOF) <==> |s| < k && GoesOn(s, |s|)
    ensures Scan(s, 7 * (10 - k)).err in {None, Some(IntOverflow), Some(UnexpectedEOF)}
    decreases k
  {
    if k > 0 && s != [] && s[0] >= 128 {
      ScanRefuses(s[1..], k - 1);
      assert forall i :: 1 <= i < |s| ==> s[1..][i - 1] == s[i];
      assert GoesOn(s, k) <==> GoesOn(s[1..], k - 1);
      assert GoesOn(s, |s|) <==> GoesOn(s[1..], |s| - 1);
    }
  }

  /** A varint is refused as too long if ten bytes announce another one, and as cut off if all do and
      there are fewer. */
  lemma VarintRefused(s: Bytes)
    ensures Scan(s, 0).err == Some(IntOverflow) <==> GoesOn(s, 10)
    ensures Scan(s, 0).err == Some(UnexpectedEOF) <==> |s| < 10 && GoesOn(s, |s|)
  {
    hide GoesOn, Scan;
    ScanRefuses(s, 10);
  }

  /** Without a complete tag. */
  lemma TagRefused<M>(s: Bytes, at: nat, m: M, schema: Schema<M>)
    requires s != [] && Scan(s, 0).err.Some?
    ensures Decode(s, at, m, schema) == Outcome(m, if GoesOn(s, 10) then Some(IntOverflow) else Some(UnexpectedEOF))
  {
    hide Scan, GoesOn;
    ScanRefuses(s, 10);
  }

  /** With a tag that cannot stand here: an end of group, a number that is not positive, or a number the
      schema knows under another wire type. The message stays as it is. */
  lemma NumberRefused<M>(tag: Bytes, rest: Bytes, at: nat, m: M, schema: Schema<M>)
    requires CompleteVarint(tag)
    ensures var wire, num := Number64(tag), FieldNumber(Number64(tag));
            var d := Decode(tag + rest, at, m, schema);
            if wire % 8 == 4 then d == Outcome(m, Some(EndGroupForNonGroup))
            else if num <= 0 then d == Outcome(m, Some(IllegalTag))
            else num in schema.kinds && wire % 8 != (if schema.kinds[num] == Counted then 2 else 0) ==>
                   d == Outcome(m, Some(WrongWireType(num)))
  {
    hide Scan, Spells, CompleteVarint, ReadCounted, ReadNumber, ReadUnknown, FieldNumber;
    ScanWhole(tag, rest);
    VarintNotEmpty(tag);
  }

  /** A known counted field whose length is cut off, too long, negative as an int, or more than there is. */
  lemma LengthRefused<M>(tag: Bytes, rest: Bytes, at: nat, m: M, schema: Schema<M>)
    requires CompleteVarint(tag) && Number64(tag) % 8 == 2 && FieldNumber(Number64(tag)) > 0
    requires FieldNumber(Number64(tag)) in schema.kinds && schema.kinds[FieldNumber(Number64(tag))] == Counted
    requires Scan(rest, 0).err.Some?
    ensures Decode(tag + rest, at, m, schema) ==
            Outcome(m, if GoesOn(rest, 10) then Some(IntOverflow) else Some(UnexpectedEOF))
  {
    hide Scan, Spells, CompleteVarint, GoesOn, FieldNumber;
    ScanWhole(tag, rest);
    VarintNotEmpty(tag);
    ScanRefuses(rest, 10);
  }

  lemma PayloadRefused<M>(tag: Bytes, l: Bytes, rest: Bytes, at: nat, m: M, schema: Schema<M>)
    requires CompleteVarint(tag) && Number64(tag) % 8 == 2 && FieldNumber(Number64(tag)) > 0
    requires FieldNumber(Number64(tag)) in schema.kinds && schema.kinds[FieldNumber(Number64(tag))] == Counted
    requires CompleteVarint(l) && Number64(l) > |rest| && at + |tag| + |l| + |rest| <= MAX_INT
    ensures Decode(tag + (l + rest), at, m, schema) ==
            Outcome(m, if Number64(l) > MAX_INT - at - |tag| - |l| then Some(InvalidLength) else Some(UnexpectedEOF))
  {
    hide Scan, Spells, CompleteVarint, FieldNumber, ReadNumber, ReadUnknown;
    ScanWhole(tag, l + rest);
    ScanWhole(l, rest);
    VarintNotEmpty(tag);
  }

  /** A known number that is cut off or too long: the digits read so far are in the message. */
  lemma ValueRefused<M>(tag: Bytes, rest: Bytes, at: nat, m: M, schema: Schema<M>)
    requires CompleteVarint(tag) && Number64(tag) % 8 == 0 && FieldNumber(Number64(tag)) > 0
    requires FieldNumber(Number64(tag)) in schema.kinds && schema.kinds[FieldNumber(Number64(tag))] == Kind.Number
    requires Scan(rest, 0).err.Some?
    ensures var read := if GoesOn(rest, 10) then rest[..10] else rest;
            Decode(tag + rest, at, m, schema) ==
            Outcome(schema.put(m, Integer(FieldNumber(Number64(tag)), Spells(read))).msg,
                    if GoesOn(rest, 10) then Some(IntOverflow) else Some(UnexpectedEOF))
  {
    hide Scan, Spells, CompleteVarint, GoesOn, FieldNumber, ReadCounted, ReadUnknown;
    ScanWhole(tag, rest);
    VarintNotEmpty(tag);
    ScanRefuses(rest, 10);
    RefusedDigits(rest, 10);
  }

  /** The digits of a refused varint are those of its first ten bytes, or of all. */
  lemma {:induction false} RefusedDigits(s: Bytes, k: nat)
    requires k <= 10 && Scan(s, 7 * (10 - k)).err.Some?
    ensures Scan(s, 7 * (10 - k)).Raw() == Spells(if GoesOn(s, k) then s[..k] else s)
    decreases k
  {
    if k > 0 && s != [] {
      RefusedDigits(s[1..], k - 1);
      assert forall i :: 1 <= i < |s| ==> s[1..][i - 1] == s[i];
      assert GoesOn(s, k) <==> GoesOn(s[1..], k - 1);
      if GoesOn(s, k) {
        assert s[..k][1..] == s[1..][..k - 1];
      }
    }
  }

  /** What the skipper answers, at any depth, on an element it refuses: a wire type that does not exist,
      an end of group outside any, a number or length that is too long or cut off. */
  lemma SkipRefused(tag: Bytes, rest: Bytes, at: nat, depth: nat)
    requires CompleteVarint(tag)
    ensures Number64(tag) % 8 >= 6 ==> Skip(tag + rest, at, depth) == Err(IllegalWireType)
    ensures Number64(tag) % 8 == 4 && depth == 0 ==> Skip(tag + rest, at, depth) == Err(UnexpectedEndOfGroup)
    ensures Number64(tag) % 8 in {0, 2} && Scan(rest, 0).err.Some? ==>
              Skip(tag + rest, at, depth) == Err(if GoesOn(rest, 10) then IntOverflow else UnexpectedEOF)
  {
    hide Scan, Spells, CompleteVarint, GoesOn;
    ScanWhole(tag, rest);
    VarintNotEmpty(tag);
    ScanRefuses(rest, 10);
  }

  /** A length that is negative as an int or wraps the index, and, inside a group, one that leaves
      nothing for the group's end. */
  lemma SkipLengthRefused(tag: Bytes, l: Bytes, rest: Bytes, at: nat, depth: nat)
    requires CompleteVarint(tag) && CompleteVarint(l) && Number64(tag) % 8 == 2 && at + |tag| + |l| <= MAX_INT
    ensures var r := Skip(tag + (l + rest), at, depth);
            if Number64(l) > MAX_INT - at - |tag| - |l| then r == Err(InvalidLength)
            else Number64(l) >= |rest| && depth > 0 ==> r == Err(UnexpectedEOF)
  {
    hide Scan, Spells, CompleteVarint;
    ScanWhole(tag, l + rest);
    ScanWhole(l, rest);
    VarintNotEmpty(tag);
  }

  /** Inside a group, a fixed-width value that leaves nothing for the group's end. */
  lemma SkipFixedRefused(tag: Bytes, rest: Bytes, at: nat, depth: nat)
    requires CompleteVarint(tag) && depth > 0 && at + |tag| + 8 <= MAX_INT
    ensures Number64(tag) % 8 == 1 && |rest| <= 8 ==> Skip(tag + rest, at, depth) == Err(UnexpectedEOF)
    ensures Number64(tag) % 8 == 5 && |rest| <= 4 ==> Skip(tag + rest, at, depth) == Err(UnexpectedEOF)
  {
    hide Scan, Spells, CompleteVarint;
    ScanWhole(tag, rest);
    VarintNotEmpty(tag);
  }

  /** A field of an unknown number that the skipper refuses, or whose end lies behind the buffer's. */
  lemma UnknownRefused<M>(tag: Bytes, rest: Bytes, at: nat, m: M, schema: Schema<M>)
    requires CompleteVarint(tag) && Number64(tag) % 8 != 4
    requires FieldNumber(Number64(tag)) > 0 && FieldNumber(Number64(tag)) !in schema.kinds
    ensures var r, d := Skip(tag + rest, 0, 0), Decode(tag + rest, at, m, schema);
            match r
            case Err(e) => d == Outcome(m, Some(e))
            case Ok(n) =>
              n > |tag + rest| ==>
                d == Outcome(m, if n > MAX_INT - at then Some(InvalidLength) else Some(UnexpectedEOF))
  {
    hide Scan, Spells, CompleteVarint, Skip, FieldNumber, ReadKnown;
    ScanWhole(tag, rest);
    VarintNotEmpty(tag);
  }

  // ----- records of unknown numbers -----

  /** A decoder that does not know the record's number leaves the message as it is. */
  lemma DecodeForeign<M>(r: Record, at: nat, m: M, schema: Schema<M>)
    requires WellFormed(r) && at + |Bytes1(r)| <= MAX_INT && FieldOf(r) > 0 && FieldOf(r) !in schema.kinds
    ensures Decode(Bytes1(r), at, m, schema) == Outcome(m, None)
  {
    hide Decode, WellFormed, Bytes1;
    DecodeRecord(r, [], at, m, schema);
    assert Bytes1(r) + [] == Bytes1(r);
    DecodeNothing(at + |Bytes1(r)|, m, schema);
  }

  /** Inserting an unknown record between fields does not change what is decoded. */
  lemma InsertForeign<M>(x: Bytes, r: Record, y: Bytes, m: M, schema: Schema<M>)
    requires Decode(x, 0, m, schema).err == None
    requires WellFormed(r) && FieldOf(r) > 0 && FieldOf(r) !in schema.kinds
    requires |x| + |Bytes1(r)| + |y| <= MAX_INT
    ensures Agree(Decode(x + Bytes1(r) + y, 0, m, schema), Decode(x + y, 0, m, schema))
  {
    hide Decode, Bytes1, WellFormed, FieldOf, Agree;
    var o := Decode(x, 0, m, schema).msg;
    var n := |x| + |Bytes1(r)|;
    DecodeForeign(r, |x|, o, schema);
    DecodeConcat(x, Bytes1(r), 0, m, schema);
    DecodeConcat(x + Bytes1(r), y, 0, m, schema);
    DecodeConcat(x, y, 0, m, schema);
    DecodeMoved(y, n, |x|, o, schema);
  }
}
