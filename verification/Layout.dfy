/** What a marshaller has to write: a message's set fields, each once, as records in ascending order
    of their numbers, with every tag, length and number in its shortest spelling. */
module Layout {
  import opened Words
  import opened Varint
  import opened Wire
  import opened Fields
  import opened Records

  datatype Content = Text(bytes: Bytes) | Amount(value: nat)

  /** A complete varint without needless zero digits. */
  predicate Shortest(b: Bytes)
  {
    CompleteVarint(b) && (|b| == 1 || b[|b| - 1] != 0)
  }

  /** r is the record of field num with this content. */
  predicate Carries(r: Record, num: int, c: Content)
  {
    && WellFormed(r) && Shortest(r.tag) && Spells(r.tag) == 8 * num + WireType(r) && FieldOf(r) == num
    && match c
       case Text(b) => r.CountedRec? && Shortest(r.length) && Spells(r.length) == |b| && r.bytes == b
       case Amount(v) => r.VarintRec? && Shortest(r.value) && Spells(r.value) == v
  }

  ghost predicate Lays(rs: seq<Record>, fields: map<int, Content>)
  {
    && (forall i :: 0 <= i < |rs| ==>
          FieldOf(rs[i]) in fields && Carries(rs[i], FieldOf(rs[i]), fields[FieldOf(rs[i])]))
    && (forall i, j :: 0 <= i < j < |rs| ==> FieldOf(rs[i]) < FieldOf(rs[j]))
    && (forall n :: n in fields ==> exists i :: 0 <= i < |rs| && FieldOf(rs[i]) == n)
  }

  /** b is the wire form of a message with exactly these fields set. */
  ghost predicate IsLayout(b: Bytes, fields: map<int, Content>)
  {
    exists rs :: Lays(rs, fields) && BytesAll(rs) == b
  }

  // ----- the writers' records -----

  lemma {:induction false} EncodedLast(v: nat)
    ensures var b := Encode(v); |b| == 1 || b[|b| - 1] != 0
  {
    if v >= 128 {
      EncodedLast(v / 128);
      assert Encode(v)[1..] == Encode(v / 128);
      assert Encode(v)[|Encode(v)| - 1] == Encode(v / 128)[|Encode(v / 128)| - 1];
    }
  }

  lemma EncodedShortest(v: nat)
    requires v < TWO_64
    ensures Shortest(Encode(v)) && Spells(Encode(v)) == v && Number64(Encode(v)) == v
  {
    hide Encode, CompleteVarint;
    EncodedIsComplete(v);
    EncodedDigits(v);
    EncodedLast(v);
  }

  lemma OneByteTag(num: nat, wireType: nat)
    requires 1 <= num < 16 && wireType < 8
    ensures var tag := [8 * num + wireType];
            && Shortest(tag) && Spells(tag) == Number64(tag) == 8 * num + wireType
            && Number64(tag) % 8 == wireType && FieldNumber(Number64(tag)) == num
  {
    assert Spells([8 * num + wireType]) == 8 * num + wireType + 128 * Spells([]);
  }

  lemma CountedCarries(num: nat, b: Bytes)
    requires 1 <= num < 16 && |b| <= MAX_INT
    ensures var r := CountedRec([8 * num + 2], Encode(|b|), b);
            Carries(r, num, Text(b)) && Bytes1(r) == CountedRecord(num, b)
  {
    hide Encode, Shortest, Number64, Spells, FieldNumber, CompleteVarint, WellFormed, Bytes1, CountedRecord;
    OneByteTag(num, 2);
    EncodedShortest(|b|);
    ShortestComplete([8 * num + 2]);
    ShortestComplete(Encode(|b|));
    WellCounted([8 * num + 2], Encode(|b|), b);
    BytesOfCounted(num, b);
  }

  lemma BytesOfCounted(num: nat, b: Bytes)
    requires 1 <= num < 16
    ensures Bytes1(CountedRec([8 * num + 2], Encode(|b|), b)) == CountedRecord(num, b)
  {
    hide Encode, BytesAll;
  }

  lemma WellCounted(tag: Bytes, l: Bytes, b: Bytes)
    requires CompleteVarint(tag) && Number64(tag) % 8 == 2 && CompleteVarint(l) && Number64(l) == |b| <= MAX_INT
    ensures WellFormed(CountedRec(tag, l, b))
  {
    hide CompleteVarint, Number64;
  }

  lemma WellVarint(tag: Bytes, v: Bytes)
    requires CompleteVarint(tag) && Number64(tag) % 8 == 0 && CompleteVarint(v)
    ensures WellFormed(VarintRec(tag, v))
  {
    hide CompleteVarint, Number64;
  }

  lemma ShortestComplete(b: Bytes)
    requires Shortest(b)
    ensures CompleteVarint(b)
  {
  }

  lemma NumberCarries(num: nat, v: Uint64)
    requires 1 <= num < 16
    ensures var r := VarintRec([8 * num], Encode(v));
            Carries(r, num, Amount(v)) && Bytes1(r) == NumberRecord(num, v)
  {
    hide Encode, Shortest, Number64, Spells, FieldNumber, CompleteVarint, WellFormed;
    OneByteTag(num, 0);
    EncodedShortest(v);
    ShortestComplete([8 * num]);
    ShortestComplete(Encode(v));
    WellVarint([8 * num], Encode(v));
  }

  // ----- putting a layout together, last field first -----

  lemma LayNothing()
    ensures IsLayout([], map[])
  {
    assert Lays([], map[]);
    assert BytesAll([]) == [];
  }

  lemma LayRecord(r: Record, num: int, c: Content, b: Bytes, fields: map<int, Content>)
    requires Carries(r, num, c) && IsLayout(b, fields) && forall n :: n in fields ==> n > num
    ensures IsLayout(Bytes1(r) + b, fields[num := c])
  {
    hide Bytes1, BytesAll, Lays;
    var rs :| Lays(rs, fields) && BytesAll(rs) == b;
    LaysMore(r, num, c, rs, fields);
    BytesOfMore(r, rs);
    CarriesNumber(r, num, c);
  }

  lemma CarriesNumber(r: Record, num: int, c: Content)
    requires Carries(r, num, c)
    ensures FieldOf(r) == num
  {
  }

  lemma BytesOfMore(r: Record, rs: seq<Record>)
    ensures BytesAll([r] + rs) == Bytes1(r) + BytesAll(rs)
  {
    hide Bytes1;
    assert ([r] + rs)[1..] == rs;
  }

  lemma LaysMore(r: Record, num: int, c: Content, rs: seq<Record>, fields: map<int, Content>)
    requires Carries(r, num, c) && Lays(rs, fields) && forall n :: n in fields ==> n > num
    ensures Lays([r] + rs, fields[num := c])
  {
    hide Carries, FieldOf;
    CarriesNumber(r, num, c);
    var all, more := [r] + rs, fields[num := c];
    forall i | 0 <= i < |all|
      ensures FieldOf(all[i]) in more && Carries(all[i], FieldOf(all[i]), more[FieldOf(all[i])])
    {
      if i > 0 {
        assert all[i] == rs[i - 1];
      }
    }
    forall n | n in more
      ensures exists i :: 0 <= i < |all| && FieldOf(all[i]) == n
    {
      if n == num {
        assert FieldOf(all[0]) == n;
      } else {
        var i :| 0 <= i < |rs| && FieldOf(rs[i]) == n;
        assert all[i + 1] == rs[i];
      }
    }
  }

  lemma LayCounted(num: nat, t: Bytes, b: Bytes, fields: map<int, Content>)
    requires 1 <= num < 16 && |t| <= MAX_INT && IsLayout(b, fields) && forall n :: n in fields ==> n > num
    ensures IsLayout(CountedRecord(num, t) + b, fields[num := Text(t)])
  {
    hide IsLayout, Carries, CountedRecord, Bytes1;
    CountedCarries(num, t);
    LayRecord(CountedRec([8 * num + 2], Encode(|t|), t), num, Text(t), b, fields);
  }

  lemma LayNumber(num: nat, v: Uint64, b: Bytes, fields: map<int, Content>)
    requires 1 <= num < 16 && IsLayout(b, fields) && forall n :: n in fields ==> n > num
    ensures IsLayout(NumberRecord(num, v) + b, fields[num := Amount(v)])
  {
    hide IsLayout, Carries, NumberRecord, Bytes1;
    NumberCarries(num, v);
    LayRecord(VarintRec([8 * num], Encode(v)), num, Amount(v), b, fields);
  }

  /** The same with a field left out when it has its default value. */
  function WithText(fields: map<int, Content>, num: int, t: Bytes): map<int, Content>
  {
    if t == [] then fields else fields[num := Text(t)]
  }

  function WithAmount(fields: map<int, Content>, num: int, v: nat): map<int, Content>
  {
    if v == 0 then fields else fields[num := Amount(v)]
  }

  lemma LayCountedField(num: nat, t: Bytes, b: Bytes, fields: map<int, Content>)
    requires 1 <= num < 16 && |t| <= MAX_INT && IsLayout(b, fields) && forall n :: n in fields ==> n > num
    ensures IsLayout(CountedField(num, t) + b, WithText(fields, num, t))
  {
    hide IsLayout, CountedRecord;
    if t == [] {
      assert CountedField(num, t) + b == b;
    } else {
      LayCounted(num, t, b, fields);
    }
  }

  lemma LayNumberField(num: nat, v: Uint64, b: Bytes, fields: map<int, Content>)
    requires 1 <= num < 16 && IsLayout(b, fields) && forall n :: n in fields ==> n > num
    ensures IsLayout(NumberField(num, v) + b, WithAmount(fields, num, v))
  {
    hide IsLayout, NumberRecord;
    if v == 0 {
      assert NumberField(num, v) + b == b;
    } else {
      LayNumber(num, v, b, fields);
    }
  }

  // ----- a layout leaves no choice -----

  lemma {:induction false} SpellsLess(b: Bytes)
    requires b != [] && b[|b| - 1] != 0 && b[|b| - 1] < 128 && forall i :: 0 <= i < |b| - 1 ==> b[i] >= 128
    ensures Spells(b) > 0
  {
    if |b| > 1 {
      SpellsLess(b[1..]);
    } else {
      assert Spells(b) == b[0] % 128 + 128 * Spells([]);
    }
  }

  /** A number has one shortest spelling. */
  lemma {:induction false} OneSpelling(b: Bytes, b': Bytes)
    requires Shortest(b) && Shortest(b') && Spells(b) == Spells(b')
    ensures b == b'
    decreases |b|
  {
    assert Spells(b) == b[0] % 128 + 128 * Spells(b[1..]) && Spells(b') == b'[0] % 128 + 128 * Spells(b'[1..]);
    assert b[0] % 128 == b'[0] % 128 && Spells(b[1..]) == Spells(b'[1..]);
    if |b| > 1 && |b'| > 1 {
      OneSpelling(b[1..], b'[1..]);
      assert b == [b[0]] + b[1..] && b' == [b'[0]] + b'[1..];
    } else if |b| > 1 {
      assert b'[1..] == [];
      SpellsLess(b[1..]);
    } else if |b'| > 1 {
      assert b[1..] == [];
      SpellsLess(b'[1..]);
    }
  }

  lemma OneRecord(r: Record, r': Record, num: int, c: Content)
    requires Carries(r, num, c) && Carries(r', num, c)
    ensures r == r'
  {
    hide Shortest, WellFormed, Spells, FieldOf;
    OneSpelling(r.tag, r'.tag);
    match c
    case Text(b) => OneSpelling(r.length, r'.length);
    case Amount(v) => OneSpelling(r.value, r'.value);
  }

  /** The fields of a message and their contents determine its wire form. */
  lemma OneLayout(b: Bytes, b': Bytes, fields: map<int, Content>)
    requires IsLayout(b, fields) && IsLayout(b', fields)
    ensures b == b'
  {
    hide BytesAll, Lays;
    var rs :| Lays(rs, fields) && BytesAll(rs) == b;
    var rs' :| Lays(rs', fields) && BytesAll(rs') == b';
    OneReadingOf(rs, rs', fields);
  }

  lemma {:induction false} OneReadingOf(rs: seq<Record>, rs': seq<Record>, fields: map<int, Content>)
    requires Lays(rs, fields) && Lays(rs', fields)
    ensures rs == rs'
    decreases |rs|
  {
    hide Carries, FieldOf, Lays;
    if rs == [] {
      NoFields(rs', fields);
    } else {
      var num := FieldOf(rs[|rs| - 1]);
      LastNumber(rs, rs', fields);
      OneRecord(rs[|rs| - 1], rs'[|rs'| - 1], num, fields[num]);
      LaysLess(rs, fields);
      LaysLess(rs', fields);
      OneReadingOf(rs[..|rs| - 1], rs'[..|rs'| - 1], fields - {num});
      assert rs == rs[..|rs| - 1] + [rs[|rs| - 1]] && rs' == rs'[..|rs'| - 1] + [rs'[|rs'| - 1]];
    }
  }

  lemma NoFields(rs: seq<Record>, fields: map<int, Content>)
    requires Lays([], fields) && Lays(rs, fields)
    ensures rs == []
  {
    hide Carries, FieldOf;
    if rs != [] {
      FirstNumber(rs, fields);
    }
  }

  lemma FirstNumber(rs: seq<Record>, fields: map<int, Content>)
    requires Lays(rs, fields) && rs != []
    ensures FieldOf(rs[0]) in fields
  {
    hide Carries, FieldOf;
  }

  lemma LastNumber(rs: seq<Record>, rs': seq<Record>, fields: map<int, Content>)
    requires Lays(rs, fields) && Lays(rs', fields) && rs != []
    ensures rs' != [] && var num := FieldOf(rs[|rs| - 1]);
            && num == FieldOf(rs'[|rs'| - 1]) && num in fields
            && Carries(rs[|rs| - 1], num, fields[num]) && Carries(rs'[|rs'| - 1], num, fields[num])
  {
    hide Carries, FieldOf;
    var num := FieldOf(rs[|rs| - 1]);
    var i :| 0 <= i < |rs'| && FieldOf(rs'[i]) == num;
    var num' := FieldOf(rs'[|rs'| - 1]);
    var j :| 0 <= j < |rs| && FieldOf(rs[j]) == num';
  }

  lemma LaysLess(rs: seq<Record>, fields: map<int, Content>)
    requires Lays(rs, fields) && rs != []
    ensures Lays(rs[..|rs| - 1], fields - {FieldOf(rs[|rs| - 1])})
  {
    hide Carries, FieldOf;
    var n := |rs| - 1;
    forall num | num in fields - {FieldOf(rs[n])}
      ensures exists i :: 0 <= i < |rs[..n]| && FieldOf(rs[..n][i]) == num
    {
      var i :| 0 <= i < |rs| && FieldOf(rs[i]) == num;
      assert rs[..n][i] == rs[i];
    }
  }
}
