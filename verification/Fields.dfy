/** Single fields as the generated marshallers write them, backwards into a sized buffer. */
module Fields {
  import opened Words
  import opened Varint
  import opened Wire

  // ----- the bytes of one field; all field numbers here are below 16, so the tag is one byte -----

  function CountedRecord(num: nat, b: Bytes): Bytes
    requires 1 <= num < 16
  {
    [8 * num + 2] + (Encode(|b|) + b)
  }

  function NumberRecord(num: nat, v: nat): Bytes
    requires 1 <= num < 16
  {
    [8 * num] + Encode(v)
  }

  /** proto3 leaves out a string or number that has its default value. */
  function CountedField(num: nat, b: Bytes): Bytes
    requires 1 <= num < 16
  {
    if b == [] then [] else CountedRecord(num, b)
  }

  function NumberField(num: nat, v: nat): Bytes
    requires 1 <= num < 16
  {
    if v == 0 then [] else NumberRecord(num, v)
  }

  // ----- decoding a field that something follows -----

  lemma TagOfField(num: nat, wireType: nat, y: Bytes)
    requires num < 16 && wireType < 8
    ensures var tag := Scan([8 * num + wireType] + y, 0);
            && tag.err == None && |tag.digits| == 1
            && tag.Raw() % TWO_64 % 8 == wireType && FieldNumber(tag.Raw() % TWO_64) == num
    ensures ([8 * num + wireType] + y)[1..] == y
  {
    var b := 8 * num + wireType;
    assert Value([b]) == b + 128 * Value([]);
  }

  lemma ReadCountedRecord(num: nat, b: Bytes, y: Bytes, at: nat, kinds: map<int, Kind>)
    requires 1 <= num < 16 && num in kinds && kinds[num] == Counted
    requires at + |CountedRecord(num, b)| <= MAX_INT
    ensures ReadField(CountedRecord(num, b) + y, at, kinds)
         == Read(Some(Payload(num, b)), |CountedRecord(num, b)|, None)
  {
    hide Scan, ReadCounted, Encode, Value;
    var rest := Encode(|b|) + b + y;
    ReadCountedBody(num, b, y, at + 1);
    assert CountedRecord(num, b) + y == [8 * num + 2] + rest;
    TagOfField(num, 2, rest);
  }

  lemma ReadCountedBody(num: nat, b: Bytes, y: Bytes, at: nat)
    requires at + |Encode(|b|) + b| <= MAX_INT
    ensures ReadCounted(Encode(|b|) + b + y, at, num)
         == Read(Some(Payload(num, b)), |Encode(|b|) + b|, None)
  {
    hide Scan, Encode, Value;
    ReadBack(|b|, b + y);
    assert Encode(|b|) + b + y == Encode(|b|) + (b + y);
    var n := |Encode(|b|)|;
    assert (Encode(|b|) + b + y)[n..n + |b|] == b;
  }

  lemma ReadNumberRecord(num: nat, v: nat, y: Bytes, at: nat, kinds: map<int, Kind>)
    requires 1 <= num < 16 && num in kinds && kinds[num] == Number && v < TWO_64
    ensures ReadField(NumberRecord(num, v) + y, at, kinds)
         == Read(Some(Integer(num, v)), |NumberRecord(num, v)|, None)
  {
    hide Scan, Encode, Value;
    ReadBack(v, y);
    assert NumberRecord(num, v) + y == [8 * num] + (Encode(v) + y);
    TagOfField(num, 0, Encode(v) + y);
  }

  /** What Unmarshal does after a known field has been put into the message. */
  function Then<M>(o: Outcome<M>, y: Bytes, at: nat, schema: Schema<M>): Outcome<M>
  {
    if o.err.Some? then o else Decode(y, at, o.msg, schema)
  }

  lemma DecodeCounted<M>(num: nat, b: Bytes, y: Bytes, at: nat, m: M, schema: Schema<M>)
    requires 1 <= num < 16 && num in schema.kinds && schema.kinds[num] == Counted
    requires at + |CountedRecord(num, b)| <= MAX_INT
    ensures Decode(CountedRecord(num, b) + y, at, m, schema)
         == Then(schema.put(m, Payload(num, b)), y, at + |CountedRecord(num, b)|, schema)
  {
    hide ReadField;
    ReadCountedRecord(num, b, y, at, schema.kinds);
    var rec := CountedRecord(num, b);
    assert (rec + y)[|rec|..] == y && rec != [];
  }

  lemma DecodeNumber<M>(num: nat, v: nat, y: Bytes, at: nat, m: M, schema: Schema<M>)
    requires 1 <= num < 16 && num in schema.kinds && schema.kinds[num] == Number && v < TWO_64
    ensures Decode(NumberRecord(num, v) + y, at, m, schema)
         == Then(schema.put(m, Integer(num, v)), y, at + |NumberRecord(num, v)|, schema)
  {
    hide ReadField;
    ReadNumberRecord(num, v, y, at, schema.kinds);
    var rec := NumberRecord(num, v);
    assert (rec + y)[|rec|..] == y && rec != [];
  }

  lemma DecodeCountedField<M>(num: nat, b: Bytes, y: Bytes, at: nat, m: M, schema: Schema<M>)
    requires 1 <= num < 16 && num in schema.kinds && schema.kinds[num] == Counted
    requires at + |CountedField(num, b)| <= MAX_INT
    ensures Decode(CountedField(num, b) + y, at, m, schema)
         == var o := if b == [] then Outcome(m, None) else schema.put(m, Payload(num, b));
            Then(o, y, at + |CountedField(num, b)|, schema)
  {
    hide Decode;
    if b == [] {
      assert [] + y == y;
    } else {
      DecodeCounted(num, b, y, at, m, schema);
    }
  }

  lemma DecodeNumberField<M>(num: nat, v: nat, y: Bytes, at: nat, m: M, schema: Schema<M>)
    requires 1 <= num < 16 && num in schema.kinds && schema.kinds[num] == Number && v < TWO_64
    ensures Decode(NumberField(num, v) + y, at, m, schema)
         == var o := if v == 0 then Outcome(m, None) else schema.put(m, Integer(num, v));
            Then(o, y, at + |NumberField(num, v)|, schema)
  {
    hide Decode;
    if v == 0 {
      assert [] + y == y;
    } else {
      DecodeNumber(num, v, y, at, m, schema);
    }
  }

  /** A known number with the other wire type stops the decoder before the message is touched. */
  lemma DecodeWrongType<M>(num: nat, v: nat, y: Bytes, at: nat, m: M, schema: Schema<M>)
    requires 1 <= num < 16 && num in schema.kinds && schema.kinds[num] == Counted
    ensures Decode(NumberRecord(num, v) + y, at, m, schema) == Outcome(m, Some(WrongWireType(num)))
  {
    hide Scan, Encode, Value, ReadCounted;
    assert NumberRecord(num, v) + y == [8 * num] + (Encode(v) + y);
    TagOfField(num, 0, Encode(v) + y);
  }

  // ----- sizes -----

  function CountedSize(b: Bytes): nat
  {
    if |b| > 0 then 1 + |b| + Sov(|b|) else 0
  }

  function NumberSize(v: nat): nat
  {
    if v != 0 then 1 + Sov(v) else 0
  }

  lemma SizesAreLengths(num: nat, b: Bytes, v: nat)
    requires 1 <= num < 16
    ensures CountedSize(b) == |CountedField(num, b)| && NumberSize(v) == |NumberField(num, v)|
  {
    SovIsLength(|b|);
    SovIsLength(v);
  }

  // ----- writing -----

  /** copy(dAtA[i:], b) */
  method CopyInto(dAtA: array<Byte>, i: nat, b: Bytes)
    requires i + |b| <= dAtA.Length
    modifies dAtA
    ensures dAtA[..] == old(dAtA[..i]) + b + old(dAtA[i + |b|..])
  {
    for k := 0 to |b|
      invariant dAtA[i..i + k] == b[..k]
      invariant dAtA[..i] == old(dAtA[..i]) && dAtA[i + k..] == old(dAtA[i + k..])
    {
      dAtA[i + k] := b[k];
    }
    assert dAtA[..] == dAtA[..i] + dAtA[i..i + |b|] + dAtA[i + |b|..];
  }

  method WriteTag(dAtA: array<Byte>, i: nat, tag: Byte) returns (i': nat)
    requires 1 <= i <= dAtA.Length
    modifies dAtA
    ensures i' == i - 1
    ensures dAtA[i'..] == [tag] + old(dAtA[i..]) && forall k :: 0 <= k < i' ==> dAtA[k] == old(dAtA[k])
  {
    i' := i - 1;
    dAtA[i'] := tag;
  }

  /** The block the marshallers repeat for a string or nested message: contents, length, tag. */
  method WriteCounted(dAtA: array<Byte>, i: nat, num: nat, b: Bytes) returns (i': nat)
    requires 1 <= num < 16 && |CountedRecord(num, b)| <= i <= dAtA.Length
    modifies dAtA
    ensures i' == i - |CountedRecord(num, b)|
    ensures dAtA[i'..] == CountedRecord(num, b) + old(dAtA[i..]) && forall k :: 0 <= k < i' ==> dAtA[k] == old(dAtA[k])
  {
    hide Encode;
    i' := i - |b|;
    CopyBefore(dAtA, i, b);
    i' := WriteVarintBefore(dAtA, i', |b|);
    i' := WriteTag(dAtA, i', 8 * num + 2);
    CountedBytes(num, b, old(dAtA[i..]));
  }

  lemma CountedBytes(num: nat, b: Bytes, rest: Bytes)
    requires 1 <= num < 16
    ensures CountedRecord(num, b) + rest == [8 * num + 2] + (Encode(|b|) + (b + rest))
  {
    hide Encode;
  }

  method CopyBefore(dAtA: array<Byte>, i: nat, b: Bytes)
    requires |b| <= i <= dAtA.Length
    modifies dAtA
    ensures dAtA[i - |b|..] == b + old(dAtA[i..]) && forall k :: 0 <= k < i - |b| ==> dAtA[k] == old(dAtA[k])
  {
    ghost var before := dAtA[..];
    CopyInto(dAtA, i - |b|, b);
    assert forall k :: 0 <= k < i - |b| ==> dAtA[..][k] == before[k];
    assert dAtA[i - |b|..] == dAtA[..][i - |b|..];
  }

  method WriteVarintBefore(dAtA: array<Byte>, i: nat, v: nat) returns (i': nat)
    requires |Encode(v)| <= i <= dAtA.Length
    modifies dAtA
    ensures i' == i - |Encode(v)|
    ensures dAtA[i'..] == Encode(v) + old(dAtA[i..]) && forall k :: 0 <= k < i' ==> dAtA[k] == old(dAtA[k])
  {
    i' := WriteVarint(dAtA, i, v);
    assert dAtA[i'..] == dAtA[i'..i] + dAtA[i..];
  }

  method WriteNumber(dAtA: array<Byte>, i: nat, num: nat, v: nat) returns (i': nat)
    requires 1 <= num < 16 && |NumberRecord(num, v)| <= i <= dAtA.Length
    modifies dAtA
    ensures i' == i - |NumberRecord(num, v)|
    ensures dAtA[i'..] == NumberRecord(num, v) + old(dAtA[i..]) && forall k :: 0 <= k < i' ==> dAtA[k] == old(dAtA[k])
  {
    i' := WriteVarintBefore(dAtA, i, v);
    i' := WriteTag(dAtA, i', 8 * num);
  }

  /** The same blocks under the marshallers' `if`: default values are not written. */
  method WriteCountedField(dAtA: array<Byte>, i: nat, num: nat, b: Bytes) returns (i': nat)
    requires 1 <= num < 16 && |CountedField(num, b)| <= i <= dAtA.Length
    modifies dAtA
    ensures i' == i - |CountedField(num, b)|
    ensures dAtA[i'..] == CountedField(num, b) + old(dAtA[i..]) && forall k :: 0 <= k < i' ==> dAtA[k] == old(dAtA[k])
  {
    i' := i;
    if |b| > 0 {
      i' := WriteCounted(dAtA, i, num, b);
    }
  }

  method WriteNumberField(dAtA: array<Byte>, i: nat, num: nat, v: nat) returns (i': nat)
    requires 1 <= num < 16 && |NumberField(num, v)| <= i <= dAtA.Length
    modifies dAtA
    ensures i' == i - |NumberField(num, v)|
    ensures dAtA[i'..] == NumberField(num, v) + old(dAtA[i..]) && forall k :: 0 <= k < i' ==> dAtA[k] == old(dAtA[k])
  {
    i' := i;
    if v != 0 {
      i' := WriteNumber(dAtA, i, num, v);
    }
  }

  // ----- reading -----

  /** The head of the field loop: the tag, and what remains to be read under it. */
  method ReadTag(dAtA: Bytes, preIndex: nat, ghost kinds: map<int, Kind>)
    returns (wire: nat, iNdEx: nat, err: Option<Error>)
    requires preIndex < |dAtA| <= MAX_INT
    ensures preIndex <= iNdEx <= |dAtA|
    ensures ReadField(dAtA[preIndex..], preIndex, kinds) ==
            if err.Some? then Read(None, 0, err)
            else if FieldNumber(wire) in kinds then
              var r := ReadKnown(dAtA[iNdEx..], iNdEx, wire, kinds[FieldNumber(wire)]);
              Read(r.field, iNdEx - preIndex + r.used, r.err)
            else ReadUnknown(dAtA[preIndex..], preIndex)
  {
    hide ReadKnown, ReadUnknown, Scan, Value;
    wire, iNdEx, err := ReadUint64(dAtA, preIndex);
    if err.Some? {
      return;
    }
    assert dAtA[preIndex..][iNdEx - preIndex..] == dAtA[iNdEx..];
    var fieldNum, wireType := Int32(wire / 8), wire % 8;
    if wireType == 4 {
      err := Some(EndGroupForNonGroup);
      return;
    }
    if fieldNum <= 0 {
      err := Some(IllegalTag);
      return;
    }
  }

  /** The block the decoders repeat for a string or nested message, with its wrap checks. */
  method ReadSlice(dAtA: Bytes, start: nat, ghost num: int)
    returns (b: Bytes, postIndex: nat, err: Option<Error>)
    requires start <= |dAtA| <= MAX_INT
    ensures var r := ReadCounted(dAtA[start..], start, num);
            && err == r.err && (err == None ==> postIndex == start + r.used)
            && r.field == if err == None then Some(Payload(num, b)) else None
    ensures err == None ==> postIndex <= |dAtA|
    ensures |b| <= |dAtA|
  {
    hide Scan;
    b := [];
    var length, iNdEx;
    length, iNdEx, err := ReadUint64(dAtA, start);
    postIndex := iNdEx;
    if err.Some? {
      return;
    }
    var intLength := Int64(length);
    if intLength < 0 {
      err := Some(InvalidLength);
      return;
    }
    var post := AddInt(iNdEx, intLength);
    if post < 0 {
      err := Some(InvalidLength);
      return;
    }
    if post > |dAtA| {
      err := Some(UnexpectedEOF);
      return;
    }
    b, postIndex := dAtA[iNdEx..post], post;
    assert b == dAtA[start..][iNdEx - start..post - start];
  }

  /** The default case: step over an unknown field, with its wrap checks. */
  method SkipUnknown(dAtA: Bytes, preIndex: nat) returns (iNdEx: nat, err: Option<Error>)
    requires preIndex <= |dAtA| <= MAX_INT
    ensures var r := ReadUnknown(dAtA[preIndex..], preIndex);
            && err == r.err && r.field == None
            && (err == None ==> iNdEx == preIndex + r.used && iNdEx <= |dAtA|)
  {
    iNdEx := preIndex;
    var skippy := SkipField(dAtA[preIndex..]);
    if skippy.Err? {
      return preIndex, Some(skippy.error);
    }
    var next := AddInt(preIndex, skippy.value);
    if next < 0 {
      return preIndex, Some(InvalidLength);
    }
    if next > |dAtA| {
      return preIndex, Some(UnexpectedEOF);
    }
    return next, None;
  }
}
