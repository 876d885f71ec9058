/** The message layer shared by the generated decoders: skip*, and the outer field loop of
    Unmarshal, written over the bytes still to be read. `at` is the index of those bytes in
    the buffer; it matters only where the source's `int` arithmetic can wrap. */
module Wire {
  import opened Words
  import opened Varint

  datatype Result<+T> = Ok(value: T) | Err(error: Error)

  // ----- skipping one field of an unknown number -----

  datatype Element = Element(used: nat, depth: nat)

  /** What follows a tag: how far the index moves and how deep in groups the reader then is. */
  function Body(s: Bytes, wireType: nat, depth: nat): Result<Element>
  {
    match wireType
    case 0 =>
      var v := Scan(s, 0);
      if v.err.Some? then Err(v.err.value) else Ok(Element(|v.digits|, depth))
    case 1 => Ok(Element(8, depth))
    case 2 =>
      var v := Scan(s, 0);
      if v.err.Some? then Err(v.err.value)
      else if Int64(v.Raw()) < 0 then Err(InvalidLength)
      else Ok(Element(|v.digits| + Int64(v.Raw()), depth))
    case 3 => Ok(Element(0, depth + 1))
    case 4 => if depth == 0 then Err(UnexpectedEndOfGroup) else Ok(Element(0, depth - 1))
    case 5 => Ok(Element(4, depth))
    case _ => Err(IllegalWireType)
  }

  /** One round of the skip loop: a tag and what follows it. */
  function TagAndBody(s: Bytes, depth: nat): (r: Result<Element>)
    ensures r.Ok? ==> r.value.used >= 1
  {
    var tag := Scan(s, 0);
    if tag.err.Some? then Err(tag.err.value)
    else
      match Body(s[|tag.digits|..], tag.Raw() % TWO_64 % 8, depth)
      case Err(e) => Err(e)
      case Ok(b) => Ok(Element(|tag.digits| + b.used, b.depth))
  }

  function Skip(s: Bytes, at: nat, depth: nat): (r: Result<nat>)
    ensures r.Ok? ==> at < r.value <= MAX_INT
    decreases |s|
  {
    if s == [] then Err(UnexpectedEOF)
    else
      match TagAndBody(s, depth)
      case Err(e) => Err(e)
      case Ok(el) =>
        if at + el.used > MAX_INT then Err(InvalidLength)
        else if el.depth == 0 then Ok(at + el.used)
        else if el.used >= |s| then Err(UnexpectedEOF)
        else Skip(s[el.used..], at + el.used, el.depth)
  }

  /** The switch inside the skip loop; the index it returns may have wrapped. */
  method SkipBody(dAtA: Bytes, start: nat, wireType: nat, depth: nat)
    returns (iNdEx: int, depth': nat, err: Option<Error>)
    requires start <= |dAtA| <= MAX_INT
    ensures match Body(dAtA[start..], wireType, depth)
            case Err(e) => err == Some(e)
            case Ok(b) => err == None && depth' == b.depth && iNdEx == AddInt(start, b.used)
                          && start + b.used < TWO_64
  {
    iNdEx, depth', err := start, depth, None;
    match wireType {
      case 0 =>
        var ignored;
        ignored, iNdEx, err := ReadUint64(dAtA, start);
      case 1 => iNdEx := AddInt(iNdEx, 8);
      case 2 =>
        var length;
        length, iNdEx, err := ReadUint64(dAtA, start);
        if err.Some? {
          return;
        }
        if Int64(length) < 0 {
          err := Some(InvalidLength);
          return;
        }
        iNdEx := AddInt(iNdEx, Int64(length));
      case 3 => depth' := depth + 1;
      case 4 =>
        if depth == 0 {
          err := Some(UnexpectedEndOfGroup);
        } else {
          depth' := depth - 1;
        }
      case 5 => iNdEx := AddInt(iNdEx, 4);
      case _ => err := Some(IllegalWireType);
    }
  }

  method SkipElement(dAtA: Bytes, start: nat, depth: nat)
    returns (iNdEx: int, depth': nat, err: Option<Error>)
    requires start <= |dAtA| <= MAX_INT
    ensures match TagAndBody(dAtA[start..], depth)
            case Err(e) => err == Some(e)
            case Ok(b) => err == None && depth' == b.depth && iNdEx == AddInt(start, b.used)
                          && start + b.used < TWO_64
  {
    var wire;
    wire, iNdEx, err := ReadUint64(dAtA, start);
    depth' := depth;
    if err == None {
      assert dAtA[start..][iNdEx - start..] == dAtA[iNdEx..];
      iNdEx, depth', err := SkipBody(dAtA, iNdEx, wire % 8, depth);
    }
  }

  /** skipTickets, skipParams, skipRedeemRequest: never indexes outside the buffer, always
      returns, and a returned offset is positive. */
  method SkipField(dAtA: Bytes) returns (r: Result<nat>)
    requires |dAtA| <= MAX_INT
    ensures r == Skip(dAtA, 0, 0)
  {
    hide TagAndBody;
    var l := |dAtA|;
    var iNdEx: int, depth: nat := 0, 0;
    while iNdEx < l
      invariant 0 <= iNdEx <= MAX_INT
      invariant Skip(dAtA, 0, 0) ==
                if iNdEx < l then Skip(dAtA[iNdEx..], iNdEx, depth) else Err(UnexpectedEOF)
      decreases l - iNdEx
    {
      ghost var pre := iNdEx;
      var err;
      iNdEx, depth, err := SkipElement(dAtA, iNdEx, depth);
      if err.Some? {
        return Err(err.value);
      }
      if iNdEx < 0 {
        return Err(InvalidLength);
      }
      if depth == 0 {
        return Ok(iNdEx);
      }
      if iNdEx < l {
        assert dAtA[pre..][iNdEx - pre..] == dAtA[iNdEx..];
      }
    }
    r := Err(UnexpectedEOF);
  }

  // ----- the field loop of Unmarshal -----

  /** What a decoder's switch expects for a field number it knows. */
  datatype Kind = Counted | Number

  datatype Field =
    | Payload(num: int, bytes: Bytes)
    | Integer(num: int, bits: nat) // digits as read, before truncation to the field's width

  /** One round of the field loop. A failed integer field still hands over the digits it read:
      the source accumulates them in the message itself. A skipped field hands over nothing. */
  datatype Read = Read(field: Option<Field>, used: nat, err: Option<Error>)

  function ReadCounted(s: Bytes, at: nat, num: int): Read
  {
    var v := Scan(s, 0);
    if v.err.Some? then Read(None, 0, v.err)
    else
      var used := |v.digits|;
      var len := Int64(v.Raw());
      if len < 0 then Read(None, 0, Some(InvalidLength))
      else if at + used + len > MAX_INT then Read(None, 0, Some(InvalidLength)) // the sum wrapped
      else if used + len > |s| then Read(None, 0, Some(UnexpectedEOF))
      else Read(Some(Payload(num, s[used..used + len])), used + len, None)
  }

  function ReadNumber(s: Bytes, num: int): Read
  {
    var v := Scan(s, 0);
    Read(Some(Integer(num, v.Raw())), |v.digits|, v.err)
  }

  function ReadUnknown(s: Bytes, at: nat): Read
  {
    match Skip(s, 0, 0)
    case Err(e) => Read(None, 0, Some(e))
    case Ok(n) =>
      if at + n > MAX_INT then Read(None, 0, Some(InvalidLength)) // the sum wrapped
      else if n > |s| then Read(None, 0, Some(UnexpectedEOF))
      else Read(None, n, None)
  }

  function FieldNumber(wire: nat): int { Int32(wire / 8) }

  function ReadKnown(s: Bytes, at: nat, wire: nat, kind: Kind): Read
  {
    var num := FieldNumber(wire);
    match kind
    case Counted => if wire % 8 != 2 then Read(None, 0, Some(WrongWireType(num))) else ReadCounted(s, at, num)
    case Number => if wire % 8 != 0 then Read(None, 0, Some(WrongWireType(num))) else ReadNumber(s, num)
  }

  function ReadField(s: Bytes, at: nat, kinds: map<int, Kind>): (r: Read)
    ensures r.err == None ==> 1 <= r.used <= |s|
  {
    var tag := Scan(s, 0);
    if tag.err.Some? then Read(None, 0, tag.err)
    else
      var wire, n := tag.Raw() % TWO_64, |tag.digits|;
      if wire % 8 == 4 then Read(None, 0, Some(EndGroupForNonGroup))
      else if FieldNumber(wire) <= 0 then Read(None, 0, Some(IllegalTag))
      else if FieldNumber(wire) in kinds then
        var r := ReadKnown(s[n..], at + n, wire, kinds[FieldNumber(wire)]);
        Read(r.field, n + r.used, r.err)
      else ReadUnknown(s, at)
  }

  datatype Outcome<+M> = Outcome(msg: M, err: Option<Error>)

  /** A message type: the field numbers of its switch, and what each case does to the message. */
  datatype Schema<!M> = Schema(kinds: map<int, Kind>, put: (M, Field) -> Outcome<M>)

  /** What one round leaves behind: a field the switch rejects stops the loop like a bad read. */
  function Apply<M>(r: Read, m: M, schema: Schema<M>): Outcome<M>
  {
    var o := if r.field.Some? then schema.put(m, r.field.value) else Outcome(m, None);
    if r.err.Some? then Outcome(o.msg, r.err) else o
  }

  /** Unmarshal into m: the message as it is left, also when an error stops the loop. */
  function Decode<M>(s: Bytes, at: nat, m: M, schema: Schema<M>): Outcome<M>
    decreases |s|
  {
    if s == [] then Outcome(m, None)
    else
      var r := ReadField(s, at, schema.kinds);
      var o := Apply(r, m, schema);
      if o.err.Some? || r.err.Some? then o
      else Decode(s[r.used..], at + r.used, o.msg, schema)
  }

  /** The codec of a nested message from outside this repository: Coin, Duration, Timestamp. */
  datatype SubCodec<!T> = SubCodec(empty: T, enc: T -> Bytes, dec: (T, Bytes) -> Outcome<T>)

  predicate RoundTrips<T(==)>(c: SubCodec<T>, t: T)
  {
    c.dec(c.empty, c.enc(t)) == Outcome(t, None)
  }

  // ----- decoding is a homomorphism -----

  lemma {:induction false} SkipPrefix(x: Bytes, y: Bytes, at: nat, depth: nat)
    requires Skip(x, at, depth).Ok? && Skip(x, at, depth).value <= at + |x|
    ensures Skip(x + y, at, depth) == Skip(x, at, depth)
    decreases |x|
  {
    hide TagAndBody;
    TagAndBodyPrefix(x, y, depth);
    var el := TagAndBody(x, depth).value;
    if el.depth != 0 {
      assert (x + y)[el.used..] == x[el.used..] + y;
      SkipPrefix(x[el.used..], y, at + el.used, el.depth);
    }
  }

  lemma TagAndBodyPrefix(x: Bytes, y: Bytes, depth: nat)
    requires TagAndBody(x, depth).Ok?
    ensures TagAndBody(x + y, depth) == TagAndBody(x, depth)
  {
    var n := |Scan(x, 0).digits|;
    ScanPrefix(x, y, 0);
    assert (x + y)[n..] == x[n..] + y;
    if Scan(x[n..], 0).err == None {
      ScanPrefix(x[n..], y, 0);
    }
  }

  lemma ReadCountedPrefix(x: Bytes, y: Bytes, at: nat, num: int)
    requires ReadCounted(x, at, num).err == None
    ensures ReadCounted(x + y, at, num) == ReadCounted(x, at, num)
  {
    ScanPrefix(x, y, 0);
    var v := Scan(x, 0);
    var used, len := |v.digits|, Int64(v.Raw());
    assert (x + y)[used..used + len] == x[used..used + len];
  }

  lemma ReadFieldPrefix(x: Bytes, y: Bytes, at: nat, kinds: map<int, Kind>)
    requires ReadField(x, at, kinds).err == None
    ensures ReadField(x + y, at, kinds) == ReadField(x, at, kinds)
  {
    ScanPrefix(x, y, 0);
    var tag := Scan(x, 0);
    var wire, n := tag.Raw() % TWO_64, |tag.digits|;
    assert (x + y)[n..] == x[n..] + y;
    if FieldNumber(wire) !in kinds {
      SkipPrefix(x, y, 0, 0);
    } else if kinds[FieldNumber(wire)] == Counted {
      ReadCountedPrefix(x[n..], y, at + n, FieldNumber(wire));
    } else {
      ScanPrefix(x[n..], y, 0);
    }
  }

  lemma DecodeNothing<M>(at: nat, m: M, schema: Schema<M>)
    ensures Decode([], at, m, schema) == Outcome(m, None)
  {
  }

  /** If x decodes without error, decoding x + y is decoding y on top of x's result. */
  lemma {:induction false} DecodeConcat<M>(x: Bytes, y: Bytes, at: nat, m: M, schema: Schema<M>)
    requires Decode(x, at, m, schema).err == None
    ensures Decode(x + y, at, m, schema) == Decode(y, at + |x|, Decode(x, at, m, schema).msg, schema)
    decreases |x|
  {
    hide ReadField;
    if x == [] {
      assert x + y == y;
    } else {
      var r := ReadField(x, at, schema.kinds);
      var o := Apply(r, m, schema);
      ReadFieldPrefix(x, y, at, schema.kinds);
      assert (x + y)[r.used..] == x[r.used..] + y;
      DecodeConcat(x[r.used..], y, at + r.used, o.msg, schema);
    }
  }

  /** Where the bytes sit in the buffer can only turn one truncation error into the other:
      a length that runs past the end is caught as a wrapped index or as a short buffer. */
  predicate Truncated(err: Option<Error>)
  {
    err == Some(UnexpectedEOF) || err == Some(InvalidLength)
  }

  predicate Agree<M(==)>(a: Outcome<M>, b: Outcome<M>)
  {
    a.msg == b.msg && (a.err == b.err || (Truncated(a.err) && Truncated(b.err)))
  }

  predicate AgreeRead(a: Read, b: Read)
  {
    || a == b
    || (a.field == None && b.field == None && Truncated(a.err) && Truncated(b.err))
  }

  lemma ReadFieldMoved(s: Bytes, at: nat, at': nat, kinds: map<int, Kind>)
    requires at + |s| <= MAX_INT && at' + |s| <= MAX_INT
    ensures AgreeRead(ReadField(s, at, kinds), ReadField(s, at', kinds))
  {
  }

  lemma {:induction false} DecodeMoved<M>(s: Bytes, at: nat, at': nat, m: M, schema: Schema<M>)
    requires at + |s| <= MAX_INT && at' + |s| <= MAX_INT
    ensures Agree(Decode(s, at, m, schema), Decode(s, at', m, schema))
    decreases |s|
  {
    hide ReadField;
    if s != [] {
      ReadFieldMoved(s, at, at', schema.kinds);
      var r := ReadField(s, at, schema.kinds);
      if r.err == None {
        var o := Apply(r, m, schema);
        DecodeMoved(s[r.used..], at + r.used, at' + r.used, o.msg, schema);
      }
    }
  }

  /** The homomorphism from the start of a buffer: concatenation is decoding in sequence. */
  lemma DecodeAppend<M>(x: Bytes, y: Bytes, m: M, schema: Schema<M>)
    requires |x| + |y| <= MAX_INT
    requires Decode(x, 0, m, schema).err == None
    ensures Agree(Decode(x + y, 0, m, schema), Decode(y, 0, Decode(x, 0, m, schema).msg, schema))
  {
    hide Decode;
    DecodeConcat(x, y, 0, m, schema);
    DecodeMoved(y, |x|, 0, Decode(x, 0, m, schema).msg, schema);
  }
}
