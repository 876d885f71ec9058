/** The TokenMeta and Params messages of params.pb.go. */
module Params {
  import opened Words
  import opened Varint
  import opened Wire
  import opened Fields
  import opened Layout
  import opened Records

  datatype TokenMeta = TokenMeta(denom: Bytes, decimals: Uint32, description: Bytes)

  const EMPTY_META := TokenMeta([], 0, [])

  function PutMeta(m: TokenMeta, f: Field): Outcome<TokenMeta>
  {
    match f
    case Payload(1, b) => Outcome(m.(denom := b), None)
    case Integer(2, v) => Outcome(m.(decimals := v % TWO_32), None)
    case Payload(3, b) => Outcome(m.(description := b), None)
    case _ => Outcome(m, None)
  }

  const META: Schema<TokenMeta> := Schema(map[1 := Counted, 2 := Number, 3 := Counted], PutMeta)

  function MetaBytes(t: TokenMeta): Bytes
  {
    CountedField(1, t.denom) + (NumberField(2, t.decimals) + (CountedField(3, t.description) + []))
  }

  function MetaSize(t: TokenMeta): nat
  {
    CountedSize(t.denom) + NumberSize(t.decimals) + CountedSize(t.description)
  }

  function MergeMeta(base: TokenMeta, over: TokenMeta): TokenMeta
  {
    TokenMeta(if over.denom == [] then base.denom else over.denom,
              if over.decimals == 0 then base.decimals else over.decimals,
              if over.description == [] then base.description else over.description)
  }

  lemma MetaSizeIsLength(t: TokenMeta)
    ensures MetaSize(t) == |MetaBytes(t)|
  {
    hide CountedField, NumberField, CountedSize, NumberSize;
    SizesAreLengths(1, t.denom, 0);
    SizesAreLengths(2, [], t.decimals);
    SizesAreLengths(3, t.description, 0);
  }

  /** Number 1 is the denomination, 2 the decimals, 3 the description. */
  function MetaFields(t: TokenMeta): map<int, Content>
  {
    var none: map<int, Content> := map[];
    WithText(WithAmount(WithText(none, 1, t.denom), 2, t.decimals), 3, t.description)
  }

  lemma MetaLayout(t: TokenMeta)
    requires MetaSize(t) <= MAX_INT
    ensures IsLayout(MetaBytes(t), MetaFields(t))
  {
    hide IsLayout, CountedField, NumberField, Sov;
    var f3 := WithText(map[], 3, t.description);
    var f2 := WithAmount(f3, 2, t.decimals);
    LayNothing();
    LayCountedField(3, t.description, [], map[]);
    LayNumberField(2, t.decimals, CountedField(3, t.description) + [], f3);
    LayCountedField(1, t.denom, NumberField(2, t.decimals) + (CountedField(3, t.description) + []), f2);
    assert WithText(f2, 1, t.denom) == MetaFields(t);
  }

  /** What a record does to a TokenMeta. */
  lemma MetaTakes(r: Record, m: TokenMeta)
    ensures var num := FieldOf(r);
            Take(r, m, META) ==
            if num == 1 then if r.CountedRec? then Some(m.(denom := r.bytes)) else None
            else if num == 2 then if r.VarintRec? then Some(m.(decimals := Spells(r.value) % TWO_32)) else None
            else if num == 3 then if r.CountedRec? then Some(m.(description := r.bytes)) else None
            else if num <= 0 then None
            else Some(m)
  {
    hide FieldOf, Spells;
  }

  /** Decoding a TokenMeta's bytes into any message overwrites exactly the fields it sets;
      into an empty one it is the round trip, for every uint32 Decimals. */
  lemma DecodeMeta(t: TokenMeta, at: nat, m: TokenMeta)
    requires at + MetaSize(t) <= MAX_INT
    ensures Decode(MetaBytes(t), at, m, META) == Outcome(MergeMeta(m, t), None)
    ensures MergeMeta(EMPTY_META, t) == t
  {
    hide CountedField, NumberField, MetaSize, Decode;
    MetaSizeIsLength(t);
    var f1, f2, f3 := CountedField(1, t.denom), NumberField(2, t.decimals), CountedField(3, t.description);
    var m1 := MergeMeta(m, EMPTY_META.(denom := t.denom));
    var m2 := MergeMeta(m1, EMPTY_META.(decimals := t.decimals));
    DecodeCountedField(1, t.denom, f2 + (f3 + []), at, m, META);
    DecodeNumberField(2, t.decimals, f3 + [], at + |f1|, m1, META);
    DecodeCountedField(3, t.description, [], at + |f1| + |f2|, m2, META);
    DecodeNothing(at + |f1| + |f2| + |f3|, MergeMeta(m, t), META);
  }

  // ----- Params -----

  /** redeemDur in nanoseconds, as time.Duration counts them. */
  datatype Params = Params(redeemDur: int, maxRedeemEntries: SInt32,
                           collateralMetas: TokenMeta, halMeta: TokenMeta)

  const EMPTY := Params(0, 0, EMPTY_META, EMPTY_META)

  /** uint64(v) for a signed v: negative numbers are sign-extended. */
  function SignExtend(v: SInt32): Uint64
  {
    if v < 0 then v + TWO_64 else v
  }

  function PutParam(dur: SubCodec<int>, m: Params, f: Field): Outcome<Params>
  {
    match f
    case Payload(1, b) => var o := dur.dec(m.redeemDur, b); Outcome(m.(redeemDur := o.msg), o.err)
    case Integer(2, v) => Outcome(m.(maxRedeemEntries := Int32(v)), None)
    case Payload(3, b) => var o := Decode(b, 0, m.collateralMetas, META); Outcome(m.(collateralMetas := o.msg), o.err)
    case Payload(4, b) => var o := Decode(b, 0, m.halMeta, META); Outcome(m.(halMeta := o.msg), o.err)
    case _ => Outcome(m, None)
  }

  function ParamsSchema(dur: SubCodec<int>): Schema<Params>
  {
    Schema(map[1 := Counted, 2 := Number, 3 := Counted, 4 := Counted], (m, f) => PutParam(dur, m, f))
  }

  /** What a record does to Params: a nested message is decoded on top of what is there. */
  lemma ParamsTakes(dur: SubCodec<int>, r: Record, m: Params)
    ensures var num, text := FieldOf(r), r.CountedRec?;
            Take(r, m, ParamsSchema(dur)) ==
            if num == 1 then
              if text && dur.dec(m.redeemDur, r.bytes).err == None
              then Some(m.(redeemDur := dur.dec(m.redeemDur, r.bytes).msg)) else None
            else if num == 2 then
              if r.VarintRec? then Some(m.(maxRedeemEntries := Int32(Spells(r.value)))) else None
            else if num == 3 then
              if text && Decode(r.bytes, 0, m.collateralMetas, META).err == None
              then Some(m.(collateralMetas := Decode(r.bytes, 0, m.collateralMetas, META).msg)) else None
            else if num == 4 then
              if text && Decode(r.bytes, 0, m.halMeta, META).err == None
              then Some(m.(halMeta := Decode(r.bytes, 0, m.halMeta, META).msg)) else None
            else if num <= 0 then None
            else Some(m)
  {
    hide FieldOf, Spells, Decode, Int32;
  }

  /** A nested message that does not decode leaves what was read of it and its error. */
  lemma NestedRefused(dur: SubCodec<int>, b: Bytes, y: Bytes, at: nat, m: Params)
    requires at + |CountedRecord(1, b)| <= MAX_INT
    ensures var o := dur.dec(m.redeemDur, b);
            o.err.Some? ==>
              Decode(CountedRecord(1, b) + y, at, m, ParamsSchema(dur)) == Outcome(m.(redeemDur := o.msg), o.err)
    ensures var o := Decode(b, 0, m.collateralMetas, META);
            o.err.Some? ==>
              Decode(CountedRecord(3, b) + y, at, m, ParamsSchema(dur)) == Outcome(m.(collateralMetas := o.msg), o.err)
    ensures var o := Decode(b, 0, m.halMeta, META);
            o.err.Some? ==>
              Decode(CountedRecord(4, b) + y, at, m, ParamsSchema(dur)) == Outcome(m.(halMeta := o.msg), o.err)
  {
    hide Decode, Encode;
    var S := ParamsSchema(dur);
    DecodeCounted(1, b, y, at, m, S);
    DecodeCounted(3, b, y, at, m, S);
    DecodeCounted(4, b, y, at, m, S);
  }

  function ParamsBytes(dur: SubCodec<int>, p: Params): Bytes
  {
    CountedRecord(1, dur.enc(p.redeemDur))
    + (NumberField(2, SignExtend(p.maxRedeemEntries))
       + (CountedRecord(3, MetaBytes(p.collateralMetas)) + (CountedRecord(4, MetaBytes(p.halMeta)) + [])))
  }

  function RecordSize(len: nat): nat { 1 + len + Sov(len) }

  function ParamsSize(dur: SubCodec<int>, p: Params): nat
  {
    RecordSize(|dur.enc(p.redeemDur)|) + NumberSize(SignExtend(p.maxRedeemEntries))
    + RecordSize(MetaSize(p.collateralMetas)) + RecordSize(MetaSize(p.halMeta))
  }

  lemma RecordSizeIsLength(num: nat, b: Bytes)
    requires 1 <= num < 16
    ensures RecordSize(|b|) == |CountedRecord(num, b)|
  {
    SovIsLength(|b|);
  }

  lemma ParamsSizeIsLength(dur: SubCodec<int>, p: Params)
    ensures ParamsSize(dur, p) == |ParamsBytes(dur, p)|
  {
    hide CountedRecord, NumberField, MetaBytes, MetaSize, RecordSize, NumberSize;
    RecordSizeIsLength(1, dur.enc(p.redeemDur));
    SizesAreLengths(2, [], SignExtend(p.maxRedeemEntries));
    MetaSizeIsLength(p.collateralMetas);
    RecordSizeIsLength(3, MetaBytes(p.collateralMetas));
    MetaSizeIsLength(p.halMeta);
    RecordSizeIsLength(4, MetaBytes(p.halMeta));
  }

  /** Number 1 is the waiting time, 2 the entries, left out if zero, 3 the collateral's metadata and 4
      HAL's. */
  function ParamsFields(dur: SubCodec<int>, p: Params): map<int, Content>
  {
    WithAmount(map[1 := Text(dur.enc(p.redeemDur)), 3 := Text(MetaBytes(p.collateralMetas)),
                   4 := Text(MetaBytes(p.halMeta))],
               2, if p.maxRedeemEntries < 0 then 0x1_0000_0000_0000_0000 + p.maxRedeemEntries else p.maxRedeemEntries)
  }

  lemma ParamsLayout(dur: SubCodec<int>, p: Params)
    requires ParamsSize(dur, p) <= MAX_INT
    ensures IsLayout(ParamsBytes(dur, p), ParamsFields(dur, p))
  {
    hide IsLayout, CountedRecord, NumberField, MetaBytes, MetaSize, Sov;
    var b1, w := dur.enc(p.redeemDur), SignExtend(p.maxRedeemEntries);
    var b3, b4 := MetaBytes(p.collateralMetas), MetaBytes(p.halMeta);
    MetaSizeIsLength(p.collateralMetas);
    MetaSizeIsLength(p.halMeta);
    var y4, y3 := CountedRecord(4, b4) + [], CountedRecord(3, b3) + (CountedRecord(4, b4) + []);
    LayNothing();
    LayCounted(4, b4, [], map[]);
    LayCounted(3, b3, y4, map[][4 := Text(b4)]);
    LayNumberField(2, w, y3, map[][4 := Text(b4)][3 := Text(b3)]);
    LayCounted(1, b1, NumberField(2, w) + y3, WithAmount(map[][4 := Text(b4)][3 := Text(b3)], 2, w));
    assert WithAmount(map[][4 := Text(b4)][3 := Text(b3)], 2, w)[1 := Text(b1)] == ParamsFields(dur, p);
  }

  /** Every int32 survives the varint: negatives travel as ten bytes of sign-extended digits. */
  lemma Int32RoundTrip(v: SInt32)
    ensures Int32(SignExtend(v)) == v
    ensures v < 0 ==> |Encode(SignExtend(v))| == 10 == Sov(SignExtend(v))
  {
    hide Encode, Sov;
    if v < 0 {
      var w := SignExtend(v);
      SovIsLength(w);
      EncodeAtMostTen(w);
      TenBytes(w);
    }
  }

  lemma TenBytes(w: Uint64)
    requires w >= 0x8000_0000_0000_0000
    ensures |Encode(w)| >= 10
  {
    PowersOfTwo();
    assert Shl(1, 64) == 2 * Shl(1, 63);
    ShorterThan(w, 9);
  }

  lemma {:induction false} ShorterThan(w: nat, k: nat)
    requires w >= Shl(1, 7 * k)
    ensures |Encode(w)| > k
  {
    if k > 0 {
      ShlDigit(1, 7 * (k - 1));
      ShorterThan(w / 128, k - 1);
    }
  }

  /** Params round-trip: nested metas, the int32 field and the duration come back unchanged. */
  lemma ParamsRoundTrip(dur: SubCodec<int>, p: Params)
    requires dur.empty == 0 && RoundTrips(dur, p.redeemDur) && ParamsSize(dur, p) <= MAX_INT
    ensures Decode(ParamsBytes(dur, p), 0, EMPTY, ParamsSchema(dur)) == Outcome(p, None)
  {
    hide Decode, ParamsSize, RoundTrips, LastRecords;
    FirstFields(dur, p);
    LastFields(dur, p);
  }

  function FirstRecords(dur: SubCodec<int>, p: Params): Bytes
  {
    CountedRecord(1, dur.enc(p.redeemDur)) + NumberField(2, SignExtend(p.maxRedeemEntries))
  }

  function LastRecords(p: Params): Bytes
  {
    CountedRecord(3, MetaBytes(p.collateralMetas)) + (CountedRecord(4, MetaBytes(p.halMeta)) + [])
  }

  lemma FirstFields(dur: SubCodec<int>, p: Params)
    requires dur.empty == 0 && RoundTrips(dur, p.redeemDur) && ParamsSize(dur, p) <= MAX_INT
    ensures Decode(ParamsBytes(dur, p), 0, EMPTY, ParamsSchema(dur))
         == Decode(LastRecords(p), |FirstRecords(dur, p)|, Upto(p, 2), ParamsSchema(dur))
  {
    hide Decode, CountedRecord, NumberField, MetaBytes, ParamsSize, SignExtend, PutParam, RoundTrips;
    ParamsSizeIsLength(dur, p);
    ParamPuts(dur, p);
    var S, b1, w := ParamsSchema(dur), dur.enc(p.redeemDur), SignExtend(p.maxRedeemEntries);
    DecodeCounted(1, b1, NumberField(2, w) + LastRecords(p), 0, EMPTY, S);
    DecodeNumberField(2, w, LastRecords(p), |CountedRecord(1, b1)|, Upto(p, 1), S);
  }

  lemma LastFields(dur: SubCodec<int>, p: Params)
    requires dur.empty == 0 && RoundTrips(dur, p.redeemDur) && ParamsSize(dur, p) <= MAX_INT
    ensures Decode(LastRecords(p), |FirstRecords(dur, p)|, Upto(p, 2), ParamsSchema(dur)) == Outcome(p, None)
  {
    hide Decode, CountedRecord, NumberField, MetaBytes, ParamsSize, SignExtend, PutParam, RoundTrips;
    ParamsSizeIsLength(dur, p);
    ParamPuts(dur, p);
    var S, b3, b4 := ParamsSchema(dur), MetaBytes(p.collateralMetas), MetaBytes(p.halMeta);
    var n, n3, n4 := |FirstRecords(dur, p)|, |CountedRecord(3, b3)|, |CountedRecord(4, b4)|;
    DecodeCounted(3, b3, CountedRecord(4, b4) + [], n, Upto(p, 2), S);
    DecodeCounted(4, b4, [], n + n3, Upto(p, 3), S);
    DecodeNothing(n + n3 + n4, p, S);
  }

  /** The message after the first n fields of p have been read into an empty one. */
  function Upto(p: Params, n: nat): Params
  {
    Params(if n >= 1 then p.redeemDur else 0, if n >= 2 then p.maxRedeemEntries else 0,
           if n >= 3 then p.collateralMetas else EMPTY_META, if n >= 4 then p.halMeta else EMPTY_META)
  }

  lemma ParamPuts(dur: SubCodec<int>, p: Params)
    requires dur.empty == 0 && RoundTrips(dur, p.redeemDur) && ParamsSize(dur, p) <= MAX_INT
    ensures PutParam(dur, EMPTY, Payload(1, dur.enc(p.redeemDur))) == Outcome(Upto(p, 1), None)
    ensures var w := SignExtend(p.maxRedeemEntries);
            if w == 0 then Upto(p, 1) == Upto(p, 2)
            else PutParam(dur, Upto(p, 1), Integer(2, w)) == Outcome(Upto(p, 2), None)
    ensures PutParam(dur, Upto(p, 2), Payload(3, MetaBytes(p.collateralMetas))) == Outcome(Upto(p, 3), None)
    ensures PutParam(dur, Upto(p, 3), Payload(4, MetaBytes(p.halMeta))) == Outcome(p, None)
  {
    hide Decode, MetaBytes, Encode, Sov;
    MetaRoundTrips(dur, p);
    Int32RoundTrip(p.maxRedeemEntries);
  }

  lemma MetaRoundTrips(dur: SubCodec<int>, p: Params)
    requires ParamsSize(dur, p) <= MAX_INT
    ensures Decode(MetaBytes(p.collateralMetas), 0, EMPTY_META, META) == Outcome(p.collateralMetas, None)
    ensures Decode(MetaBytes(p.halMeta), 0, EMPTY_META, META) == Outcome(p.halMeta, None)
  {
    hide Decode, MetaBytes, MetaSize;
    DecodeMeta(p.collateralMetas, 0, EMPTY_META);
    DecodeMeta(p.halMeta, 0, EMPTY_META);
  }

  // ----- the generated methods -----

  class TokenMetaMessage {
    var denom: Bytes
    var decimals: Uint32
    var description: Bytes

    function Contents(): TokenMeta
      reads this
    {
      TokenMeta(denom, decimals, description)
    }

    constructor (t: TokenMeta)
      ensures Contents() == t
    {
      denom, decimals, description := t.denom, t.decimals, t.description;
    }

    /** Marshals into the slice that ends at `end`; bytes from `end` on stay. */
    method MarshalToSizedBuffer(dAtA: array<Byte>, end: nat) returns (n: nat)
      requires MetaSize(Contents()) <= end <= dAtA.Length
      modifies dAtA
      ensures n == MetaSize(Contents()) && Contents() == old(Contents())
      ensures dAtA[end - n..] == MetaBytes(Contents()) + old(dAtA[end..])
      ensures forall k :: 0 <= k < end - n ==> dAtA[k] == old(dAtA[k])
    {
      hide CountedField, NumberField, MetaSize;
      MetaSizeIsLength(Contents());
      ghost var f1, f2, f3 := CountedField(1, denom), NumberField(2, decimals), CountedField(3, description);
      var i := WriteCountedField(dAtA, end, 3, description);
      i := WriteNumberField(dAtA, i, 2, decimals);
      i := WriteCountedField(dAtA, i, 1, denom);
      n := end - i;
      assert f1 + (f2 + (f3 + old(dAtA[end..]))) == f1 + (f2 + (f3 + [])) + old(dAtA[end..]);
    }

    method Unmarshal(dAtA: Bytes) returns (err: Option<Error>)
      requires |dAtA| <= MAX_INT
      modifies this
      ensures Outcome(Contents(), err) == Decode(dAtA, 0, old(Contents()), META)
    {
      hide ReadField;
      var iNdEx := 0;
      ghost var goal := Decode(dAtA, 0, Contents(), META);
      while iNdEx < |dAtA|
        invariant 0 <= iNdEx <= |dAtA|
        invariant Decode(dAtA[iNdEx..], iNdEx, Contents(), META) == goal
      {
        ghost var pre := iNdEx;
        iNdEx, err := UnmarshalField(dAtA, iNdEx);
        if err.Some? {
          return;
        }
        assert dAtA[pre..][iNdEx - pre..] == dAtA[iNdEx..];
      }
      err := None;
    }

    method UnmarshalField(dAtA: Bytes, preIndex: nat) returns (iNdEx: nat, err: Option<Error>)
      requires preIndex < |dAtA| <= MAX_INT
      modifies this
      ensures var r := ReadField(dAtA[preIndex..], preIndex, META.kinds);
              && Outcome(Contents(), err) == Apply(r, old(Contents()), META)
              && (err == None ==> r.err == None && iNdEx == preIndex + r.used)
    {
      hide ReadField, ReadCounted, ReadUnknown;
      var wire;
      wire, iNdEx, err := ReadTag(dAtA, preIndex, META.kinds);
      if err.Some? {
        return;
      }
      var fieldNum, wireType := Int32(wire / 8), wire % 8;
      match fieldNum {
        case 1 =>
          if wireType != 2 {
            err := Some(WrongWireType(1));
            return;
          }
          var b;
          b, iNdEx, err := ReadSlice(dAtA, iNdEx, 1);
          if err.Some? {
            return;
          }
          denom := b;
        case 2 =>
          if wireType != 0 {
            err := Some(WrongWireType(2));
            return;
          }
          var v;
          v, iNdEx, err := ReadUint32(dAtA, iNdEx);
          decimals := v;
        case 3 =>
          if wireType != 2 {
            err := Some(WrongWireType(3));
            return;
          }
          var b;
          b, iNdEx, err := ReadSlice(dAtA, iNdEx, 3);
          if err.Some? {
            return;
          }
          description := b;
        case _ =>
          iNdEx, err := SkipUnknown(dAtA, preIndex);
      }
    }
  }

  class ParamsMessage {
    const dur: SubCodec<int>
    var redeemDur: int
    var maxRedeemEntries: SInt32
    var collateralMetas: TokenMeta
    var halMeta: TokenMeta

    function Contents(): Params
      reads this
    {
      Params(redeemDur, maxRedeemEntries, collateralMetas, halMeta)
    }

    constructor (dur: SubCodec<int>, p: Params)
      ensures Contents() == p && this.dur == dur
    {
      this.dur := dur;
      redeemDur, maxRedeemEntries, collateralMetas, halMeta :=
        p.redeemDur, p.maxRedeemEntries, p.collateralMetas, p.halMeta;
    }

    /** A nested TokenMeta with its length and tag, written so that it ends at i. */
    method WriteMeta(dAtA: array<Byte>, i: nat, num: nat, t: TokenMeta) returns (i': nat)
      requires 1 <= num < 16 && |CountedRecord(num, MetaBytes(t))| <= i <= dAtA.Length
      modifies dAtA
      ensures i' == i - |CountedRecord(num, MetaBytes(t))|
      ensures dAtA[i'..] == CountedRecord(num, MetaBytes(t)) + old(dAtA[i..])
    {
      hide MetaBytes, MetaSize, Encode;
      var m := new TokenMetaMessage(t);
      MetaSizeIsLength(t);
      var size := m.MarshalToSizedBuffer(dAtA, i);
      i' := i - size;
      i' := WriteVarintBefore(dAtA, i', size);
      i' := WriteTag(dAtA, i', 8 * num + 2);
      CountedBytes(num, MetaBytes(t), old(dAtA[i..]));
    }

    /** Marshals into a buffer of exactly Size() bytes. */
    method Marshal() returns (dAtA: array<Byte>)
      ensures fresh(dAtA) && dAtA[..] == ParamsBytes(dur, Contents())
    {
      hide CountedRecord, NumberField, MetaBytes, ParamsSize, SignExtend;
      ParamsSizeIsLength(dur, Contents());
      dAtA := new Byte[ParamsSize(dur, Contents())](_ => 0);
      var i: nat := dAtA.Length;
      i := WriteMeta(dAtA, i, 4, halMeta);
      i := WriteMeta(dAtA, i, 3, collateralMetas);
      i := WriteNumberField(dAtA, i, 2, SignExtend(maxRedeemEntries));
      i := WriteCounted(dAtA, i, 1, dur.enc(redeemDur));
      assert dAtA[i..] == dAtA[..];
    }

    method Unmarshal(dAtA: Bytes) returns (err: Option<Error>)
      requires |dAtA| <= MAX_INT
      modifies this
      ensures Outcome(Contents(), err) == Decode(dAtA, 0, old(Contents()), ParamsSchema(dur))
    {
      hide ReadField, ParamsSchema;
      var iNdEx := 0;
      ghost var S := ParamsSchema(dur);
      ghost var goal := Decode(dAtA, 0, Contents(), S);
      while iNdEx < |dAtA|
        invariant 0 <= iNdEx <= |dAtA|
        invariant Decode(dAtA[iNdEx..], iNdEx, Contents(), S) == goal
      {
        ghost var pre := iNdEx;
        iNdEx, err := UnmarshalField(dAtA, iNdEx);
        if err.Some? {
          return;
        }
        assert dAtA[pre..][iNdEx - pre..] == dAtA[iNdEx..];
      }
      err := None;
    }

    method UnmarshalField(dAtA: Bytes, preIndex: nat) returns (iNdEx: nat, err: Option<Error>)
      requires preIndex < |dAtA| <= MAX_INT
      modifies this
      ensures var r := ReadField(dAtA[preIndex..], preIndex, ParamsSchema(dur).kinds);
              && Outcome(Contents(), err) == Apply(r, old(Contents()), ParamsSchema(dur))
              && (err == None ==> r.err == None && iNdEx == preIndex + r.used)
    {
      hide ReadField, ReadCounted, ReadUnknown, Decode;
      var wire;
      wire, iNdEx, err := ReadTag(dAtA, preIndex, ParamsSchema(dur).kinds);
      if err.Some? {
        return;
      }
      var fieldNum, wireType := Int32(wire / 8), wire % 8;
      match fieldNum {
        case 1 =>
          if wireType != 2 {
            err := Some(WrongWireType(1));
            return;
          }
          var b;
          b, iNdEx, err := ReadSlice(dAtA, iNdEx, 1);
          if err.Some? {
            return;
          }
          var o := dur.dec(redeemDur, b);
          redeemDur, err := o.msg, o.err;
        case 2 =>
          if wireType != 0 {
            err := Some(WrongWireType(2));
            return;
          }
          var v;
          v, iNdEx, err := ReadUint32(dAtA, iNdEx);
          maxRedeemEntries := Int32(v);
        case 3 =>
          if wireType != 2 {
            err := Some(WrongWireType(3));
            return;
          }
          var b;
          b, iNdEx, err := ReadSlice(dAtA, iNdEx, 3);
          if err.Some? {
            return;
          }
          var m := new TokenMetaMessage(collateralMetas);
          err := m.Unmarshal(b);
          collateralMetas := m.Contents();
        case 4 =>
          if wireType != 2 {
            err := Some(WrongWireType(4));
            return;
          }
          var b;
          b, iNdEx, err := ReadSlice(dAtA, iNdEx, 4);
          if err.Some? {
            return;
          }
          var m := new TokenMetaMessage(halMeta);
          err := m.Unmarshal(b);
          halMeta := m.Contents();
        case _ =>
          iNdEx, err := SkipUnknown(dAtA, preIndex);
      }
    }
  }
}
