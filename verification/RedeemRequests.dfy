/** The RedeemRequest message of redeem_request.pb.go, and what its decoder makes of the
    other values that share the keeper's store. */
module RedeemRequests {
  import opened Words
  import opened Varint
  import opened Wire
  import opened Fields
  import Records
  import Layout
  import Tickets
  import Params

  datatype Coin = Coin(denom: Bytes, amount: int)

  /** completiontime in nanoseconds. */
  datatype Request = Request(account: Bytes, collateral: Coin, completiontime: int)

  datatype Codecs = Codecs(coin: SubCodec<Coin>, time: SubCodec<int>)

  function Empty(c: Codecs): Request
  {
    Request([], c.coin.empty, c.time.empty)
  }

  function Put(c: Codecs, m: Request, f: Field): Outcome<Request>
  {
    match f
    case Payload(1, b) => Outcome(m.(account := b), None)
    case Payload(2, b) => var o := c.coin.dec(m.collateral, b); Outcome(m.(collateral := o.msg), o.err)
    case Payload(3, b) => var o := c.time.dec(m.completiontime, b); Outcome(m.(completiontime := o.msg), o.err)
    case _ => Outcome(m, None)
  }

  function RequestSchema(c: Codecs): Schema<Request>
  {
    Schema(map[1 := Counted, 2 := Counted, 3 := Counted], (m, f) => Put(c, m, f))
  }

  function Marshalled(c: Codecs, r: Request): Bytes
  {
    CountedField(1, r.account)
    + (CountedRecord(2, c.coin.enc(r.collateral)) + (CountedRecord(3, c.time.enc(r.completiontime)) + []))
  }

  /** cdc.Unmarshal(bytes, &request) on a fresh request. */
  function Unmarshalled(c: Codecs, b: Bytes): Outcome<Request>
  {
    Decode(b, 0, Empty(c), RequestSchema(c))
  }

  /** Number 1 is the account, left out if empty, 2 the collateral, 3 the completion time. */
  function RequestFields(c: Codecs, r: Request): map<int, Layout.Content>
  {
    Layout.WithText(map[2 := Layout.Text(c.coin.enc(r.collateral)), 3 := Layout.Text(c.time.enc(r.completiontime))],
                    1, r.account)
  }

  lemma MarshalledLayout(c: Codecs, r: Request)
    requires |Marshalled(c, r)| <= MAX_INT
    ensures Layout.IsLayout(Marshalled(c, r), RequestFields(c, r))
  {
    hide Layout.IsLayout, Encode;
    var b2, b3 := c.coin.enc(r.collateral), c.time.enc(r.completiontime);
    var f3: map<int, Layout.Content> := map[][3 := Layout.Text(b3)];
    Layout.LayNothing();
    Layout.LayCounted(3, b3, [], map[]);
    Layout.LayCounted(2, b2, CountedRecord(3, b3) + [], f3);
    Layout.LayCountedField(1, r.account, CountedRecord(2, b2) + (CountedRecord(3, b3) + []), f3[2 := Layout.Text(b2)]);
    assert f3[2 := Layout.Text(b2)] == map[2 := Layout.Text(b2), 3 := Layout.Text(b3)];
  }

  /** What a record does to a request: coin and time are decoded on top of what is there. */
  lemma RequestTakes(c: Codecs, r: Records.Record, m: Request)
    ensures var num, text := Records.FieldOf(r), r.CountedRec?;
            Records.Take(r, m, RequestSchema(c)) ==
            if num == 1 then if text then Some(m.(account := r.bytes)) else None
            else if num == 2 then
              if text && c.coin.dec(m.collateral, r.bytes).err == None
              then Some(m.(collateral := c.coin.dec(m.collateral, r.bytes).msg)) else None
            else if num == 3 then
              if text && c.time.dec(m.completiontime, r.bytes).err == None
              then Some(m.(completiontime := c.time.dec(m.completiontime, r.bytes).msg)) else None
            else if num <= 0 then None
            else Some(m)
  {
    hide Records.FieldOf, Records.Spells;
  }

  /** A coin or time that does not decode leaves what was read of it and its error. */
  lemma NestedRefused(c: Codecs, b: Bytes, y: Bytes, at: nat, m: Request)
    requires at + |CountedRecord(2, b)| <= MAX_INT
    ensures var o := c.coin.dec(m.collateral, b);
            o.err.Some? ==>
              Decode(CountedRecord(2, b) + y, at, m, RequestSchema(c)) == Outcome(m.(collateral := o.msg), o.err)
    ensures var o := c.time.dec(m.completiontime, b);
            o.err.Some? ==>
              Decode(CountedRecord(3, b) + y, at, m, RequestSchema(c)) == Outcome(m.(completiontime := o.msg), o.err)
  {
    hide Decode, Encode;
    DecodeCounted(2, b, y, at, m, RequestSchema(c));
    DecodeCounted(3, b, y, at, m, RequestSchema(c));
  }

  lemma RoundTrip(c: Codecs, r: Request)
    requires RoundTrips(c.coin, r.collateral) && RoundTrips(c.time, r.completiontime) && |Marshalled(c, r)| <= MAX_INT
    ensures Unmarshalled(c, Marshalled(c, r)) == Outcome(r, None)
  {
    hide Decode, CountedField, CountedRecord;
    var S, b2, b3 := RequestSchema(c), c.coin.enc(r.collateral), c.time.enc(r.completiontime);
    var n1, n2, n3 := |CountedField(1, r.account)|, |CountedRecord(2, b2)|, |CountedRecord(3, b3)|;
    var m1 := Empty(c).(account := r.account);
    var m2 := m1.(collateral := r.collateral);
    DecodeCountedField(1, r.account, CountedRecord(2, b2) + (CountedRecord(3, b3) + []), 0, Empty(c), S);
    DecodeCounted(2, b2, CountedRecord(3, b3) + [], n1, m1, S);
    DecodeCounted(3, b3, [], n1 + n2, m2, S);
    DecodeNothing(n1 + n2 + n3, r, S);
  }

  // ----- the decoder on values of other kinds -----

  /** Field 4 of a ticket or of Params is unknown to this decoder and stepped over. */
  lemma FieldFour(b: Bytes, at: nat, m: Request, c: Codecs)
    requires at + |CountedRecord(4, b)| <= MAX_INT
    ensures Decode(CountedRecord(4, b) + [], at, m, RequestSchema(c)) == Outcome(m, None)
  {
    hide Decode;
    assert Encode(34) == [34];
    var r := Records.CountedRec([34], Encode(|b|), b);
    assert Records.Bytes1(r) == CountedRecord(4, b) + [];
    Records.EncodedIsComplete(|b|);
    assert Records.Spells([34]) == 34;
    Records.DecodeForeign(r, at, m, RequestSchema(c));
  }

  /** What a ticket that passes is taken for. */
  function TicketRequest(c: Codecs, t: Tickets.Ticket): Request
  {
    Request(t.author, if t.issue == [] then c.coin.empty else c.coin.dec(c.coin.empty, t.issue).msg, c.time.empty)
  }

  /** What Params that pass are taken for. */
  function ParamsRequest(c: Codecs, dur: SubCodec<int>, p: Params.Params): Request
  {
    Request(dur.enc(p.redeemDur), c.coin.empty,
            c.time.dec(c.time.empty, Params.MetaBytes(p.collateralMetas)).msg)
  }

  /** A stored ticket passes for a redeem request exactly when its id is zero and its issue
      text is empty or happens to be the encoding of a coin. */
  lemma TicketAccepted(c: Codecs, t: Tickets.Ticket)
    requires Tickets.Size(t) <= MAX_INT
    ensures Unmarshalled(c, Tickets.Marshalled(t)).err == None <==>
            t.id == 0 && (t.issue == [] || c.coin.dec(c.coin.empty, t.issue).err == None)
    ensures Unmarshalled(c, Tickets.Marshalled(t)).err == None ==>
              Unmarshalled(c, Tickets.Marshalled(t)).msg == TicketRequest(c, t)
  {
    hide Decode, CountedField, CountedRecord, NumberField, Tickets.Size;
    Tickets.SizeIsLength(t);
    var S := RequestSchema(c);
    var y2 := NumberField(3, t.id) + (CountedField(4, t.additionalInfo) + []);
    var y1 := CountedField(2, t.issue) + y2;
    var n1, n2 := |CountedField(1, t.author)|, |CountedField(2, t.issue)|;
    var m1 := Empty(c).(account := t.author);
    DecodeCountedField(1, t.author, y1, 0, Empty(c), S);
    assert Unmarshalled(c, Tickets.Marshalled(t)) == Decode(y1, n1, m1, S);
    DecodeCountedField(2, t.issue, y2, n1, m1, S);
    var o := if t.issue == [] then Outcome(c.coin.empty, None) else c.coin.dec(c.coin.empty, t.issue);
    if o.err == None {
      TicketTail(c, t, n1 + n2, m1.(collateral := o.msg));
    }
  }

  lemma TicketTail(c: Codecs, t: Tickets.Ticket, at: nat, m: Request)
    requires at + |NumberField(3, t.id)| + |CountedField(4, t.additionalInfo)| <= MAX_INT
    ensures Decode(NumberField(3, t.id) + (CountedField(4, t.additionalInfo) + []), at, m, RequestSchema(c))
         == Outcome(m, if t.id == 0 then None else Some(WrongWireType(3)))
  {
    hide Decode, CountedRecord, NumberRecord;
    var rest := CountedField(4, t.additionalInfo) + [];
    if t.id != 0 {
      DecodeWrongType(3, t.id, rest, at, m, RequestSchema(c));
    } else {
      assert NumberField(3, t.id) + rest == rest;
      if t.additionalInfo == [] {
        DecodeNothing(at, m, RequestSchema(c));
      } else {
        FieldFour(t.additionalInfo, at, m, c);
      }
    }
  }

  /** Stored Params pass for a redeem request exactly when MaxRedeemEntries is zero and the
      collateral token's metadata happen to be the encoding of a timestamp. */
  lemma ParamsAccepted(c: Codecs, dur: SubCodec<int>, p: Params.Params)
    requires Params.ParamsSize(dur, p) <= MAX_INT
    ensures Unmarshalled(c, Params.ParamsBytes(dur, p)).err == None <==>
            p.maxRedeemEntries == 0
            && c.time.dec(c.time.empty, Params.MetaBytes(p.collateralMetas)).err == None
    ensures Unmarshalled(c, Params.ParamsBytes(dur, p)).err == None ==>
              Unmarshalled(c, Params.ParamsBytes(dur, p)).msg == ParamsRequest(c, dur, p)
  {
    hide Decode, CountedRecord, NumberRecord, Params.MetaBytes, Params.ParamsSize;
    Params.ParamsSizeIsLength(dur, p);
    var S, b1, w := RequestSchema(c), dur.enc(p.redeemDur), Params.SignExtend(p.maxRedeemEntries);
    var b3, b4 := Params.MetaBytes(p.collateralMetas), Params.MetaBytes(p.halMeta);
    var y2 := CountedRecord(3, b3) + (CountedRecord(4, b4) + []);
    var n1, n3 := |CountedRecord(1, b1)|, |CountedRecord(3, b3)|;
    var m1 := Empty(c).(account := b1);
    DecodeCounted(1, b1, NumberField(2, w) + y2, 0, Empty(c), S);
    if w != 0 {
      DecodeWrongType(2, w, y2, n1, m1, S);
    } else {
      assert NumberField(2, w) + y2 == y2;
      DecodeCounted(3, b3, CountedRecord(4, b4) + [], n1, m1, S);
      FieldFour(b4, n1 + n3, m1.(completiontime := c.time.dec(c.time.empty, b3).msg), c);
    }
  }

  /** A value that starts with a zero byte has the illegal tag 0. */
  lemma ZeroByteRejected(c: Codecs, b: Bytes)
    requires b != [] && b[0] == 0
    ensures Unmarshalled(c, b) == Outcome(Empty(c), Some(IllegalTag))
  {
    hide Scan, ReadKnown, ReadUnknown, Value;
    assert b == [0] + b[1..];
    TagOfField(0, 0, b[1..]);
  }

  /** A value of eight bytes that is one account field passes. */
  lemma AccountFieldAccepted(c: Codecs)
    ensures Unmarshalled(c, [0x0A, 6, 0, 0, 0, 0, 0, 0]).err == None
  {
    hide Decode;
    var b: Bytes := [0, 0, 0, 0, 0, 0];
    assert Encode(6) == [6];
    assert CountedRecord(1, b) + [] == [0x0A, 6, 0, 0, 0, 0, 0, 0];
    DecodeCounted(1, b, [], 0, Empty(c), RequestSchema(c));
    DecodeNothing(8, Empty(c).(account := b), RequestSchema(c));
  }

  // ----- the generated decoder -----

  class RedeemRequestMessage {
    const codecs: Codecs
    var account: Bytes
    var collateral: Coin
    var completiontime: int

    function Contents(): Request
      reads this
    {
      Request(account, collateral, completiontime)
    }

    constructor (codecs: Codecs)
      ensures Contents() == Empty(codecs) && this.codecs == codecs
    {
      this.codecs := codecs;
      account, collateral, completiontime := [], codecs.coin.empty, codecs.time.empty;
    }

    method Unmarshal(dAtA: Bytes) returns (err: Option<Error>)
      requires |dAtA| <= MAX_INT
      modifies this
      ensures Outcome(Contents(), err) == Decode(dAtA, 0, old(Contents()), RequestSchema(codecs))
    {
      hide ReadField, RequestSchema;
      var iNdEx := 0;
      ghost var S := RequestSchema(codecs);
      ghost var goal := Decode(dAtA, 0, Contents(), S);
      while iNdEx < |dAtA|
        invariant 0 <= iNdEx <= |dAtA|
        invariant Decode(dAtA[iNdEx..], iNdEx, Contents(), S) == goal
      {
        ghost var pre := iNdEx;
        iNdEx, err := UnmarshalField(dAtA, iNdEx);
        if err.Some? {
          return;
        }
        assert dAtA[pre..][iNdEx - pre..] == dAtA[iNdEx..];
      }
      err := None;
    }

    method UnmarshalField(dAtA: Bytes, preIndex: nat) returns (iNdEx: nat, err: Option<Error>)
      requires preIndex < |dAtA| <= MAX_INT
      modifies this
      ensures var r := ReadField(dAtA[preIndex..], preIndex, RequestSchema(codecs).kinds);
              && Outcome(Contents(), err) == Apply(r, old(Contents()), RequestSchema(codecs))
              && (err == None ==> r.err == None && iNdEx == preIndex + r.used)
    {
      hide ReadField, ReadCounted, ReadUnknown;
      var wire;
      wire, iNdEx, err := ReadTag(dAtA, preIndex, RequestSchema(codecs).kinds);
      if err.Some? {
        return;
      }
      var fieldNum, wireType := Int32(wire / 8), wire % 8;
      match fieldNum {
        case 1 =>
          if wireType != 2 {
            err := Some(WrongWireType(1));
            return;
          }
          var b;
          b, iNdEx, err := ReadSlice(dAtA, iNdEx, 1);
          if err.Some? {
            return;
          }
          account := b;
        case 2 =>
          if wireType != 2 {
            err := Some(WrongWireType(2));
            return;
          }
          var b;
          b, iNdEx, err := ReadSlice(dAtA, iNdEx, 2);
          if err.Some? {
            return;
          }
          var o := codecs.coin.dec(collateral, b);
          collateral, err := o.msg, o.err;
        case 3 =>
          if wireType != 2 {
            err := Some(WrongWireType(3));
            return;
          }
          var b;
          b, iNdEx, err := ReadSlice(dAtA, iNdEx, 3);
          if err.Some? {
            return;
          }
          var o := codecs.time.dec(completiontime, b);
          completiontime, err := o.msg, o.err;
        case _ =>
          iNdEx, err := SkipUnknown(dAtA, preIndex);
      }
    }
  }
}
