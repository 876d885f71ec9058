/** The Ticket message of tickets.pb.go. */
module Tickets {
  import opened Words
  import opened Varint
  import opened Wire
  import opened Fields
  import opened Records
  import opened Layout

  datatype Ticket = Ticket(author: Bytes, issue: Bytes, id: Uint64, additionalInfo: Bytes)

  const EMPTY := Ticket([], [], 0, [])

  function Put(m: Ticket, f: Field): Outcome<Ticket>
  {
    match f
    case Payload(1, b) => Outcome(m.(author := b), None)
    case Payload(2, b) => Outcome(m.(issue := b), None)
    case Integer(3, v) => Outcome(m.(id := v % TWO_64), None)
    case Payload(4, b) => Outcome(m.(additionalInfo := b), None)
    case _ => Outcome(m, None)
  }

  const SCHEMA: Schema<Ticket> :=
    Schema(map[1 := Counted, 2 := Counted, 3 := Number, 4 := Counted], Put)

  /** The wire form of a ticket: each field that is set, under the tags 0x0a, 0x12, 0x18 and 0x22. */
  function Marshalled(t: Ticket): Bytes
  {
    CountedField(1, t.author)
    + (CountedField(2, t.issue) + (NumberField(3, t.id) + (CountedField(4, t.additionalInfo) + [])))
  }

  /** Number 1 is the author, 2 the issue, 3 the id, 4 the additional info; what is unset is absent. */
  function TicketFields(t: Ticket): map<int, Content>
  {
    var none: map<int, Content> := map[];
    WithText(WithAmount(WithText(WithText(none, 1, t.author), 2, t.issue), 3, t.id), 4, t.additionalInfo)
  }

  /** The wire form holds the set fields, each once, in the order of their numbers, in the shortest
      spelling; Layout.OneLayout says that nothing else does. */
  lemma MarshalledLayout(t: Ticket)
    requires Size(t) <= MAX_INT
    ensures IsLayout(Marshalled(t), TicketFields(t))
  {
    hide IsLayout, CountedField, NumberField, Size, TicketFields;
    SetFieldsFit(t);
    var f4 := WithText(map[], 4, t.additionalInfo);
    var f3 := WithAmount(f4, 3, t.id);
    var f2 := WithText(f3, 2, t.issue);
    var y4 := CountedField(4, t.additionalInfo) + [];
    var y3 := NumberField(3, t.id) + y4;
    LayNothing();
    LayCountedField(4, t.additionalInfo, [], map[]);
    LayNumberField(3, t.id, y4, f4);
    LayCountedField(2, t.issue, y3, f3);
    LayCountedField(1, t.author, CountedField(2, t.issue) + y3, f2);
    FieldsInAnyOrder(t);
  }

  lemma FieldsInAnyOrder(t: Ticket)
    ensures TicketFields(t) ==
            WithText(WithText(WithAmount(WithText(map[], 4, t.additionalInfo), 3, t.id), 2, t.issue), 1, t.author)
  {
  }

  lemma SetFieldsFit(t: Ticket)
    ensures |t.author| <= Size(t) && |t.issue| <= Size(t) && |t.additionalInfo| <= Size(t)
  {
    hide Sov;
  }

  /** What a record does to a ticket, also one that spells out an empty text or a zero. */
  lemma TicketTakes(r: Record, m: Ticket)
    ensures var num, text, number := FieldOf(r), r.CountedRec?, r.VarintRec?;
            Take(r, m, SCHEMA) ==
            if num == 1 then if text then Some(m.(author := r.bytes)) else None
            else if num == 2 then if text then Some(m.(issue := r.bytes)) else None
            else if num == 3 then if number then Some(m.(id := Spells(r.value) % TWO_64)) else None
            else if num == 4 then if text then Some(m.(additionalInfo := r.bytes)) else None
            else if num <= 0 then None
            else Some(m)
  {
    hide FieldOf, Spells;
  }

  /** Field-wise merge: what `over` sets wins. */
  function Merge(base: Ticket, over: Ticket): Ticket
  {
    Ticket(if over.author == [] then base.author else over.author,
           if over.issue == [] then base.issue else over.issue,
           if over.id == 0 then base.id else over.id,
           if over.additionalInfo == [] then base.additionalInfo else over.additionalInfo)
  }

  function Size(t: Ticket): nat
  {
    CountedSize(t.author) + CountedSize(t.issue) + NumberSize(t.id) + CountedSize(t.additionalInfo)
  }

  /** Size() is the number of bytes Marshal writes. */
  lemma SizeIsLength(t: Ticket)
    ensures Size(t) == |Marshalled(t)|
  {
    hide CountedField, NumberField, CountedSize, NumberSize;
    SizesAreLengths(1, t.author, 0);
    SizesAreLengths(2, t.issue, 0);
    SizesAreLengths(3, [], t.id);
    SizesAreLengths(4, t.additionalInfo, 0);
  }

  /** Decoding b's bytes into any message overwrites exactly the fields b sets. */
  lemma DecodeMarshalled(t: Ticket, at: nat, m: Ticket)
    requires at + Size(t) <= MAX_INT
    ensures Decode(Marshalled(t), at, m, SCHEMA) == Outcome(Merge(m, t), None)
  {
    hide CountedField, NumberField, Size, Decode;
    SizeIsLength(t);
    var f1, f2, f3, f4 := CountedField(1, t.author), CountedField(2, t.issue),
                          NumberField(3, t.id), CountedField(4, t.additionalInfo);
    var m1 := Merge(m, EMPTY.(author := t.author));
    var m2 := Merge(m1, EMPTY.(issue := t.issue));
    var m3 := Merge(m2, EMPTY.(id := t.id));
    DecodeCountedField(1, t.author, f2 + (f3 + (f4 + [])), at, m, SCHEMA);
    DecodeCountedField(2, t.issue, f3 + (f4 + []), at + |f1|, m1, SCHEMA);
    DecodeNumberField(3, t.id, f4 + [], at + |f1| + |f2|, m2, SCHEMA);
    DecodeCountedField(4, t.additionalInfo, [], at + |f1| + |f2| + |f3|, m3, SCHEMA);
    DecodeNothing(at + |f1| + |f2| + |f3| + |f4|, Merge(m, t), SCHEMA);
  }

  /** Unmarshal of Marshal gives the ticket back, for every ticket. */
  lemma RoundTrip(t: Ticket)
    requires Size(t) <= MAX_INT
    ensures Decode(Marshalled(t), 0, EMPTY, SCHEMA) == Outcome(t, None)
  {
    DecodeMarshalled(t, 0, EMPTY);
  }

  /** "Last One Wins": two encodings in a row decode to the field-wise merge. */
  lemma LastOneWins(a: Ticket, b: Ticket)
    requires Size(a) + Size(b) <= MAX_INT
    ensures Decode(Marshalled(a) + Marshalled(b), 0, EMPTY, SCHEMA) == Outcome(Merge(a, b), None)
  {
    hide Decode, Marshalled, Size;
    SizeIsLength(a);
    DecodeMarshalled(a, 0, EMPTY);
    DecodeConcat(Marshalled(a), Marshalled(b), 0, EMPTY, SCHEMA);
    DecodeMarshalled(b, |Marshalled(a)|, a);
  }

  /** A record of an unknown number between two tickets is stepped over. */
  lemma ForeignBetween(a: Ticket, r: Record, b: Ticket)
    requires WellFormed(r) && FieldOf(r) > 4
    requires Size(a) + |Bytes1(r)| + Size(b) <= MAX_INT
    ensures Decode(Marshalled(a) + Bytes1(r) + Marshalled(b), 0, EMPTY, SCHEMA) == Outcome(Merge(a, b), None)
  {
    hide Decode, Marshalled, Size, Bytes1, WellFormed, FieldOf;
    SizeIsLength(a);
    SizeIsLength(b);
    DecodeMarshalled(a, 0, EMPTY);
    InsertForeign(Marshalled(a), r, Marshalled(b), EMPTY, SCHEMA);
    LastOneWins(a, b);
  }

  class TicketMessage {
    var author: Bytes
    var issue: Bytes
    var id: Uint64
    var additionalInfo: Bytes

    function Contents(): Ticket
      reads this
    {
      Ticket(author, issue, id, additionalInfo)
    }

    constructor (t: Ticket)
      ensures Contents() == t
    {
      author, issue, id, additionalInfo := t.author, t.issue, t.id, t.additionalInfo;
    }

    /** Fills the last Size() bytes of the buffer, every byte of them, and no other. */
    method MarshalToSizedBuffer(dAtA: array<Byte>) returns (n: nat)
      requires Size(Contents()) <= dAtA.Length
      modifies dAtA
      ensures n == Size(Contents()) && Contents() == old(Contents())
      ensures dAtA[dAtA.Length - n..] == Marshalled(Contents())
      ensures forall k :: 0 <= k < dAtA.Length - n ==> dAtA[k] == old(dAtA[k])
    {
      hide CountedField, NumberField, Size;
      SizeIsLength(Contents());
      ghost var f1, f2 := CountedField(1, author), CountedField(2, issue);
      ghost var f3, f4 := NumberField(3, id), CountedField(4, additionalInfo);
      var i: nat := dAtA.Length;
      i := WriteCountedField(dAtA, i, 4, additionalInfo);
      assert dAtA[i..] == f4 + [];
      i := WriteNumberField(dAtA, i, 3, id);
      i := WriteCountedField(dAtA, i, 2, issue);
      assert dAtA[i..] == f2 + (f3 + (f4 + []));
      i := WriteCountedField(dAtA, i, 1, author);
      n := dAtA.Length - i;
    }

    method Marshal() returns (dAtA: array<Byte>)
      ensures fresh(dAtA) && dAtA[..] == Marshalled(Contents())
    {
      dAtA := new Byte[Size(Contents())](_ => 0);
      var n := MarshalToSizedBuffer(dAtA);
      assert dAtA[dAtA.Length - n..] == dAtA[..];
    }

    /** Terminates without an index out of range on every byte string. */
    method Unmarshal(dAtA: Bytes) returns (err: Option<Error>)
      requires |dAtA| <= MAX_INT
      modifies this
      ensures Outcome(Contents(), err) == Decode(dAtA, 0, old(Contents()), SCHEMA)
    {
      hide ReadField;
      var l := |dAtA|;
      var iNdEx := 0;
      ghost var goal := Decode(dAtA, 0, Contents(), SCHEMA);
      while iNdEx < l
        invariant 0 <= iNdEx <= l
        invariant Decode(dAtA[iNdEx..], iNdEx, Contents(), SCHEMA) == goal
      {
        ghost var pre := iNdEx;
        iNdEx, err := UnmarshalField(dAtA, iNdEx);
        if err.Some? {
          return;
        }
        assert dAtA[pre..][iNdEx - pre..] == dAtA[iNdEx..];
      }
      err := None;
    }

    /** One round of the field loop. */
    method UnmarshalField(dAtA: Bytes, preIndex: nat) returns (iNdEx: nat, err: Option<Error>)
      requires preIndex < |dAtA| <= MAX_INT
      modifies this
      ensures var r := ReadField(dAtA[preIndex..], preIndex, SCHEMA.kinds);
              && Outcome(Contents(), err) == Apply(r, old(Contents()), SCHEMA)
              && (err == None ==> r.err == None && iNdEx == preIndex + r.used)
    {
      hide ReadField, ReadCounted, ReadUnknown;
      var wire;
      wire, iNdEx, err := ReadTag(dAtA, preIndex, SCHEMA.kinds);
      if err.Some? {
        return;
      }
      var fieldNum, wireType := Int32(wire / 8), wire % 8;
      match fieldNum {
        case 1 =>
          if wireType != 2 {
            err := Some(WrongWireType(1));
            return;
          }
          var b;
          b, iNdEx, err := ReadSlice(dAtA, iNdEx, 1);
          if err.Some? {
            return;
          }
          author := b;
        case 2 =>
          if wireType != 2 {
            err := Some(WrongWireType(2));
            return;
          }
          var b;
          b, iNdEx, err := ReadSlice(dAtA, iNdEx, 2);
          if err.Some? {
            return;
          }
          issue := b;
        case 3 =>
          if wireType != 0 {
            err := Some(WrongWireType(3));
            return;
          }
          var v;
          v, iNdEx, err := ReadUint64(dAtA, iNdEx);
          id := v;
          if err.Some? {
            return;
          }
        case 4 =>
          if wireType != 2 {
            err := Some(WrongWireType(4));
            return;
          }
          var b;
          b, iNdEx, err := ReadSlice(dAtA, iNdEx, 4);
          if err.Some? {
            return;
          }
          additionalInfo := b;
        case _ =>
          iNdEx, err := SkipUnknown(dAtA, preIndex);
      }
    }
  }
}
