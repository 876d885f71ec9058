/** Base-128 varints: sov*, encodeVarint* and the shift loops that every generated decoder repeats. */
module Varint {
  import opened Words

  datatype Error =
    | IntOverflow
    | UnexpectedEOF
    | InvalidLength
    | UnexpectedEndOfGroup
    | EndGroupForNonGroup
    | IllegalTag
    | WrongWireType(field: int)
    | IllegalWireType
    | Nested(code: int) // an error raised by a codec outside this repository

  // ----- writing -----

  /** math/bits.Len64 */
  function Len64(x: nat): nat
  {
    if x == 0 then 0 else 1 + Len64(x / 2)
  }

  function Sov(x: nat): nat
  {
    (Len64(BitOr(x, 1)) + 6) / 7
  }

  /** The wire form: seven bits at a time, least significant first, high bit set on all but the last. */
  function Encode(v: nat): (r: Bytes)
    ensures |r| >= 1
  {
    if v < 128 then [v] else [v % 128 + 128] + Encode(v / 128)
  }

  lemma Len64Seven(x: nat)
    requires x >= 128
    ensures Len64(x) == 7 + Len64(x / 128)
  {
    hide Len64;
    Len64Two(x);
    Len64Two(x / 4);
    Len64Two(x / 16);
    Len64One(x / 64);
    assert x / 4 / 4 == x / 16 && x / 16 / 4 == x / 64 && x / 64 / 2 == x / 128;
  }

  lemma Len64One(x: nat)
    requires x >= 1
    ensures Len64(x) == 1 + Len64(x / 2)
  {
  }

  lemma Len64Two(x: nat)
    requires x >= 4
    ensures Len64(x) == 2 + Len64(x / 4)
  {
    hide Len64;
    Len64One(x);
    Len64One(x / 2);
    assert x / 2 / 2 == x / 4;
  }

  lemma OrOne(x: nat)
    ensures BitOr(x, 1) >= 1 && BitOr(x, 1) / 2 == x / 2
  {
    if x > 0 {
      assert BitOr(x / 2, 0) == x / 2;
    }
  }

  lemma Len64OrOne(x: nat)
    ensures Len64(BitOr(x, 1)) == if x == 0 then 1 else Len64(x)
  {
    hide BitOr;
    OrOne(x);
    Len64One(BitOr(x, 1));
    if x > 0 {
      Len64One(x);
    }
  }

  /** sovTickets, sovParams: the size formula is the number of bytes written. */
  lemma {:induction false} SovIsLength(x: nat)
    ensures Sov(x) == |Encode(x)|
  {
    Len64OrOne(x);
    if x < 128 {
      Len64Small(x);
    } else {
      Len64Seven(x);
      Len64OrOne(x / 128);
      SovIsLength(x / 128);
    }
  }

  lemma Len64Small(x: nat)
    requires x < 128
    ensures Len64(x) <= 7 && (x > 0 ==> Len64(x) >= 1)
  {
    ShlDigit(1, 0);
    Len64Bound(x, 7);
  }

  lemma {:induction false} Len64Bound(x: nat, k: nat)
    requires x < Shl(1, k)
    ensures Len64(x) <= k
  {
    if x > 0 {
      Len64Bound(x / 2, k - 1);
    }
  }

  /** No uint64 takes more than ten bytes. */
  lemma EncodeAtMostTen(v: nat)
    requires v < TWO_64
    ensures |Encode(v)| <= 10
  {
    PowersOfTwo();
    SovIsLength(v);
    Len64OrOne(v);
    Len64Bound(v, 64);
  }

  lemma SetHighBit(x: nat)
    requires x < 128
    ensures BitOr(x, 128) == x + 128
  {
    ShlDigit(1, 0);
    BitOrDisjoint(x, 1, 7);
  }

  /** encodeVarint*: writes v so that it ends just before `offset`; nothing else changes. */
  method WriteVarint(dAtA: array<Byte>, offset: nat, v: nat) returns (base: nat)
    requires |Encode(v)| <= offset <= dAtA.Length
    modifies dAtA
    ensures base == offset - |Encode(v)|
    ensures dAtA[base..offset] == Encode(v)
    ensures dAtA[..base] == old(dAtA[..base]) && dAtA[offset..] == old(dAtA[offset..])
  {
    hide Encode, Sov, BitOr;
    SovIsLength(v);
    base := offset - Sov(v);
    var at, rest := base, v;
    ghost var enc := Encode(v);
    while rest >= 128
      invariant base <= at < offset
      invariant enc[at - base..] == Encode(rest)
      invariant forall k :: base <= k < at ==> dAtA[k] == enc[k - base]
      invariant forall k :: 0 <= k < dAtA.Length && !(base <= k < offset) ==> dAtA[k] == old(dAtA[k])
    {
      EncodeMore(enc, at - base, rest);
      SetHighBit(rest % 128);
      dAtA[at] := BitOr(rest % 128, 128);
      rest := rest / 128;
      at := at + 1;
    }
    EncodeLast(enc, at - base, rest);
    dAtA[at] := rest;
    assert dAtA[base..offset] == enc;
  }

  /** Behind the first i bytes of an encoding, the next byte and what follows it. */
  lemma EncodeMore(enc: Bytes, i: nat, v: nat)
    requires i < |enc| && enc[i..] == Encode(v) && v >= 128
    ensures i + 1 < |enc| && enc[i] == v % 128 + 128 && enc[i + 1..] == Encode(v / 128)
  {
    assert Encode(v)[0] == enc[i] && Encode(v)[1..] == enc[i + 1..];
  }

  lemma EncodeLast(enc: Bytes, i: nat, v: nat)
    requires i < |enc| && enc[i..] == Encode(v) && v < 128
    ensures |enc| == i + 1 && enc[i] == v
  {
    assert enc[i..][0] == enc[i];
  }

  // ----- reading -----

  type Digit = d: int | 0 <= d < 128

  /** The number that base-128 digits spell, least significant first. */
  function Value(ds: seq<Digit>): nat
  {
    if ds == [] then 0 else ds[0] + 128 * Value(ds[1..])
  }

  /** What a shift loop does on some bytes: the digits it consumed, one per byte, and how it ended. */
  datatype Scanned = Scanned(digits: seq<Digit>, err: Option<Error>) {
    /** The value read, not yet cut to the width of a machine word. */
    function Raw(): nat { Value(digits) }
  }

  function Scan(s: Bytes, shift: nat): (r: Scanned)
    ensures |r.digits| <= |s|
    ensures r.err == None ==> |r.digits| >= 1
    decreases |s|
  {
    if shift >= 64 then Scanned([], Some(IntOverflow))
    else if s == [] then Scanned([], Some(UnexpectedEOF))
    else if s[0] < 128 then Scanned([s[0]], None)
    else
      var rest := Scan(s[1..], shift + 7);
      Scanned([s[0] - 128] + rest.digits, rest.err)
  }

  /** Once a varint is complete, later bytes do not matter. */
  lemma {:induction false} ScanPrefix(x: Bytes, y: Bytes, shift: nat)
    requires Scan(x, shift).err == None
    ensures Scan(x + y, shift) == Scan(x, shift)
  {
    if x[0] >= 128 {
      ScanPrefix(x[1..], y, shift + 7);
      assert (x + y)[1..] == x[1..] + y;
    }
  }

  /** Round trip: every uint64 is read back from its encoding, whatever follows. */
  lemma {:induction false} ScanEncode(v: nat, y: Bytes, shift: nat)
    requires shift < 64 && v < Shl(1, 64 - shift)
    ensures var r := Scan(Encode(v) + y, shift);
            r.Raw() == v && |r.digits| == |Encode(v)| && r.err == None
  {
    hide Shl, Value;
    if v < 128 {
      ScanSmall(v, y, shift);
    } else {
      MoreBits(v, shift);
      ScanEncode(v / 128, y, shift + 7);
      ScanMore(v, y, shift);
      ValueMore(v % 128, Scan(Encode(v / 128) + y, shift + 7).digits);
    }
  }

  lemma ScanSmall(v: nat, y: Bytes, shift: nat)
    requires v < 128 && shift < 64
    ensures var r := Scan(Encode(v) + y, shift);
            r.Raw() == v && |r.digits| == |Encode(v)| && r.err == None
  {
    assert Value([v]) == v + 128 * Value([]);
  }

  lemma ScanMore(v: nat, y: Bytes, shift: nat)
    requires v >= 128 && shift < 64
    ensures var rest := Scan(Encode(v / 128) + y, shift + 7);
            Scan(Encode(v) + y, shift) == Scanned([v % 128] + rest.digits, rest.err)
    ensures |Encode(v)| == 1 + |Encode(v / 128)|
  {
    assert (Encode(v) + y)[1..] == Encode(v / 128) + y;
  }

  lemma ValueMore(d: Digit, ds: seq<Digit>)
    ensures Value([d] + ds) == d + 128 * Value(ds)
  {
    assert ([d] + ds)[1..] == ds;
  }

  lemma MoreBits(v: nat, shift: nat)
    requires shift < 64 && 128 <= v < Shl(1, 64 - shift)
    ensures shift + 7 < 64 && v / 128 < Shl(1, 57 - shift)
  {
    hide Shl;
    NeedsEightBits(v, 64 - shift);
    ShlDigit(1, 57 - shift);
  }

  lemma NeedsEightBits(v: nat, n: nat)
    requires 128 <= v < Shl(1, n)
    ensures n >= 8
  {
    hide Shl;
    ShlDigit(1, 0);
    ShlZero(1);
    if n < 8 {
      ShlMonotone(n, 7);
      assert false;
    }
  }

  lemma ShlZero(x: nat)
    ensures Shl(x, 0) == x
  {
  }

  lemma {:induction false} ShlMonotone(m: nat, n: nat)
    requires m <= n
    ensures Shl(1, m) <= Shl(1, n)
  {
    if m < n {
      ShlMonotone(m, n - 1);
    }
  }

  lemma ReadBack(v: nat, y: Bytes)
    requires v < TWO_64
    ensures var r := Scan(Encode(v) + y, 0);
            r.Raw() == v && |r.digits| == |Encode(v)| && r.err == None
  {
    PowersOfTwo();
    ScanEncode(v, y, 0);
  }

  /** Digits or-ed one after the other into a word of `width` bits. */
  function Word(ds: seq<Digit>, width: nat): nat
  {
    if ds == [] then 0
    else
      var n := |ds| - 1;
      BitOr(Word(ds[..n], width), Low(Shl(ds[n], 7 * n), width))
  }

  /** Or-ing shifted digits into a word computes the number they spell, modulo the word's size. */
  lemma {:induction false} WordIsValue(ds: seq<Digit>, width: nat)
    ensures Word(ds, width) == Low(Value(ds), width)
  {
    if ds == [] {
      LowIsMod(0, width);
    } else {
      var n := |ds| - 1;
      WordIsValue(ds[..n], width);
      ValueSnoc(ds[..n], ds[n]);
      assert ds[..n] + [ds[n]] == ds;
      OrDigit(Value(ds[..n]), ds[n], 7 * n, width);
    }
  }

  lemma {:induction false} ValueSnoc(ds: seq<Digit>, d: Digit)
    ensures Value(ds) < Shl(1, 7 * |ds|)
    ensures Value(ds + [d]) == Value(ds) + Shl(d, 7 * |ds|)
  {
    if ds == [] {
      assert Value([d]) == d + 128 * Value([]);
    } else {
      ValueSnoc(ds[1..], d);
      ShlDigit(1, 7 * |ds[1..]|);
      ShlDigit(d, 7 * |ds[1..]|);
      assert (ds + [d])[1..] == ds[1..] + [d];
    }
  }

  lemma WordEmpty(width: nat)
    ensures Word([], width) == 0
  {
  }

  lemma WordSnoc(ds: seq<Digit>, d: Digit, width: nat)
    ensures Word(ds + [d], width) == BitOr(Word(ds, width), Low(Shl(d, 7 * |ds|), width))
  {
  }

  /** Whatever the loop has done so far, the next byte moves one digit from `rest` to `done`. */
  lemma ScanSnoc(done: seq<Digit>, s: Bytes, shift: nat)
    requires shift < 64 && s != []
    ensures var d: Digit := s[0] % 128;
            var tail := if s[0] < 128 then Scanned([], None) else Scan(s[1..], shift + 7);
            && Scan(s, shift).err == tail.err
            && done + Scan(s, shift).digits == done + [d] + tail.digits
  {
  }

  /** The shift loop itself, accumulating in a word of `width` bits by "or". The index never
      leaves the buffer and the loop ends after at most ten bytes on any input. */
  method ReadVarint(dAtA: Bytes, start: nat, width: nat)
    returns (acc: nat, iNdEx: nat, err: Option<Error>)
    requires start <= |dAtA|
    ensures var r := Scan(dAtA[start..], 0);
            acc == Word(r.digits, width) && iNdEx == start + |r.digits| && err == r.err
    ensures start <= iNdEx <= |dAtA| && iNdEx <= start + 10
  {
    hide Word, BitOr, Low, Shl;
    WordEmpty(width);
    acc, iNdEx, err := 0, start, None;
    var shift := 0;
    ghost var whole, rest, done: seq<Digit> := Scan(dAtA[start..], 0), Scan(dAtA[start..], 0), [];
    while true
      invariant start <= iNdEx <= |dAtA| && |done| == iNdEx - start && shift == 7 * |done| && shift <= 70
      invariant acc == Word(done, width)
      invariant rest == Scan(dAtA[iNdEx..], shift)
      invariant whole.err == rest.err && whole.digits == done + rest.digits
      decreases 70 - shift
    {
      if shift >= 64 {
        assert whole.digits == done;
        err := Some(IntOverflow);
        return;
      }
      if iNdEx >= |dAtA| {
        assert whole.digits == done;
        err := Some(UnexpectedEOF);
        return;
      }
      var b := dAtA[iNdEx];
      var d: Digit := b % 128;
      ScanSnoc(done, dAtA[iNdEx..], shift);
      WordSnoc(done, d, width);
      assert dAtA[iNdEx..][1..] == dAtA[iNdEx + 1..];
      iNdEx := iNdEx + 1;
      acc := BitOr(acc, Low(Shl(d, shift), width));
      done := done + [d];
      if b < 128 {
        assert whole.digits == done;
        return;
      }
      shift := shift + 7;
      rest := Scan(dAtA[iNdEx..], shift);
    }
  }

  method ReadUint64(dAtA: Bytes, start: nat) returns (acc: nat, iNdEx: nat, err: Option<Error>)
    requires start <= |dAtA|
    ensures var r := Scan(dAtA[start..], 0);
            acc == r.Raw() % TWO_64 && iNdEx == start + |r.digits| && err == r.err
    ensures start <= iNdEx <= |dAtA|
  {
    acc, iNdEx, err := ReadVarint(dAtA, start, 64);
    WordIsValue(Scan(dAtA[start..], 0).digits, 64);
    LowIsMod(Scan(dAtA[start..], 0).Raw(), 64);
    PowersOfTwo();
  }

  method ReadUint32(dAtA: Bytes, start: nat) returns (acc: nat, iNdEx: nat, err: Option<Error>)
    requires start <= |dAtA|
    ensures var r := Scan(dAtA[start..], 0);
            acc == r.Raw() % TWO_32 && iNdEx == start + |r.digits| && err == r.err
    ensures start <= iNdEx <= |dAtA|
  {
    acc, iNdEx, err := ReadVarint(dAtA, start, 32);
    WordIsValue(Scan(dAtA[start..], 0).digits, 32);
    LowIsMod(Scan(dAtA[start..], 0).Raw(), 32);
    PowersOfTwo();
  }
}
