/** The text encoding CppSQLite3 stores binary values in: every byte is shifted by one
    offset chosen per value, and the three bytes that must not appear in an SQL string
    (the terminator, the escape mark and the quote) are written as two-byte escapes. */
module BinaryCodec {
  import opened Wrappers

  type Byte = x: int | 0 <= x < 256

  const QUOTE: Byte := 39

  // ---------- one byte ----------

  function Shift(b: Byte, offset: Byte): Byte {
    (b - offset) % 256
  }

  function Unshift(c: Byte, offset: Byte): Byte {
    (c + offset) % 256
  }

  predicate IsReserved(c: Byte) {
    c == 0 || c == 1 || c == QUOTE
  }

  /** How a shifted byte is written. */
  function Escape(c: Byte): seq<Byte> {
    if c == 0 then [1, 1]
    else if c == 1 then [1, 2]
    else if c == QUOTE then [1, 3]
    else [c]
  }

  function EncodeByte(b: Byte, offset: Byte): seq<Byte> {
    Escape(Shift(b, offset))
  }

  function EscapedByte(mark: Byte): Option<Byte> {
    if mark == 1 then Some(0)
    else if mark == 2 then Some(1)
    else if mark == 3 then Some(QUOTE)
    else None
  }

  lemma ShiftRoundTrip(b: Byte, offset: Byte)
    ensures Unshift(Shift(b, offset), offset) == b
    ensures Shift(Unshift(b, offset), offset) == b
  {
    ReducedByte(b - offset);
    ReducedByte(b + offset);
    ReducedByte(Shift(b, offset) + offset);
    ReducedByte(Unshift(b, offset) - offset);
  }

  lemma ReducedByte(n: int)
    ensures 0 <= n < 256 ==> n % 256 == n
    ensures -256 <= n < 0 ==> n % 256 == n + 256
    ensures 256 <= n < 512 ==> n % 256 == n - 256
  {
  }

  /** Which bytes shift to c, seen from the offset and from the byte. */
  lemma ShiftIs(b: Byte, offset: Byte, c: Byte)
    ensures Shift(b, offset) == c <==> b == (offset + c) % 256
    ensures Shift(b, offset) == c <==> (b - c) % 256 == offset
  {
  }

  // ---------- whole values ----------

  function EncodeBody(s: seq<Byte>, offset: Byte): seq<Byte> {
    if s == [] then [] else EncodeBody(s[..|s| - 1], offset) + EncodeByte(s[|s| - 1], offset)
  }

  /** The text for `s` at a given offset, without its terminator. */
  function EncodeWith(s: seq<Byte>, offset: Byte): seq<Byte> {
    [offset] + EncodeBody(s, offset)
  }

  /** Undoes the escapes of a text body; None when an escape is malformed. */
  function DecodeBody(t: seq<Byte>, offset: Byte): Option<seq<Byte>> {
    if t == [] then Some([])
    else if t[0] == 1 then
      if |t| == 1 || EscapedByte(t[1]).None? then None
      else Prepend(Unshift(EscapedByte(t[1]).value, offset), DecodeBody(t[2..], offset))
    else Prepend(Unshift(t[0], offset), DecodeBody(t[1..], offset))
  }

  function Prepend(b: Byte, rest: Option<seq<Byte>>): Option<seq<Byte>> {
    if rest.None? then None else Some([b] + rest.value)
  }

  function Decode(text: seq<Byte>): Option<seq<Byte>>
    requires text != []
  {
    DecodeBody(text[1..], text[0])
  }

  predicate QuoteFree(text: seq<Byte>) {
    forall k :: 0 <= k < |text| ==> text[k] != 0 && text[k] != QUOTE
  }

  // ---------- counting escapes ----------

  /** How many bytes of `s` are equal to `b`. */
  function Occurrences(s: seq<Byte>, b: Byte): nat {
    if s == [] then 0 else Occurrences(s[..|s| - 1], b) + if s[|s| - 1] == b then 1 else 0
  }

  /** How many bytes of `s` need an escape at this offset. */
  function Escapes(s: seq<Byte>, offset: Byte): nat {
    if s == [] then 0
    else Escapes(s[..|s| - 1], offset) + if IsReserved(Shift(s[|s| - 1], offset)) then 1 else 0
  }

  predicate Allowed(offset: Byte) {
    offset != 0 && offset != QUOTE
  }

  lemma {:induction false} EscapesAreThreeCounts(s: seq<Byte>, offset: Byte)
    ensures Escapes(s, offset)
         == Occurrences(s, offset) + Occurrences(s, (offset + 1) % 256) + Occurrences(s, (offset + QUOTE) % 256)
  {
    hide Shift, IsReserved;
    if s != [] {
      EscapesAreThreeCounts(s[..|s| - 1], offset);
      ReservedShifts(s[|s| - 1], offset, (offset + 1) % 256, (offset + QUOTE) % 256);
    }
  }

  /** Three different bytes need an escape at an offset. */
  lemma ReservedShifts(b: Byte, offset: Byte, next: Byte, quote: Byte)
    requires next == (offset + 1) % 256 && quote == (offset + QUOTE) % 256
    ensures IsReserved(Shift(b, offset)) <==> b == offset || b == next || b == quote
    ensures offset != next && offset != quote && next != quote
  {
    hide Shift;
    ShiftIs(b, offset, 0);
    ShiftIs(b, offset, 1);
    ShiftIs(b, offset, QUOTE);
  }

  lemma {:induction false} EncodedLength(s: seq<Byte>, offset: Byte)
    ensures |EncodeBody(s, offset)| == |s| + Escapes(s, offset)
  {
    if s != [] {
      EncodedLength(s[..|s| - 1], offset);
    }
  }

  // ---------- the averaging argument ----------

  /** The escapes of `s` summed over the allowed offsets below `bound`. */
  function TotalEscapes(s: seq<Byte>, bound: nat): nat
    requires bound <= 256
  {
    if bound == 0 then 0
    else TotalEscapes(s, bound - 1) + if Allowed(bound - 1) then Escapes(s, bound - 1) else 0
  }

  /** How many allowed offsets below `bound` make `b` need an escape. */
  function BadOffsets(b: Byte, bound: nat): nat
    requires bound <= 256
  {
    if bound == 0 then 0
    else BadOffsets(b, bound - 1) + if Allowed(bound - 1) && IsReserved(Shift(b, bound - 1)) then 1 else 0
  }

  function AllowedBelow(bound: nat): nat
    requires bound <= 256
  {
    if bound == 0 then 0 else AllowedBelow(bound - 1) + if Allowed(bound - 1) then 1 else 0
  }

  lemma {:induction false} AllowedBelowCount(bound: nat)
    requires bound <= 256
    ensures AllowedBelow(bound) == if bound == 0 then 0 else if bound <= QUOTE then bound - 1 else bound - 2
  {
    if bound > 0 {
      AllowedBelowCount(bound - 1);
    }
  }

  lemma {:induction false} AtMostThreeBadOffsets(b: Byte, bound: nat)
    requires bound <= 256
    ensures BadOffsets(b, bound) <= (if b < bound then 1 else 0) + (if (b - 1) % 256 < bound then 1 else 0)
                                  + (if (b - QUOTE) % 256 < bound then 1 else 0)
  {
    if bound > 0 {
      AtMostThreeBadOffsets(b, bound - 1);
      var e: Byte := bound - 1;
      hide Shift;
      ShiftIs(b, e, 0);
      ShiftIs(b, e, 1);
      ShiftIs(b, e, QUOTE);
    }
  }

  lemma {:induction false} TotalSplits(s: seq<Byte>, bound: nat)
    requires s != [] && bound <= 256
    ensures TotalEscapes(s, bound) == TotalEscapes(s[..|s| - 1], bound) + BadOffsets(s[|s| - 1], bound)
  {
    if bound > 0 {
      TotalSplits(s, bound - 1);
    }
  }

  lemma {:induction false} TotalOfEmpty(bound: nat)
    requires bound <= 256
    ensures TotalEscapes([], bound) == 0
  {
    if bound > 0 {
      TotalOfEmpty(bound - 1);
    }
  }

  lemma {:induction false} TotalAtMostThreePerByte(s: seq<Byte>)
    ensures TotalEscapes(s, 256) <= 3 * |s|
  {
    if s == [] {
      TotalOfEmpty(256);
    } else {
      TotalAtMostThreePerByte(s[..|s| - 1]);
      TotalSplits(s, 256);
      AtMostThreeBadOffsets(s[|s| - 1], 256);
    }
  }

  lemma TimesSuccessor(a: nat, b: nat)
    ensures a * (b + 1) == a * b + a
  {
  }

  lemma {:induction false} TotalAtLeastMinimum(s: seq<Byte>, least: nat, bound: nat)
    requires bound <= 256
    requires forall e: Byte | Allowed(e) && e < bound :: least <= Escapes(s, e)
    ensures least * AllowedBelow(bound) <= TotalEscapes(s, bound)
  {
    hide Escapes, Allowed;
    if bound > 0 {
      TotalAtLeastMinimum(s, least, bound - 1);
      var e: Byte := bound - 1;
      if Allowed(e) {
        assert least <= Escapes(s, e);
        TimesSuccessor(least, AllowedBelow(bound - 1));
      }
    }
  }

  /** Averaging over the 254 allowed offsets bounds the escapes at any offset that is minimal. */
  lemma MinimumIsSmall(s: seq<Byte>, least: nat)
    requires forall e: Byte | Allowed(e) :: least <= Escapes(s, e)
    ensures 254 * least <= 3 * |s|
    ensures least <= 3 * |s| / 254
  {
    TotalAtLeastMinimum(s, least, 256);
    AllowedBelowCount(256);
    TotalAtMostThreePerByte(s);
    hide *;
  }

  // ---------- round trips ----------

  lemma PrependAppend(first: Byte, middle: seq<Byte>, last: Byte)
    ensures [first] + (middle + [last]) == ([first] + middle) + [last]
  {
  }

  lemma {:induction false} DecodeAppend(t: seq<Byte>, b: Byte, offset: Byte)
    requires DecodeBody(t, offset).Some?
    ensures DecodeBody(t + EncodeByte(b, offset), offset) == Some(DecodeBody(t, offset).value + [b])
  {
    var tail := EncodeByte(b, offset);
    ShiftRoundTrip(b, offset);
    if t == [] {
      assert t + tail == tail;
      assert tail[|tail|..] == [];
      if |tail| == 2 {
        assert tail[2..] == [];
        assert DecodeBody(tail, offset) == Prepend(b, Some([]));
        assert [b] + [] == [] + [b];
      } else {
        assert tail == [Shift(b, offset)] && tail[1..] == [];
        assert DecodeBody(tail, offset) == Prepend(b, Some([]));
        assert [b] + [] == [] + [b];
      }
    } else if t[0] == 1 {
      DecodeAppend(t[2..], b, offset);
      assert (t + tail)[2..] == t[2..] + tail;
      PrependAppend(Unshift(EscapedByte(t[1]).value, offset), DecodeBody(t[2..], offset).value, b);
    } else {
      DecodeAppend(t[1..], b, offset);
      assert (t + tail)[1..] == t[1..] + tail;
      PrependAppend(Unshift(t[0], offset), DecodeBody(t[1..], offset).value, b);
    }
  }

  lemma {:induction false} DecodeEncodeBody(s: seq<Byte>, offset: Byte)
    ensures DecodeBody(EncodeBody(s, offset), offset) == Some(s)
  {
    if s != [] {
      DecodeEncodeBody(s[..|s| - 1], offset);
      DecodeAppend(EncodeBody(s[..|s| - 1], offset), s[|s| - 1], offset);
      assert s[..|s| - 1] + [s[|s| - 1]] == s;
    }
  }

  lemma {:induction false} EncodeBodyQuoteFree(s: seq<Byte>, offset: Byte)
    ensures QuoteFree(EncodeBody(s, offset))
  {
    if s != [] {
      EncodeBodyQuoteFree(s[..|s| - 1], offset);
      assert QuoteFree(EncodeByte(s[|s| - 1], offset));
    }
  }

  /** Whatever allowed offset is used, the text is free of terminators and quotes and decodes
      to the original bytes. */
  lemma EncodeThenDecode(s: seq<Byte>, offset: Byte)
    requires Allowed(offset)
    ensures QuoteFree(EncodeWith(s, offset))
    ensures Decode(EncodeWith(s, offset)) == Some(s)
    ensures |EncodeWith(s, offset)| == 1 + |s| + Escapes(s, offset)
  {
    EncodeBodyQuoteFree(s, offset);
    DecodeEncodeBody(s, offset);
    EncodedLength(s, offset);
    assert EncodeWith(s, offset)[1..] == EncodeBody(s, offset);
  }

  lemma {:induction false} EncodeBodyPrepend(b: Byte, s: seq<Byte>, offset: Byte)
    ensures EncodeBody([b] + s, offset) == EncodeByte(b, offset) + EncodeBody(s, offset)
  {
    if s == [] {
      assert [b] + s == [b];
      assert [b][..0] == [];
      assert EncodeBody([b], offset) == EncodeBody([], offset) + EncodeByte(b, offset);
    } else {
      var whole := [b] + s;
      assert whole[..|whole| - 1] == [b] + s[..|s| - 1];
      assert whole[|whole| - 1] == s[|s| - 1];
      EncodeBodyPrepend(b, s[..|s| - 1], offset);
    }
  }

  lemma {:induction false} EncodeDecodedBody(t: seq<Byte>, offset: Byte)
    requires QuoteFree(t) && DecodeBody(t, offset).Some?
    ensures EncodeBody(DecodeBody(t, offset).value, offset) == t
  {
    if t != [] {
      if t[0] == 1 {
        EncodeDecodedBody(t[2..], offset);
        var b := Unshift(EscapedByte(t[1]).value, offset);
        ShiftRoundTrip(EscapedByte(t[1]).value, offset);
        EncodeBodyPrepend(b, DecodeBody(t[2..], offset).value, offset);
        assert t == [t[0], t[1]] + t[2..];
      } else {
        EncodeDecodedBody(t[1..], offset);
        var b := Unshift(t[0], offset);
        ShiftRoundTrip(t[0], offset);
        EncodeBodyPrepend(b, DecodeBody(t[1..], offset).value, offset);
        assert t == [t[0]] + t[1..];
      }
    }
  }

  /** A well-formed text without quotes is the one and only text of its bytes at its offset. */
  lemma DecodeThenEncode(text: seq<Byte>)
    requires text != [] && QuoteFree(text) && Decode(text).Some?
    ensures Allowed(text[0])
    ensures EncodeWith(Decode(text).value, text[0]) == text
  {
    EncodeDecodedBody(text[1..], text[0]);
  }

  // ---------- the offset the encoder picks ----------

  /** The first of the allowed offsets that need the fewest escapes. */
  ghost predicate IsBest(s: seq<Byte>, offset: Byte) {
    && Allowed(offset)
    && (forall e: Byte | Allowed(e) :: Escapes(s, offset) <= Escapes(s, e))
    && (forall e: Byte | Allowed(e) && e < offset :: Escapes(s, offset) < Escapes(s, e))
  }

  lemma {:induction false} BestBelow(s: seq<Byte>, bound: nat) returns (best: Byte)
    requires 2 <= bound <= 256
    ensures Allowed(best) && best < bound
    ensures forall e: Byte | Allowed(e) && e < bound :: Escapes(s, best) <= Escapes(s, e)
    ensures forall e: Byte | Allowed(e) && e < best :: Escapes(s, best) < Escapes(s, e)
  {
    if bound == 2 {
      best := 1;
    } else {
      best := BestBelow(s, bound - 1);
      var last: Byte := bound - 1;
      if Allowed(last) && Escapes(s, last) < Escapes(s, best) {
        best := last;
      }
    }
  }

  /** There is exactly one best offset, whatever the bytes, and it needs few escapes. */
  lemma BestOffset(s: seq<Byte>) returns (best: Byte)
    ensures IsBest(s, best)
    ensures forall e: Byte | IsBest(s, e) :: e == best
    ensures Escapes(s, best) <= 3 * |s| / 254
  {
    best := BestBelow(s, 256);
    MinimumIsSmall(s, Escapes(s, best));
  }

  /** What the encoder writes before the terminator: a lone `x` for an empty value. */
  ghost predicate IsEncodingOf(text: seq<Byte>, s: seq<Byte>) {
    if s == [] then text == [120]
    else text != [] && IsBest(s, text[0]) && text == EncodeWith(s, text[0])
  }

  /** Any text the encoder produces can be stored, and gives the bytes back. */
  lemma EncodingRoundTrip(text: seq<Byte>, s: seq<Byte>)
    requires IsEncodingOf(text, s)
    ensures text != [] && QuoteFree(text)
    ensures Decode(text) == Some(s)
  {
    if s != [] {
      EncodeThenDecode(s, text[0]);
    } else {
      assert text[1..] == [];
    }
  }

  // ---------- buffer sizes ----------

  /** `capacity` holds the encoder's text for `s` together with its terminator. */
  ghost predicate Room(s: seq<Byte>, capacity: int) {
    forall text | IsEncodingOf(text, s) :: |text| + 1 <= capacity
  }

  function BufferSize(n: nat): nat {
    3 + 257 * n / 254
  }

  lemma EncodingIsShortest(text: seq<Byte>, s: seq<Byte>, offset: Byte)
    requires IsEncodingOf(text, s) && Allowed(offset)
    ensures |text| <= 1 + |s| + Escapes(s, offset)
  {
    if s != [] {
      EncodeThenDecode(s, text[0]);
    }
  }

  /** The buffer sized for n bytes holds the text of any n bytes, with at least one byte to spare. */
  lemma AllocatedRoom(s: seq<Byte>)
    ensures Room(s, BufferSize(|s|) - 1)
  {
    var best := BestOffset(s);
    forall text | IsEncodingOf(text, s)
      ensures |text| + 1 <= BufferSize(|s|) - 1
    {
      EncodingIsShortest(text, s, best);
      assert 257 * |s| / 254 == |s| + 3 * |s| / 254;
    }
  }

  /** Decoding a stored text and encoding the bytes again never needs a larger buffer. */
  lemma ReencodingFits(text: seq<Byte>)
    requires text != [] && QuoteFree(text) && Decode(text).Some?
    ensures Room(Decode(text).value, |text| + 1)
  {
    var s := Decode(text).value;
    DecodeThenEncode(text);
    EncodeThenDecode(s, text[0]);
    forall again | IsEncodingOf(again, s)
      ensures |again| + 1 <= |text| + 1
    {
      EncodingIsShortest(again, s, text[0]);
    }
  }
}
