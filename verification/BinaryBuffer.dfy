/** The buffer CppSQLite3 keeps a binary value in: it holds either the bytes or their
    text, and converts between the two in place. */
module BinaryBuffer {
  import opened Wrappers
  import opened BinaryCodec

  // ---------- the encoder ----------

  lemma {:induction false} OccurrencesPrepend(b: Byte, s: seq<Byte>, c: Byte)
    ensures Occurrences([b] + s, c) == Occurrences(s, c) + if b == c then 1 else 0
  {
    if s == [] {
      assert [b] + s == [b] && [b][..0] == [];
    } else {
      var whole := [b] + s;
      assert whole[..|whole| - 1] == [b] + s[..|s| - 1];
      OccurrencesPrepend(b, s[..|s| - 1], c);
    }
  }

  method CountBytes(input: array<Byte>, n: nat) returns (cnt: array<int>)
    requires n <= input.Length
    ensures fresh(cnt) && cnt.Length == 256
    ensures forall b: Byte :: cnt[b] == Occurrences(input[..n], b)
  {
    cnt := new int[256](_ => 0);
    var i := n;
    assert input[n..n] == [];
    while i > 0
      invariant 0 <= i <= n
      invariant forall b: Byte :: cnt[b] == Occurrences(input[i..n], b)
    {
      i := i - 1;
      assert input[i..n] == [input[i]] + input[i + 1..n];
      forall b: Byte
        ensures Occurrences(input[i..n], b) == Occurrences(input[i + 1..n], b) + if input[i] == b then 1 else 0
      {
        OccurrencesPrepend(input[i], input[i + 1..n], b);
      }
      cnt[input[i]] := cnt[input[i]] + 1;
    }
    assert input[0..n] == input[..n];
  }

  /** Tries every allowed offset, keeping the first with the fewest escapes; the search stops
      early at an offset that needs none. */
  method ChooseOffset(cnt: array<int>, n: nat, ghost s: seq<Byte>) returns (e: Byte, m: nat)
    requires n == |s| > 0 && cnt.Length == 256
    requires forall b: Byte :: cnt[b] == Occurrences(s, b)
    ensures IsBest(s, e) && m == Escapes(s, e)
    ensures m <= 3 * n / 254
  {
    e := *;
    m := n;
    var i := 1;
    ghost var picked := false;
    while i < 256 && m != 0
      invariant 1 <= i <= 256
      invariant !picked ==> m == n
      invariant picked ==> Allowed(e) && e < i && Escapes(s, e) == m
      invariant picked ==> forall f: Byte | Allowed(f) && f < e :: m < Escapes(s, f)
      invariant forall f: Byte | Allowed(f) && f < i :: m <= Escapes(s, f)
    {
      if i != QUOTE {
        EscapesAreThreeCounts(s, i);
        var sum := cnt[i] + cnt[(i + 1) % 256] + cnt[(i + QUOTE) % 256];
        if sum < m {
          m := sum;
          e := i;
          picked := true;
        }
      }
      i := i + 1;
    }
    MinimumIsSmall(s, m);
  }

  method PutShifted(out: array<Byte>, j: nat, c: Byte) returns (next: nat)
    requires j + |Escape(c)| <= out.Length
    modifies out
    ensures next == j + |Escape(c)|
    ensures out[..next] == old(out[..j]) + Escape(c)
  {
    if c == 0 {
      out[j], out[j + 1] := 1, 1;
      next := j + 2;
    } else if c == 1 {
      out[j], out[j + 1] := 1, 2;
      next := j + 2;
    } else if c == QUOTE {
      out[j], out[j + 1] := 1, 3;
      next := j + 2;
    } else {
      out[j] := c;
      next := j + 1;
    }
    assert out[..next] == old(out[..j]) + out[j..next];
  }

  /** Writes the offset and then every byte shifted by it, with the reserved ones escaped. */
  method WriteShifted(input: array<Byte>, n: nat, e: Byte, out: array<Byte>) returns (j: nat)
    requires n <= input.Length && input != out
    requires |EncodeWith(input[..n], e)| < out.Length
    modifies out
    ensures j < out.Length
    ensures out[..j] == EncodeWith(input[..n], e)
  {
    hide EncodeBody, Escape;
    ghost var s := input[..n];
    out[0] := e;
    j := 1;
    var i := 0;
    assert s[..0] == [];
    EncodeNothing(e);
    while i < n
      invariant 0 <= i <= n
      invariant j == 1 + |EncodeBody(s[..i], e)| <= |EncodeWith(s, e)|
      invariant out[..j] == [e] + EncodeBody(s[..i], e)
    {
      EncodeBodyStep(s, i, e);
      j := PutShifted(out, j, (input[i] - e) % 256);
      i := i + 1;
    }
    assert s[..n] == s;
  }

  /** Encodes n bytes into `out`, terminated by a zero byte; the text length is returned. */
  method EncodeBinary(input: array<Byte>, n: int, out: array<Byte>, ghost s: seq<Byte>) returns (r: nat)
    requires n <= input.Length && input != out
    requires s == if n <= 0 then [] else input[..n]
    requires Room(s, out.Length)
    modifies out
    ensures r < out.Length && out[r] == 0
    ensures IsEncodingOf(out[..r], s)
  {
    if n <= 0 {
      assert IsEncodingOf([120], []);
      out[0], out[1] := 120, 0;
      assert out[..1] == [120];
      return 1;
    }
    var cnt := CountBytes(input, n);
    var e, m := ChooseOffset(cnt, n, s);
    assert IsEncodingOf(EncodeWith(s, e), s);
    r := WriteShifted(input, n, e, out);
    ghost var text := out[..r];
    out[r] := 0;
    assert out[..r] == text;
  }

  lemma EncodeNothing(offset: Byte)
    ensures EncodeBody([], offset) == []
  {
  }

  lemma EncodeBodyStep(s: seq<Byte>, i: nat, offset: Byte)
    requires i < |s|
    ensures EncodeBody(s[..i + 1], offset) == EncodeBody(s[..i], offset) + EncodeByte(s[i], offset)
    ensures |EncodeBody(s[..i + 1], offset)| <= |EncodeBody(s, offset)|
  {
    assert s[..i + 1][..i] == s[..i];
    EncodeBodyGrows(s, i + 1, offset);
  }

  lemma {:induction false} EncodeBodyGrows(s: seq<Byte>, k: nat, offset: Byte)
    requires k <= |s|
    ensures |EncodeBody(s[..k], offset)| <= |EncodeBody(s, offset)|
  {
    if k < |s| {
      EncodeBodyGrows(s[..|s| - 1], k, offset);
      assert s[..|s| - 1][..k] == s[..k];
    } else {
      assert s[..k] == s;
    }
  }

  // ---------- the decoder ----------

  /** The bytes written before the end of the body or its first malformed escape. */
  function DecodedPrefix(t: seq<Byte>, offset: Byte): seq<Byte> {
    if t == [] then []
    else if t[0] == 1 then
      if |t| == 1 || EscapedByte(t[1]).None? then []
      else [Unshift(EscapedByte(t[1]).value, offset)] + DecodedPrefix(t[2..], offset)
    else [Unshift(t[0], offset)] + DecodedPrefix(t[1..], offset)
  }

  lemma {:induction false} DecodedPrefixOfWellFormed(t: seq<Byte>, offset: Byte)
    requires DecodeBody(t, offset).Some?
    ensures DecodedPrefix(t, offset) == DecodeBody(t, offset).value
  {
    if t != [] {
      DecodedPrefixOfWellFormed(if t[0] == 1 then t[2..] else t[1..], offset);
    }
  }

  /** The text in `a` that ends before index `len`. */
  ghost predicate HasText(a: seq<Byte>, len: int) {
    0 <= len < |a| && a[len] == 0 && forall k :: 0 <= k < len ==> a[k] != 0
  }

  /** Reads one byte of the body, escaped or not; nothing where an escape is malformed. */
  method ReadByte(input: array<Byte>, j: nat, e: Byte, ghost len: nat) returns (c: Option<Byte>, next: nat)
    requires j < len < input.Length && input[len] == 0 && forall k :: j <= k < len ==> input[k] != 0
    ensures c.None? ==> DecodedPrefix(input[j..len], e) == [] && DecodeBody(input[j..len], e).None?
    ensures c.Some? ==>
              && j < next <= len
              && DecodedPrefix(input[j..len], e) == [Unshift(c.value, e)] + DecodedPrefix(input[next..len], e)
              && DecodeBody(input[j..len], e).None? == DecodeBody(input[next..len], e).None?
  {
    hide DecodeBody, DecodedPrefix, Unshift;
    ghost var rest := input[j..len];
    DecodeStep(rest, e);
    assert rest[1..] == input[j + 1..len];
    if input[j] != 1 {
      return Some(input[j]), j + 1;
    }
    assert |rest| > 1 ==> rest[2..] == input[j + 2..len] && rest[1] == input[j + 1];
    if input[j + 1] == 1 {
      c := Some(0);
    } else if input[j + 1] == 2 {
      c := Some(1);
    } else if input[j + 1] == 3 {
      c := Some(QUOTE);
    } else {
      c := None;
    }
    next := j + 2;
  }

  /** Decodes the text of `input` into `out`, which may be the same array: every write lands
      before the next byte to be read. */
  method DecodeBinary(input: array<Byte>, out: array<Byte>, ghost len: nat) returns (r: int)
    requires HasText(input[..], len) && len > 0
    requires len - 1 <= out.Length
    modifies out
    ensures r == (if Decode(old(input[..len])).None? then -1 else |Decode(old(input[..len])).value|)
    ensures var p := DecodedPrefix(old(input[1..len]), old(input[0]));
            |p| < len && out[..|p|] == p && out[|p|..] == old(out[|p|..])
    ensures r != -1 ==> r <= out.Length && out[..r] == Decode(old(input[..len])).value
  {
    hide DecodeBody, DecodedPrefix;
    ghost var text := input[..];
    ghost var body := text[1..len];
    assert text[..len][1..] == body;
    var e := input[0];
    var i, j := 0, 1;
    ghost var done: seq<Byte> := [];
    DecodeEmpty(e);
    while input[j] != 0
      invariant 1 <= j <= len && |done| == i <= j - 1
      invariant forall k :: j <= k <= len ==> input[k] == text[k]
      invariant forall k :: 0 <= k < i ==> out[k] == done[k]
      invariant forall k :: i <= k < out.Length ==> out[k] == old(out[k])
      invariant DecodedPrefix(body, e) == done + DecodedPrefix(text[j..len], e)
      invariant DecodeBody(body, e).None? == DecodeBody(text[j..len], e).None?
      decreases len - j
    {
      assert text[j..len] == input[j..len];
      var c, next := ReadByte(input, j, e, len);
      if c.None? {
        assert done + [] == done == out[..i];
        return -1;
      }
      assert text[next..len] == input[next..len];
      var shifted: int := c.value;
      j := next;
      out[i] := (shifted + e) % 256;
      Reassociate(done, Unshift(c.value, e), DecodedPrefix(text[j..len], e));
      done := done + [Unshift(c.value, e)];
      i := i + 1;
    }
    assert text[j..len] == [];
    assert done + [] == done == out[..i];
    DecodedPrefixOfWellFormed(body, e);
    return i;
  }

  lemma Reassociate(front: seq<Byte>, b: Byte, back: seq<Byte>)
    ensures front + ([b] + back) == (front + [b]) + back
  {
  }

  lemma DecodeEmpty(e: Byte)
    ensures DecodedPrefix([], e) == [] && DecodeBody([], e) == Some([])
  {
  }

  /** One step of the decoder: a malformed escape stops it, otherwise one byte comes out. */
  lemma DecodeStep(rest: seq<Byte>, e: Byte)
    requires rest != []
    ensures rest[0] == 1 && (|rest| == 1 || EscapedByte(rest[1]).None?) ==>
              DecodedPrefix(rest, e) == [] && DecodeBody(rest, e).None?
    ensures rest[0] == 1 && |rest| > 1 && EscapedByte(rest[1]).Some? ==>
              && DecodedPrefix(rest, e) == [Unshift(EscapedByte(rest[1]).value, e)] + DecodedPrefix(rest[2..], e)
              && DecodeBody(rest, e).None? == DecodeBody(rest[2..], e).None?
    ensures rest[0] != 1 ==>
              && DecodedPrefix(rest, e) == [Unshift(rest[0], e)] + DecodedPrefix(rest[1..], e)
              && DecodeBody(rest, e).None? == DecodeBody(rest[1..], e).None?
  {
  }

  // ---------- the buffer ----------

  class Buffer {
    var buf: array?<Byte>
    var binaryLen: int
    var bufferLen: int
    var encodedLen: int
    var encoded: bool

    ghost predicate Valid()
      reads this, buf
    {
      && buf != null && bufferLen == buf.Length
      && (encoded ==> HasText(buf[..], encodedLen))
      && (!encoded ==> 0 <= binaryLen <= bufferLen)
    }

    /** What every conversion keeps: a text can be decoded, bytes can be encoded in the space there is. */
    ghost predicate Safe()
      reads this, buf
    {
      && Valid()
      && (encoded ==> encodedLen > 0 && QuoteFree(buf[..encodedLen]) && Decode(buf[..encodedLen]).Some?)
      && (!encoded ==> Room(buf[..binaryLen], bufferLen))
    }

    /** The binary value the buffer stands for, in either state. */
    ghost function Payload(): seq<Byte>
      requires Safe()
      reads this, buf
    {
      if encoded then Decode(buf[..encodedLen]).value else buf[..binaryLen]
    }

    constructor ()
      ensures buf == null && binaryLen == bufferLen == encodedLen == 0 && !encoded
    {
      buf := null;
      binaryLen, bufferLen, encodedLen, encoded := 0, 0, 0, false;
    }

    method Clear()
      modifies this
      ensures buf == null && encoded == old(encoded) && encodedLen == old(encodedLen)
      ensures old(buf) != null ==> binaryLen == bufferLen == 0
      ensures old(buf) == null ==> binaryLen == old(binaryLen) && bufferLen == old(bufferLen)
    {
      if buf != null {
        binaryLen := 0;
        bufferLen := 0;
        buf := null;
      }
    }

    /** Room for n bytes that the caller fills in, and later for their text. */
    method AllocBuffer(n: int)
      requires 0 <= n && 257 * n < 0x8000_0000
      modifies this
      ensures Safe() && !encoded && binaryLen == n && fresh(buf) && encodedLen == old(encodedLen)
      ensures bufferLen == BufferSize(n)
      ensures forall s: seq<Byte> | |s| == n :: Room(s, bufferLen - 1)
    {
      Clear();
      binaryLen := n;
      bufferLen := 3 + 257 * n / 254;
      buf := new Byte[bufferLen];
      encoded := false;
      forall s: seq<Byte> | |s| == n
        ensures Room(s, bufferLen - 1)
      {
        AllocatedRoom(s);
      }
    }

    method SetBinary(bytes: array<Byte>, n: int)
      requires 0 <= n <= bytes.Length && 257 * n < 0x8000_0000
      requires bytes != buf
      modifies this
      ensures Safe() && !encoded && binaryLen == n && fresh(buf)
      ensures Payload() == bytes[..n]
    {
      AllocBuffer(n);
      forall i | 0 <= i < n {
        buf[i] := bytes[i];
      }
      assert buf[..n] == bytes[..n];
    }

    method SetEncoded(text: array<Byte>)
      requires exists len :: HasText(text[..], len)
      requires text != buf
      modifies this
      ensures Valid() && encoded && fresh(buf) && bufferLen == encodedLen + 1
      ensures HasText(text[..], encodedLen) && buf[..encodedLen] == text[..encodedLen]
      ensures encodedLen > 0 && QuoteFree(text[..encodedLen]) && Decode(text[..encodedLen]).Some? ==> Safe()
    {
      ghost var len :| HasText(text[..], len);
      Clear();
      assert HasText(text[..], len);
      encodedLen := StringLength(text);
      bufferLen := encodedLen + 1;
      buf := new Byte[bufferLen];
      forall i | 0 <= i < bufferLen {
        buf[i] := text[i];
      }
      encoded := true;
      assert buf[..encodedLen] == text[..encodedLen];
    }

    method GetEncoded() returns (text: array<Byte>)
      requires Valid() && (!encoded ==> Room(buf[..binaryLen], bufferLen))
      modifies this, buf
      ensures text == buf == old(buf) && bufferLen == old(bufferLen) && binaryLen == old(binaryLen)
      ensures Valid() && encoded
      ensures !old(encoded) ==> IsEncodingOf(buf[..encodedLen], old(buf[..binaryLen])) && Safe()
      ensures old(encoded) ==> encodedLen == old(encodedLen) && buf[..] == old(buf[..])
      ensures old(Safe()) ==> Safe() && Payload() == old(Payload())
    {
      if !encoded {
        ghost var payload := buf[..binaryLen];
        assert Room(payload, buf.Length);
        var copy := new Byte[binaryLen];
        forall i | 0 <= i < binaryLen {
          copy[i] := buf[i];
        }
        assert copy[..binaryLen] == payload;
        encodedLen := EncodeBinary(copy, binaryLen, buf, payload);
        encoded := true;
        ghost var t := buf[..encodedLen];
        assert IsEncodingOf(t, payload);
        EncodingRoundTrip(t, payload);
        assert HasText(buf[..], encodedLen) by {
          assert forall k :: 0 <= k < encodedLen ==> buf[..][k] == t[k];
        }
      }
      return buf;
    }

    /** None when the text is malformed: the flag stays, and the bytes decoded so far have
        overwritten the front of the text. */
    method GetBinary() returns (bytes: Option<array<Byte>>)
      requires Valid() && (encoded ==> encodedLen > 0)
      modifies this, buf
      ensures buf == old(buf) && bufferLen == old(bufferLen) && encodedLen == old(encodedLen)
      ensures bytes.Some? ==> bytes.value == buf && !encoded && Valid()
      ensures bytes.None? <==> old(encoded) && Decode(old(buf[..encodedLen])).None?
      ensures bytes.None? ==> encoded && binaryLen == -1
      ensures old(encoded) ==> var p := DecodedPrefix(old(buf[1..encodedLen]), old(buf[0]));
                               |p| <= buf.Length && buf[..] == p + old(buf[..])[|p|..]
      ensures old(encoded) && bytes.Some? ==> buf[..binaryLen] == Decode(old(buf[..encodedLen])).value
      ensures !old(encoded) ==> binaryLen == old(binaryLen) && buf[..] == old(buf[..])
      ensures old(Safe()) ==> bytes.Some? && Safe() && Payload() == old(Payload())
    {
      if encoded {
        ghost var before := buf[..];
        ghost var p := DecodedPrefix(before[1..encodedLen], before[0]);
        binaryLen := DecodeBinary(buf, buf, encodedLen);
        assert buf[..] == p + before[|p|..] by {
          assert buf[..] == buf[..|p|] + buf[|p|..];
        }
        if binaryLen == -1 {
          return None;
        }
        ghost var text := before[..encodedLen];
        if QuoteFree(text) {
          ReencodingFits(text);
        }
        encoded := false;
      }
      return Some(buf);
    }

    method GetBinaryLength() returns (n: int)
      requires Valid() && (encoded ==> encodedLen > 0)
      modifies this, buf
      ensures buf == old(buf) && n == binaryLen
      ensures old(Safe()) ==> Safe() && Payload() == old(Payload()) && n == |Payload()|
    {
      var _ := GetBinary();
      return binaryLen;
    }
  }

  method StringLength(a: array<Byte>) returns (n: nat)
    requires exists len :: HasText(a[..], len)
    ensures HasText(a[..], n)
  {
    ghost var len :| HasText(a[..], len);
    assert a[..][len] == 0;
    n := 0;
    while a[n] != 0
      invariant n <= len
      invariant forall k :: 0 <= k < n ==> a[k] != 0
      decreases len - n
    {
      assert a[..][n] == a[n];
      n := n + 1;
    }
  }
}
