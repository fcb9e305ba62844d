/** Printing an attribute and parsing what was printed: exactly when this gives the attribute back. */
module XmlRoundTrip {
  import opened Wrappers
  import opened XmlAttribute

  // ---------- reading text, names and attributes ----------

  predicate IsSpace(c: char) {
    c == ' ' || 9 as char <= c <= 13 as char
  }

  predicate IsAlpha(c: char) {
    'a' <= c <= 'z' || 'A' <= c <= 'Z' || c >= 127 as char
  }

  predicate StartsName(c: char) {
    IsAlpha(c) || c == '_'
  }

  predicate InName(c: char) {
    IsAlpha(c) || '0' <= c <= '9' || c == '_' || c == '-' || c == '.' || c == ':'
  }

  /** A byte order mark, or one of two non-characters, as the parser skips them in UTF-8 text. */
  predicate StartsMark(p: string) {
    |p| >= 3 && p[0] == 0xef as char &&
    ((p[1] == 0xbb as char && p[2] == 0xbf as char) || (p[1] == 0xbf as char && (p[2] == 0xbe as char || p[2] == 0xbf as char)))
  }

  function SkipSpace(p: string, utf8: bool): (r: string)
    ensures |r| <= |p|
  {
    if p == "" then ""
    else if utf8 && StartsMark(p) then SkipSpace(p[3..], utf8)
    else if IsSpace(p[0]) then SkipSpace(p[1..], utf8)
    else p
  }

  /** The value up to the quote and the text after it; a value without its quote runs to the end. */
  function TextUpTo(p: string, quote: char, utf8: bool): Option<(string, string)>
    decreases |p|
  {
    if p == "" then Some(("", ""))
    else if p[0] == quote then Some(("", p[1..]))
    else
      EntityAdvances(p, utf8);
      match CharAt(p, utf8)
      case Failed => None
      case Got(bytes, rest) =>
        match TextUpTo(rest, quote, utf8)
        case None => None
        case Some(text) => Some((bytes + text.0, text.1))
  }

  function NameLength(p: string): (n: nat)
    ensures n <= |p| && (n < |p| ==> !InName(p[n])) && forall j :: 0 <= j < n ==> InName(p[j])
  {
    if p == "" || !InName(p[0]) then 0 else 1 + NameLength(p[1..])
  }

  function BareLength(p: string): (n: nat)
    ensures n <= |p|
  {
    if p == "" || IsSpace(p[0]) || p[0] == '/' || p[0] == '>' || p[0] == '\'' || p[0] == '\"' then 0 else 1 + BareLength(p[1..])
  }

  /** A value without quotes may not run into one. */
  function BareText(p: string): Option<(string, string)> {
    var n := BareLength(p);
    if n < |p| && (p[n] == '\'' || p[n] == '\"') then None else Some((p[..n], p[n..]))
  }

  function ValueAt(p: string, utf8: bool): Option<(string, string)>
    requires p != ""
  {
    if p[0] == '\'' || p[0] == '\"' then TextUpTo(p[1..], p[0], utf8) else BareText(p)
  }

  function ParseAttribute(text: string, utf8: bool): Option<(string, string, string)> {
    var p := SkipSpace(text, utf8);
    if p == "" || !StartsName(p[0]) then None
    else
      var n := NameLength(p);
      if n == |p| then None
      else
        var q := SkipSpace(p[n..], utf8);
        if q == "" || q[0] != '=' then None
        else
          var v := SkipSpace(q[1..], utf8);
          if v == "" then None
          else
            match ValueAt(v, utf8)
            case None => None
            case Some(value) => Some((p[..n], value.0, value.1))
  }

  function Quote(value: string): char {
    if '\"' in value then '\'' else '\"'
  }

  function PrintAttribute(name: string, value: string): string {
    Encode(name) + "=" + [Quote(value)] + Encode(value) + [Quote(value)]
  }

  // ---------- the attribute object ----------

  method SkipWhiteSpace(text: string, utf8: bool) returns (p: string)
    ensures p == SkipSpace(text, utf8)
  {
    p := text;
    while p != "" && ((utf8 && StartsMark(p)) || IsSpace(p[0]))
      invariant SkipSpace(p, utf8) == SkipSpace(text, utf8)
      decreases |p|
    {
      p := if utf8 && StartsMark(p) then p[3..] else p[1..];
    }
  }

  ghost function Prefixed(value: string, r: Option<(string, string)>): Option<(string, string)> {
    match r
    case None => None
    case Some(text) => Some((value + text.0, text.1))
  }

  lemma PrefixNothing(r: Option<(string, string)>)
    ensures Prefixed("", r) == r
  {
    if r.Some? {
      assert "" + r.value.0 == r.value.0;
    }
  }

  lemma PrefixStep(value: string, p: string, quote: char, utf8: bool)
    requires p != "" && p[0] != quote
    ensures CharAt(p, utf8).Failed? ==> Prefixed(value, TextUpTo(p, quote, utf8)) == None
    ensures CharAt(p, utf8).Got? ==>
              var c := CharAt(p, utf8);
              && |c.rest| < |p|
              && Prefixed(value, TextUpTo(p, quote, utf8)) == Prefixed(value + c.bytes, TextUpTo(c.rest, quote, utf8))
  {
    hide CharAt;
    EntityAdvances(p, utf8);
    var c := CharAt(p, utf8);
    if c.Got? {
      var after := TextUpTo(c.rest, quote, utf8);
      if after.Some? {
        assert value + (c.bytes + after.value.0) == value + c.bytes + after.value.0;
      }
    }
  }

  method ReadChar(p: string, utf8: bool) returns (c: Char)
    requires p != ""
    ensures c == CharAt(p, utf8)
  {
    if p[0] == '&' {
      c := GetEntity(p, utf8);
    } else {
      c := CharAt(p, utf8);
    }
  }

  method ReadText(text: string, quote: char, utf8: bool) returns (value: string, rest: Option<string>)
    ensures TextUpTo(text, quote, utf8) == if rest.Some? then Some((value, rest.value)) else None
  {
    value := "";
    var p := text;
    PrefixNothing(TextUpTo(text, quote, utf8));
    while p != "" && p[0] != quote
      invariant TextUpTo(text, quote, utf8) == Prefixed(value, TextUpTo(p, quote, utf8))
      decreases |p|
    {
      hide CharAt, TextUpTo, Prefixed;
      var c := ReadChar(p, utf8);
      PrefixStep(value, p, quote, utf8);
      if c.Failed? {
        return value, None;
      }
      value := value + c.bytes;
      p := c.rest;
    }
    assert value + "" == value;
    rest := Some(if p == "" then "" else p[1..]);
  }

  /** The name and the text after it, or nothing where no name starts. */
  method ReadName(text: string) returns (r: Option<(string, string)>)
    ensures text == "" || !StartsName(text[0]) ==> r == None
    ensures text != "" && StartsName(text[0]) ==> r == Some((text[..NameLength(text)], text[NameLength(text)..]))
  {
    if text == "" || !StartsName(text[0]) {
      return None;
    }
    var n := 0;
    while n < |text| && InName(text[n])
      invariant n <= |text| && NameLength(text) == n + NameLength(text[n..])
      decreases |text| - n
    {
      assert text[n..][1..] == text[n + 1..];
      n := n + 1;
    }
    return Some((text[..n], text[n..]));
  }

  method ReadBare(text: string) returns (value: string, rest: Option<string>)
    ensures BareText(text) == if rest.Some? then Some((value, rest.value)) else None
  {
    value := "";
    var n := 0;
    while n < |text| && !IsSpace(text[n]) && text[n] != '/' && text[n] != '>'
      invariant n <= |text| && value == text[..n] && BareLength(text) == n + BareLength(text[n..])
      decreases |text| - n
    {
      if text[n] == '\'' || text[n] == '\"' {
        return value, None;
      }
      assert text[n..][1..] == text[n + 1..];
      value := value + [text[n]];
      n := n + 1;
    }
    rest := Some(text[n..]);
  }

  class Attribute {
    var name: string
    var value: string

    constructor (name: string, value: string)
      ensures this.name == name && this.value == value
    {
      this.name, this.value := name, value;
    }

    method Print() returns (str: string)
      ensures str == PrintAttribute(name, value)
    {
      var n := EncodeString(name);
      var v := EncodeString(value);
      if '\"' !in value {
        str := n + "=" + "\"" + v + "\"";
      } else {
        str := n + "=" + "'" + v + "'";
      }
    }

    /** The text after the attribute; where there is none, what the fields hold is of no use. */
    method Parse(text: string, utf8: bool) returns (rest: Option<string>)
      modifies this
      ensures match ParseAttribute(text, utf8)
              case None => rest == None
              case Some(parsed) => rest == Some(parsed.2) && name == parsed.0 && value == parsed.1
    {
      var p := SkipWhiteSpace(text, utf8);
      if p == "" {
        return None;
      }
      var read := ReadName(p);
      if read.None? || read.value.1 == "" {
        return None;
      }
      name := read.value.0;
      p := SkipWhiteSpace(read.value.1, utf8);
      if p == "" || p[0] != '=' {
        return None;
      }
      p := SkipWhiteSpace(p[1..], utf8);
      if p == "" {
        return None;
      }
      var text: string;
      if p[0] == '\'' || p[0] == '\"' {
        text, rest := ReadText(p[1..], p[0], utf8);
      } else {
        text, rest := ReadBare(p);
      }
      value := text;
    }
  }

  // ---------- escaped bytes read back ----------

  predicate HasHexReference(s: string) {
    exists i :: 0 <= i < |s| && StartsHex(s[i..])
  }

  lemma NamedReads(c: char, tail: string, utf8: bool)
    requires c == '&' || c == '<' || c == '>' || c == '\"' || c == '\''
    ensures CharAt(EncodeByte(c) + tail, utf8) == Got([c], tail)
  {
    var p := EncodeByte(c) + tail;
    assert p[..|EncodeByte(c)|] == EncodeByte(c) && p[|EncodeByte(c)|..] == tail;
    assert p[0] == '&' && p[1] == EncodeByte(c)[1] && p[2] == EncodeByte(c)[2];
    assert Utf8Length('&') == 1;
    if c == '&' {
      assert NAMED[0].0 <= p;
    } else if c == '<' {
      assert !(NAMED[0].0 <= p) && NAMED[1].0 <= p;
    } else if c == '>' {
      assert !(NAMED[0].0 <= p) && !(NAMED[1].0 <= p) && NAMED[2].0 <= p;
    } else if c == '\"' {
      assert !(NAMED[0].0 <= p) && !(NAMED[1].0 <= p) && !(NAMED[2].0 <= p) && NAMED[3].0 <= p;
    } else {
      assert p[3] == EncodeByte(c)[3];
      assert !(NAMED[0].0 <= p) && !(NAMED[1].0 <= p) && !(NAMED[2].0 <= p) && !(NAMED[3].0 <= p) && NAMED[4].0 <= p;
    }
  }

  lemma HexDigitReads(n: nat)
    requires n < 16
    ensures DigitValue(16, HexDigit(n)) == Some(n) && HexDigit(n) != 'x' && HexDigit(n) != ';'
  {
  }

  lemma TwoDigits(high: nat, low: nat)
    requires high < 16 && low < 16
    ensures NumberOf(16, [HexDigit(high), HexDigit(low)], 1) == Some(high * 16 + low)
  {
    var digits := [HexDigit(high), HexDigit(low)];
    HexDigitReads(high);
    HexDigitReads(low);
    hide HexDigit, DigitValue;
    var front := digits[..1];
    assert front == [HexDigit(high)] && front[..0] == "";
    assert Weighed(1, 16) == 16 && Weighed(1, low) == low && Weighed(16, high) == 16 * high;
    assert NumberOf(16, "", Weighed(16, 16)) == Some(0);
    assert NumberOf(16, front, 16) == Some(Summed(16 * high, 0)) == Some(16 * high);
  }

  lemma ControlReads(c: char, tail: string, utf8: bool)
    requires c < 32 as char
    ensures CharAt(EncodeByte(c) + tail, utf8) == Got([c], tail)
  {
    hide NumberOf, DigitValue, HexDigit;
    var p := EncodeByte(c) + tail;
    var high, low := c as int / 16, c as int % 16;
    HexDigitReads(high);
    HexDigitReads(low);
    TwoDigits(high, low);
    assert p[0] == '&' && p[1] == '#' && p[2] == 'x' && p[3] == HexDigit(high) && p[4] == HexDigit(low) && p[5] == ';';
    assert p[3..5] == [HexDigit(high), HexDigit(low)] && p[6..] == tail;
    assert SemicolonFrom(p, 3) == 5 && LastBefore(p, 'x', 5) == 2;
    assert Character(c as int, utf8) == [c];
  }

  // ---------- values without a hexadecimal reference ----------

  lemma HexReferenceLater(s: string)
    requires s != "" && !StartsHex(s)
    ensures HasHexReference(s) <==> HasHexReference(s[1..])
  {
    if i :| 0 <= i < |s| && StartsHex(s[i..]) {
      assert s[1..][i - 1..] == s[i..];
    }
    if i :| 0 <= i < |s[1..]| && StartsHex(s[1..][i..]) {
      assert s[i + 1..] == s[1..][i..];
    }
  }

  lemma HexReferenceDropped(s: string, n: nat)
    requires n <= |s| && !HasHexReference(s)
    ensures !HasHexReference(s[n..])
  {
    forall i | 0 <= i < |s[n..]|
      ensures !StartsHex(s[n..][i..])
    {
      assert s[n..][i..] == s[n + i..];
    }
  }

  /** In UTF-8 a lead byte must be followed by its bytes, none of which needs escaping. */
  predicate Grouped(s: string) {
    s == "" ||
    var n := Utf8Length(s[0]);
    if n == 1 then Grouped(s[1..])
    else n <= |s| && (forall j :: 1 <= j < n ==> IsPlain(s[j])) && Grouped(s[n..])
  }

  lemma PlainByte(c: char)
    requires IsPlain(c)
    ensures EncodeByte(c) == [c] && c != '&'
  {
  }

  lemma {:induction false} PlainPrefix(s: string, n: nat)
    requires n <= |s| && forall j :: 0 <= j < n ==> IsPlain(s[j])
    ensures Encode(s) == s[..n] + Encode(s[n..])
  {
    hide Encode, EncodeByte, IsPlain;
    if n == 0 {
      assert s[..0] + Encode(s) == Encode(s) && s[0..] == s;
    } else {
      PlainByte(s[0]);
      EncodeStep(s);
      PlainPrefix(s[1..], n - 1);
      assert s[1..][n - 1..] == s[n..];
      assert [s[0]] + (s[1..][..n - 1] + Encode(s[n..])) == s[..n] + Encode(s[n..]);
    }
  }

  /** Escaping a byte and reading it back gives the byte, whatever follows. */
  lemma ByteReads(c: char, tail: string, utf8: bool)
    requires utf8 ==> Utf8Length(c) == 1
    ensures CharAt(EncodeByte(c) + tail, utf8) == Got([c], tail)
    ensures EncodeByte(c) != "" && EncodeByte(c)[0] != '\'' && EncodeByte(c)[0] != '\"'
  {
    if c < 32 as char {
      ControlReads(c, tail, utf8);
    } else if !IsPlain(c) {
      NamedReads(c, tail, utf8);
    } else {
      assert ([c] + tail)[1..] == tail;
    }
  }

  lemma GroupIsPlain(s: string)
    requires s != "" && Utf8Length(s[0]) > 1 && Grouped(s)
    ensures var n := Utf8Length(s[0]);
            n <= |s| && Grouped(s[n..]) && forall j :: 0 <= j < n ==> IsPlain(s[j])
  {
  }

  lemma CharOfGroup(head: string, tail: string)
    requires head != "" && Utf8Length(head[0]) == |head| > 1
    ensures CharAt(head + tail, true) == Got(head, tail)
  {
    hide Entity;
    assert (head + tail)[..|head|] == head && (head + tail)[|head|..] == tail;
  }

  lemma Regroup(head: string, after: string, tail: string)
    requires head != ""
    ensures head + after + tail == head + (after + tail) && (head + after)[0] == head[0]
  {
  }

  /** A lead byte and its bytes are written as they are and read back as one character. */
  lemma GroupReads(s: string, n: nat, tail: string)
    requires s != "" && n == Utf8Length(s[0]) > 1 && Grouped(s)
    ensures n <= |s| && Grouped(s[n..]) && CharAt(Encode(s) + tail, true) == Got(s[..n], Encode(s[n..]) + tail)
    ensures Encode(s) != "" && Encode(s)[0] == s[0]
  {
    hide *;
    GroupIsPlain(s);
    PlainPrefix(s, n);
    Regroup(s[..n], Encode(s[n..]), tail);
    CharOfGroup(s[..n], Encode(s[n..]) + tail);
  }

  lemma OneByteReads(s: string, tail: string, utf8: bool)
    requires s != "" && !StartsHex(s) && (utf8 ==> Utf8Length(s[0]) == 1)
    ensures CharAt(Encode(s) + tail, utf8) == Got([s[0]], Encode(s[1..]) + tail)
    ensures Encode(s) != "" && Encode(s)[0] != '\'' && Encode(s)[0] != '\"' && s == [s[0]] + s[1..]
  {
    hide Encode, EncodeByte, CharAt, Utf8Length;
    EncodeStep(s);
    ByteReads(s[0], Encode(s[1..]) + tail, utf8);
    assert Encode(s) + tail == EncodeByte(s[0]) + (Encode(s[1..]) + tail);
  }

  /** What one character read contributes to the text. */
  lemma TextStep(p: string, quote: char, utf8: bool)
    requires p != "" && p[0] != quote && CharAt(p, utf8).Got?
    ensures var c := CharAt(p, utf8);
            && |c.rest| < |p|
            && TextUpTo(p, quote, utf8) == match TextUpTo(c.rest, quote, utf8)
                                           case None => None
                                           case Some(text) => Some((c.bytes + text.0, text.1))
  {
    hide CharAt;
    EntityAdvances(p, utf8);
  }

  lemma TextEnds(quote: char, rest: string, utf8: bool)
    ensures TextUpTo(Encode("") + ([quote] + rest), quote, utf8) == Some(("", rest))
  {
    var p := [quote] + rest;
    assert Encode("") + p == p && p[1..] == rest;
  }

  lemma StartsNoReference(s: string)
    requires !HasHexReference(s)
    ensures !StartsHex(s)
  {
    assert s[0..] == s;
  }

  lemma {:induction false} ReadsBack(s: string, quote: char, rest: string, utf8: bool)
    requires !HasHexReference(s) && (utf8 ==> Grouped(s)) && (quote == '\'' || quote == '\"')
    ensures TextUpTo(Encode(s) + ([quote] + rest), quote, utf8) == Some((s, rest))
    decreases |s|
  {
    hide EncodeByte, CharAt, Encode, HasHexReference, TextUpTo;
    var tail := [quote] + rest;
    if s == "" {
      TextEnds(quote, rest, utf8);
    } else {
      StartsNoReference(s);
      var n := if utf8 then Utf8Length(s[0]) else 1;
      if n > 1 {
        GroupReads(s, n, tail);
      } else {
        OneByteReads(s, tail, utf8);
        assert s[..1] == [s[0]];
      }
      HexReferenceDropped(s, n);
      ReadsBack(s[n..], quote, rest, utf8);
      assert (Encode(s) + tail)[0] == Encode(s)[0];
      TextStep(Encode(s) + tail, quote, utf8);
      assert s == s[..n] + s[n..];
    }
  }

  /** What is escaped holds no raw quote and no raw angle bracket. */
  predicate IsRaw(c: char) {
    c == '<' || c == '>' || c == '\"' || c == '\''
  }

  ghost predicate HasRaw(s: string) {
    exists i :: 0 <= i < |s| && IsRaw(s[i])
  }

  lemma RawJoin(a: string, b: string)
    ensures HasRaw(a + b) <==> HasRaw(a) || HasRaw(b)
  {
    if i :| 0 <= i < |a + b| && IsRaw((a + b)[i]) {
      assert i < |a| ==> IsRaw(a[i]);
      assert i >= |a| ==> IsRaw(b[i - |a|]);
    }
    if i :| 0 <= i < |a| && IsRaw(a[i]) {
      assert IsRaw((a + b)[i]);
    }
    if i :| 0 <= i < |b| && IsRaw(b[i]) {
      assert IsRaw((a + b)[|a| + i]);
    }
  }

  lemma ByteHasNoRaw(c: char)
    ensures !HasRaw(EncodeByte(c))
  {
    if c < 32 as char {
      HexDigitReads(c as int / 16);
      HexDigitReads(c as int % 16);
    }
  }

  /** The stretches that escaping passes through unchanged. */
  function Passed(s: string): string {
    if s == "" then ""
    else if StartsHex(s) then s[..PassLength(s)] + Passed(s[PassLength(s)..])
    else Passed(s[1..])
  }

  lemma {:induction false} RawOnlyWherePassed(s: string)
    ensures HasRaw(Encode(s)) <==> HasRaw(Passed(s))
    decreases |s|
  {
    hide EncodeByte, PassLength;
    if s != "" {
      if StartsHex(s) {
        RawOnlyWherePassed(s[PassLength(s)..]);
        RawJoin(s[..PassLength(s)], Encode(s[PassLength(s)..]));
        RawJoin(s[..PassLength(s)], Passed(s[PassLength(s)..]));
      } else {
        RawOnlyWherePassed(s[1..]);
        ByteHasNoRaw(s[0]);
        RawJoin(EncodeByte(s[0]), Encode(s[1..]));
      }
    }
  }

  /** A value without a hexadecimal reference has no raw quote or bracket once escaped. */
  lemma {:induction false} EscapedHasNoRaw(s: string)
    requires !HasHexReference(s)
    ensures Passed(s) == "" && !HasRaw(Encode(s))
    decreases |s|
  {
    if s != "" {
      assert s[0..] == s;
      HexReferenceDropped(s, 1);
      EscapedHasNoRaw(s[1..]);
    }
    RawOnlyWherePassed(s);
  }

  // ---------- values with one ----------

  lemma FirstSemicolon(p: string, from: nat, at: nat)
    requires from <= at < |p| && p[at] == ';' && forall j :: from <= j < at ==> p[j] != ';'
    ensures SemicolonFrom(p, from) == at
  {
  }

  lemma CloseUp(s: string, k: nat, tail: string)
    requires k < |s| && s[k] == ';'
    ensures s[..k] + (";" + tail) == s[..k + 1] + tail
  {
  }

  lemma ClosedReference(s: string)
    requires StartsHex(s) && SemicolonFrom(s, 1) < |s|
    ensures var k := SemicolonFrom(s, 1);
            k >= 3 && Encode(s) == s[..k + 1] + Encode(s[k + 1..])
  {
    hide Encode, SemicolonFrom;
    var k := SemicolonFrom(s, 1);
    assert s[k] == ';' && s[1] == '#' && s[2] == 'x';
    var after := s[k..];
    EncodeReference(s);
    EncodeStep(after);
    assert after[1..] == s[k + 1..] && EncodeByte(';') == ";";
    CloseUp(s, k, Encode(s[k + 1..]));
  }

  /** A closed reference reads as one byte and ends at its semicolon, unless its digits are wrong. */
  lemma ReferenceEnds(head: string, tail: string)
    requires StartsHex(head) && |head| >= 4 && head[|head| - 1] == ';' && forall j :: 3 <= j < |head| - 1 ==> head[j] != ';'
    ensures var c := CharAt(head + tail, false);
            c.Failed? || (|c.bytes| == 1 && c.rest == tail)
  {
    hide NumberOf, LastBefore;
    var p := head + tail;
    assert forall j :: 0 <= j < |head| ==> p[j] == head[j];
    FirstSemicolon(p, 3, |head| - 1);
    assert p[|head|..] == tail;
  }

  /** A value's reference that has its semicolon reads as at most one byte, the rest of the value after it. */
  lemma ReferenceReads(s: string, tail: string)
    requires StartsHex(s) && SemicolonFrom(s, 1) < |s|
    ensures var k := SemicolonFrom(s, 1);
            var c := CharAt(Encode(s) + tail, false);
            c.Failed? || (|c.bytes| == 1 && c.rest == Encode(s[k + 1..]) + tail)
  {
    hide NumberOf, LastBefore, CharAt, Encode, SemicolonFrom;
    ClosedReference(s);
    var k := SemicolonFrom(s, 1);
    ReferenceEnds(s[..k + 1], Encode(s[k + 1..]) + tail);
    assert Encode(s) + tail == s[..k + 1] + (Encode(s[k + 1..]) + tail);
  }

  lemma AllButLast(s: string)
    requires StartsHex(s) && SemicolonFrom(s, 1) == |s|
    ensures Encode(s) == s[..|s| - 1] + EncodeByte(s[|s| - 1])
  {
    var last := [s[|s| - 1]];
    assert s[|s| - 1..] == last && last[1..] == "";
    assert Encode(last) == EncodeByte(last[0]) + "";
  }

  /** Without a semicolon of its own a reference fails, or ends somewhere in what follows. */
  lemma EndsInTail(head: string, tail: string)
    requires StartsHex(head) && ';' !in head
    ensures var c := CharAt(head + tail, false);
            c.Failed? || (|c.bytes| == 1 && |c.rest| < |tail|)
  {
    hide NumberOf, LastBefore;
    var p := head + tail;
    assert forall j :: 0 <= j < |head| ==> p[j] == head[j];
    if |p| > 3 {
      assert SemicolonFrom(p, 3) < |p| ==> SemicolonFrom(p, 3) >= |head|;
    }
  }

  /** One cut short by the end of the value: it fails, swallows the whole value, or reads on behind the quote. */
  lemma OpenReferenceReads(s: string, quote: char, rest: string)
    requires StartsHex(s) && SemicolonFrom(s, 1) == |s| && (quote == '\'' || quote == '\"')
    ensures var c := CharAt(Encode(s) + ([quote] + rest), false);
            c.Failed? || (|c.bytes| == 1 && (c.rest == [quote] + rest || |c.rest| < |rest|))
  {
    hide LastBefore, Encode, EncodeByte, NumberOf, SemicolonFrom, CharAt;
    var n := |s| - 1;
    AllButLast(s);
    var e := EncodeByte(s[n]);
    var tail := [quote] + rest;
    if IsPlain(s[n]) {
      PlainByte(s[n]);
      assert Encode(s) == s;
      assert ';' !in s by {
        assert s[0] != ';';
      }
      assert ';' !in s + [quote];
      EndsInTail(s + [quote], rest);
      assert s + tail == s + [quote] + rest;
    } else {
      LastIsSemicolon(s[n]);
      ClosedByLast(s, e, tail);
      assert Encode(s) + tail == s[..n] + e + tail;
    }
  }

  lemma ClosedByLast(s: string, e: string, tail: string)
    requires StartsHex(s) && SemicolonFrom(s, 1) == |s| && !IsPlain(s[|s| - 1]) && |e| >= 4 && e[|e| - 1] == ';'
    requires forall j :: 0 <= j < |e| - 1 ==> e[j] != ';'
    ensures var c := CharAt(s[..|s| - 1] + e + tail, false);
            c.Failed? || (|c.bytes| == 1 && c.rest == tail)
  {
    var n := |s| - 1;
    var head := s[..n] + e;
    assert n >= 3;
    forall j | 3 <= j < |head| - 1
      ensures head[j] != ';'
    {
      assert head[j] == if j < n then s[j] else e[j - n];
    }
    ReferenceEnds(head, tail);
  }

  lemma LastIsSemicolon(c: char)
    requires !IsPlain(c)
    ensures var e := EncodeByte(c);
            |e| >= 4 && e[|e| - 1] == ';' && forall j :: 0 <= j < |e| - 1 ==> e[j] != ';'
  {
    if c < 32 as char {
      HexDigitReads(c as int / 16);
      HexDigitReads(c as int % 16);
    }
  }

  /** Reading never leaves more than it was given, and less where there was something to read. */
  lemma {:induction false} TextAdvances(p: string, quote: char, utf8: bool)
    ensures var read := TextUpTo(p, quote, utf8);
            read.Some? ==> |read.value.1| <= |p| && (p != "" ==> |read.value.1| < |p|)
    decreases |p|
  {
    hide CharAt;
    if p != "" && p[0] != quote {
      EntityAdvances(p, utf8);
      if CharAt(p, utf8).Got? {
        TextAdvances(CharAt(p, utf8).rest, quote, utf8);
      }
    }
  }

  /** Reading an escaped value leaves at most what follows it; where it leaves just that, the value read is
      no longer than the one escaped, and shorter if that holds a reference. */
  ghost predicate Shorter(s: string, quote: char, rest: string) {
    var read := TextUpTo(Encode(s) + ([quote] + rest), quote, false);
    read.Some? ==>
      && |read.value.1| <= |rest|
      && (|read.value.1| == |rest| ==> |read.value.0| <= |s| && (HasHexReference(s) ==> |read.value.0| < |s|))
  }

  /** One character of one byte read, and what follows comes back no longer than what is left. */
  lemma ShorterStep(s: string, left: string, quote: char, rest: string)
    requires s != "" && |left| < |s| && Shorter(left, quote, rest)
    requires Encode(s) != "" && Encode(s)[0] != quote
    requires var c := CharAt(Encode(s) + ([quote] + rest), false);
             c.Failed? || (|c.bytes| == 1 && c.rest == Encode(left) + ([quote] + rest))
    requires |left| + 1 < |s| || (HasHexReference(s) <==> HasHexReference(left))
    ensures Shorter(s, quote, rest)
  {
    hide Encode, CharAt, HasHexReference;
    var p := Encode(s) + ([quote] + rest);
    assert p[0] == Encode(s)[0];
    EntityAdvances(p, false);
  }

  /** A character that ends behind the quote leaves too little. */
  lemma ShorterBehind(s: string, quote: char, rest: string)
    requires Encode(s) != "" && Encode(s)[0] != quote
    requires var c := CharAt(Encode(s) + ([quote] + rest), false);
             c.Failed? || |c.rest| < |rest|
    ensures Shorter(s, quote, rest)
  {
    hide Encode, CharAt, HasHexReference;
    var p := Encode(s) + ([quote] + rest);
    assert p[0] == Encode(s)[0];
    EntityAdvances(p, false);
    if CharAt(p, false).Got? {
      TextAdvances(CharAt(p, false).rest, quote, false);
    }
  }

  lemma NothingIsShort(quote: char, rest: string)
    ensures Shorter("", quote, rest)
  {
    TextEnds(quote, rest, false);
  }

  lemma ReferenceStarts(s: string)
    requires StartsHex(s)
    ensures Encode(s) != "" && Encode(s)[0] == '&'
  {
  }

  lemma EncodeNothing(tail: string)
    ensures Encode("") + tail == tail
  {
  }

  /** A value with a hexadecimal reference comes back shorter, or not at all, whatever follows. */
  lemma {:induction false} ComesBackShorter(s: string, quote: char, rest: string)
    requires quote == '\'' || quote == '\"'
    ensures Shorter(s, quote, rest)
    decreases |s|
  {
    hide Encode, EncodeByte, CharAt, Shorter, HasHexReference;
    var tail := [quote] + rest;
    if s == "" {
      NothingIsShort(quote, rest);
    } else if StartsHex(s) {
      ReferenceStarts(s);
      if SemicolonFrom(s, 1) < |s| {
        var k := SemicolonFrom(s, 1);
        ReferenceReads(s, tail);
        ComesBackShorter(s[k + 1..], quote, rest);
        ShorterStep(s, s[k + 1..], quote, rest);
      } else {
        OpenReferenceReads(s, quote, rest);
        if CharAt(Encode(s) + tail, false).Got? && CharAt(Encode(s) + tail, false).rest == tail {
          ComesBackShorter("", quote, rest);
          EncodeNothing(tail);
          ShorterStep(s, "", quote, rest);
        } else {
          ShorterBehind(s, quote, rest);
        }
      }
    } else {
      OneByteReads(s, tail, false);
      ComesBackShorter(s[1..], quote, rest);
      HexReferenceLater(s);
      ShorterStep(s, s[1..], quote, rest);
    }
  }

  // ---------- the attribute ----------

  predicate ValidName(name: string) {
    name != "" && StartsName(name[0]) && forall j :: 0 <= j < |name| ==> InName(name[j])
  }

  lemma NameLengthIs(p: string, n: nat)
    requires n < |p| && !InName(p[n]) && forall j :: 0 <= j < n ==> InName(p[j])
    ensures NameLength(p) == n
  {
  }

  lemma NameIsKept(name: string, tail: string)
    requires ValidName(name) && tail != "" && !InName(tail[0])
    ensures Encode(name) == name && NameLength(name + tail) == |name|
  {
    PlainPrefix(name, |name|);
    assert name[|name|..] == "" && name[..|name|] == name;
    assert name + "" == name;
    NameLengthIs(name + tail, |name|);
  }

  lemma NothingToSkip(p: string, utf8: bool)
    requires p != "" && !IsSpace(p[0]) && (utf8 ==> !StartsMark(p))
    ensures SkipSpace(p, utf8) == p
  {
  }

  /** A printed attribute is taken apart into its name and its quoted value. */
  lemma TakenApart(name: string, quote: char, v: string, utf8: bool)
    requires ValidName(name) && (quote == '\'' || quote == '\"') && (utf8 ==> !StartsMark(name + "="))
    ensures ParseAttribute(name + ("=" + ([quote] + v)), utf8) ==
            match TextUpTo(v, quote, utf8)
            case None => None
            case Some(value) => Some((name, value.0, value.1))
  {
    hide TextUpTo, NameLength, SkipSpace;
    var quoted := [quote] + v;
    var p := name + ("=" + quoted);
    NameIsKept(name, "=" + quoted);
    assert forall j :: 0 <= j < |name| + 1 ==> p[j] == (name + "=")[j];
    NothingToSkip(p, utf8);
    assert p[|name|..] == "=" + quoted && p[..|name|] == name;
    NothingToSkip("=" + quoted, utf8);
    assert ("=" + quoted)[1..] == quoted && quoted[1..] == v;
    NothingToSkip(quoted, utf8);
  }

  lemma PrintedForm(name: string, value: string, rest: string)
    requires ValidName(name)
    ensures PrintAttribute(name, value) + rest ==
            name + ("=" + ([Quote(value)] + (Encode(value) + ([Quote(value)] + rest))))
  {
    hide Encode, NameLength, Quote;
    NameIsKept(name, "=");
  }

  /** Whatever follows, printing an attribute with a valid name and a value without a hexadecimal reference
      and parsing it back gives the attribute; in UTF-8 if lead bytes have their bytes and the name starts
      with no byte order mark. */
  lemma PrintedParsesBack(name: string, value: string, rest: string, utf8: bool)
    requires ValidName(name) && !HasHexReference(value)
    requires utf8 ==> Grouped(value) && !StartsMark(name + "=")
    ensures ParseAttribute(PrintAttribute(name, value) + rest, utf8) == Some((name, value, rest))
  {
    hide Encode, TextUpTo, PrintAttribute, ParseAttribute, Grouped, HasHexReference, ValidName, StartsMark;
    PrintedForm(name, value, rest);
    TakenApart(name, Quote(value), Encode(value) + ([Quote(value)] + rest), utf8);
    ReadsBack(value, Quote(value), rest, utf8);
  }

  lemma ParsedNameIsValid(text: string, utf8: bool)
    requires ParseAttribute(text, utf8).Some?
    ensures ValidName(ParseAttribute(text, utf8).value.0)
  {
    var p := SkipSpace(text, utf8);
    assert InName(p[0]);
    assert NameLength(p) > 0;
  }

  /** With a byte-wise encoding exactly these attributes come back, whatever follows. */
  lemma ParsesBackIff(name: string, value: string, rest: string)
    ensures ParseAttribute(PrintAttribute(name, value) + rest, false) == Some((name, value, rest)) <==>
            ValidName(name) && !HasHexReference(value)
  {
    hide Encode, TextUpTo, PrintAttribute, ParseAttribute, HasHexReference, ValidName;
    if ValidName(name) && !HasHexReference(value) {
      PrintedParsesBack(name, value, rest, false);
    }
    if ParseAttribute(PrintAttribute(name, value) + rest, false) == Some((name, value, rest)) {
      ParsedNameIsValid(PrintAttribute(name, value) + rest, false);
      PrintedForm(name, value, rest);
      TakenApart(name, Quote(value), Encode(value) + ([Quote(value)] + rest), false);
      ComesBackShorter(value, Quote(value), rest);
    }
  }

  // ---------- values whose bytes do not group ----------

  /** A byte that is read as itself wherever it stands alone. */
  predicate IsInert(c: char) {
    c != '&' && c != '\'' && c != '\"' && Utf8Length(c) == 1
  }

  /** An escape without its ampersand reads as text. */
  lemma EscapeIsInert(c: char)
    requires !IsPlain(c)
    ensures var e := EncodeByte(c);
            |e| >= 4 && e[0] == '&' && forall j :: 1 <= j < |e| ==> IsInert(e[j])
  {
    if c < 32 as char {
      HexDigitReads(c as int / 16);
      HexDigitReads(c as int % 16);
    }
  }

  lemma {:induction false} InertReads(plain: string, p: string, quote: char)
    requires (quote == '\'' || quote == '\"') && forall j :: 0 <= j < |plain| ==> IsInert(plain[j])
    ensures TextUpTo(plain + p, quote, true) == Prefixed(plain, TextUpTo(p, quote, true))
  {
    hide TextUpTo;
    if plain == "" {
      assert plain + p == p;
      PrefixNothing(TextUpTo(p, quote, true));
    } else {
      var all := plain + p;
      assert all[0] == plain[0] && all[1..] == plain[1..] + p;
      assert CharAt(all, true) == Got([plain[0]], plain[1..] + p);
      TextStep(all, quote, true);
      InertReads(plain[1..], p, quote);
      assert plain == [plain[0]] + plain[1..];
      PrefixTwice(plain[0], plain[1..], TextUpTo(p, quote, true));
    }
  }

  lemma PrefixTwice(c: char, more: string, r: Option<(string, string)>)
    ensures Prefixed([c], Prefixed(more, r)) == Prefixed([c] + more, r)
  {
    if r.Some? {
      assert [c] + (more + r.value.0) == [c] + more + r.value.0;
    }
  }

  /** How many plain bytes follow the lead byte of a value, up to n. */
  function PlainAfter(s: string, n: nat): (k: nat)
    requires s != ""
    ensures k <= n && 1 + k <= |s| && forall j :: 1 <= j <= k ==> IsPlain(s[j])
    ensures k < n && 1 + k < |s| ==> !IsPlain(s[1 + k])
  {
    if n == 0 then 0
    else
      var k := PlainAfter(s, n - 1);
      if k == n - 1 && n < |s| && IsPlain(s[n]) then n else k
  }

  /** Reading an escaped value leaves just what follows it only if the value read is at least as long as the one
      escaped, and longer if its bytes do not group. */
  ghost predicate Longer(s: string, quote: char, rest: string) {
    var read := TextUpTo(Encode(s) + ([quote] + rest), quote, true);
    read.Some? && |read.value.1| >= |rest| ==> |read.value.0| >= |s| && (!Grouped(s) ==> |read.value.0| > |s|)
  }

  lemma LongerStep(s: string, n: nat, quote: char, rest: string)
    requires 0 < n <= |s| && Longer(s[n..], quote, rest) && (Grouped(s) <==> Grouped(s[n..]))
    requires Encode(s) != "" && Encode(s)[0] != quote
    requires CharAt(Encode(s) + ([quote] + rest), true) == Got(s[..n], Encode(s[n..]) + ([quote] + rest))
    ensures Longer(s, quote, rest)
  {
    hide Encode, CharAt, Grouped, TextUpTo;
    assert (Encode(s) + ([quote] + rest))[0] == Encode(s)[0];
    TextStep(Encode(s) + ([quote] + rest), quote, true);
  }

  /** Within a group an escape is cut: its ampersand is taken with the lead byte. */
  lemma CutEscape(s: string, k: nat, e: string, after: string, tail: string)
    requires s != "" && 1 + k < Utf8Length(s[0]) && 1 + k <= |s| && |e| >= 4
    ensures var n, all := Utf8Length(s[0]), s[..1 + k] + e + (after + tail);
            && n - 1 - k <= |e|
            && CharAt(all, true) == Got(s[..1 + k] + e[..n - 1 - k], e[n - 1 - k..] + (after + tail))
  {
    hide Entity;
    var n, m := Utf8Length(s[0]), Utf8Length(s[0]) - 1 - k;
    var all := s[..1 + k] + e + (after + tail);
    assert all[0] == s[0];
    assert all[..n] == s[..1 + k] + e[..m];
    assert all[n..] == e[m..] + (after + tail);
  }

  lemma CutForm(s: string, k: nat)
    requires 1 + k < |s| && IsPlain(s[0]) && !HasHexReference(s)
    requires (forall j :: 1 <= j <= k ==> IsPlain(s[j])) && !IsPlain(s[1 + k])
    ensures Encode(s) == s[..1 + k] + EncodeByte(s[1 + k]) + Encode(s[2 + k..])
  {
    hide Encode, EncodeByte, IsPlain, HasHexReference;
    PlainPrefix(s, 1 + k);
    HexReferenceDropped(s, 1 + k);
    StartsNoReference(s[1 + k..]);
    EncodeStep(s[1 + k..]);
    assert s[1 + k..][1..] == s[2 + k..];
    assert s[..1 + k] + (EncodeByte(s[1 + k]) + Encode(s[2 + k..])) == s[..1 + k] + EncodeByte(s[1 + k]) + Encode(s[2 + k..]);
  }

  /** The rest of the cut escape is read as text. */
  lemma CutReads(s: string, k: nat, e: string, after: string, quote: char, tail: string)
    requires (quote == '\'' || quote == '\"') && s != "" && s[0] != quote
    requires 1 + k < Utf8Length(s[0]) && 1 + k <= |s| && |e| >= 4 && forall j :: 1 <= j < |e| ==> IsInert(e[j])
    ensures var r, left := TextUpTo(s[..1 + k] + e + (after + tail), quote, true), TextUpTo(after + tail, quote, true);
            r.Some? ==> left.Some? && r.value.1 == left.value.1 && |r.value.0| == 1 + k + |e| + |left.value.0|
  {
    hide CharAt, TextUpTo, IsInert;
    var m := Utf8Length(s[0]) - 1 - k;
    CutEscape(s, k, e, after, tail);
    assert (s[..1 + k] + e + (after + tail))[0] == s[0];
    TextStep(s[..1 + k] + e + (after + tail), quote, true);
    forall j | 0 <= j < |e[m..]|
      ensures IsInert(e[m..][j])
    {
      assert e[m..][j] == e[m + j];
    }
    InertReads(e[m..], after + tail, quote);
  }

  lemma CutIsLonger(s: string, k: nat, quote: char, rest: string)
    requires quote == '\'' || quote == '\"'
    requires !HasHexReference(s) && 1 + k < |s| && 1 + k < Utf8Length(s[0])
    requires (forall j :: 1 <= j <= k ==> IsPlain(s[j])) && !IsPlain(s[1 + k])
    requires Longer(s[2 + k..], quote, rest)
    ensures Longer(s, quote, rest)
  {
    hide Encode, EncodeByte, IsInert, TextUpTo, HasHexReference, IsPlain, Utf8Length, Grouped;
    var e, after, tail := EncodeByte(s[1 + k]), Encode(s[2 + k..]), [quote] + rest;
    LeadIsPlain(s[0]);
    CutForm(s, k);
    EscapeIsInert(s[1 + k]);
    CutReads(s, k, e, after, quote, tail);
    assert Encode(s) + tail == s[..1 + k] + e + (after + tail);
  }

  lemma LeadIsPlain(c: char)
    requires Utf8Length(c) > 1
    ensures IsPlain(c) && c != '\'' && c != '\"'
  {
  }

  /** A group that the value does not fill takes the closing quote with it. */
  lemma OpenGroupIsLonger(s: string, quote: char, rest: string)
    requires (quote == '\'' || quote == '\"') && s != "" && |s| < Utf8Length(s[0])
    requires forall j :: 1 <= j < |s| ==> IsPlain(s[j])
    ensures Longer(s, quote, rest)
  {
    assert IsPlain(s[0]);
    PlainPrefix(s, |s|);
    EncodeEmpty();
    assert s[|s|..] == "" && s[..|s|] == s && s + "" == s;
    hide Encode, TextUpTo, Grouped, Entity;
    var all := s + ([quote] + rest);
    var c := CharAt(all, true);
    assert all[0] == s[0] != quote;
    assert c.Got? && |c.bytes| + |c.rest| == |all| && |c.bytes| > |s| && |c.rest| <= |rest|;
    TextStep(all, quote, true);
    TextAdvances(c.rest, quote, true);
  }

  lemma {:induction false} ComesBackLonger(s: string, quote: char, rest: string)
    requires !HasHexReference(s) && (quote == '\'' || quote == '\"')
    ensures Longer(s, quote, rest)
    decreases |s|
  {
    hide Encode, EncodeByte, CharAt, Longer, HasHexReference, IsPlain;
    if s == "" {
      LongerNothing(quote, rest);
    } else {
      StartsNoReference(s);
      var n := Utf8Length(s[0]);
      if n == 1 {
        OneByteReads(s, [quote] + rest, true);
        HexReferenceDropped(s, 1);
        ComesBackLonger(s[1..], quote, rest);
        assert s[..1] == [s[0]];
        LongerStep(s, 1, quote, rest);
      } else {
        var k := PlainAfter(s, n - 1);
        if k == n - 1 {
          HexReferenceDropped(s, n);
          ComesBackLonger(s[n..], quote, rest);
          GroupLonger(s, quote, rest);
        } else if 1 + k < |s| {
          HexReferenceDropped(s, 2 + k);
          ComesBackLonger(s[2 + k..], quote, rest);
          CutIsLonger(s, k, quote, rest);
        } else {
          OpenGroupIsLonger(s, quote, rest);
        }
      }
    }
  }

  lemma LongerNothing(quote: char, rest: string)
    ensures Longer("", quote, rest)
  {
    hide TextUpTo;
    TextEnds(quote, rest, true);
  }

  lemma GroupLonger(s: string, quote: char, rest: string)
    requires (quote == '\'' || quote == '\"') && s != ""
    requires var n := Utf8Length(s[0]); 1 < n <= |s| && (forall j :: 1 <= j < n ==> IsPlain(s[j])) && Longer(s[n..], quote, rest)
    ensures Longer(s, quote, rest)
  {
    var n, tail := Utf8Length(s[0]), [quote] + rest;
    assert IsPlain(s[0]);
    assert Grouped(s) <==> Grouped(s[n..]);
    hide Encode, CharAt, Longer, Grouped;
    PlainPrefix(s, n);
    Regroup(s[..n], Encode(s[n..]), tail);
    CharOfGroup(s[..n], Encode(s[n..]) + tail);
    LongerStep(s, n, quote, rest);
  }

  lemma {:induction false} SkipMarks(name: string, tail: string) returns (k: nat)
    requires forall j :: 0 <= j < |name| ==> InName(name[j])
    ensures k <= |name| && SkipSpace(name + ("=" + tail), true) == name[k..] + ("=" + tail)
    ensures StartsMark(name + "=") ==> k >= 3
    decreases |name|
  {
    var p := name + ("=" + tail);
    if StartsMark(p) {
      assert |name| >= 3;
      var more := SkipMarks(name[3..], tail);
      assert p[3..] == name[3..] + ("=" + tail) && name[3..][more..] == name[3 + more..];
      k := 3 + more;
    } else {
      k := 0;
      assert p != "" && !IsSpace(p[0]);
      assert StartsMark(name + "=") ==> StartsMark(p);
    }
  }

  /** A name that starts with a byte order mark comes back without it, or not at all. */
  lemma MarkIsLost(name: string, tail: string)
    requires ValidName(name) && StartsMark(name + "=")
    ensures var parsed := ParseAttribute(name + ("=" + tail), true);
            parsed.Some? ==> parsed.value.0 != name
  {
    hide TextUpTo;
    var k := SkipMarks(name, tail);
    var p := name[k..] + ("=" + tail);
    NameLengthIs(p, |name| - k);
    assert |p[..NameLength(p)]| < |name|;
  }

  /** In UTF-8, of the attributes whose value holds no hexadecimal reference exactly these come back: lead bytes have
      their bytes, and the name starts with no byte order mark. */
  lemma ParsesBackInUtf8Iff(name: string, value: string, rest: string)
    requires !HasHexReference(value)
    ensures ParseAttribute(PrintAttribute(name, value) + rest, true) == Some((name, value, rest)) <==>
            ValidName(name) && Grouped(value) && !StartsMark(name + "=")
  {
    hide Encode, TextUpTo, PrintAttribute, ParseAttribute, HasHexReference, ValidName, StartsMark, Grouped;
    if ValidName(name) && Grouped(value) && !StartsMark(name + "=") {
      PrintedParsesBack(name, value, rest, true);
    }
    if ParseAttribute(PrintAttribute(name, value) + rest, true) == Some((name, value, rest)) {
      ParsedNameIsValid(PrintAttribute(name, value) + rest, true);
      PrintedForm(name, value, rest);
      var v := Encode(value) + ([Quote(value)] + rest);
      if StartsMark(name + "=") {
        MarkIsLost(name, [Quote(value)] + v);
      } else {
        TakenApart(name, Quote(value), v, true);
        ComesBackLonger(value, Quote(value), rest);
      }
    }
  }

  // ---------- UTF-8 ----------

  /** The number the bytes of a sequence spell: each continuation byte has six bits above 0x80. */
  function DecodeUtf8(bytes: string): int {
    if |bytes| == 1 then bytes[0] as int
    else if |bytes| == 2 then (bytes[0] as int - 0xc0) * 64 + (bytes[1] as int - 0x80)
    else if |bytes| == 3 then
      ((bytes[0] as int - 0xe0) * 64 + (bytes[1] as int - 0x80)) * 64 + (bytes[2] as int - 0x80)
    else if |bytes| == 4 then
      (((bytes[0] as int - 0xf0) * 64 + (bytes[1] as int - 0x80)) * 64 + (bytes[2] as int - 0x80)) * 64 + (bytes[3] as int - 0x80)
    else 0
  }

  /** What is written as UTF-8 decodes to the number it was. */
  lemma Utf8Decodes(ucs: nat)
    requires ucs < 0x20_0000
    ensures DecodeUtf8(ConvertUTF32ToUTF8(ucs)) == ucs
  {
    assert ucs / 4096 == ucs / 64 / 64 && ucs / 262144 == ucs / 4096 / 64;
  }

  /** The parser's table gives its length back, except for numbers beyond the lead byte 0xf4. */
  lemma Utf8LengthIsKnown(ucs: nat)
    requires ucs < 0x20_0000
    ensures Utf8Length(ConvertUTF32ToUTF8(ucs)[0]) == |ConvertUTF32ToUTF8(ucs)| <==> ucs < 0x14_0000
  {
    if 0x80 <= ucs < 0x800 {
      assert 194 <= 192 + ucs / 64 < 224;
    } else if 0x800 <= ucs < 0x1_0000 {
      assert 224 <= 224 + ucs / 4096 < 240;
    } else if 0x1_0000 <= ucs {
      assert 240 <= 240 + ucs / 262144 < 248;
      assert ucs / 262144 < 5 <==> ucs < 5 * 262144;
    }
  }
}
