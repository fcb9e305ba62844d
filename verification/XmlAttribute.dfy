/** Printing an XML attribute and parsing it back. A char is a byte; a pointer into a text is the text
    from there to its terminator. */
module XmlAttribute {
  import opened Wrappers

  // ---------- escaping ----------

  const NAMED: seq<(string, char)> := [("&amp;", '&'), ("&lt;", '<'), ("&gt;", '>'), ("&quot;", '\"'), ("&apos;", '\'')]

  function HexDigit(n: nat): char
    requires n < 16
  {
    if n < 10 then '0' + n as char else 'A' + (n - 10) as char
  }

  predicate IsPlain(c: char) {
    c != '&' && c != '<' && c != '>' && c != '\"' && c != '\'' && c >= 32 as char
  }

  function EncodeByte(c: char): string {
    if c == '&' then "&amp;"
    else if c == '<' then "&lt;"
    else if c == '>' then "&gt;"
    else if c == '\"' then "&quot;"
    else if c == '\'' then "&apos;"
    else if c < 32 as char then "&#x" + [HexDigit(c as int / 16), HexDigit(c as int % 16)] + ";"
    else [c]
  }

  predicate StartsHex(s: string) {
    |s| >= 3 && s[0] == '&' && s[1] == '#' && s[2] == 'x'
  }

  /** The first position from `from` on that holds a semicolon, or the end. */
  function SemicolonFrom(s: string, from: nat): (r: nat)
    requires from <= |s|
    ensures from <= r <= |s| && (r < |s| ==> s[r] == ';') && forall j :: from <= j < r ==> s[j] != ';'
    decreases |s| - from
  {
    if from == |s| || s[from] == ';' then from else SemicolonFrom(s, from + 1)
  }

  /** How much of a value that starts like a hexadecimal reference is passed through: up to a semicolon,
      or all but the last byte. */
  function PassLength(s: string): (r: nat)
    requires StartsHex(s)
    ensures 2 <= r < |s|
  {
    var semicolon := SemicolonFrom(s, 1);
    if semicolon < |s| then semicolon else |s| - 1
  }

  function Encode(s: string): string {
    if s == "" then ""
    else if StartsHex(s) then s[..PassLength(s)] + Encode(s[PassLength(s)..])
    else EncodeByte(s[0]) + Encode(s[1..])
  }

  /** Copies a passed-through stretch byte by byte. */
  method PassThrough(str: string, start: nat, before: string) returns (i: nat, out: string)
    requires start < |str| && StartsHex(str[start..])
    ensures i == start + PassLength(str[start..]) && out == before + str[start..i]
  {
    i, out := start, before;
    ghost var here := str[start..];
    while i < |str| - 1
      invariant start <= i < |str| && i <= start + PassLength(here)
      invariant out == before + str[start..i]
      invariant i == start || str[i] != ';'
      decreases |str| - i
    {
      assert str[start..i + 1] == str[start..i] + [str[i]];
      out := out + [str[i]];
      i := i + 1;
      assert here[i - start] == str[i];
      if str[i] == ';' {
        break;
      }
    }
  }

  lemma PassedThrough(str: string, start: nat, before: string)
    requires start < |str| && StartsHex(str[start..])
    ensures var i := start + PassLength(str[start..]);
            before + Encode(str[start..]) == (before + str[start..i]) + Encode(str[i..])
  {
    hide Encode, PassLength;
    var here := str[start..];
    var i := start + PassLength(here);
    EncodeReference(here);
    assert here[..PassLength(here)] == str[start..i] && here[PassLength(here)..] == str[i..];
  }

  lemma EncodeStep(s: string)
    requires s != "" && !StartsHex(s)
    ensures Encode(s) == EncodeByte(s[0]) + Encode(s[1..])
  {
  }

  lemma EncodeEmpty()
    ensures Encode("") == ""
  {
  }

  lemma EncodeReference(s: string)
    requires StartsHex(s)
    ensures Encode(s) == s[..PassLength(s)] + Encode(s[PassLength(s)..])
  {
  }

  lemma Escaped(str: string, i: nat, before: string)
    requires i < |str| && !StartsHex(str[i..])
    ensures before + Encode(str[i..]) == (before + EncodeByte(str[i])) + Encode(str[i + 1..])
  {
    hide Encode, EncodeByte;
    EncodeStep(str[i..]);
    assert str[i..][1..] == str[i + 1..];
  }

  method EncodeString(str: string) returns (out: string)
    ensures out == Encode(str)
  {
    hide Encode, EncodeByte, PassLength, SemicolonFrom;
    out := "";
    var i := 0;
    assert str[0..] == str && "" + Encode(str) == Encode(str);
    while i < |str|
      invariant i <= |str| && out + Encode(str[i..]) == Encode(str)
      decreases |str| - i
    {
      var c := str[i];
      if c == '&' && i < |str| - 2 && str[i + 1] == '#' && str[i + 2] == 'x' {
        PassedThrough(str, i, out);
        i, out := PassThrough(str, i, out);
      } else {
        Escaped(str, i, out);
        var escaped := Escape(c);
        out := out + escaped;
        i := i + 1;
      }
    }
    EncodeEmpty();
    assert str[i..] == "" && out + "" == out;
  }

  method Escape(c: char) returns (escaped: string)
    ensures escaped == EncodeByte(c)
  {
    if c == '&' {
      escaped := NAMED[0].0;
    } else if c == '<' {
      escaped := NAMED[1].0;
    } else if c == '>' {
      escaped := NAMED[2].0;
    } else if c == '\"' {
      escaped := NAMED[3].0;
    } else if c == '\'' {
      escaped := NAMED[4].0;
    } else if c < 32 as char {
      escaped := "&#x" + [HexDigit(c as int / 16), HexDigit(c as int % 16)] + ";";
    } else {
      escaped := [c];
    }
  }

  // ---------- reading one character ----------

  /** Nothing readable, or the bytes read and the text after them. */
  datatype Char = Failed | Got(bytes: string, rest: string)

  const WORD := 0x1_0000_0000
  const LONG := 0x1_0000_0000_0000_0000

  function DigitValue(base: nat, c: char): Option<nat>
    ensures DigitValue(base, c).Some? ==> DigitValue(base, c).value < 16
  {
    if '0' <= c <= '9' then Some((c - '0') as nat)
    else if base == 16 && 'a' <= c <= 'f' then Some((c - 'a') as nat + 10)
    else if base == 16 && 'A' <= c <= 'F' then Some((c - 'A') as nat + 10)
    else None
  }

  function Weighed(weight: nat, factor: nat): (r: nat)
    ensures r < WORD
  {
    weight * factor % WORD
  }

  function Summed(a: nat, b: nat): (r: nat)
    ensures r < LONG
  {
    (a + b) % LONG
  }

  /** The digits' value, each place's weight kept in 32 bits and the sum in 64. */
  function NumberOf(base: nat, digits: string, weight: nat): (r: Option<nat>)
    ensures r.Some? ==> r.value < LONG
  {
    if digits == "" then Some(0)
    else
      var last := DigitValue(base, digits[|digits| - 1]);
      var front := NumberOf(base, digits[..|digits| - 1], Weighed(weight, base));
      if last.Some? && front.Some? then Some(Summed(Weighed(weight, last.value), front.value)) else None
  }

  /** The last position before `end` that holds c. */
  function LastBefore(p: string, c: char, end: nat): (r: nat)
    requires end <= |p| && exists j :: 0 <= j < end && p[j] == c
    ensures r < end && p[r] == c && forall j :: r < j < end ==> p[j] != c
  {
    if p[end - 1] == c then end - 1 else LastBefore(p, c, end - 1)
  }

  function ConvertUTF32ToUTF8(ucs: nat): string {
    if ucs < 0x80 then [ucs as char]
    else if ucs < 0x800 then [(192 + ucs / 64) as char, (128 + ucs % 64) as char]
    else if ucs < 0x1_0000 then [(224 + ucs / 4096) as char, (128 + ucs / 64 % 64) as char, (128 + ucs % 64) as char]
    else if ucs < 0x20_0000 then
      [(240 + ucs / 262144) as char, (128 + ucs / 4096 % 64) as char, (128 + ucs / 64 % 64) as char, (128 + ucs % 64) as char]
    else ""
  }

  function Character(ucs: nat, utf8: bool): string {
    if utf8 then ConvertUTF32ToUTF8(ucs) else [(ucs % 256) as char]
  }

  predicate StartsNumeric(p: string) {
    |p| > 2 && p[0] == '&' && p[1] == '#'
  }

  function NumericReference(p: string, utf8: bool): Char
    requires StartsNumeric(p)
  {
    var hex := p[2] == 'x';
    if hex && |p| == 3 then Failed
    else
      var semicolon := SemicolonFrom(p, if hex then 3 else 2);
      if semicolon == |p| then Failed
      else
        var mark := LastBefore(p, if hex then p[2] else p[1], semicolon);
        var number := NumberOf(if hex then 16 else 10, p[mark + 1..semicolon], 1);
        if number.None? then Failed else Got(Character(number.value, utf8), p[semicolon + 1..])
  }

  function NamedFrom(p: string, k: nat): Char
    requires p != "" && k <= |NAMED|
    decreases |NAMED| - k
  {
    if k == |NAMED| then Got("", p[1..])
    else if NAMED[k].0 <= p then Got([NAMED[k].1], p[|NAMED[k].0|..])
    else NamedFrom(p, k + 1)
  }

  /** An ampersand that starts nothing known is dropped. */
  function Entity(p: string, utf8: bool): Char
    requires p != ""
  {
    if StartsNumeric(p) then NumericReference(p, utf8) else NamedFrom(p, 0)
  }

  /** Adds up the digits from the semicolon back to the mark. */
  method ReadNumber(p: string, base: nat, stop: char, semicolon: nat) returns (number: Option<nat>)
    requires semicolon <= |p| && exists j :: 0 <= j < semicolon && p[j] == stop
    ensures number == NumberOf(base, p[LastBefore(p, stop, semicolon) + 1..semicolon], 1)
  {
    hide LastBefore, NumberOf, Whole, DigitValue, Weighed, Summed;
    ghost var mark := LastBefore(p, stop, semicolon);
    ghost var whole := NumberOf(base, p[mark + 1..semicolon], 1);
    NumbersWrap(base, p[mark + 1..semicolon], 1);
    var q := semicolon - 1;
    var ucs, weight := 0, 1;
    while p[q] != stop
      invariant mark <= q < semicolon && 0 <= ucs < LONG && weight >= 0
      invariant Whole(base, p[mark + 1..q + 1], weight, ucs) == whole
      decreases q
    {
      var digit := DigitValue(base, p[q]);
      if digit.None? {
        NoWhole(base, p, mark, q, weight, ucs);
        return None;
      }
      WholeStep(base, p, mark, q, weight, ucs);
      ucs := Summed(ucs, Weighed(weight, digit.value));
      weight := Weighed(weight, base);
      q := q - 1;
    }
    assert p[mark + 1..q + 1] == "";
    WholeNothing(base, weight, ucs);
    return Some(ucs);
  }

  /** What the digits still to be read add to the sum so far. */
  ghost function Whole(base: nat, digits: string, weight: nat, ucs: nat): Option<nat> {
    var front := NumberOf(base, digits, weight);
    if front.Some? then Some(Summed(ucs, front.value)) else None
  }

  lemma WholeStep(base: nat, p: string, mark: nat, q: nat, weight: nat, ucs: nat)
    requires mark < q < |p| && DigitValue(base, p[q]).Some?
    ensures Whole(base, p[mark + 1..q + 1], weight, ucs) ==
            Whole(base, p[mark + 1..q], Weighed(weight, base), Summed(ucs, Weighed(weight, DigitValue(base, p[q]).value)))
  {
    hide DigitValue, Weighed, Summed;
    var digits := p[mark + 1..q + 1];
    assert digits[..|digits| - 1] == p[mark + 1..q];
    var front := NumberOf(base, p[mark + 1..q], Weighed(weight, base));
    if front.Some? {
      SumsWrap(ucs, Weighed(weight, DigitValue(base, p[q]).value), front.value);
    }
  }

  lemma WholeNothing(base: nat, weight: nat, ucs: nat)
    requires ucs < LONG
    ensures Whole(base, "", weight, ucs) == Some(ucs)
  {
  }

  lemma NoWhole(base: nat, p: string, mark: nat, q: nat, weight: nat, ucs: nat)
    requires mark < q < |p| && DigitValue(base, p[q]).None?
    ensures Whole(base, p[mark + 1..q + 1], weight, ucs) == None
  {
    hide DigitValue;
    var digits := p[mark + 1..q + 1];
    assert digits[|digits| - 1] == p[q];
  }

  lemma NumbersWrap(base: nat, digits: string, weight: nat)
    ensures Whole(base, digits, weight, 0) == NumberOf(base, digits, weight)
  {
    hide NumberOf;
  }

  method GetEntity(p: string, utf8: bool) returns (c: Char)
    requires p != "" && p[0] == '&'
    ensures c == Entity(p, utf8)
  {
    hide NumberOf;
    if |p| > 2 && p[1] == '#' {
      var hex := p[2] == 'x';
      if hex && |p| == 3 {
        return Failed;
      }
      var semicolon := SemicolonFrom(p, if hex then 3 else 2);
      if semicolon == |p| {
        return Failed;
      }
      var number := ReadNumber(p, if hex then 16 else 10, if hex then p[2] else p[1], semicolon);
      if number.None? {
        return Failed;
      }
      return Got(Character(number.value, utf8), p[semicolon + 1..]);
    }
    for i := 0 to |NAMED|
      invariant Entity(p, utf8) == NamedFrom(p, i)
    {
      if NAMED[i].0 <= p {
        return Got([NAMED[i].1], p[|NAMED[i].0|..]);
      }
    }
    return Got("", p[1..]);
  }

  lemma SumsWrap(a: nat, b: nat, c: nat)
    ensures Summed(a, Summed(b, c)) == Summed(Summed(a, b), c)
  {
  }

  /** Bytes in the character a lead byte starts, as the parser's table has it. */
  function Utf8Length(c: char): nat {
    if 0xc2 as char <= c <= 0xdf as char then 2
    else if 0xe0 as char <= c <= 0xef as char then 3
    else if 0xf0 as char <= c <= 0xf4 as char then 4
    else 1
  }

  function CharAt(p: string, utf8: bool): Char
    requires p != ""
  {
    var n := if utf8 then Utf8Length(p[0]) else 1;
    if n == 1 then if p[0] == '&' then Entity(p, utf8) else Got([p[0]], p[1..])
    else if n <= |p| then Got(p[..n], p[n..])
    else Got(p, "")
  }

  lemma EntityAdvances(p: string, utf8: bool)
    requires p != ""
    ensures CharAt(p, utf8).Got? ==> |CharAt(p, utf8).rest| < |p|
  {
  }
}
