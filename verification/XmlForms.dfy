/** The other ways in which an attribute may be written: with numeric references, white space, or without quotes. */
module XmlForms {
  import opened Wrappers
  import opened XmlAttribute
  import opened XmlRoundTrip

  // ---------- numeric references ----------

  function DigitOf(n: nat): char
    requires n < 16
  {
    if n < 10 then '0' + n as char else 'a' + (n - 10) as char
  }

  /** The digits of a number, the most significant first. */
  function Numeral(base: nat, n: nat): string
    requires 2 <= base <= 16
    decreases n
  {
    if n < base then [DigitOf(n)]
    else
      SmallerQuotient(n, base);
      Numeral(base, n / base) + [DigitOf(n % base)]
  }

  lemma SmallerQuotient(n: nat, base: nat)
    requires 2 <= base <= n
    ensures 1 <= n / base < n
  {
  }

  lemma DigitOfReads(base: nat, n: nat)
    requires (base == 10 || base == 16) && n < base
    ensures DigitValue(base, DigitOf(n)) == Some(n)
    ensures DigitOf(n) != 'x' && DigitOf(n) != '#' && DigitOf(n) != ';'
  {
  }

  /** The product of the weight and a number, by the number's last digit. */
  lemma WeighedDigits(weight: nat, base: nat, n: nat)
    requires 2 <= base
    ensures weight * n == weight * (n % base) + (weight * base) * (n / base)
    ensures weight * (n % base) <= weight * n
    ensures base <= n ==> weight * base <= weight * n
  {
    assert n == n % base + base * (n / base);
    Distributes(weight, n % base, base * (n / base));
    assert (weight * base) * (n / base) == weight * (base * (n / base));
    if base <= n {
      Distributes(weight, base, n - base);
    }
  }

  lemma Distributes(a: nat, b: nat, c: nat)
    ensures a * (b + c) == a * b + a * c
  {
  }

  /** One more digit behind. */
  lemma NumberStep(base: nat, front: string, c: char, digit: nat, weight: nat, next: nat, rest: nat)
    requires DigitValue(base, c) == Some(digit) && next == Weighed(weight, base) && NumberOf(base, front, next) == Some(rest)
    ensures NumberOf(base, front + [c], weight) == Some(Summed(Weighed(weight, digit), rest))
  {
    hide DigitValue, Weighed, Summed;
    var digits := front + [c];
    assert digits[..|digits| - 1] == front && digits[|digits| - 1] == c;
  }

  lemma Unwrapped(weight: nat, factor: nat)
    requires weight * factor < WORD
    ensures Weighed(weight, factor) == weight * factor
  {
  }

  lemma SumUnwrapped(a: nat, b: nat)
    requires a + b < WORD
    ensures Summed(a, b) == a + b
  {
  }

  lemma NoDigits(base: nat, weight: nat)
    ensures NumberOf(base, "", weight) == Some(0)
  {
  }

  /** As long as nothing wraps around, the digits add up to the number. */
  lemma {:induction false} NumeralReads(base: nat, n: nat, weight: nat)
    requires (base == 10 || base == 16) && weight * n < WORD && 0 < weight < WORD
    ensures NumberOf(base, Numeral(base, n), weight) == Some(weight * n)
    decreases n
  {
    hide NumberOf, DigitOf, DigitValue, Weighed, Summed;
    WeighedDigits(weight, base, n);
    var last, next := n % base, Weighed(weight, base);
    DigitOfReads(base, last);
    Unwrapped(weight, last);
    if n < base {
      assert last == n && Numeral(base, n) == "" + [DigitOf(n)];
      NoDigits(base, next);
      NumberStep(base, "", DigitOf(n), n, weight, next, 0);
      SumUnwrapped(weight * n, 0);
    } else {
      SmallerQuotient(n, base);
      Unwrapped(weight, base);
      var rest := next * (n / base);
      NumeralReads(base, n / base, next);
      NumberStep(base, Numeral(base, n / base), DigitOf(last), last, weight, next, rest);
      SumUnwrapped(weight * last, rest);
    }
  }

  lemma {:induction false} NumeralIsDigits(base: nat, n: nat)
    requires base == 10 || base == 16
    ensures var digits := Numeral(base, n);
            digits != "" && forall j :: 0 <= j < |digits| ==> digits[j] != 'x' && digits[j] != '#' && digits[j] != ';'
    decreases n
  {
    hide DigitOf;
    DigitOfReads(base, n % base);
    if n >= base {
      SmallerQuotient(n, base);
      NumeralIsDigits(base, n / base);
    } else {
      assert n % base == n;
    }
  }

  /** A number of 32 bits, written in decimal or hexadecimal digits, reads as its character, whatever follows. */
  lemma ReferenceReadsNumber(n: nat, hex: bool, tail: string, utf8: bool)
    requires n < WORD
    ensures var digits := Numeral(if hex then 16 else 10, n);
            CharAt((if hex then "&#x" else "&#") + digits + ";" + tail, utf8) == Got(Character(n, utf8), tail)
  {
    hide NumberOf, Numeral, Character;
    var base := if hex then 16 else 10;
    var digits, mark := Numeral(base, n), if hex then "&#x" else "&#";
    NumeralReads(base, n, 1);
    NumeralIsDigits(base, n);
    var p := mark + digits + ";" + tail;
    var semicolon := |mark| + |digits|;
    assert p[0] == '&' && p[1] == '#' && |p| > 2;
    assert p[|mark|..semicolon] == digits && p[semicolon] == ';' && p[semicolon + 1..] == tail;
    forall j | |mark| <= j < semicolon
      ensures p[j] != 'x' && p[j] != '#' && p[j] != ';'
    {
      assert p[j] == digits[j - |mark|];
    }
    assert p[2] == 'x' <==> hex;
    FirstSemicolon(p, |mark|, semicolon);
    assert LastBefore(p, if hex then 'x' else '#', semicolon) == |mark| - 1;
  }

  // ---------- white space ----------

  lemma {:induction false} SpacesAreSkipped(spaces: string, p: string, utf8: bool)
    requires forall j :: 0 <= j < |spaces| ==> IsSpace(spaces[j])
    ensures SkipSpace(spaces + p, utf8) == SkipSpace(p, utf8)
  {
    if spaces == "" {
      assert spaces + p == p;
    } else {
      assert (spaces + p)[0] == spaces[0] && (spaces + p)[1..] == spaces[1..] + p;
      SpacesAreSkipped(spaces[1..], p, utf8);
    }
  }

  predicate OnlySpaces(s: string) {
    forall j :: 0 <= j < |s| ==> IsSpace(s[j])
  }

  /** White space before the name and on either side of the equals sign makes no difference. */
  lemma SpacedParses(a: string, name: string, b: string, c: string, v: string, utf8: bool)
    requires OnlySpaces(a) && OnlySpaces(b) && OnlySpaces(c) && ValidName(name) && v != ""
    requires !IsSpace(v[0]) && (utf8 ==> !StartsMark(v) && !StartsMark(name + (b + ("=" + (c + v)))))
    ensures ParseAttribute(a + (name + (b + ("=" + (c + v)))), utf8) ==
            match ValueAt(v, utf8)
            case None => None
            case Some(value) => Some((name, value.0, value.1))
  {
    hide ValueAt, SkipSpace, NameLength;
    var after := c + v;
    var equals := "=" + after;
    var behind := b + equals;
    var p := name + behind;
    SpacesAreSkipped(a, p, utf8);
    NothingToSkip(p, utf8);
    assert !InName(behind[0]);
    NameLengthIs(p, |name|);
    assert p[..|name|] == name && p[|name|..] == behind;
    SpacesAreSkipped(b, equals, utf8);
    NothingToSkip(equals, utf8);
    assert equals[1..] == after;
    SpacesAreSkipped(c, v, utf8);
    NothingToSkip(v, utf8);
  }

  // ---------- values without quotes ----------

  predicate EndsBare(c: char) {
    IsSpace(c) || c == '/' || c == '>'
  }

  predicate IsQuote(c: char) {
    c == '\'' || c == '\"'
  }

  lemma {:induction false} BareLengthIs(value: string, rest: string)
    requires forall j :: 0 <= j < |value| ==> !EndsBare(value[j]) && !IsQuote(value[j])
    requires rest == "" || EndsBare(rest[0]) || IsQuote(rest[0])
    ensures BareLength(value + rest) == |value|
  {
    if value == "" {
      assert value + rest == rest;
    } else {
      assert (value + rest)[0] == value[0] && (value + rest)[1..] == value[1..] + rest;
      BareLengthIs(value[1..], rest);
    }
  }

  /** A value without quotes is taken as it stands, up to white space, a slash or a bracket; a quote in it is an error. */
  lemma BareParses(value: string, rest: string, utf8: bool)
    requires value != "" && forall j :: 0 <= j < |value| ==> !EndsBare(value[j]) && !IsQuote(value[j])
    requires rest == "" || EndsBare(rest[0]) || IsQuote(rest[0])
    ensures ValueAt(value + rest, utf8) == if rest != "" && IsQuote(rest[0]) then None else Some((value, rest))
  {
    BareLengthIs(value, rest);
    var p := value + rest;
    assert p[0] == value[0] && p[..|value|] == value && p[|value|..] == rest;
    assert rest != "" ==> p[|value|] == rest[0];
  }
}
