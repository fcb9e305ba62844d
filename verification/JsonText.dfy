/** The text Python writes for JSON values: all in ASCII, with a space after commas and colons. */
module JsonText {

  /** The fields of an object are listed in the order in which they are written. */
  datatype Json =
    | Null
    | Bool(b: bool)
    | Number(n: int)
    | Text(s: string)
    | List(items: seq<Json>)
    | Object(fields: seq<Field>)

  datatype Field = Field(key: string, value: Json)

  function Decimal(n: int): string
    decreases if n < 0 then 1 - n else n
  {
    if n < 0 then "-" + Decimal(-n)
    else if n < 10 then [['0', '1', '2', '3', '4', '5', '6', '7', '8', '9'][n]]
    else Decimal(n / 10) + Decimal(n % 10)
  }

  function HexDigit(n: nat): char
    requires n < 16
  {
    ['0', '1', '2', '3', '4', '5', '6', '7', '8', '9', 'a', 'b', 'c', 'd', 'e', 'f'][n]
  }

  function UnicodeEscape(n: nat): string
    requires n < 0x1_0000
  {
    "\\u" + [HexDigit(n / 0x1000), HexDigit(n / 0x100 % 16), HexDigit(n / 16 % 16), HexDigit(n % 16)]
  }

  /** Characters beyond U+FFFF are written as two escapes. */
  function EscapedChar(c: char): (r: string)
    ensures r != ""
  {
    if c == '\"' then "\\\""
    else if c == '\\' then "\\\\"
    else if c == '\n' then "\\n"
    else if c == '\r' then "\\r"
    else if c == '\t' then "\\t"
    else if c == '\U{8}' then "\\b"
    else if c == '\U{c}' then "\\f"
    else if ' ' <= c <= '~' then [c]
    else
      var n := c as int;
      if n < 0x1_0000 then UnicodeEscape(n)
      else UnicodeEscape(0xD800 + (n - 0x1_0000) / 0x400) + UnicodeEscape(0xDC00 + (n - 0x1_0000) % 0x400)
  }

  function Escaped(s: string): string {
    if s == "" then "" else EscapedChar(s[0]) + Escaped(s[1..])
  }

  function Quoted(s: string): string {
    "\"" + Escaped(s) + "\""
  }

  function Dumps(j: Json): string
    decreases j, 0
  {
    match j
    case Null => "null"
    case Bool(b) => if b then "true" else "false"
    case Number(n) => Decimal(n)
    case Text(s) => Quoted(s)
    case List(items) => "[" + DumpsItems(items) + "]"
    case Object(fields) => "{" + DumpsFields(fields) + "}"
  }

  function DumpsItems(items: seq<Json>): string
    decreases items, 1
  {
    if items == [] then ""
    else if |items| == 1 then Dumps(items[0])
    else Dumps(items[0]) + ", " + DumpsItems(items[1..])
  }

  function DumpsFields(fields: seq<Field>): string
    decreases fields, 1
  {
    if fields == [] then ""
    else
      var field := Quoted(fields[0].key) + ": " + Dumps(fields[0].value);
      if |fields| == 1 then field else field + ", " + DumpsFields(fields[1..])
  }

  // ---------- lengths ----------

  lemma {:induction false} QuotedLength(s: string)
    ensures |Quoted(s)| >= |s| + 2
  {
    EscapedLength(s);
  }

  lemma {:induction false} EscapedLength(s: string)
    ensures |Escaped(s)| >= |s|
  {
    if s != "" {
      EscapedLength(s[1..]);
    }
  }

  /** The longest escape has twelve characters. */
  lemma {:induction false} EscapedAtMost(s: string)
    ensures |Escaped(s)| <= 12 * |s|
  {
    if s != "" {
      EscapedAtMost(s[1..]);
    }
  }

  lemma TextAtMost(s: string)
    ensures |Dumps(Text(s))| == |Quoted(s)| <= 12 * |s| + 2
  {
    EscapedAtMost(s);
  }

  ghost predicate Small(f: Field, max: nat) {
    |f.key| <= 32 && |Dumps(f.value)| <= max
  }

  lemma {:induction false} FieldsAtMost(fields: seq<Field>, max: nat)
    requires forall f :: f in fields ==> Small(f, max)
    ensures |DumpsFields(fields)| <= |fields| * (max + 400)
  {
    hide Dumps, Quoted;
    if fields != [] {
      assert Small(fields[0], max);
      TextAtMost(fields[0].key);
      FieldsAtMost(fields[1..], max);
      assert |fields| * (max + 400) == (|fields| - 1) * (max + 400) + (max + 400);
    }
  }

  lemma ObjectAtMost(key: string, fields: seq<Field>, max: nat)
    requires |key| <= 32 && forall f :: f in fields ==> Small(f, max)
    ensures |Dumps(Object(fields))| <= |fields| * (max + 400) + 2
    ensures Small(Field(key, Object(fields)), |fields| * (max + 400) + 2)
  {
    FieldsAtMost(fields, max);
  }

  /** A field is part of its object. */
  lemma {:induction false} FieldLength(fields: seq<Field>, i: nat)
    requires i < |fields|
    ensures |DumpsFields(fields)| >= |Dumps(fields[i].value)|
  {
    if i > 0 {
      FieldLength(fields[1..], i - 1);
    }
  }

  lemma FieldOfObject(j: Json, i: nat)
    requires j.Object? && i < |j.fields|
    ensures |Dumps(j)| >= |Dumps(j.fields[i].value)|
  {
    FieldLength(j.fields, i);
  }

  /** Items of a length, and the commas between them. */
  lemma {:induction false} ItemsLength(items: seq<Json>, length: nat)
    requires forall i :: 0 <= i < |items| ==> |Dumps(items[i])| >= length
    ensures |DumpsItems(items)| >= |items| * (length + 2) - 2
  {
    hide Dumps;
    if |items| > 1 {
      ItemsLength(items[1..], length);
      assert |items| * (length + 2) == (|items| - 1) * (length + 2) + (length + 2);
    }
  }
}
