/**
  The bytes behind the sizes: UTF-8 (`str.encode("utf-8")`) and compact JSON
  (`json.dumps(..., ensure_ascii=False, separators=(",", ":"))`). The caches and caps count
  sizes only; here they are the lengths of encodings that can be read back.
 */
module Encoding {
  import opened Prelude
  import opened Strings
  import opened Payload
  import OcrCache

  // ----- UTF-8 ------------------------------------------------------------------------------

  function Utf8(c: char): seq<int> {
    var n := c as int;
    if n < 0x80 then [n]
    else if n < 0x800 then [0xC0 + n / 0x40, 0x80 + n % 0x40]
    else if n < 0x1_0000 then [0xE0 + n / 0x1000, 0x80 + n / 0x40 % 0x40, 0x80 + n % 0x40]
    else [0xF0 + n / 0x4_0000, 0x80 + n / 0x1000 % 0x40, 0x80 + n / 0x40 % 0x40, 0x80 + n % 0x40]
  }

  /** The number of bytes a leading byte announces; a byte that continues, or never occurs, announces none. */
  function Announced(b: int): nat {
    if 0 <= b < 0x80 then 1 else if 0xC2 <= b < 0xE0 then 2 else if 0xE0 <= b < 0xF0 then 3 else if 0xF0 <= b < 0xF5 then 4 else 0
  }

  /** The code point of a sequence of bytes: the leading byte's bits, then six from every other. */
  function Decoded(bytes: seq<int>): int
    requires 1 <= |bytes| <= 4
  {
    if |bytes| == 1 then bytes[0]
    else if |bytes| == 2 then (bytes[0] - 0xC0) * 0x40 + (bytes[1] - 0x80)
    else if |bytes| == 3 then (bytes[0] - 0xE0) * 0x1000 + (bytes[1] - 0x80) * 0x40 + (bytes[2] - 0x80)
    else (bytes[0] - 0xF0) * 0x4_0000 + (bytes[1] - 0x80) * 0x1000 + (bytes[2] - 0x80) * 0x40 + (bytes[3] - 0x80)
  }

  lemma SixBits(n: nat)
    ensures n == n / 0x40 * 0x40 + n % 0x40
    ensures n / 0x1000 == n / 0x40 / 0x40 && n / 0x4_0000 == n / 0x40 / 0x40 / 0x40
  {
  }

  lemma Utf8Decodes(c: char)
    ensures 1 <= |Utf8(c)| <= 4 && Decoded(Utf8(c)) == c as int
  {
    var n := c as int;
    SixBits(n);
    SixBits(n / 0x40);
    SixBits(n / 0x1000);
  }

  lemma Utf8Announces(c: char)
    ensures |Utf8(c)| == Utf8Size(c) == Announced(Utf8(c)[0])
    ensures forall i :: 0 < i < |Utf8(c)| ==> 0x80 <= Utf8(c)[i] < 0xC0
  {
  }

  /** A character's bytes tell their number and the character; their number is the size that is counted. */
  lemma Utf8ReadsBack(c: char)
    ensures |Utf8(c)| == Utf8Size(c) == Announced(Utf8(c)[0])
    ensures Decoded(Utf8(c)) == c as int
    ensures forall i :: 0 < i < |Utf8(c)| ==> 0x80 <= Utf8(c)[i] < 0xC0
  {
    Utf8Announces(c);
    Utf8Decodes(c);
  }

  function Bytes(s: string): seq<int> { if s == "" then [] else Utf8(s[0]) + Bytes(s[1..]) }

  lemma {:induction false} BytesAppend(a: string, b: string)
    ensures |Bytes(a + b)| == |Bytes(a)| + |Bytes(b)|
  {
    if a == "" {
      assert a + b == b;
    } else {
      BytesAppend(a[1..], b);
      assert (a + b)[0] == a[0] && (a + b)[1..] == a[1..] + b;
    }
  }

  /** The size the OCR cache counts is the number of bytes of the text. */
  lemma {:induction false} SizeIsBytes(text: string)
    ensures OcrCache.Size(text) == |Bytes(text)|
  {
    if text != "" {
      Utf8ReadsBack(text[0]);
      SizeIsBytes(text[1..]);
    }
  }

  // ----- JSON strings ------------------------------------------------------------------------

  function HexDigit(n: nat): char
    requires n < 16
  {
    if n < 10 then '0' + n as char else 'a' + (n - 10) as char
  }

  function HexValue(c: char): Option<nat> {
    if '0' <= c <= '9' then Some((c - '0') as nat) else if 'a' <= c <= 'f' then Some((c - 'a') as nat + 10) else None
  }

  function Escaped(c: char): string {
    var n := c as int;
    if c == '"' then "\\\"" else if c == '\\' then "\\\\"
    else if n == 0x08 then "\\b" else if n == 0x09 then "\\t" else if n == 0x0a then "\\n"
    else if n == 0x0c then "\\f" else if n == 0x0d then "\\r"
    else if n < 0x20 then "\\u00" + [HexDigit(n / 16), HexDigit(n % 16)]
    else [c]
  }

  function Escape(s: string): string { if s == "" then "" else Escaped(s[0]) + Escape(s[1..]) }

  function Quoted(s: string): string { "\"" + Escape(s) + "\"" }

  /** The first character of the text between the quotes of a JSON string, and how long it is there. */
  function ReadChar(t: string): Option<(char, nat)>
    requires t != ""
  {
    if t[0] as int < 0x20 || t[0] == '"' then None
    else if t[0] != '\\' then Some((t[0], 1))
    else if |t| < 2 then None
    else if t[1] == '"' || t[1] == '\\' || t[1] == '/' then Some((t[1], 2))
    else if t[1] == 'b' then Some((0x08 as char, 2)) else if t[1] == 't' then Some((0x09 as char, 2))
    else if t[1] == 'n' then Some((0x0a as char, 2)) else if t[1] == 'f' then Some((0x0c as char, 2))
    else if t[1] == 'r' then Some((0x0d as char, 2))
    else if t[1] == 'u' && |t| >= 6 && t[2] == '0' && t[3] == '0' && HexValue(t[4]).Some? && HexValue(t[5]).Some? then
      Some(((HexValue(t[4]).value * 16 + HexValue(t[5]).value) as char, 6))
    else None
  }

  /** What a JSON reader makes of the text between the quotes; escapes beyond the first 256 characters are not needed. */
  function Unescape(t: string): Option<string> {
    if t == "" then Some("")
    else
      match ReadChar(t)
      case None => None
      case Some((c, n)) =>
        if n > |t| then None
        else match Unescape(t[n..])
          case None => None
          case Some(rest) => Some([c] + rest)
  }

  lemma HexReadsBack(n: nat)
    requires n < 16
    ensures HexValue(HexDigit(n)) == Some(n)
  {
  }

  lemma EscapedReadsBack(c: char, rest: string)
    ensures ReadChar(Escaped(c) + rest) == Some((c, |Escaped(c)|))
  {
    var n := c as int;
    if n < 0x20 {
      HexReadsBack(n / 16);
      HexReadsBack(n % 16);
    }
  }

  /** Escaping loses nothing: a reader gets the text back. */
  lemma {:induction false} EscapeReadsBack(s: string)
    ensures Unescape(Escape(s)) == Some(s)
  {
    if s != "" {
      EscapedReadsBack(s[0], Escape(s[1..]));
      EscapeReadsBack(s[1..]);
      var t := Escape(s);
      assert t[|Escaped(s[0])|..] == Escape(s[1..]);
      assert s == [s[0]] + s[1..];
    }
  }

  lemma EscapedBytes(c: char)
    ensures |Bytes(Escaped(c))| == JsonChar(c)
  {
    var e := Escaped(c);
    if |e| == 1 {
      assert e[1..] == "";
      Utf8ReadsBack(e[0]);
    } else {
      AsciiBytes(e);
    }
  }

  predicate Ascii(s: string) { forall i :: 0 <= i < |s| ==> s[i] as int < 0x80 }

  lemma {:induction false} AsciiBytes(s: string)
    requires Ascii(s)
    ensures |Bytes(s)| == |s|
  {
    if s != "" {
      AsciiBytes(s[1..]);
    }
  }

  lemma {:induction false} EscapeBytes(s: string)
    ensures |Bytes(Escape(s))| == JsonText(s)
  {
    if s != "" {
      EscapedBytes(s[0]);
      EscapeBytes(s[1..]);
      BytesAppend(Escaped(s[0]), Escape(s[1..]));
    }
  }

  lemma QuotedBytes(s: string)
    ensures |Bytes(Quoted(s))| == 2 + JsonText(s)
  {
    EscapeBytes(s);
    AsciiBytes("\"");
    BytesAppend("\"", Escape(s));
    BytesAppend("\"" + Escape(s), "\"");
  }

  // ----- the payload -----------------------------------------------------------------------------

  function Joined(parts: seq<string>): string {
    if parts == [] then "" else if |parts| == 1 then parts[0] else parts[0] + "," + Joined(parts[1..])
  }

  function SizeOf(parts: seq<string>): nat { if parts == [] then 0 else |Bytes(parts[0])| + SizeOf(parts[1..]) }

  lemma {:induction false} JoinedBytes(parts: seq<string>)
    ensures |Bytes(Joined(parts))| == SizeOf(parts) + if |parts| > 0 then |parts| - 1 else 0
  {
    if |parts| > 1 {
      JoinedBytes(parts[1..]);
      AsciiBytes(",");
      BytesAppend(parts[0] + ",", Joined(parts[1..]));
      BytesAppend(parts[0], ",");
    }
  }

  lemma Enclosed(open: string, text: string, close: string)
    requires Ascii(open) && Ascii(close)
    ensures |Bytes(open + text + close)| == |open| + |Bytes(text)| + |close|
  {
    AsciiBytes(open);
    AsciiBytes(close);
    BytesAppend(open, text);
    BytesAppend(open + text, close);
  }

  function ScalarText(s: Scalar): string {
    match s
    case Text(text) => Quoted(text)
    case Number(digits, _) => digits
    case Flag(on) => if on then "true" else "false"
    case Unsupported => ""
  }

  function ScalarTexts(items: seq<Scalar>): seq<string> {
    if items == [] then [] else [ScalarText(items[0])] + ScalarTexts(items[1..])
  }

  function ValueText(value: Value): string {
    match value
    case One(s) => ScalarText(s)
    case Many(items) => "[" + Joined(ScalarTexts(items)) + "]"
  }

  function FieldText(f: Field): string { Quoted(f.key) + ":" + ValueText(f.value) }

  function FieldTexts(fields: seq<Field>): seq<string> {
    if fields == [] then [] else [FieldText(fields[0])] + FieldTexts(fields[1..])
  }

  /** The JSON object of a payload. */
  function ObjectText(fields: seq<Field>): string { "{" + Joined(FieldTexts(fields)) + "}" }

  /** Numbers are printed in ASCII. */
  predicate PlainScalar(s: Scalar) { s.Number? ==> Ascii(s.digits) }

  predicate PlainValue(value: Value) {
    match value
    case One(s) => PlainScalar(s)
    case Many(items) => forall i :: 0 <= i < |items| ==> PlainScalar(items[i])
  }

  lemma ScalarBytes(s: Scalar)
    requires PlainScalar(s)
    ensures |Bytes(ScalarText(s))| == JsonScalar(s)
  {
    match s {
      case Text(text) => QuotedBytes(text);
      case Number(digits, _) => AsciiBytes(digits);
      case Flag(on) => AsciiBytes(ScalarText(s));
      case Unsupported =>
    }
  }

  lemma {:induction false} ScalarsBytes(items: seq<Scalar>)
    requires forall i :: 0 <= i < |items| ==> PlainScalar(items[i])
    ensures SizeOf(ScalarTexts(items)) == JsonItems(items) && |ScalarTexts(items)| == |items|
  {
    if items != [] {
      ScalarBytes(items[0]);
      ScalarsBytes(items[1..]);
      assert ScalarTexts(items)[1..] == ScalarTexts(items[1..]);
    }
  }

  lemma ValueBytes(value: Value)
    requires PlainValue(value)
    ensures |Bytes(ValueText(value))| == JsonValue(value)
  {
    match value {
      case One(s) => ScalarBytes(s);
      case Many(items) =>
        ScalarsBytes(items);
        JoinedBytes(ScalarTexts(items));
        Enclosed("[", Joined(ScalarTexts(items)), "]");
    }
  }

  lemma FieldBytes(f: Field)
    requires PlainValue(f.value)
    ensures |Bytes(FieldText(f))| == EntrySize(f)
  {
    QuotedBytes(f.key);
    ValueBytes(f.value);
    AsciiBytes(":");
    BytesAppend(Quoted(f.key) + ":", ValueText(f.value));
    BytesAppend(Quoted(f.key), ":");
  }

  lemma {:induction false} FieldsBytes(fields: seq<Field>)
    requires forall i :: 0 <= i < |fields| ==> PlainValue(fields[i].value)
    ensures SizeOf(FieldTexts(fields)) == Entries(fields) && |FieldTexts(fields)| == |fields|
  {
    if fields != [] {
      FieldBytes(fields[0]);
      FieldsBytes(fields[1..]);
      assert FieldTexts(fields)[1..] == FieldTexts(fields[1..]);
    }
  }

  /** The size the caps compare is the number of bytes of the JSON object, as the server counts them. */
  lemma EncodedSizeIsBytes(fields: seq<Field>)
    requires forall i :: 0 <= i < |fields| ==> PlainValue(fields[i].value)
    ensures EncodedSize(fields) == |Bytes(ObjectText(fields))|
  {
    FieldsBytes(fields);
    JoinedBytes(FieldTexts(fields));
    Enclosed("{", Joined(FieldTexts(fields)), "}");
  }
}
