/**
 * The JSON text the server writes into `payments` columns with
 * `JSON.stringify` and reads back with `JSON.parse`, restricted to the values
 * those columns hold: null, strings and arrays of them.
 */
module Json {
  import opened Wrappers
  import opened Decimal

  datatype Json = JNull | JStr(s: string) | JArr(items: seq<Json>)

  /** A lower-case hexadecimal digit, as `JSON.stringify` writes it in a `\u` escape. */
  function HexDigit(d: nat): (c: char)
    requires d < 16
  {
    if d < 10 then DigitChar(d) else (d - 10 + 'a' as int) as char
  }

  function HexValue(c: char): (r: Option<nat>)
    ensures r.Some? ==> r.value < 16
  {
    if '0' <= c <= '9' then Some(c as int - '0' as int)
    else if 'a' <= c <= 'f' then Some(c as int - 'a' as int + 10)
    else if 'A' <= c <= 'F' then Some(c as int - 'A' as int + 10)
    else None
  }

  /** How `JSON.stringify` writes one character inside a string literal. */
  function Escape(c: char): (r: string)
    ensures |r| > 0
  {
    if c == '"' then "\\\""
    else if c == '\\' then "\\\\"
    else if c as int == 0x08 then "\\b"
    else if c as int == 0x0C then "\\f"
    else if c == '\n' then "\\n"
    else if c == '\r' then "\\r"
    else if c == '\t' then "\\t"
    else if (c as int) < 0x20 then "\\u00" + [HexDigit(c as int / 16), HexDigit(c as int % 16)]
    else [c]
  }

  function EscapeAll(s: string): string
  {
    if s == [] then [] else Escape(s[0]) + EscapeAll(s[1..])
  }

  function Quote(s: string): string
  {
    "\"" + EscapeAll(s) + "\""
  }

  /** `JSON.stringify` of a value: no white space, items separated by ','. */
  function Encode(j: Json): (r: string)
    ensures |r| > 0 && (r[0] == 'n' || r[0] == '"' || r[0] == '[')
  {
    match j
    case JNull => "null"
    case JStr(s) => Quote(s)
    case JArr(items) => "[" + EncodeItems(items) + "]"
  }

  function EncodeItems(items: seq<Json>): string
  {
    if items == [] then ""
    else if |items| == 1 then Encode(items[0])
    else Encode(items[0]) + "," + EncodeItems(items[1..])
  }

  /** The character an escape sequence stands for; `s` starts just after the backslash. */
  function ParseEscape(s: string): (r: Option<(char, string)>)
    ensures r.Some? ==> |r.value.1| < |s|
  {
    if |s| == 0 then None
    else if s[0] == '"' || s[0] == '\\' || s[0] == '/' then Some((s[0], s[1..]))
    else if s[0] == 'b' then Some((0x08 as char, s[1..]))
    else if s[0] == 'f' then Some((0x0C as char, s[1..]))
    else if s[0] == 'n' then Some(('\n', s[1..]))
    else if s[0] == 'r' then Some(('\r', s[1..]))
    else if s[0] == 't' then Some(('\t', s[1..]))
    else if s[0] == 'u' && |s| >= 5 then
      match (HexValue(s[1]), HexValue(s[2]), HexValue(s[3]), HexValue(s[4]))
      case (Some(a), Some(b), Some(c), Some(d)) =>
        var code := ((a * 16 + b) * 16 + c) * 16 + d;
        if code < 0xD800 || 0xE000 <= code then Some((code as char, s[5..])) else None
      case _ => None
    else None
  }

  /** One character of a string literal's body, other than the closing quote. */
  function NextChar(s: string): (r: Option<(char, string)>)
    requires |s| > 0
    ensures r.Some? ==> |r.value.1| < |s|
  {
    if s[0] == '\\' then ParseEscape(s[1..])
    else if (s[0] as int) < 0x20 then None
    else Some((s[0], s[1..]))
  }

  /** The body of a string literal up to and including its closing quote; `s` starts after the opening quote. */
  function ParseChars(s: string): (r: Option<(string, string)>)
    ensures r.Some? ==> |r.value.1| < |s|
  {
    if |s| == 0 then None
    else if s[0] == '"' then Some(([], s[1..]))
    else
      match NextChar(s)
      case None => None
      case Some((c, rest)) =>
        match ParseChars(rest)
        case None => None
        case Some((t, after)) => Some(([c] + t, after))
  }

  /** One JSON value at the start of `s`, with the text that follows it. */
  function ParseValue(s: string): (r: Option<(Json, string)>)
    ensures r.Some? ==> |r.value.1| < |s|
    decreases |s|, 0
  {
    if |s| == 0 then None
    else if s[0] == 'n' then
      if |s| >= 4 && s[..4] == "null" then Some((JNull, s[4..])) else None
    else if s[0] == '"' then
      match ParseChars(s[1..])
      case None => None
      case Some((t, rest)) => Some((JStr(t), rest))
    else if s[0] == '[' then
      if |s| >= 2 && s[1] == ']' then Some((JArr([]), s[2..]))
      else
        match ParseItems(s[1..])
        case None => None
        case Some((items, rest)) => Some((JArr(items), rest))
    else None
  }

  /** The items of a non-empty array up to and including its closing bracket. */
  function ParseItems(s: string): (r: Option<(seq<Json>, string)>)
    ensures r.Some? ==> |r.value.1| < |s|
    decreases |s|, 1
  {
    match ParseValue(s)
    case None => None
    case Some((v, rest)) =>
      if |rest| > 0 && rest[0] == ']' then Some(([v], rest[1..]))
      else if |rest| > 0 && rest[0] == ',' then
        match ParseItems(rest[1..])
        case None => None
        case Some((vs, after)) => Some(([v] + vs, after))
      else None
  }

  /** `JSON.parse`: the whole text must be one value. */
  function Decode(s: string): Option<Json>
  {
    match ParseValue(s)
    case Some((j, rest)) => if rest == [] then Some(j) else None
    case None => None
  }

  lemma HexRoundTrip(d: nat)
    requires d < 16
    ensures HexValue(HexDigit(d)) == Some(d)
  {
  }

  /** Each escaped character is read back as itself, leaving the text after it. */
  lemma NextCharOfEscape(c: char, t: string)
    ensures (Escape(c) + t)[0] != '"'
    ensures NextChar(Escape(c) + t) == Some((c, t))
  {
    var s := Escape(c) + t;
    if (c as int) < 0x20 && c as int != 0x08 && c as int != 0x0C && c != '\n' && c != '\r' && c != '\t' {
      ControlEscape(c, t);
    } else {
      assert s[1..] == Escape(c)[1..] + t;
    }
  }

  /** A control character without a short escape is written as `\u00XX` and read back from it. */
  lemma ControlEscape(c: char, t: string)
    requires (c as int) < 0x20 && c as int != 0x08 && c as int != 0x0C && c != '\n' && c != '\r' && c != '\t'
    ensures (Escape(c) + t)[0] == '\\'
    ensures NextChar(Escape(c) + t) == Some((c, t))
  {
    var hi, lo := c as int / 16, c as int % 16;
    HexRoundTrip(hi);
    HexRoundTrip(lo);
    var s := Escape(c) + t;
    assert Escape(c) == "\\u00" + [HexDigit(hi), HexDigit(lo)];
    var u := s[1..];
    assert u == ['u', '0', '0', HexDigit(hi), HexDigit(lo)] + t;
    assert u[1] == '0' && u[2] == '0' && u[3] == HexDigit(hi) && u[4] == HexDigit(lo);
    assert u[5..] == t;
    assert ((0 * 16 + 0) * 16 + hi) * 16 + lo == c as int;
  }

  lemma {:induction false} ParseQuoted(x: string, rest: string)
    ensures ParseChars(EscapeAll(x) + "\"" + rest) == Some((x, rest))
  {
    if x == [] {
      assert EscapeAll(x) + "\"" + rest == "\"" + rest;
    } else {
      var t := EscapeAll(x[1..]) + "\"" + rest;
      assert EscapeAll(x) + "\"" + rest == Escape(x[0]) + t;
      NextCharOfEscape(x[0], t);
      ParseQuoted(x[1..], rest);
      assert [x[0]] + x[1..] == x;
    }
  }

  /** Parsing the encoding of a value yields that value and leaves what follows untouched. */
  lemma {:induction false} ParseEncoded(j: Json, rest: string)
    ensures ParseValue(Encode(j) + rest) == Some((j, rest))
    decreases j, 1
  {
    var s := Encode(j) + rest;
    match j
    case JNull =>
      assert s[..4] == "null";
      assert s[4..] == rest;
    case JStr(x) =>
      assert s[1..] == EscapeAll(x) + "\"" + rest;
      ParseQuoted(x, rest);
    case JArr(items) =>
      if items == [] {
        assert Encode(j) == "[]";
        assert s == "[]" + rest;
        assert s[2..] == rest;
      } else {
        assert s[1..] == EncodeItems(items) + "]" + rest;
        ParseEncodedItems(items, rest);
      }
  }

  lemma {:induction false} ParseEncodedItems(items: seq<Json>, rest: string)
    requires items != []
    ensures ParseItems(EncodeItems(items) + "]" + rest) == Some((items, rest))
    decreases items, 0
  {
    if |items| == 1 {
      ParseEncoded(items[0], "]" + rest);
      ParseLastItem(items, rest);
    } else {
      var tail := EncodeItems(items[1..]) + "]" + rest;
      ParseEncoded(items[0], "," + tail);
      ParseEncodedItems(items[1..], rest);
      ParseNextItem(items, rest);
    }
  }

  /** A one-element list: its value followed by `]`. */
  lemma ParseLastItem(items: seq<Json>, rest: string)
    requires |items| == 1 && ParseValue(Encode(items[0]) + ("]" + rest)) == Some((items[0], "]" + rest))
    ensures ParseItems(EncodeItems(items) + "]" + rest) == Some((items, rest))
  {
    var s := EncodeItems(items) + "]" + rest;
    assert s == Encode(items[0]) + ("]" + rest);
    ParseItemsAtEnd(s, items[0], rest);
    assert [items[0]] == items;
  }

  /** A longer list: its first value, a `,`, and the list of the others. */
  lemma ParseNextItem(items: seq<Json>, rest: string)
    requires |items| > 1
    requires var tail := EncodeItems(items[1..]) + "]" + rest;
      ParseValue(Encode(items[0]) + ("," + tail)) == Some((items[0], "," + tail))
      && ParseItems(tail) == Some((items[1..], rest))
    ensures ParseItems(EncodeItems(items) + "]" + rest) == Some((items, rest))
  {
    var tail := EncodeItems(items[1..]) + "]" + rest;
    EncodeItemsCons(items, rest);
    ParseItemsAfterComma(Encode(items[0]) + ("," + tail), items[0], tail, items[1..], rest);
    assert [items[0]] + items[1..] == items;
  }

  /** The text of a longer list splits after its first value. */
  lemma EncodeItemsCons(items: seq<Json>, rest: string)
    requires |items| > 1
    ensures EncodeItems(items) + "]" + rest == Encode(items[0]) + ("," + (EncodeItems(items[1..]) + "]" + rest))
  {
    assert EncodeItems(items) == Encode(items[0]) + "," + EncodeItems(items[1..]);
    Regroup(Encode(items[0]), EncodeItems(items[1..]), rest);
  }

  lemma Regroup(first: string, others: string, rest: string)
    ensures first + "," + others + "]" + rest == first + ("," + (others + "]" + rest))
  {
  }

  /** A value followed by `]` ends the list. */
  lemma ParseItemsAtEnd(s: string, j: Json, rest: string)
    requires ParseValue(s) == Some((j, "]" + rest))
    ensures ParseItems(s) == Some(([j], rest))
  {
    assert ("]" + rest)[1..] == rest;
  }

  /** A value followed by `,` heads the list the text after the comma parses to. */
  lemma ParseItemsAfterComma(s: string, j: Json, tail: string, items: seq<Json>, rest: string)
    requires ParseValue(s) == Some((j, "," + tail)) && ParseItems(tail) == Some((items, rest))
    ensures ParseItems(s) == Some(([j] + items, rest))
  {
    assert ("," + tail)[1..] == tail;
  }

  /** `JSON.parse(JSON.stringify(j))` gives back `j`. */
  lemma DecodeEncode(j: Json)
    ensures Decode(Encode(j)) == Some(j)
  {
    ParseEncoded(j, "");
    assert Encode(j) + "" == Encode(j);
  }

  /** The list of strings as the JSON array of those strings. */
  function Strings(xs: seq<string>): (r: seq<Json>)
    ensures |r| == |xs| && forall i :: 0 <= i < |xs| ==> r[i] == JStr(xs[i])
  {
    if xs == [] then [] else [JStr(xs[0])] + Strings(xs[1..])
  }
}
