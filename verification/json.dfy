/** The part of `JSON.stringify` the log formatter relies on: string quoting
    and flat objects whose values are null, booleans, integers or strings. */
module Json {
  import opened Wrappers
  import Text

  datatype Value = Null | Bool(b: bool) | Number(n: int) | Str(s: string)

  /** One own enumerable property of a plain object, in the object's own-property order. */
  datatype Field = Field(key: string, value: Value)

  const HexDigits := "0123456789abcdef"

  /** The escape `JSON.stringify` writes for one character of a string. */
  function EscapeChar(c: char): string {
    if c == '"' then "\\\""
    else if c == '\\' then "\\\\"
    else if c as int == 0x08 then "\\b"
    else if c as int == 0x0C then "\\f"
    else if c == '\n' then "\\n"
    else if c == '\r' then "\\r"
    else if c == '\t' then "\\t"
    else if c < ' ' then "\\u00" + [HexDigits[c as int / 16], HexDigits[c as int % 16]]
    else [c]
  }

  function Escape(s: string): string
    decreases |s|
  {
    if s == [] then "" else EscapeChar(s[0]) + Escape(s[1..])
  }

  /** A string value as it appears in JSON text. */
  function Quote(s: string): string {
    "\"" + Escape(s) + "\""
  }

  /** The character named by a one-letter escape `\e`, if `e` is one. */
  function SimpleEscape(e: char): Option<char> {
    if e == '"' || e == '\\' || e == '/' then Some(e)
    else if e == 'b' then Some(0x08 as char)
    else if e == 'f' then Some(0x0C as char)
    else if e == 'n' then Some('\n')
    else if e == 'r' then Some('\r')
    else if e == 't' then Some('\t')
    else None
  }

  function HexValue(c: char): (r: Option<nat>)
    ensures r.Some? ==> r.value < 16
  {
    if '0' <= c <= '9' then Some(c as int - '0' as int)
    else if 'a' <= c <= 'f' then Some(c as int - 'a' as int + 10)
    else if 'A' <= c <= 'F' then Some(c as int - 'A' as int + 10)
    else None
  }

  /** Value of the four hexadecimal digits of a `\uXXXX` escape. */
  function HexQuad(h: string): (r: Option<nat>)
    requires |h| == 4
    ensures r.Some? ==> r.value < 0x10000
  {
    var a, b, c, d := HexValue(h[0]), HexValue(h[1]), HexValue(h[2]), HexValue(h[3]);
    if a.Some? && b.Some? && c.Some? && d.Some?
    then Some(((a.value * 16 + b.value) * 16 + c.value) * 16 + d.value)
    else None
  }

  function Prepend(c: char, r: Option<string>): Option<string> {
    if r.Some? then Some([c] + r.value) else None
  }

  /** Decodes the body of a JSON string literal (the text between the quotes);
      None for a raw quote, a raw control character or a malformed escape. */
  function Unescape(t: string): Option<string>
    decreases |t|
  {
    if t == [] then Some("")
    else if t[0] == '\\' then
      if |t| < 2 then None
      else if SimpleEscape(t[1]).Some? then Prepend(SimpleEscape(t[1]).value, Unescape(t[2..]))
      else if t[1] == 'u' && |t| >= 6 then
        var v := HexQuad(t[2..6]);
        if v.Some? && (v.value < 0xD800 || 0xE000 <= v.value) then Prepend(v.value as char, Unescape(t[6..]))
        else None
      else None
    else if t[0] == '"' || t[0] < ' ' then None
    else Prepend(t[0], Unescape(t[1..]))
  }

  lemma HexDigitValue(d: nat)
    requires d < 16
    ensures HexValue(HexDigits[d]) == Some(d)
  {
  }

  /** Decoding the escape of one character yields that character and leaves the rest. */
  lemma UnescapeChar(c: char, rest: string)
    ensures Unescape(EscapeChar(c) + rest) == Prepend(c, Unescape(rest))
  {
    if c == '"' || c == '\\' || c as int == 0x08 || c as int == 0x0C || c == '\n' || c == '\r' || c == '\t' {
      UnescapeShort(c, rest);
    } else if c < ' ' {
      UnescapeControl(c, rest);
    } else {
      var t := EscapeChar(c) + rest;
      assert t[1..] == rest;
    }
  }

  /** A two-character escape decodes back to its character. */
  lemma UnescapeShort(c: char, rest: string)
    requires c == '"' || c == '\\' || c as int == 0x08 || c as int == 0x0C || c == '\n' || c == '\r' || c == '\t'
    ensures Unescape(EscapeChar(c) + rest) == Prepend(c, Unescape(rest))
  {
    var t := EscapeChar(c) + rest;
    assert |EscapeChar(c)| == 2;
    assert t[0] == '\\' && SimpleEscape(t[1]) == Some(c);
    assert t[2..] == rest;
  }

  /** A `\u00XX` escape of a control character decodes back to it. */
  lemma UnescapeControl(c: char, rest: string)
    requires c < ' ' && c as int != 0x08 && c as int != 0x0C && c != '\n' && c != '\r' && c != '\t'
    ensures Unescape(EscapeChar(c) + rest) == Prepend(c, Unescape(rest))
  {
    var t := EscapeChar(c) + rest;
    var hi, lo := c as int / 16, c as int % 16;
    HexDigitValue(hi);
    HexDigitValue(lo);
    assert t[0] == '\\' && t[1] == 'u';
    assert t[2..6] == ['0', '0', HexDigits[hi], HexDigits[lo]];
    assert HexQuad(t[2..6]) == Some(c as int);
    assert t[6..] == rest;
  }

  /** Quoting loses nothing: the escaped text decodes back to the original string. */
  lemma {:induction false} EscapeRoundTrip(s: string)
    ensures Unescape(Escape(s)) == Some(s)
    decreases |s|
  {
    if s != [] {
      EscapeRoundTrip(s[1..]);
      UnescapeChar(s[0], Escape(s[1..]));
      assert [s[0]] + s[1..] == s;
    }
  }

  /** `JSON.stringify` of one value; numbers as `IntToString` prints them. */
  function Render(v: Value): string {
    match v
    case Null => "null"
    case Bool(b) => if b then "true" else "false"
    case Number(n) => Text.IntToString(n)
    case Str(s) => Quote(s)
  }

  /** The text of one property inside an object: the quoted key, a colon and the value. */
  function Member(f: Field): string {
    Quote(f.key) + ":" + Render(f.value)
  }

  /** The texts in `parts` separated by commas. */
  function Join(parts: seq<string>): string
    decreases |parts|
  {
    if parts == [] then ""
    else if |parts| == 1 then parts[0]
    else parts[0] + "," + Join(parts[1..])
  }

  /** `JSON.stringify` of a plain object with the given properties. */
  function RenderObject(fields: seq<Field>): (text: string)
    ensures |text| >= 2 && text[0] == '{' && text[|text| - 1] == '}'
    ensures fields == [] <==> text == "{}"
  {
    "{" + Join(seq(|fields|, k requires 0 <= k < |fields| => Member(fields[k]))) + "}"
  }

  /** Every property is printed, as `"key":value`, inside the object text. */
  lemma RenderObjectHoldsMembers(fields: seq<Field>, i: nat)
    requires i < |fields|
    ensures exists k: nat :: Text.OccursAt(RenderObject(fields), Member(fields[i]), k)
  {
    var parts := seq(|fields|, k requires 0 <= k < |fields| => Member(fields[k]));
    var body := Join(parts);
    var k := JoinHolds(parts, i);
    Text.OccursAtAfter("{", body, parts[i], k);
    Text.OccursAtBefore("{" + body, "}", parts[i], 1 + k);
    assert Text.OccursAt(RenderObject(fields), Member(fields[i]), 1 + k);
  }

  /** Where the `i`th part sits in the comma-separated text. */
  lemma {:induction false} JoinHolds(parts: seq<string>, i: nat) returns (k: nat)
    requires i < |parts|
    ensures Text.OccursAt(Join(parts), parts[i], k)
    decreases i
  {
    k := 0;
    if |parts| == 1 {
      HeadOccurs(parts[0], "");
    } else {
      var head := parts[0] + ",";
      var rest := Join(parts[1..]);
      assert Join(parts) == head + rest;
      if i == 0 {
        HeadOccurs(parts[0], "," + rest);
      } else {
        var k' := JoinHolds(parts[1..], i - 1);
        assert parts[1..][i - 1] == parts[i];
        Text.OccursAtAfter(head, rest, parts[i], k');
        k := |head| + k';
      }
    }
  }

  lemma HeadOccurs(head: string, tail: string)
    ensures Text.OccursAt(head + tail, head, 0)
    ensures tail == "" ==> Text.OccursAt(head, head, 0)
  {
    assert (head + tail)[0..|head|] == head;
    assert head[0..|head|] == head;
  }
}
