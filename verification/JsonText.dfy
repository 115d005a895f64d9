/** The text JSON gives a value, and that no other value shares it. */
module JsonText {

  datatype Json = JsonString(text: string) | JsonBoolean(b: bool) | JsonArray(items: seq<Json>)

  // ----- Strings -----

  function HexDigit(n: nat): char
    requires n < 16
  {
    "0123456789abcdef"[n]
  }

  /** One character of a string, escaped as section 7 of RFC 8259 asks. */
  function EscapedChar(c: char): string {
    if c == '"' then "\\\""
    else if c == '\\' then "\\\\"
    else if c == 8 as char then "\\b"
    else if c == 9 as char then "\\t"
    else if c == 10 as char then "\\n"
    else if c == 12 as char then "\\f"
    else if c == 13 as char then "\\r"
    else if c < 32 as char then "\\u00" + [HexDigit(c as nat / 16), HexDigit(c as nat % 16)]
    else [c]
  }

  function EscapedText(text: string): string {
    if text == [] then [] else EscapedChar(text[0]) + EscapedText(text[1..])
  }

  function Quoted(text: string): string {
    "\"" + EscapedText(text) + "\""
  }

  /** Quotes, backslashes and control characters are escaped and nothing else. */
  lemma EscapedCharIsNoQuote(c: char)
    ensures EscapedChar(c) == [c] <==> c != '"' && c != '\\' && c as nat >= 32
    ensures EscapedChar(c) != [] && EscapedChar(c)[0] != '"'
  {
  }

  lemma EscapedCharTells(c: char, d: char, x: string, y: string)
    requires EscapedChar(c) + x == EscapedChar(d) + y
    ensures c == d
  {
    var left, right := EscapedChar(c) + x, EscapedChar(d) + y;
    assert left[0] == right[0];
    assert left[0] == EscapedChar(c)[0] && right[0] == EscapedChar(d)[0];
    if left[0] == '\\' {
      assert left[1] == EscapedChar(c)[1] && right[1] == EscapedChar(d)[1];
      if left[1] == 'u' {
        assert left[4] == EscapedChar(c)[4] && right[4] == EscapedChar(d)[4];
        assert left[5] == EscapedChar(c)[5] && right[5] == EscapedChar(d)[5];
        HexDigitDecodes(c as nat / 16, d as nat / 16);
        HexDigitDecodes(c as nat % 16, d as nat % 16);
      }
    }
  }

  /** An escaped character says where it ends and what it stands for. */
  lemma EscapedCharDecodes(c: char, d: char, x: string, y: string)
    requires EscapedChar(c) + x == EscapedChar(d) + y
    ensures c == d && x == y
  {
    hide EscapedChar;
    EscapedCharTells(c, d, x, y);
    var left, right := EscapedChar(c) + x, EscapedChar(d) + y;
    assert x == left[|EscapedChar(c)|..] && y == right[|EscapedChar(d)|..];
  }

  lemma HexDigitDecodes(m: nat, n: nat)
    requires m < 16 && n < 16 && HexDigit(m) == HexDigit(n)
    ensures m == n
  {
  }

  lemma EscapedTextStarts(s: string, x: string)
    ensures s == [] ==> (EscapedText(s) + "\"" + x)[0] == '"' && (EscapedText(s) + "\"" + x)[1..] == x
    ensures s != [] ==> EscapedText(s) + "\"" + x == EscapedChar(s[0]) + (EscapedText(s[1..]) + "\"" + x)
    ensures s != [] ==> (EscapedText(s) + "\"" + x)[0] != '"'
  {
    if s != [] {
      EscapedCharIsNoQuote(s[0]);
      Regroup(EscapedChar(s[0]), EscapedText(s[1..]), "\"", x);
    }
  }

  lemma Regroup(a: string, b: string, c: string, d: string)
    ensures a + b + c + d == a + (b + c + d)
  {
  }

  lemma {:induction false} EscapedTextDecodes(s: string, t: string, x: string, y: string)
    requires EscapedText(s) + "\"" + x == EscapedText(t) + "\"" + y
    ensures s == t && x == y
    decreases |s|
  {
    EscapedTextStarts(s, x);
    EscapedTextStarts(t, y);
    if s != [] && t != [] {
      EscapedCharDecodes(s[0], t[0], EscapedText(s[1..]) + "\"" + x, EscapedText(t[1..]) + "\"" + y);
      EscapedTextDecodes(s[1..], t[1..], x, y);
      assert s == [s[0]] + s[1..] && t == [t[0]] + t[1..];
    }
  }

  lemma QuotedDecodes(s: string, t: string, x: string, y: string)
    requires Quoted(s) + x == Quoted(t) + y
    ensures s == t && x == y
  {
    var left, right := Quoted(s) + x, Quoted(t) + y;
    assert left[1..] == EscapedText(s) + "\"" + x && right[1..] == EscapedText(t) + "\"" + y;
    EscapedTextDecodes(s, t, x, y);
  }

  // ----- Values -----

  function Stringify(json: Json): string
    decreases json, 0
  {
    match json
    case JsonString(text) => Quoted(text)
    case JsonBoolean(b) => if b then "true" else "false"
    case JsonArray(items) => "[" + Joined(items) + "]"
  }

  /** The items' texts, separated by commas. */
  function Joined(items: seq<Json>): string
    decreases items, 0
  {
    if items == [] then [] else Stringify(items[0]) + JoinedRest(items[1..])
  }

  function JoinedRest(items: seq<Json>): string
    decreases items, 1
  {
    if items == [] then [] else "," + Joined(items)
  }

  /** The first character of a text tells its kind apart, and from the end of a list. */
  lemma StringifyStarts(json: Json)
    ensures Stringify(json) != []
    ensures
      Stringify(json)[0] ==
      match json
      case JsonString(_) => '"'
      case JsonBoolean(b) => (if b then 't' else 'f')
      case JsonArray(_) => '['
  {
  }

  /** A text says where it ends and what it stands for. */
  lemma {:induction false} StringifyDecodes(a: Json, b: Json, x: string, y: string)
    requires Stringify(a) + x == Stringify(b) + y
    ensures a == b && x == y
    decreases a, 1
  {
    hide Quoted, Joined;
    var left, right := Stringify(a) + x, Stringify(b) + y;
    StringifyStarts(a);
    StringifyStarts(b);
    assert left[0] == Stringify(a)[0] && right[0] == Stringify(b)[0];
    match a
    case JsonString(s) =>
      QuotedDecodes(s, b.text, x, y);
    case JsonBoolean(_) =>
      assert x == left[|Stringify(a)|..] && y == right[|Stringify(b)|..];
    case JsonArray(items) =>
      assert left[1..] == Joined(items) + "]" + x && right[1..] == Joined(b.items) + "]" + y;
      JoinedDecodes(items, b.items, x, y);
  }

  lemma JoinedStarts(items: seq<Json>, x: string)
    ensures items == [] ==> (Joined(items) + "]" + x)[0] == ']' && (Joined(items) + "]" + x)[1..] == x
    ensures items != [] ==> Joined(items) + "]" + x == Stringify(items[0]) + (JoinedRest(items[1..]) + "]" + x)
    ensures items != [] ==> (Joined(items) + "]" + x)[0] != ']'
  {
    if items != [] {
      StringifyStarts(items[0]);
      Regroup(Stringify(items[0]), JoinedRest(items[1..]), "]", x);
    }
  }

  lemma {:induction false} JoinedDecodes(p: seq<Json>, q: seq<Json>, x: string, y: string)
    requires Joined(p) + "]" + x == Joined(q) + "]" + y
    ensures p == q && x == y
    decreases p, 0
  {
    JoinedStarts(p, x);
    JoinedStarts(q, y);
    if p != [] && q != [] {
      StringifyDecodes(p[0], q[0], JoinedRest(p[1..]) + "]" + x, JoinedRest(q[1..]) + "]" + y);
      JoinedRestDecodes(p[1..], q[1..], x, y);
      assert p == [p[0]] + p[1..] && q == [q[0]] + q[1..];
    }
  }

  lemma JoinedRestStarts(items: seq<Json>, x: string)
    ensures items == [] ==> (JoinedRest(items) + "]" + x)[0] == ']' && (JoinedRest(items) + "]" + x)[1..] == x
    ensures items != [] ==>
      (JoinedRest(items) + "]" + x)[0] == ',' && (JoinedRest(items) + "]" + x)[1..] == Joined(items) + "]" + x
  {
  }

  lemma {:induction false} JoinedRestDecodes(p: seq<Json>, q: seq<Json>, x: string, y: string)
    requires JoinedRest(p) + "]" + x == JoinedRest(q) + "]" + y
    ensures p == q && x == y
    decreases p, 1
  {
    JoinedRestStarts(p, x);
    JoinedRestStarts(q, y);
    if p != [] && q != [] {
      JoinedDecodes(p, q, x, y);
    }
  }

  /** No two values share a text. */
  lemma StringifyIsInjective(a: Json, b: Json)
    requires Stringify(a) == Stringify(b)
    ensures a == b
  {
    assert Stringify(a) + "" == Stringify(b) + "";
    StringifyDecodes(a, b, "", "");
  }
}
