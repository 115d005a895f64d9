/** The key of a group: the canonical text of its fields and their values. */
module GroupKeys {
  import opened Values
  import opened Rows
  import opened JsonText
  import opened QueryValueText

  function KeyFieldValue(field: string, value: Value): QueryValue {
    ArrayValue([ScalarValue(Text(field)), ScalarValue(value)])
  }

  function KeyValues(groupBy: seq<string>, row: Row): QueryValue {
    ArrayValue(seq(|groupBy|, i requires 0 <= i < |groupBy| => KeyFieldValue(groupBy[i], FieldValue(row, groupBy[i]))))
  }

  function GroupKeyText(groupBy: seq<string>, row: Row, texts: NumberTexts): string {
    StableQueryValueString(KeyValues(groupBy, row), texts)
  }

  function GroupFields(groupBy: seq<string>, row: Row): map<string, Value> {
    map f | f in groupBy :: FieldValue(row, f)
  }

  /** Rows have one group key exactly when they agree on the group fields. */
  lemma GroupKeyDecidesFields(groupBy: seq<string>, a: Row, b: Row, texts: NumberTexts)
    requires TellsNumbersApart(texts)
    ensures GroupKeyText(groupBy, a, texts) == GroupKeyText(groupBy, b, texts) <==>
      GroupFields(groupBy, a) == GroupFields(groupBy, b)
  {
    var left, right := KeyValues(groupBy, a), KeyValues(groupBy, b);
    StableStringDecidesEquality(left, right, texts);
    forall i | 0 <= i < |groupBy|
      ensures SameValue(left.items[i], right.items[i]) <==> FieldValue(a, groupBy[i]) == FieldValue(b, groupBy[i])
    {
      var v, w := left.items[i].items, right.items[i].items;
      assert SameValue(v[0], w[0])
        && (SameValue(v[1], w[1]) <==> FieldValue(a, groupBy[i]) == FieldValue(b, groupBy[i]));
    }
    assert SameValue(left, right) <==> forall i | 0 <= i < |groupBy| ::
      FieldValue(a, groupBy[i]) == FieldValue(b, groupBy[i]);
    FieldsAgree(groupBy, a, b);
  }

  lemma FieldsAgree(groupBy: seq<string>, a: Row, b: Row)
    ensures GroupFields(groupBy, a) == GroupFields(groupBy, b) <==>
            forall i | 0 <= i < |groupBy| :: FieldValue(a, groupBy[i]) == FieldValue(b, groupBy[i])
  {
    if GroupFields(groupBy, a) == GroupFields(groupBy, b) {
      forall i | 0 <= i < |groupBy|
        ensures FieldValue(a, groupBy[i]) == FieldValue(b, groupBy[i])
      {
        assert groupBy[i] in GroupFields(groupBy, a);
      }
    }
  }

  // ----- The fast path -----

  /** A scalar's token as text, written directly; decimals take the general path. */
  function StableScalarGroupedKeyValueTokenString(value: Value, texts: NumberTexts): Option<string> {
    match value
    case Null => Some(Opened("null") + "]")
    case BigInt(i) => Some(Opened("bigint") + "," + Quoted(IntText(i)) + "]")
    case Number(n) => Some(Opened("number") + "," + Quoted(texts.number(n)) + "]")
    case Text(s) => Some(Opened("string") + "," + Quoted(s) + "]")
    case Boolean(b) => Some(Opened("boolean") + "," + (if b then "true" else "false") + "]")
    case Undefined => Some(Opened("undefined") + "]")
    case BigDecimal(_) => None
  }

  function Opened(kind: string): string {
    "[\"" + kind + "\""
  }

  function StableScalarGroupedKeyFieldTokenString(field: string, value: Value, texts: NumberTexts): Option<string> {
    var valueToken := StableScalarGroupedKeyValueTokenString(value, texts);
    if valueToken.None? then None
    else Some(Opened("array") + ",[" + (Opened("string") + "," + Quoted(field) + "]") + "," + valueToken.value + "]]")
  }

  /** Texts, separated by commas. */
  function Join(texts: seq<string>): string {
    if texts == [] then "" else if |texts| == 1 then texts[0] else texts[0] + "," + Join(texts[1..])
  }

  predicate Letters(text: string) {
    forall i | 0 <= i < |text| :: 'a' <= text[i] <= 'z' || 'A' <= text[i] <= 'Z'
  }

  lemma QuotedKind(kind: string)
    requires Letters(kind)
    ensures Quoted(kind) == "\"" + kind + "\""
  {
    PlainTextIsItself(kind);
  }

  lemma {:induction false} PlainTextIsItself(text: string)
    requires Letters(text)
    ensures EscapedText(text) == text
  {
    if text != [] {
      assert Letters(text[1..]) && EscapedChar(text[0]) == [text[0]];
      PlainTextIsItself(text[1..]);
      assert [text[0]] + text[1..] == text;
    }
  }

  lemma OneJoined(a: Json)
    ensures Joined([a]) == Stringify(a)
  {
    assert [a][1..] == [] && JoinedRest([]) == "";
    assert Joined([a]) == Stringify([a][0]) + JoinedRest([a][1..]);
  }

  lemma PairText(a: Json, b: Json)
    ensures Stringify(JsonArray([a, b])) == "[" + Stringify(a) + "," + Stringify(b) + "]"
  {
    OneJoined(b);
    assert [a, b][1..] == [b] && JoinedRest([b]) == "," + Stringify(b);
    assert Joined([a, b]) == Stringify([a, b][0]) + JoinedRest([a, b][1..]);
    assert Stringify(a) + ("," + Stringify(b)) == Stringify(a) + "," + Stringify(b);
    assert "[" + (Stringify(a) + "," + Stringify(b)) + "]" == "[" + Stringify(a) + "," + Stringify(b) + "]";
  }

  lemma SingleText(a: Json)
    ensures Stringify(JsonArray([a])) == "[" + Stringify(a) + "]"
  {
    OneJoined(a);
  }

  lemma TagOnly(kind: string)
    requires Letters(kind)
    ensures Stringify(JsonArray([JsonString(kind)])) == Opened(kind) + "]"
  {
    QuotedKind(kind);
    SingleText(JsonString(kind));
    assert "[" + ("\"" + kind + "\"") == Opened(kind);
  }

  lemma Tagged(kind: string, item: Json)
    requires Letters(kind)
    ensures Stringify(JsonArray([JsonString(kind), item])) == Opened(kind) + "," + Stringify(item) + "]"
  {
    QuotedKind(kind);
    PairText(JsonString(kind), item);
    assert "[" + ("\"" + kind + "\"") == Opened(kind);
  }

  /** The directly written token of a scalar is its canonical one. */
  lemma FastScalarToken(value: Value, texts: NumberTexts)
    requires !value.BigDecimal?
    ensures StableScalarGroupedKeyValueTokenString(value, texts) == Some(Stringify(ScalarToken(value, texts)))
  {
    match value
    case Null => TagOnly("null");
    case Undefined => TagOnly("undefined");
    case Boolean(b) => Tagged("boolean", JsonBoolean(b));
    case Number(n) => Tagged("number", JsonString(texts.number(n)));
    case BigInt(i) => Tagged("bigint", JsonString(IntText(i)));
    case Text(s) => Tagged("string", JsonString(s));
    case _ =>
  }

  lemma FieldToken(field: string, value: Value, texts: NumberTexts)
    ensures QueryValueToken(KeyFieldValue(field, value), texts) ==
            JsonArray([JsonString("array"), JsonArray([ScalarToken(Text(field), texts), ScalarToken(value, texts)])])
  {
    assert QueryValueToken(KeyFieldValue(field, value), texts).items[1].items ==
           [ScalarToken(Text(field), texts), ScalarToken(value, texts)];
  }

  /** The text of a list in a list, bracket by bracket. */
  lemma ListText(kind: string, inner: string)
    ensures Opened(kind) + ",[" + inner + "]]" == Opened(kind) + "," + ("[" + inner + "]") + "]"
  {
  }

  lemma PairInList(prefix: string, a: string, b: string)
    ensures prefix + ",[" + a + "," + b + "]]" == prefix + "," + ("[" + a + "," + b + "]") + "]"
  {
    assert ",[" == "," + "[" && "]]" == "]" + "]";
  }

  lemma FastFieldToken(field: string, value: Value, texts: NumberTexts)
    requires !value.BigDecimal?
    ensures StableScalarGroupedKeyFieldTokenString(field, value, texts) ==
            Some(Stringify(QueryValueToken(KeyFieldValue(field, value), texts)))
  {
    hide Stringify;
    var name, token := Stringify(ScalarToken(Text(field), texts)), Stringify(ScalarToken(value, texts));
    FieldToken(field, value, texts);
    FastScalarToken(value, texts);
    FastScalarToken(Text(field), texts);
    PairText(ScalarToken(Text(field), texts), ScalarToken(value, texts));
    Tagged("array", JsonArray([ScalarToken(Text(field), texts), ScalarToken(value, texts)]));
    PairInList(Opened("array"), name, token);
  }

  function Stringified(items: seq<Json>): seq<string> {
    seq(|items|, i requires 0 <= i < |items| => Stringify(items[i]))
  }

  lemma {:induction false} JoinIsJoined(items: seq<Json>)
    ensures Join(Stringified(items)) == Joined(items)
    decreases |items|
  {
    if |items| == 1 {
      OneJoined(items[0]);
      assert items == [items[0]];
    } else if items != [] {
      JoinIsJoined(items[1..]);
      assert Stringified(items)[1..] == Stringified(items[1..]);
      assert Joined(items) == Stringify(items[0]) + ("," + Joined(items[1..]));
    }
  }

  function KeyTokens(groupBy: seq<string>, row: Row, texts: NumberTexts): seq<Json> {
    seq(|groupBy|, i requires 0 <= i < |groupBy| =>
      QueryValueToken(KeyFieldValue(groupBy[i], FieldValue(row, groupBy[i])), texts))
  }

  /** The key of a row, written token by token as long as its values are plain scalars, is the canonical text. */
  method GroupedQueryPlanGroupKey(groupBy: seq<string>, row: Row, texts: NumberTexts) returns (key: string)
    ensures key == GroupKeyText(groupBy, row, texts)
  {
    var tokens: seq<string> := [];
    ghost var canonical := KeyTokens(groupBy, row, texts);
    for i := 0 to |groupBy|
      invariant tokens == Stringified(canonical[..i])
    {
      var value := FieldValue(row, groupBy[i]);
      var token := StableScalarGroupedKeyFieldTokenString(groupBy[i], value, texts);
      if token.None? {
        return StableQueryValueString(KeyValues(groupBy, row), texts);
      }
      FastFieldToken(groupBy[i], value, texts);
      assert canonical[..i + 1] == canonical[..i] + [canonical[i]];
      tokens := tokens + [token.value];
    }
    assert canonical[..|groupBy|] == canonical;
    key := Opened("array") + ",[" + Join(tokens) + "]]";
    JoinIsJoined(canonical);
    ListText("array", Join(tokens));
    Tagged("array", JsonArray(canonical));
    assert QueryValueToken(KeyValues(groupBy, row), texts) ==
      JsonArray([JsonString("array"), JsonArray(canonical)]) by {
      assert QueryValueToken(KeyValues(groupBy, row), texts).items[1].items == canonical;
    }
  }
}
