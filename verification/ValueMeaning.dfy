/** What comparing field values means: smaller numbers, texts in alphabetical order, and kinds one after the other. */
module ValueMeaning {
  import opened Values
  import opened JsonText
  import opened QueryValueText

  /** The texts agree up to `n`, where the first one ends or has the smaller character. */
  predicate DiffersAt(a: string, b: string, n: int) {
    0 <= n <= |a| && n < |b| && a[..n] == b[..n] && (n < |a| ==> a[n] < b[n])
  }

  ghost predicate TextBefore(a: string, b: string) {
    exists n :: DiffersAt(a, b, n)
  }

  /** Both values are numbers, both bigints, both decimals or both texts, and the first is smaller. */
  ghost predicate Smaller(x: Value, y: Value) {
    match (x, y)
    case (Number(a), Number(b)) => a < b
    case (BigInt(a), BigInt(b)) => a < b
    case (BigDecimal(a), BigDecimal(b)) => a < b
    case (Text(a), Text(b)) => TextBefore(a, b)
    case _ => false
  }

  ghost predicate Ordered(x: Value) {
    x.Number? || x.BigInt? || x.BigDecimal? || x.Text?
  }

  ghost predicate OneKind(x: Value, y: Value) {
    && (x.Undefined? <==> y.Undefined?) && (x.Null? <==> y.Null?) && (x.Boolean? <==> y.Boolean?)
    && (x.Number? <==> y.Number?) && (x.BigInt? <==> y.BigInt?) && (x.BigDecimal? <==> y.BigDecimal?)
  }

  /** Where a kind stands among the kinds. */
  function Place(x: Value): nat {
    match x
    case Null => 0
    case Undefined => 1
    case Boolean(_) => 2
    case BigDecimal(_) => 3
    case BigInt(_) => 4
    case Number(_) => 5
    case Text(_) => 6
  }

  /** The order rows are sorted in, ascending. */
  ghost predicate Before(x: Value, y: Value) {
    if x.Boolean? && y.Boolean? then !x.b && y.b else if OneKind(x, y) then Smaller(x, y) else Place(x) < Place(y)
  }

  lemma {:induction false} CompareTextMeans(a: string, b: string)
    ensures CompareText(a, b) < 0 <==> TextBefore(a, b)
    decreases |a|
  {
    if a == [] || b == [] {
      assert b != [] ==> DiffersAt(a, b, 0);
    } else if a[0] == b[0] {
      CompareTextMeans(a[1..], b[1..]);
      if TextBefore(a[1..], b[1..]) {
        var n :| DiffersAt(a[1..], b[1..], n);
        assert a[..n + 1] == [a[0]] + a[1..][..n] && b[..n + 1] == [b[0]] + b[1..][..n];
        assert DiffersAt(a, b, n + 1);
      }
      if TextBefore(a, b) {
        var n :| DiffersAt(a, b, n);
        assert a[1..][..n - 1] == a[..n][1..] && b[1..][..n - 1] == b[..n][1..];
        assert DiffersAt(a[1..], b[1..], n - 1);
      }
    } else {
      if a[0] < b[0] {
        assert DiffersAt(a, b, 0);
      }
      forall n | 0 < n <= |a| && n <= |b|
        ensures a[..n] != b[..n]
      {
        assert a[..n][0] == a[0] && b[..n][0] == b[0];
      }
    }
  }

  /** Comparing two values says whether the first comes before the second: false before true, smaller before larger
      numbers, texts alphabetically, and null, undefined, booleans, decimals, bigints, numbers and texts in turn. */
  lemma CompareQueryValueMeans(x: Value, y: Value)
    ensures CompareQueryValue(x, y) < 0 <==> Before(x, y)
    ensures CompareQueryValue(x, y) > 0 <==> Before(y, x)
    ensures CompareQueryValue(x, y) == 0 <==> x == y
  {
    CompareQueryValueLaws(x, y);
    if x.Text? && y.Text? {
      CompareTextMeans(x.s, y.s);
      CompareTextMeans(y.s, x.s);
    }
  }

  /** A filter compares two values of one ordered kind only, and by the same order. */
  lemma CompareFilterValueMeans(x: Value, y: Value)
    ensures CompareFilterValue(x, y).Some? <==> Ordered(x) && OneKind(x, y)
    ensures CompareFilterValue(x, y).Some? ==>
      && (CompareFilterValue(x, y).value < 0 <==> Smaller(x, y))
      && (CompareFilterValue(x, y).value > 0 <==> Smaller(y, x))
      && (CompareFilterValue(x, y).value == 0 <==> x == y)
  {
    if x.Text? && y.Text? {
      CompareTextLaws(x.s, y.s);
      CompareTextMeans(x.s, y.s);
      CompareTextMeans(y.s, x.s);
    }
  }

  // ----- Kinds within a rank -----

  function KindTag(x: Value): string {
    match x
    case Undefined => "undefined"
    case Null => "null"
    case Boolean(_) => "boolean"
    case Number(_) => "number"
    case BigInt(_) => "bigint"
    case BigDecimal(_) => "bigDecimal"
    case Text(_) => "string"
  }

  /** Nothing in the text has to be escaped. */
  predicate Unescaped(text: string) {
    forall i | 0 <= i < |text| :: 'A' <= text[i] <= 'z' && text[i] != '\\'
  }

  lemma {:induction false} UnescapedText(text: string)
    requires Unescaped(text)
    ensures EscapedText(text) == text
  {
    if text != [] {
      assert text[0] != '"' && text[0] >= ' ';
      assert EscapedChar(text[0]) == [text[0]];
      assert forall i | 0 <= i < |text[1..]| :: text[1..][i] == text[i + 1];
      UnescapedText(text[1..]);
    }
  }

  lemma TaggedTextStarts(tag: string, token: Json)
    requires Unescaped(tag) && token.JsonArray? && token.items != [] && token.items[0] == JsonString(tag)
    ensures Stringify(token) == ("[\"" + tag + "\"") + (JoinedRest(token.items[1..]) + "]")
  {
    UnescapedText(tag);
    assert Quoted(tag) == "\"" + tag + "\"";
    assert Joined(token.items) == Quoted(tag) + JoinedRest(token.items[1..]);
    assert Stringify(token) == "[" + Joined(token.items) + "]";
  }

  lemma KindTagIsUnescaped(x: Value)
    ensures Unescaped(KindTag(x))
  {
  }

  lemma TokenStartsWithTag(x: Value, texts: NumberTexts)
    ensures
      var token := ScalarToken(x, texts);
      token.JsonArray? && token.items != [] && token.items[0] == JsonString(KindTag(x))
  {
  }

  /** A canonical text starts with the tag of its kind. */
  lemma CanonicalTextStarts(x: Value, texts: NumberTexts)
    ensures
      var tag, text := KindTag(x), StableQueryValueString(ScalarValue(x), texts);
      |text| >= |tag| + 3 && text[..|tag| + 3] == "[\"" + tag + "\""
  {
    hide KindTag, ScalarToken, Stringify, JoinedRest;
    KindTagIsUnescaped(x);
    TokenStartsWithTag(x, texts);
    TaggedTextStarts(KindTag(x), ScalarToken(x, texts));
  }

  lemma TagsDiffer(s: string, t: string, tag: string, other: string, n: nat)
    requires DiffersAt(tag, other, n) && n < |tag|
    requires |tag| + 3 <= |s| && s[..|tag| + 3] == "[\"" + tag + "\""
    requires |other| + 3 <= |t| && t[..|other| + 3] == "[\"" + other + "\""
    ensures TextBefore(s, t)
  {
    var p, q := "[\"" + tag + "\"", "[\"" + other + "\"";
    assert p[..n + 2] == "[\"" + tag[..n] && q[..n + 2] == "[\"" + other[..n];
    assert s[..n + 2] == p[..n + 2] && t[..n + 2] == q[..n + 2];
    assert s[n + 2] == p[n + 2] == tag[n] && t[n + 2] == q[n + 2] == other[n];
    assert DiffersAt(s, t, n + 2);
  }

  /** Values of one rank and of different kinds come in the order of their canonical texts. */
  lemma KindsCompareLikeTexts(x: Value, y: Value, texts: NumberTexts)
    requires ValueRank(x) == ValueRank(y) && !OneKind(x, y) && Before(x, y)
    ensures TextBefore(StableQueryValueString(ScalarValue(x), texts), StableQueryValueString(ScalarValue(y), texts))
  {
    hide StableQueryValueString;
    CanonicalTextStarts(x, texts);
    CanonicalTextStarts(y, texts);
    var tag, other := KindTag(x), KindTag(y);
    var n := if x.BigDecimal? && y.BigInt? then 3 else 0;
    assert tag[..3] == other[..3] || n == 0;
    assert DiffersAt(tag, other, n);
    TagsDiffer(StableQueryValueString(ScalarValue(x), texts), StableQueryValueString(ScalarValue(y), texts),
               tag, other, n);
  }
}
