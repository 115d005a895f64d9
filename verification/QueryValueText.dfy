/** The canonical text of a query value: one text for equal values, different texts for different ones. */
module QueryValueText {
  import opened Values
  import opened Ranking
  import opened JsonText

  // ----- Numbers -----

  function Decimal(n: nat): string {
    (if n < 10 then "" else Decimal(n / 10)) + [(n % 10) as char + '0']
  }

  lemma {:induction false} DecimalIsInjective(m: nat, n: nat)
    requires Decimal(m) == Decimal(n)
    ensures m == n
    decreases m
  {
    var s, t := Decimal(m), Decimal(n);
    assert s[|s| - 1] == (m % 10) as char + '0' && t[|t| - 1] == (n % 10) as char + '0';
    assert s[..|s| - 1] == if m < 10 then "" else Decimal(m / 10);
    assert t[..|t| - 1] == if n < 10 then "" else Decimal(n / 10);
    if m >= 10 && n >= 10 {
      DecimalIsInjective(m / 10, n / 10);
    }
  }

  /** The number that a row of decimal digits writes. */
  function Read(digits: string): int {
    if digits == [] then 0
    else 10 * Read(digits[..|digits| - 1]) + (digits[|digits| - 1] as int - '0' as int)
  }

  /** A number's text is its decimal digits. */
  lemma {:induction false} DecimalReads(n: nat)
    ensures Read(Decimal(n)) == n
    ensures forall i | 0 <= i < |Decimal(n)| :: '0' <= Decimal(n)[i] <= '9'
  {
    DigitReads(n % 10);
    var front := if n < 10 then "" else Decimal(n / 10);
    if n >= 10 {
      DecimalReads(n / 10);
    }
    ReadMore(front, (n % 10) as char + '0');
    assert Decimal(n) == front + [(n % 10) as char + '0'];
  }

  lemma DigitReads(d: nat)
    requires d < 10
    ensures '0' <= d as char + '0' <= '9' && (d as char + '0') as int - '0' as int == d
  {
  }

  lemma ReadMore(digits: string, digit: char)
    ensures Read(digits + [digit]) == 10 * Read(digits) + (digit as int - '0' as int)
  {
    assert (digits + [digit])[..|digits|] == digits;
  }

  function IntText(i: int): string {
    if i < 0 then "-" + Decimal(-i) else Decimal(i)
  }

  lemma IntTextIsInjective(i: int, j: int)
    requires IntText(i) == IntText(j)
    ensures i == j
  {
    DecimalHasNoSign(if i < 0 then -i else i);
    DecimalHasNoSign(if j < 0 then -j else j);
    if i < 0 && j < 0 {
      assert IntText(i)[1..] == Decimal(-i) && IntText(j)[1..] == Decimal(-j);
      DecimalIsInjective(-i, -j);
    } else if i >= 0 && j >= 0 {
      DecimalIsInjective(i, j);
    }
  }

  lemma DecimalHasNoSign(n: nat)
    ensures Decimal(n) != [] && Decimal(n)[0] != '-'
  {
  }

  /** How the runtime writes numbers and normalized decimals. */
  datatype NumberTexts = NumberTexts(number: Rational -> string, decimal: Rational -> string)

  ghost predicate Injective(text: Rational -> string) {
    forall a: Rational, b: Rational {:trigger text(a), text(b)} :: text(a) == text(b) ==> a == b
  }

  /** Different numbers are written differently. */
  ghost predicate TellsNumbersApart(texts: NumberTexts) {
    Injective(texts.number) && Injective(texts.decimal)
  }

  ghost function Numerator(r: Rational): (p: int)
    ensures exists q: int :: q > 0 && r == Ratio(p, q)
  {
    assert IsRational(r);
    var p, q :| q > 0 && r == Ratio(p, q);
    p
  }

  ghost function Denominator(r: Rational): (q: int)
    ensures q > 0 && r == Ratio(Numerator(r), q)
  {
    var q :| q > 0 && r == Ratio(Numerator(r), q);
    q
  }

  ghost function FractionText(r: Rational): string {
    Stringify(JsonArray([JsonString(IntText(Numerator(r))), JsonString(IntText(Denominator(r)))]))
  }

  /** Numbers can be told apart by their texts. */
  lemma SomeTextsTellNumbersApart()
    ensures exists texts: NumberTexts :: TellsNumbersApart(texts)
  {
    ghost var text: Rational -> string := (r: Rational) => FractionText(r);
    forall a: Rational, b: Rational | text(a) == text(b)
      ensures a == b
    {
      var left := JsonArray([JsonString(IntText(Numerator(a))), JsonString(IntText(Denominator(a)))]);
      var right := JsonArray([JsonString(IntText(Numerator(b))), JsonString(IntText(Denominator(b)))]);
      StringifyIsInjective(left, right);
      assert left.items[0] == right.items[0] && left.items[1] == right.items[1];
      IntTextIsInjective(Numerator(a), Numerator(b));
      IntTextIsInjective(Denominator(a), Denominator(b));
    }
    assert TellsNumbersApart(NumberTexts(text, text));
  }

  // ----- Values -----

  datatype QueryField = QueryField(name: string, value: QueryValue)

  /** A value of a query: a scalar, a list, or an object with its fields in the order they were written. */
  datatype QueryValue =
    | ScalarValue(value: Value)
    | ArrayValue(items: seq<QueryValue>)
    | ObjectValue(fields: seq<QueryField>)

  function ScalarToken(value: Value, texts: NumberTexts): Json {
    match value
    case Undefined => JsonArray([JsonString("undefined")])
    case Null => JsonArray([JsonString("null")])
    case Boolean(b) => JsonArray([JsonString("boolean"), JsonBoolean(b)])
    case Number(n) => JsonArray([JsonString("number"), JsonString(texts.number(n))])
    case BigInt(i) => JsonArray([JsonString("bigint"), JsonString(IntText(i))])
    case BigDecimal(d) => JsonArray([JsonString("bigDecimal"), JsonString(texts.decimal(d))])
    case Text(s) => JsonArray([JsonString("string"), JsonString(s)])
  }

  lemma ScalarTokenIsInjective(a: Value, b: Value, texts: NumberTexts)
    requires TellsNumbersApart(texts) && ScalarToken(a, texts) == ScalarToken(b, texts)
    ensures a == b
  {
    var left, right := ScalarToken(a, texts).items, ScalarToken(b, texts).items;
    assert left[0] == right[0];
    if |left| > 1 && |right| > 1 {
      assert left[1] == right[1];
    }
    if a.BigInt? && b.BigInt? {
      IntTextIsInjective(a.i, b.i);
    }
    if a.Number? && b.Number? {
      assert texts.number(a.n) == texts.number(b.n);
    }
    if a.BigDecimal? && b.BigDecimal? {
      assert texts.decimal(a.d) == texts.decimal(b.d);
    }
  }

  /** An object's entries by name. */
  datatype Named = Named(name: string, token: Json)

  function CompareNames(): (Named, Named) -> int {
    (left: Named, right: Named) => CompareText(left.name, right.name)
  }

  function EntryToken(entry: Named): Json {
    JsonArray([JsonString(entry.name), entry.token])
  }

  function EntryTokens(entries: seq<Named>): seq<Json> {
    seq(|entries|, i requires 0 <= i < |entries| => EntryToken(entries[i]))
  }

  function EntriesOf(fields: seq<QueryField>, texts: NumberTexts): (entries: seq<Named>)
    ensures |entries| == |fields|
    decreases fields, 0
  {
    seq(|fields|, i requires 0 <= i < |fields| => Named(fields[i].name, QueryValueToken(fields[i].value, texts)))
  }

  /** The canonical token: an object's entries come in the order of their names. */
  function QueryValueToken(value: QueryValue, texts: NumberTexts): Json
    decreases value, 1
  {
    match value
    case ScalarValue(v) => ScalarToken(v, texts)
    case ArrayValue(items) =>
      JsonArray([JsonString("array"),
                 JsonArray(seq(|items|, i requires 0 <= i < |items| => QueryValueToken(items[i], texts)))])
    case ObjectValue(fields) =>
      JsonArray([JsonString("object"), JsonArray(EntryTokens(SortBy(EntriesOf(fields, texts), CompareNames())))])
  }

  function StableQueryValueString(value: QueryValue, texts: NumberTexts): string {
    Stringify(QueryValueToken(value, texts))
  }

  // ----- Equality of values -----

  ghost predicate DistinctNames(fields: seq<QueryField>) {
    forall i, j | 0 <= i < j < |fields| :: fields[i].name != fields[j].name
  }

  /** No object names a field twice. */
  ghost predicate Plain(value: QueryValue) {
    match value
    case ScalarValue(_) => true
    case ArrayValue(items) => forall i | 0 <= i < |items| :: Plain(items[i])
    case ObjectValue(fields) => DistinctNames(fields) && forall i | 0 <= i < |fields| :: Plain(fields[i].value)
  }

  ghost predicate HasField(fields: seq<QueryField>, name: string) {
    exists i :: 0 <= i < |fields| && fields[i].name == name
  }

  ghost function FieldAt(fields: seq<QueryField>, name: string): (i: nat)
    requires HasField(fields, name)
    ensures i < |fields| && fields[i].name == name
  {
    var i :| 0 <= i < |fields| && fields[i].name == name;
    i
  }

  /** Equal scalars, lists of equal values, and objects with equal values under equal names. */
  ghost predicate SameValue(a: QueryValue, b: QueryValue) {
    match (a, b)
    case (ScalarValue(v), ScalarValue(w)) => v == w
    case (ArrayValue(s), ArrayValue(t)) => |s| == |t| && forall i | 0 <= i < |s| && i < |t| :: SameValue(s[i], t[i])
    case (ObjectValue(s), ObjectValue(t)) =>
      && |s| == |t|
      && forall i | 0 <= i < |s| :: HasField(t, s[i].name) && SameValue(s[i].value, t[FieldAt(t, s[i].name)].value)
    case _ => false
  }

  // ----- Sorted entries -----

  ghost predicate DistinctEntries(entries: seq<Named>) {
    forall i, j | 0 <= i < j < |entries| :: entries[i].name != entries[j].name
  }

  lemma NamesAreTotal(entries: seq<Named>)
    requires DistinctEntries(entries)
    ensures NoDuplicates(entries) && TotalOn(CompareNames(), Elements(entries))
  {
    var cmp := CompareNames();
    forall a, b, c | a in Elements(entries) && b in Elements(entries)
      ensures cmp(a, b) < 0 <==> cmp(b, a) > 0
      ensures cmp(a, b) == 0 ==> a == b
      ensures cmp(a, b) <= 0 && cmp(b, c) <= 0 ==> cmp(a, c) <= 0
    {
      CompareTextLaws(a.name, b.name);
      if cmp(a, b) <= 0 && cmp(b, c) <= 0 {
        CompareTextTransitive(a.name, b.name, c.name);
      }
      var i :| 0 <= i < |entries| && entries[i] == a;
      var j :| 0 <= j < |entries| && entries[j] == b;
    }
  }

  lemma SortedEntries(entries: seq<Named>)
    requires DistinctEntries(entries)
    ensures TotalOn(CompareNames(), Elements(entries))
    ensures SortBy(entries, CompareNames()) == Ranked(Elements(entries), CompareNames())
    ensures forall e :: e in SortBy(entries, CompareNames()) <==> e in entries
    ensures |Elements(entries)| == |entries|
  {
    NamesAreTotal(entries);
    SortBySorts(entries, Elements(entries), CompareNames());
    SortByRanks(entries, Elements(entries), CompareNames());
    NoDuplicatesCount(entries);
  }

  lemma EntryTokensAreInjective(s: seq<Named>, t: seq<Named>)
    requires EntryTokens(s) == EntryTokens(t)
    ensures s == t
  {
    assert |s| == |EntryTokens(s)| == |EntryTokens(t)| == |t|;
    forall i | 0 <= i < |s|
      ensures s[i] == t[i]
    {
      assert EntryTokens(s)[i] == EntryTokens(t)[i];
      var left, right := EntryToken(s[i]).items, EntryToken(t[i]).items;
      assert left[0] == right[0] && left[1] == right[1];
    }
  }

  /** Objects have one token exactly when they have the same entries. */
  lemma SameEntriesSameToken(s: seq<Named>, t: seq<Named>)
    requires DistinctEntries(s) && DistinctEntries(t)
    ensures SortBy(s, CompareNames()) == SortBy(t, CompareNames()) <==> Elements(s) == Elements(t)
    ensures Elements(s) == Elements(t) ==> |s| == |t|
  {
    SortedEntries(s);
    SortedEntries(t);
    if SortBy(s, CompareNames()) == SortBy(t, CompareNames()) {
      assert forall e :: e in s <==> e in t;
      assert Elements(s) == Elements(t);
    }
  }

  // ----- The text decides equality -----

  function Tag(token: Json): string {
    if token.JsonArray? && token.items != [] && token.items[0].JsonString? then token.items[0].text else ""
  }

  lemma TokenTags(value: QueryValue, texts: NumberTexts)
    ensures value.ArrayValue? <==> Tag(QueryValueToken(value, texts)) == "array"
    ensures value.ObjectValue? <==> Tag(QueryValueToken(value, texts)) == "object"
  {
  }

  /** Two values have one token exactly when they are equal, in whatever order their objects name the fields. */
  lemma {:induction false} TokenDecidesEquality(a: QueryValue, b: QueryValue, texts: NumberTexts)
    requires Plain(a) && Plain(b) && TellsNumbersApart(texts)
    ensures QueryValueToken(a, texts) == QueryValueToken(b, texts) <==> SameValue(a, b)
    decreases a, 1
  {
    TokenTags(a, texts);
    TokenTags(b, texts);
    match (a, b)
    case (ScalarValue(v), ScalarValue(w)) =>
      if QueryValueToken(a, texts) == QueryValueToken(b, texts) {
        ScalarTokenIsInjective(v, w, texts);
      }
    case (ArrayValue(s), ArrayValue(t)) =>
      ArrayTokenDecidesEquality(s, t, texts);
    case (ObjectValue(s), ObjectValue(t)) =>
      ObjectTokenDecidesEquality(s, t, texts);
    case _ =>
  }

  lemma {:induction false} ArrayTokenDecidesEquality(s: seq<QueryValue>, t: seq<QueryValue>, texts: NumberTexts)
    requires Plain(ArrayValue(s)) && Plain(ArrayValue(t)) && TellsNumbersApart(texts)
    ensures QueryValueToken(ArrayValue(s), texts) == QueryValueToken(ArrayValue(t), texts) <==>
      SameValue(ArrayValue(s), ArrayValue(t))
    decreases s, 0
  {
    var left, right := QueryValueToken(ArrayValue(s), texts), QueryValueToken(ArrayValue(t), texts);
    var p, q := left.items[1].items, right.items[1].items;
    assert left == right <==> p == q;
    if |s| == |t| {
      forall i | 0 <= i < |s|
        ensures p[i] == q[i] <==> SameValue(s[i], t[i])
      {
        TokenDecidesEquality(s[i], t[i], texts);
      }
    }
  }

  lemma {:induction false} ObjectTokenDecidesEquality(s: seq<QueryField>, t: seq<QueryField>, texts: NumberTexts)
    requires Plain(ObjectValue(s)) && Plain(ObjectValue(t)) && TellsNumbersApart(texts)
    ensures QueryValueToken(ObjectValue(s), texts) == QueryValueToken(ObjectValue(t), texts) <==>
            SameValue(ObjectValue(s), ObjectValue(t))
    decreases s, 0
  {
    var p, q := EntriesOf(s, texts), EntriesOf(t, texts);
    assert DistinctEntries(p) && DistinctEntries(q);
    SameEntriesSameToken(p, q);
    var left, right := QueryValueToken(ObjectValue(s), texts), QueryValueToken(ObjectValue(t), texts);
    assert left.items[1].items == EntryTokens(SortBy(p, CompareNames()));
    assert right.items[1].items == EntryTokens(SortBy(q, CompareNames()));
    if left == right {
      EntryTokensAreInjective(SortBy(p, CompareNames()), SortBy(q, CompareNames()));
    }
    assert left == right <==> Elements(p) == Elements(q);
    forall i | 0 <= i < |s|
      ensures p[i] in q <==> HasField(t, s[i].name) && SameValue(s[i].value, t[FieldAt(t, s[i].name)].value)
    {
      if HasField(t, s[i].name) {
        var j := FieldAt(t, s[i].name);
        TokenDecidesEquality(s[i].value, t[j].value, texts);
        assert p[i] == q[j] <==> SameValue(s[i].value, t[j].value);
        assert p[i] in q ==> p[i] == q[j];
      }
    }
    SubsetOfSameLength(p, q);
  }

  lemma SubsetOfSameLength(p: seq<Named>, q: seq<Named>)
    requires DistinctEntries(p) && DistinctEntries(q)
    ensures Elements(p) == Elements(q) <==> |p| == |q| && forall i | 0 <= i < |p| :: p[i] in q
  {
    NamesAreTotal(p);
    NamesAreTotal(q);
    NoDuplicatesCount(p);
    NoDuplicatesCount(q);
    if |p| == |q| && forall i | 0 <= i < |p| :: p[i] in q {
      assert Elements(p) <= Elements(q);
      assert |Elements(q) - Elements(p)| == 0;
    }
    if Elements(p) == Elements(q) {
      forall i | 0 <= i < |p|
        ensures p[i] in q
      {
        assert p[i] in Elements(p);
      }
    }
  }

  /** The canonical text is one for equal values, and different for different ones. */
  lemma StableStringDecidesEquality(a: QueryValue, b: QueryValue, texts: NumberTexts)
    requires Plain(a) && Plain(b) && TellsNumbersApart(texts)
    ensures StableQueryValueString(a, texts) == StableQueryValueString(b, texts) <==> SameValue(a, b)
  {
    TokenDecidesEquality(a, b, texts);
    if StableQueryValueString(a, texts) == StableQueryValueString(b, texts) {
      StringifyIsInjective(QueryValueToken(a, texts), QueryValueToken(b, texts));
    }
  }
}
