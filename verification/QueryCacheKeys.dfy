/** The texts under which executions, windows and grouped queries are cached. */
module QueryCacheKeys {
  import opened Values
  import opened JsonText
  import opened QueryValueText

  /** A raw query's where clause, if it has one, and what it orders by. */
  function RawQueryShapeCacheKey(where: Option<QueryValue>, orderBy: QueryValue, texts: NumberTexts): string {
    Stringify(JsonArray([
      JsonString("raw"),
      JsonString(if where.None? then "" else StableQueryValueString(where.value, texts)),
      JsonString(StableQueryValueString(orderBy, texts))
    ]))
  }

  function RawQueryWindowCacheKey(offset: nat, limit: Option<nat>, texts: NumberTexts): string {
    Stringify(JsonArray([
      JsonString("window"),
      JsonString(StableQueryValueString(CountValue(offset), texts)),
      JsonString(StableQueryValueString(if limit.None? then ScalarValue(Null) else CountValue(limit.value), texts))
    ]))
  }

  function CountValue(n: nat): QueryValue {
    ScalarValue(Number(WholeNumber(n)))
  }

  function WholeNumber(n: nat): (r: Rational)
    ensures r == n as real
  {
    assert Ratio(n, 1) == n as real;
    n as real
  }

  ghost predicate SameOption(a: Option<QueryValue>, b: Option<QueryValue>) {
    match (a, b)
    case (Some(v), Some(w)) => SameValue(v, w)
    case (None, None) => true
    case _ => false
  }

  lemma ThreeTextsDecide(a: seq<string>, b: seq<string>)
    requires |a| == |b| == 3
    ensures
      var left := JsonArray([JsonString(a[0]), JsonString(a[1]), JsonString(a[2])]);
      var right := JsonArray([JsonString(b[0]), JsonString(b[1]), JsonString(b[2])]);
      Stringify(left) == Stringify(right) <==> a == b
  {
    var left := JsonArray([JsonString(a[0]), JsonString(a[1]), JsonString(a[2])]);
    var right := JsonArray([JsonString(b[0]), JsonString(b[1]), JsonString(b[2])]);
    if Stringify(left) == Stringify(right) {
      StringifyIsInjective(left, right);
      assert left.items[0] == right.items[0] && left.items[1] == right.items[1] && left.items[2] == right.items[2];
    }
  }

  lemma StableStringIsNotEmpty(value: QueryValue, texts: NumberTexts)
    ensures StableQueryValueString(value, texts) != ""
  {
    StringifyStarts(QueryValueToken(value, texts));
  }

  /** Two raw queries have one key exactly when they filter by equal clauses, whatever the order their fields
      were written in, and order by the same. */
  lemma RawKeyDecidesShape(where: Option<QueryValue>, orderBy: QueryValue, where': Option<QueryValue>,
                           orderBy': QueryValue, texts: NumberTexts)
    requires TellsNumbersApart(texts) && Plain(orderBy) && Plain(orderBy')
    requires (where.Some? ==> Plain(where.value)) && (where'.Some? ==> Plain(where'.value))
    ensures RawQueryShapeCacheKey(where, orderBy, texts) == RawQueryShapeCacheKey(where', orderBy', texts) <==>
            SameOption(where, where') && SameValue(orderBy, orderBy')
  {
    hide Stringify, StableQueryValueString;
    var w := if where.None? then "" else StableQueryValueString(where.value, texts);
    var w' := if where'.None? then "" else StableQueryValueString(where'.value, texts);
    ThreeTextsDecide(["raw", w, StableQueryValueString(orderBy, texts)],
                     ["raw", w', StableQueryValueString(orderBy', texts)]);
    StableStringDecidesEquality(orderBy, orderBy', texts);
    if where.Some? {
      StableStringIsNotEmpty(where.value, texts);
    }
    if where'.Some? {
      StableStringIsNotEmpty(where'.value, texts);
    }
    if where.Some? && where'.Some? {
      StableStringDecidesEquality(where.value, where'.value, texts);
    }
  }

  /** Two windows have one key exactly when they are equal. */
  lemma WindowKeyDecidesWindow(offset: nat, limit: Option<nat>, offset': nat, limit': Option<nat>, texts: NumberTexts)
    requires TellsNumbersApart(texts)
    ensures RawQueryWindowCacheKey(offset, limit, texts) == RawQueryWindowCacheKey(offset', limit', texts) <==>
            offset == offset' && limit == limit'
  {
    hide Stringify, StableQueryValueString;
    var l := if limit.None? then ScalarValue(Null) else CountValue(limit.value);
    var l' := if limit'.None? then ScalarValue(Null) else CountValue(limit'.value);
    ThreeTextsDecide(["window", StableQueryValueString(CountValue(offset), texts), StableQueryValueString(l, texts)],
                     ["window", StableQueryValueString(CountValue(offset'), texts), StableQueryValueString(l', texts)]);
    StableStringDecidesEquality(CountValue(offset), CountValue(offset'), texts);
    StableStringDecidesEquality(l, l', texts);
  }

  // ----- Grouped queries -----

  /** What a grouped query is cached by; its aggregates come as entries in the order of their aliases. */
  datatype GroupedKeyParts = GroupedKeyParts(
    groupBy: QueryValue,
    aggregates: QueryValue,
    where: Option<QueryValue>,
    orderBy: QueryValue,
    offset: Option<nat>,
    limit: Option<nat>
  )

  function CountOrNull(n: Option<nat>): QueryValue {
    if n.None? then ScalarValue(Null) else CountValue(n.value)
  }

  function WhereText(where: Option<QueryValue>, texts: NumberTexts): QueryValue {
    if where.None? then ArrayValue([]) else ScalarValue(Text(StableQueryValueString(where.value, texts)))
  }

  function GroupedKeyItems(parts: GroupedKeyParts, texts: NumberTexts): seq<QueryValue> {
    [ScalarValue(Text("grouped")), parts.groupBy, parts.aggregates, WhereText(parts.where, texts), parts.orderBy,
     CountOrNull(parts.offset), CountOrNull(parts.limit)]
  }

  function GroupedQueryPlanCacheKey(parts: GroupedKeyParts, texts: NumberTexts): string {
    StableQueryValueString(ArrayValue(GroupedKeyItems(parts, texts)), texts)
  }

  ghost predicate PlainParts(parts: GroupedKeyParts) {
    && Plain(parts.groupBy) && Plain(parts.aggregates) && Plain(parts.orderBy)
    && (parts.where.Some? ==> Plain(parts.where.value))
  }

  ghost predicate SameParts(a: GroupedKeyParts, b: GroupedKeyParts) {
    && SameValue(a.groupBy, b.groupBy) && SameValue(a.aggregates, b.aggregates) && SameOption(a.where, b.where)
    && SameValue(a.orderBy, b.orderBy) && a.offset == b.offset && a.limit == b.limit
  }

  lemma WhereTextDecides(a: Option<QueryValue>, b: Option<QueryValue>, texts: NumberTexts)
    requires TellsNumbersApart(texts) && (a.Some? ==> Plain(a.value)) && (b.Some? ==> Plain(b.value))
    ensures SameValue(WhereText(a, texts), WhereText(b, texts)) <==> SameOption(a, b)
  {
    if a.Some? && b.Some? {
      StableStringDecidesEquality(a.value, b.value, texts);
    }
  }

  lemma ItemsArePlain(parts: GroupedKeyParts, texts: NumberTexts)
    requires PlainParts(parts)
    ensures Plain(ArrayValue(GroupedKeyItems(parts, texts)))
  {
  }

  lemma SevenItems(s: seq<QueryValue>, t: seq<QueryValue>)
    requires |s| == |t| == 7 && SameValue(s[0], t[0])
    requires SameValue(s[1], t[1]) && SameValue(s[2], t[2]) && SameValue(s[3], t[3])
    ensures SameValue(ArrayValue(s), ArrayValue(t)) <==>
            (SameValue(s[4], t[4]) && SameValue(s[5], t[5]) && SameValue(s[6], t[6]))
  {
  }

  /** Two grouped queries have one key exactly when all their parts are equal. */
  lemma GroupedKeyDecidesParts(a: GroupedKeyParts, b: GroupedKeyParts, texts: NumberTexts)
    requires TellsNumbersApart(texts) && PlainParts(a) && PlainParts(b)
    ensures GroupedQueryPlanCacheKey(a, texts) == GroupedQueryPlanCacheKey(b, texts) <==> SameParts(a, b)
  {
    hide StableQueryValueString, WhereText, Plain;
    var s, t := GroupedKeyItems(a, texts), GroupedKeyItems(b, texts);
    ItemsArePlain(a, texts);
    ItemsArePlain(b, texts);
    StableStringDecidesEquality(ArrayValue(s), ArrayValue(t), texts);
    WhereTextDecides(a.where, b.where, texts);
    if SameValue(s[1], t[1]) && SameValue(s[2], t[2]) && SameValue(s[3], t[3]) {
      SevenItems(s, t);
    }
  }
}
