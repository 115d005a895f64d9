/** Field values and the order the engine sorts them in. */
module Values {

  datatype Option<+T> = None | Some(value: T)

  function Ratio(p: int, q: int): real
    requires q > 0
  {
    p as real / q as real
  }

  ghost predicate IsRational(r: real) {
    exists p: int, q: int :: q > 0 && r == Ratio(p, q)
  }

  function RationalZero(): (zero: real)
    ensures IsRational(zero)
  {
    assert Ratio(0, 1) == 0.0;
    0.0
  }

  /** A number that a fraction of integers writes, as every finite number and every decimal is. */
  type Rational = r: real | IsRational(r) witness RationalZero()

  /** A scalar field value. Numbers and decimals are exact; a decimal is held in normal form. */
  datatype Value =
    | Undefined
    | Null
    | Boolean(b: bool)
    | Number(n: Rational)
    | BigInt(i: int)
    | BigDecimal(d: Rational)
    | Text(s: string)

  function ValueRank(value: Value): nat {
    match value
    case Undefined | Null => 0
    case Boolean(_) => 1
    case Number(_) | BigInt(_) | BigDecimal(_) => 2
    case Text(_) => 3
  }

  function CompareInt(left: int, right: int): int {
    if left == right then 0 else if left < right then -1 else 1
  }

  function CompareReal(left: real, right: real): int {
    if left == right then 0 else if left < right then -1 else 1
  }

  /** Strings in lexicographic order of their characters. */
  function CompareText(left: string, right: string): int {
    if left == [] && right == [] then 0
    else if left == [] then -1
    else if right == [] then 1
    else if left[0] != right[0] then (if left[0] < right[0] then -1 else 1)
    else CompareText(left[1..], right[1..])
  }

  /** The comparison a filter makes: defined between two values of one ordered kind only. */
  function CompareFilterValue(left: Value, right: Value): Option<int> {
    match (left, right)
    case (Number(l), Number(r)) => Some(CompareReal(l, r))
    case (Text(l), Text(r)) => Some(CompareText(l, r))
    case (BigInt(l), BigInt(r)) => Some(CompareInt(l, r))
    case (BigDecimal(l), BigDecimal(r)) => Some(CompareReal(l, r))
    case _ => None
  }

  /** Where a value's canonical text starts among the texts of its rank: the texts begin with the kind
      tags `"bigDecimal"`, `"bigint"`, `"number"` and `"null"`, `"undefined"`, so two values of one
      rank but of different kinds compare like their tags. */
  function KindOrder(value: Value): nat {
    match value
    case Null => 0
    case Undefined => 1
    case BigDecimal(_) => 0
    case BigInt(_) => 1
    case Number(_) => 2
    case _ => 0
  }

  /** The order rows are sorted in. */
  function CompareQueryValue(left: Value, right: Value): int {
    if ValueRank(left) != ValueRank(right) then CompareInt(ValueRank(left), ValueRank(right))
    else
      match (left, right)
      case (Boolean(l), Boolean(r)) => if l == r then 0 else if l then 1 else -1
      case _ =>
        match CompareFilterValue(left, right)
        case Some(comparison) => comparison
        case None => CompareInt(KindOrder(left), KindOrder(right))
  }

  lemma {:induction false} CompareTextLaws(a: string, b: string)
    ensures CompareText(a, b) == -CompareText(b, a)
    ensures CompareText(a, b) == 0 <==> a == b
    decreases |a|
  {
    if a != [] && b != [] && a[0] == b[0] {
      CompareTextLaws(a[1..], b[1..]);
      assert a == [a[0]] + a[1..] && b == [b[0]] + b[1..];
    }
  }

  lemma {:induction false} CompareTextTransitive(a: string, b: string, c: string)
    requires CompareText(a, b) <= 0 && CompareText(b, c) <= 0
    ensures CompareText(a, c) <= 0
    decreases |a|
  {
    if a != [] && b != [] && c != [] && a[0] == b[0] && b[0] == c[0] {
      CompareTextTransitive(a[1..], b[1..], c[1..]);
    }
  }

  /** `CompareQueryValue` orders every two values, and only equal values compare as equal. */
  lemma CompareQueryValueLaws(a: Value, b: Value)
    ensures CompareQueryValue(a, b) == -CompareQueryValue(b, a)
    ensures CompareQueryValue(a, b) == 0 <==> a == b
  {
    if a.Text? && b.Text? {
      CompareTextLaws(a.s, b.s);
    }
  }

  lemma CompareQueryValueTransitive(a: Value, b: Value, c: Value)
    requires CompareQueryValue(a, b) <= 0 && CompareQueryValue(b, c) <= 0
    ensures CompareQueryValue(a, c) <= 0
  {
    if a.Text? && b.Text? && c.Text? {
      CompareTextTransitive(a.s, b.s, c.s);
    }
  }
}
