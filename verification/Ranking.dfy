/** Ranking finite sets by a three-way comparator.

    Every fast path of the engine (bounded insertion, bounded heap, ordered index, retained live
    window) is a way to obtain some leading part of one sequence: the members of a set listed in
    comparator order. That sequence is `Ranked`, and `IsTop` says that a sequence is a leading part
    of it without mentioning the rest of the order. */
module Ranking {

  /** `cmp` is a three-way comparator that tells the members of `s` apart. */
  ghost predicate TotalOn<T(!new)>(cmp: (T, T) -> int, s: set<T>) {
    && (forall a, b {:trigger cmp(a, b)} | a in s && b in s :: cmp(a, b) < 0 <==> cmp(b, a) > 0)
    && (forall a, b {:trigger cmp(a, b)} | a in s && b in s :: cmp(a, b) == 0 ==> a == b)
    && (forall a, b, c {:trigger Chain(a, b, c)} | a in s && b in s && c in s ::
          cmp(a, b) <= 0 && cmp(b, c) <= 0 ==> cmp(a, c) <= 0)
  }

  /** Names three members whose order is to be chained. */
  ghost predicate Chain<T(!new)>(a: T, b: T, c: T) {
    true
  }

  lemma Chains<T(!new)>(cmp: (T, T) -> int, s: set<T>, a: T, b: T, c: T)
    requires TotalOn(cmp, s) && a in s && b in s && c in s
    requires cmp(a, b) <= 0 && cmp(b, c) <= 0
    ensures cmp(a, c) <= 0
    ensures cmp(a, b) < 0 || cmp(b, c) < 0 ==> cmp(a, c) < 0
  {
    assert Chain(a, b, c) && Chain(c, a, b) && Chain(b, c, a);
  }

  lemma TotalOnSubset<T(!new)>(cmp: (T, T) -> int, s: set<T>, t: set<T>)
    requires TotalOn(cmp, s) && t <= s
    ensures TotalOn(cmp, t)
  {
    forall a, b, c | a in t && b in t && c in t && cmp(a, b) <= 0 && cmp(b, c) <= 0
      ensures cmp(a, c) <= 0
    {
      Chains(cmp, s, a, b, c);
    }
  }

  ghost predicate Sorted<T>(es: seq<T>, cmp: (T, T) -> int) {
    forall i, j | 0 <= i < j < |es| :: cmp(es[i], es[j]) < 0
  }

  ghost predicate NoDuplicates<T>(es: seq<T>) {
    forall i, j | 0 <= i < j < |es| :: es[i] != es[j]
  }

  ghost function Elements<T>(es: seq<T>): set<T> {
    set x | x in es
  }

  /** `w` lists, in order, members of `s` that all come before every other member of `s`. */
  ghost predicate IsTop<T(!new)>(w: seq<T>, s: set<T>, cmp: (T, T) -> int) {
    && Sorted(w, cmp)
    && (forall x | x in w :: x in s)
    && (forall x, y | x in w && y in s && y !in w :: cmp(x, y) < 0)
  }

  ghost predicate IsLeast<T(!new)>(m: T, s: set<T>, cmp: (T, T) -> int) {
    m in s && forall x | x in s :: cmp(m, x) <= 0
  }

  lemma LeastExists<T(!new)>(s: set<T>, cmp: (T, T) -> int)
    requires TotalOn(cmp, s) && s != {}
    ensures exists m :: IsLeast(m, s, cmp)
  {
    var x :| x in s;
    if s == {x} {
      assert IsLeast(x, s, cmp);
    } else {
      TotalOnSubset(cmp, s, s - {x});
      LeastExists(s - {x}, cmp);
      var m :| IsLeast(m, s - {x}, cmp);
      if cmp(m, x) <= 0 {
        assert IsLeast(m, s, cmp);
      } else {
        forall y | y in s
          ensures cmp(x, y) <= 0
        {
          if y != x {
            Chains(cmp, s, x, m, y);
          }
        }
        assert IsLeast(x, s, cmp);
      }
    }
  }

  ghost function Least<T(!new)>(s: set<T>, cmp: (T, T) -> int): (m: T)
    requires TotalOn(cmp, s) && s != {}
    ensures IsLeast(m, s, cmp)
  {
    LeastExists(s, cmp);
    var m :| IsLeast(m, s, cmp);
    m
  }

  ghost predicate IsRanking<T(!new)>(r: seq<T>, s: set<T>, cmp: (T, T) -> int) {
    && Sorted(r, cmp)
    && (forall x :: x in r <==> x in s)
    && |r| == |s|
  }

  lemma {:induction false} RankingExists<T(!new)>(s: set<T>, cmp: (T, T) -> int)
    requires TotalOn(cmp, s)
    ensures exists r :: IsRanking(r, s, cmp)
  {
    if s == {} {
      assert IsRanking([], s, cmp);
    } else {
      var m := Least(s, cmp);
      TotalOnSubset(cmp, s, s - {m});
      RankingExists(s - {m}, cmp);
      var rest :| IsRanking(rest, s - {m}, cmp);
      forall x | x in rest
        ensures cmp(m, x) < 0
      {
        assert x in s && x != m;
      }
      PrependKeepsOrder(m, rest, cmp);
      assert forall x :: x in [m] + rest <==> x in s;
      assert IsRanking([m] + rest, s, cmp);
    }
  }

  lemma PrependKeepsOrder<T(!new)>(m: T, rest: seq<T>, cmp: (T, T) -> int)
    requires Sorted(rest, cmp)
    requires forall x | x in rest :: cmp(m, x) < 0
    ensures Sorted([m] + rest, cmp)
  {
  }

  /** The members of `s` in comparator order. */
  ghost function Ranked<T(!new)>(s: set<T>, cmp: (T, T) -> int): (r: seq<T>)
    requires TotalOn(cmp, s)
    ensures IsRanking(r, s, cmp)
  {
    RankingExists(s, cmp);
    var r :| IsRanking(r, s, cmp);
    r
  }

  /** Being a leading part in the sense of `IsTop` and being a prefix of `Ranked` are one thing. */
  lemma TopIsPrefix<T(!new)>(w: seq<T>, s: set<T>, cmp: (T, T) -> int)
    requires TotalOn(cmp, s) && IsTop(w, s, cmp)
    ensures |w| <= |s| && w == Ranked(s, cmp)[..|w|]
  {
    TopAgrees(w, Ranked(s, cmp), s, cmp, |w|);
  }

  lemma {:induction false} TopAgrees<T(!new)>(w: seq<T>, r: seq<T>, s: set<T>, cmp: (T, T) -> int, k: nat)
    requires TotalOn(cmp, s) && IsTop(w, s, cmp) && IsRanking(r, s, cmp) && k <= |w|
    ensures k <= |r| && forall i | 0 <= i < k :: w[i] == r[i]
  {
    if k > 0 {
      TopAgrees(w, r, s, cmp, k - 1);
      var i := k - 1;
      assert w[i] in w && w[i] in s && w[i] in r;
      var j :| 0 <= j < |r| && r[j] == w[i];
      RankedMemberHasOnePlace(w, s, cmp, i);
      NextOfTop(w, r, s, cmp, i, j);
    }
  }

  lemma RankedMemberHasOnePlace<T(!new)>(w: seq<T>, s: set<T>, cmp: (T, T) -> int, i: nat)
    requires TotalOn(cmp, s) && IsTop(w, s, cmp) && i < |w|
    ensures forall h | 0 <= h < i :: w[h] != w[i]
  {
    assert w[i] in s;
  }

  lemma NextOfTop<T(!new)>(w: seq<T>, r: seq<T>, s: set<T>, cmp: (T, T) -> int, i: nat, j: nat)
    requires TotalOn(cmp, s) && IsTop(w, s, cmp) && IsRanking(r, s, cmp)
    requires i < |w| && i <= |r| && j < |r| && w[i] == r[j]
    requires forall h | 0 <= h < i :: w[h] == r[h] && w[h] != w[i]
    ensures i == j
  {
    assert i < |r| ==> r[i] in s && w[i] in s;
  }

  lemma PrefixIsTop<T(!new)>(s: set<T>, cmp: (T, T) -> int, k: nat)
    requires TotalOn(cmp, s) && k <= |s|
    ensures IsTop(Ranked(s, cmp)[..k], s, cmp)
  {
    var r := Ranked(s, cmp);
    forall x, y | x in r[..k] && y in s && y !in r[..k]
      ensures cmp(x, y) < 0
    {
      var i :| 0 <= i < k && r[i] == x;
      var j :| 0 <= j < |r| && r[j] == y;
      assert j >= k;
    }
  }

  /** A sorted listing of exactly `s` is `Ranked(s)`. */
  lemma SortedListingIsRanked<T(!new)>(es: seq<T>, s: set<T>, cmp: (T, T) -> int)
    requires TotalOn(cmp, s) && Sorted(es, cmp)
    requires forall x :: x in es <==> x in s
    ensures es == Ranked(s, cmp)
  {
    TopIsPrefix(es, s, cmp);
    SortedHasNoDuplicates(es, s, cmp);
    NoDuplicatesCount(es);
    assert Elements(es) == s;
  }

  lemma SortedHasNoDuplicates<T(!new)>(es: seq<T>, s: set<T>, cmp: (T, T) -> int)
    requires TotalOn(cmp, s) && Sorted(es, cmp)
    requires forall x | x in es :: x in s
    ensures NoDuplicates(es)
  {
  }

  lemma {:induction false} NoDuplicatesCount<T>(es: seq<T>)
    requires NoDuplicates(es)
    ensures |Elements(es)| == |es|
  {
    if es != [] {
      NoDuplicatesCount(es[1..]);
      assert Elements(es) == {es[0]} + Elements(es[1..]);
    }
  }

  /** A prefix no longer than `part` stays within reach of `part`: none of its members lies behind all
      members of `part`. */
  lemma PrefixReaches<T(!new)>(s: set<T>, part: set<T>, cmp: (T, T) -> int, n: nat, x: T)
    requires TotalOn(cmp, s) && part <= s && n <= |part| && n <= |s|
    requires x in Ranked(s, cmp)[..n]
    ensures exists k :: k in part && cmp(x, k) <= 0
  {
    var r := Ranked(s, cmp);
    var i :| 0 <= i < n && r[i] == x;
    if forall k | k in part :: cmp(x, k) > 0 {
      forall k | k in part
        ensures k in Elements(r[..i])
      {
        var j :| 0 <= j < |r| && r[j] == k;
        assert cmp(r[i], r[j]) > 0;
      }
      assert part <= Elements(r[..i]);
      ElementsAtMost(r[..i]);
      SubsetSize(part, Elements(r[..i]));
    }
  }

  lemma {:induction false} ElementsAtMost<T>(es: seq<T>)
    ensures |Elements(es)| <= |es|
  {
    if es != [] {
      ElementsAtMost(es[1..]);
      assert Elements(es) == {es[0]} + Elements(es[1..]);
    }
  }

  lemma {:induction false} SubsetSize<T>(a: set<T>, b: set<T>)
    requires a <= b
    ensures |a| <= |b|
  {
    assert a + (b - a) == b;
  }

  /** Members that come before all others fill the prefix of their number. */
  lemma DownSetIsPrefix<T(!new)>(s: set<T>, d: set<T>, cmp: (T, T) -> int)
    requires TotalOn(cmp, s) && d <= s
    requires forall x, y | x in d && y in s && y !in d :: cmp(x, y) < 0
    ensures |d| <= |s| && forall x :: x in Ranked(s, cmp)[..|d|] <==> x in d
  {
    TotalOnSubset(cmp, s, d);
    TopIsPrefix(Ranked(d, cmp), s, cmp);
  }

  /** A prefix of the ranking of `s` is a leading part of a larger set when the rest comes later. */
  lemma PrefixIsTopOfMore<T(!new)>(s: set<T>, more: set<T>, cmp: (T, T) -> int, n: nat)
    requires TotalOn(cmp, s) && s <= more && n <= |s|
    requires forall x, y | x in Ranked(s, cmp)[..n] && y in more && y !in s :: cmp(x, y) < 0
    ensures IsTop(Ranked(s, cmp)[..n], more, cmp)
  {
    PrefixIsTop(s, cmp, n);
  }

  // ----- Sorting a list -----

  /** Places `x` after every listed element that does not come after it. */
  function Insert<T>(es: seq<T>, x: T, cmp: (T, T) -> int): seq<T> {
    if es == [] then [x]
    else if cmp(es[0], x) <= 0 then [es[0]] + Insert(es[1..], x, cmp)
    else [x] + es
  }

  /** A comparison sort of a list. */
  function SortBy<T>(es: seq<T>, cmp: (T, T) -> int): seq<T> {
    if es == [] then [] else Insert(SortBy(es[1..], cmp), es[0], cmp)
  }

  lemma {:induction false} InsertKeepsOrder<T(!new)>(es: seq<T>, x: T, s: set<T>, cmp: (T, T) -> int)
    requires TotalOn(cmp, s) && Sorted(es, cmp) && x !in es && x in s
    requires forall y | y in es :: y in s
    ensures Sorted(Insert(es, x, cmp), cmp)
    ensures forall y :: y in Insert(es, x, cmp) <==> y == x || y in es
  {
    if es == [] {
    } else if cmp(es[0], x) <= 0 {
      InsertKeepsOrder(es[1..], x, s, cmp);
      var rest := Insert(es[1..], x, cmp);
      assert es[0] in s;
      assert forall y | y in rest :: cmp(es[0], y) < 0;
      PrependKeepsOrder(es[0], rest, cmp);
    } else {
      BeforeHeadIsFirst(es, x, s, cmp);
      PrependKeepsOrder(x, es, cmp);
    }
  }

  lemma BeforeHeadIsFirst<T(!new)>(es: seq<T>, x: T, s: set<T>, cmp: (T, T) -> int)
    requires TotalOn(cmp, s) && Sorted(es, cmp) && x in s && es != [] && cmp(es[0], x) > 0
    requires forall y | y in es :: y in s
    ensures forall y | y in es :: cmp(x, y) < 0
  {
    assert es[0] in s;
    forall y | y in es
      ensures cmp(x, y) < 0
    {
      assert y == es[0] || cmp(es[0], y) < 0;
      Chains(cmp, s, x, es[0], y);
    }
  }

  /** Sorting a list without repetitions yields the ranking of its elements. */
  lemma {:induction false} SortByRanks<T(!new)>(es: seq<T>, s: set<T>, cmp: (T, T) -> int)
    requires NoDuplicates(es) && TotalOn(cmp, s)
    requires forall x :: x in es <==> x in s
    ensures SortBy(es, cmp) == Ranked(s, cmp)
    decreases |es|
  {
    SortBySorts(es, s, cmp);
    SortedListingIsRanked(SortBy(es, cmp), s, cmp);
  }

  lemma {:induction false} SortBySorts<T(!new)>(es: seq<T>, s: set<T>, cmp: (T, T) -> int)
    requires NoDuplicates(es) && TotalOn(cmp, s)
    requires forall x | x in es :: x in s
    ensures Sorted(SortBy(es, cmp), cmp)
    ensures forall x :: x in SortBy(es, cmp) <==> x in es
  {
    if es != [] {
      SortBySorts(es[1..], s, cmp);
      InsertKeepsOrder(SortBy(es[1..], cmp), es[0], s, cmp);
    }
  }

  /** Sorting looks at the comparator on the listed elements only. */
  lemma {:induction false} SortByAgrees<T(!new)>(es: seq<T>, f: (T, T) -> int, g: (T, T) -> int)
    requires forall a, b | a in es && b in es :: f(a, b) == g(a, b)
    ensures SortBy(es, f) == SortBy(es, g)
    ensures forall x :: x in SortBy(es, f) <==> x in es
  {
    if es != [] {
      SortByAgrees(es[1..], f, g);
      InsertAgrees(SortBy(es[1..], f), es[0], f, g);
    }
  }

  lemma {:induction false} InsertAgrees<T(!new)>(es: seq<T>, x: T, f: (T, T) -> int, g: (T, T) -> int)
    requires forall a | a in es :: f(a, x) == g(a, x)
    ensures Insert(es, x, f) == Insert(es, x, g)
    ensures forall y :: y in Insert(es, x, f) <==> y == x || y in es
  {
    if es != [] {
      InsertAgrees(es[1..], x, f, g);
    }
  }

  // ----- Sorting a list with repetitions -----

  ghost predicate WeaklySorted<T>(es: seq<T>, cmp: (T, T) -> int) {
    forall i, j | 0 <= i < j < |es| :: cmp(es[i], es[j]) <= 0
  }

  lemma {:induction false} InsertKeepsWeakOrder<T(!new)>(es: seq<T>, x: T, s: set<T>, cmp: (T, T) -> int)
    requires TotalOn(cmp, s) && WeaklySorted(es, cmp) && x in s && forall y | y in es :: y in s
    ensures WeaklySorted(Insert(es, x, cmp), cmp)
    ensures forall y :: y in Insert(es, x, cmp) <==> y == x || y in es
  {
    if es != [] {
      assert es[0] in s;
      if cmp(es[0], x) <= 0 {
        InsertKeepsWeakOrder(es[1..], x, s, cmp);
        assert forall y | y in Insert(es[1..], x, cmp) :: cmp(es[0], y) <= 0;
      } else {
        forall y | y in es
          ensures cmp(x, y) <= 0
        {
          assert y == es[0] || cmp(es[0], y) <= 0;
          assert cmp(x, es[0]) < 0;
          if y != es[0] {
            Chains(cmp, s, x, es[0], y);
          }
        }
      }
    }
  }

  lemma {:induction false} SortByWeakly<T(!new)>(es: seq<T>, s: set<T>, cmp: (T, T) -> int)
    requires TotalOn(cmp, s) && forall x | x in es :: x in s
    ensures WeaklySorted(SortBy(es, cmp), cmp)
    ensures forall x :: x in SortBy(es, cmp) <==> x in es
  {
    if es != [] {
      SortByWeakly(es[1..], s, cmp);
      InsertKeepsWeakOrder(SortBy(es[1..], cmp), es[0], s, cmp);
    }
  }
}
