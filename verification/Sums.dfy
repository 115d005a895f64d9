/** The sum of the counts in a map. */
module Sums {
  ghost function SumOf<K(!new)>(counts: map<K, nat>): nat {
    if counts == map[] then 0
    else
      var k :| k in counts;
      counts[k] + SumOf(counts - {k})
  }

  lemma {:induction false} SumSplit<K(!new)>(counts: map<K, nat>, k: K)
    requires k in counts
    ensures SumOf(counts) == counts[k] + SumOf(counts - {k})
    decreases |counts|
  {
    var x :| x in counts && SumOf(counts) == counts[x] + SumOf(counts - {x});
    if x != k {
      SumSplit(counts - {x}, k);
      SumSplit(counts - {k}, x);
      assert counts - {x} - {k} == counts - {k} - {x};
    }
  }

  lemma SumUpdate<K(!new)>(counts: map<K, nat>, k: K, count: nat)
    ensures SumOf(counts[k := count]) == count + SumOf(counts - {k})
  {
    SumSplit(counts[k := count], k);
    assert counts[k := count] - {k} == counts - {k};
  }
}
