/** Ways to obtain one window of the matching slots in slot order: full sort, bounded insertion, bounded
    heap and reading an ordered index. Each is proved to return the same slice of the ranking. */
module BoundedWindow {
  import opened Values
  import opened Sequences
  import opened Ranking

  // ----- The slots a scan chooses -----

  /** The listed slots that match. */
  ghost function Chosen(slots: seq<nat>, matches: nat -> bool): set<nat> {
    if slots == [] then {}
    else
      var last := slots[|slots| - 1];
      Chosen(slots[..|slots| - 1], matches) + if matches(last) then {last} else {}
  }

  lemma {:induction false} ChosenMembers(slots: seq<nat>, matches: nat -> bool)
    ensures forall x :: x in Chosen(slots, matches) <==> x in slots && matches(x)
  {
    if slots != [] {
      ChosenMembers(slots[..|slots| - 1], matches);
    }
  }

  /** Looking at one more slot. */
  lemma ChosenStep(slots: seq<nat>, matches: nat -> bool, i: nat)
    requires i < |slots| && NoDuplicates(slots)
    ensures Chosen(slots[..i + 1], matches) ==
            Chosen(slots[..i], matches) + if matches(slots[i]) then {slots[i]} else {}
    ensures slots[i] !in Chosen(slots[..i], matches)
  {
    assert slots[..i + 1][..i] == slots[..i];
    ChosenMembers(slots[..i], matches);
  }

  lemma ChosenIsTotal(slots: seq<nat>, matches: nat -> bool, compare: (nat, nat) -> int, all: set<nat>, i: nat)
    requires TotalOn(compare, all) && i <= |slots| && forall x | x in slots :: x in all
    ensures Chosen(slots[..i], matches) <= all && TotalOn(compare, Chosen(slots[..i], matches))
  {
    ChosenMembers(slots[..i], matches);
    TotalOnSubset(compare, all, Chosen(slots[..i], matches));
  }

  /** What every access path returns: the exact number of chosen slots and the requested slice of them in
      slot order. */
  ghost predicate IsWindow(window: seq<nat>, totalRows: nat, chosen: set<nat>, compare: (nat, nat) -> int, offset: nat,
                           limit: Option<nat>)
    requires TotalOn(compare, chosen)
  {
    totalRows == |chosen| && window == Slice(Ranked(chosen, compare), offset, limit)
  }

  // ----- Insertion into a leading part -----

  /** `best` is the leading part of `s`, as long as `bound` allows. */
  ghost predicate IsBest(best: seq<nat>, s: set<nat>, compare: (nat, nat) -> int, bound: nat) {
    IsTop(best, s, compare) && |best| == Min(bound, |s|)
  }

  method OrderedSlotIndexInsertionPoint(slots: seq<nat>, slot: nat, compare: (nat, nat) -> int, ghost all: set<nat>)
    returns (low: nat)
    requires TotalOn(compare, all) && Sorted(slots, compare) && slot in all && forall x | x in slots :: x in all
    ensures low <= |slots|
    ensures forall i | 0 <= i < low :: compare(slots[i], slot) <= 0
    ensures forall i | low <= i < |slots| :: compare(slots[i], slot) > 0
  {
    low := 0;
    var high := |slots|;
    while low < high
      invariant 0 <= low <= high <= |slots|
      invariant forall i | 0 <= i < low :: compare(slots[i], slot) <= 0
      invariant forall i | high <= i < |slots| :: compare(slots[i], slot) > 0
    {
      var middle := (low + high) / 2;
      HalfDecided(slots, slot, compare, all, middle);
      if compare(slots[middle], slot) <= 0 {
        low := middle + 1;
      } else {
        high := middle;
      }
    }
  }

  lemma HalfDecided(slots: seq<nat>, slot: nat, compare: (nat, nat) -> int, all: set<nat>, middle: nat)
    requires TotalOn(compare, all) && Sorted(slots, compare) && slot in all && forall x | x in slots :: x in all
    requires middle < |slots|
    ensures compare(slots[middle], slot) <= 0 ==> forall i | 0 <= i <= middle :: compare(slots[i], slot) <= 0
    ensures compare(slots[middle], slot) > 0 ==> forall i | middle <= i < |slots| :: compare(slots[i], slot) > 0
  {
    forall i | 0 <= i < |slots| && i != middle
      ensures i < middle && compare(slots[middle], slot) <= 0 ==> compare(slots[i], slot) <= 0
      ensures i > middle && compare(slots[middle], slot) > 0 ==> compare(slots[i], slot) > 0
    {
      assert slots[i] in all && slots[middle] in all;
      if i < middle && compare(slots[middle], slot) <= 0 {
        Chains(compare, all, slots[i], slots[middle], slot);
      }
      if i > middle && compare(slots[middle], slot) > 0 {
        Chains(compare, all, slot, slots[middle], slots[i]);
      }
    }
  }

  /** A newcomer put in its place keeps a leading part leading, unless it belongs behind an incomplete one. */
  lemma InsertKeepsTop(w: seq<nat>, s: set<nat>, x: nat, p: nat, compare: (nat, nat) -> int)
    requires TotalOn(compare, s + {x}) && IsTop(w, s, compare) && x !in s && p <= |w|
    requires forall i | 0 <= i < p :: compare(w[i], x) <= 0
    requires forall i | p <= i < |w| :: compare(w[i], x) > 0
    requires |w| == |s| || p < |w|
    ensures IsTop(InsertAt(w, p, x), s + {x}, compare)
  {
    InsertKeepsSorted(w, s, x, p, compare);
    InsertAtMembers(w, p, x);
    if |w| == |s| {
      TotalOnSubset(compare, s + {x}, s);
      CompleteTop(w, s, compare);
    } else {
      BeforeRest(w, s, x, compare);
    }
  }

  lemma BeforeRest(w: seq<nat>, s: set<nat>, x: nat, compare: (nat, nat) -> int)
    requires TotalOn(compare, s + {x}) && IsTop(w, s, compare) && w != [] && compare(w[|w| - 1], x) > 0
    ensures forall z | z in s && z !in w :: compare(x, z) < 0
  {
    var last := w[|w| - 1];
    forall z | z in s && z !in w
      ensures compare(x, z) < 0
    {
      assert last in w && compare(x, last) < 0 && compare(last, z) < 0;
      Chains(compare, s + {x}, x, last, z);
    }
  }

  lemma InsertKeepsSorted(w: seq<nat>, s: set<nat>, x: nat, p: nat, compare: (nat, nat) -> int)
    requires TotalOn(compare, s + {x}) && Sorted(w, compare) && x !in s && p <= |w| && forall y | y in w :: y in s
    requires forall i | 0 <= i < p :: compare(w[i], x) <= 0
    requires forall i | p <= i < |w| :: compare(w[i], x) > 0
    ensures Sorted(InsertAt(w, p, x), compare)
  {
    forall i | 0 <= i < |w|
      ensures i < p ==> compare(w[i], x) < 0
      ensures i >= p ==> compare(x, w[i]) < 0
    {
      assert w[i] in s;
    }
  }

  lemma CompleteTop(w: seq<nat>, s: set<nat>, compare: (nat, nat) -> int)
    requires TotalOn(compare, s) && IsTop(w, s, compare) && |w| == |s|
    ensures forall y :: y in w <==> y in s
  {
    TopIsPrefix(w, s, compare);
  }

  lemma PrefixOfTopIsTop(w: seq<nat>, s: set<nat>, compare: (nat, nat) -> int, k: nat)
    requires IsTop(w, s, compare) && k <= |w|
    ensures IsTop(w[..k], s, compare)
  {
    forall x, y | x in w[..k] && y in s && y !in w[..k]
      ensures compare(x, y) < 0
    {
      if y in w {
        var j :| 0 <= j < |w| && w[j] == y;
        assert j >= k;
      }
    }
  }

  /** A newcomer behind the last of a full leading part does not belong to it. */
  lemma WorseStaysOut(w: seq<nat>, s: set<nat>, x: nat, compare: (nat, nat) -> int)
    requires TotalOn(compare, s + {x}) && IsTop(w, s, compare) && x !in s && w != []
    requires compare(x, w[|w| - 1]) >= 0
    ensures IsTop(w, s + {x}, compare)
  {
    var last := w[|w| - 1];
    assert last in w;
    forall y | y in w
      ensures compare(y, x) < 0
    {
      assert y == last || compare(y, last) < 0;
      Chains(compare, s + {x}, y, last, x);
    }
  }

  /** Bounded insertion of one chosen slot. */
  method RetainSorted(windowSlots: seq<nat>, slot: nat, windowEnd: nat, compare: (nat, nat) -> int, ghost s: set<nat>,
                      ghost all: set<nat>)
    returns (retained: seq<nat>)
    requires TotalOn(compare, all) && s <= all && slot in all && slot !in s && windowEnd > 0
    requires IsBest(windowSlots, s, compare, windowEnd)
    ensures IsBest(retained, s + {slot}, compare, windowEnd)
  {
    TotalOnSubset(compare, all, s + {slot});
    if |windowSlots| < windowEnd {
      var insertAt := OrderedSlotIndexInsertionPoint(windowSlots, slot, compare, all);
      InsertKeepsTop(windowSlots, s, slot, insertAt, compare);
      return InsertAt(windowSlots, insertAt, slot);
    }
    var worstSlot := windowSlots[|windowSlots| - 1];
    if compare(slot, worstSlot) < 0 {
      var insertAt := OrderedSlotIndexInsertionPoint(windowSlots, slot, compare, all);
      InsertKeepsTop(windowSlots, s, slot, insertAt, compare);
      PrefixOfTopIsTop(InsertAt(windowSlots, insertAt, slot), s + {slot}, compare, windowEnd);
      return InsertAt(windowSlots, insertAt, slot)[..windowEnd];
    }
    WorseStaysOut(windowSlots, s, slot, compare);
    return windowSlots;
  }

  method ScanBoundedSorted(slots: seq<nat>, matches: nat -> bool, compare: (nat, nat) -> int, offset: nat, limit: nat,
                           ghost all: set<nat>)
    returns (window: seq<nat>, totalRows: nat)
    requires TotalOn(compare, all) && NoDuplicates(slots) && (forall x | x in slots :: x in all) && limit > 0
    ensures TotalOn(compare, Chosen(slots, matches))
    ensures IsWindow(window, totalRows, Chosen(slots, matches), compare, offset, Some(limit))
  {
    hide TotalOn;
    var windowEnd := offset + limit;
    totalRows := 0;
    var windowSlots: seq<nat> := [];
    for i := 0 to |slots|
      invariant IsBest(windowSlots, Chosen(slots[..i], matches), compare, windowEnd)
      invariant totalRows == |Chosen(slots[..i], matches)|
    {
      ChosenStep(slots, matches, i);
      if matches(slots[i]) {
        totalRows := totalRows + 1;
        ChosenIsTotal(slots, matches, compare, all, i);
        windowSlots := RetainSorted(windowSlots, slots[i], windowEnd, compare, Chosen(slots[..i], matches), all);
      }
    }
    assert slots[..|slots|] == slots;
    ChosenIsTotal(slots, matches, compare, all, |slots|);
    BestIsWindow(windowSlots, Chosen(slots, matches), compare, offset, limit);
    window := Slice(windowSlots, offset, None);
  }

  lemma BestIsWindow(best: seq<nat>, s: set<nat>, compare: (nat, nat) -> int, offset: nat, limit: nat)
    requires TotalOn(compare, s) && IsBest(best, s, compare, offset + limit)
    ensures Slice(best, offset, None) == Slice(Ranked(s, compare), offset, Some(limit))
  {
    TopIsPrefix(best, s, compare);
    var r := Ranked(s, compare);
    SliceOfPrefix(r, |best|, offset, limit);
    assert Slice(r[..|best|], offset, Some(limit)) == Slice(best, offset, None);
  }

  // ----- Filtering, then sorting everything -----

  function Filtered(slots: seq<nat>, matches: nat -> bool): seq<nat> {
    if slots == [] then []
    else
      var last := slots[|slots| - 1];
      Filtered(slots[..|slots| - 1], matches) + if matches(last) then [last] else []
  }

  lemma {:induction false} FilteredListsChosen(slots: seq<nat>, matches: nat -> bool)
    requires NoDuplicates(slots)
    ensures forall x :: x in Filtered(slots, matches) <==> x in Chosen(slots, matches)
    ensures NoDuplicates(Filtered(slots, matches)) && |Filtered(slots, matches)| == |Chosen(slots, matches)|
  {
    if slots != [] {
      var front := slots[..|slots| - 1];
      FilteredListsChosen(front, matches);
      ChosenMembers(front, matches);
    }
  }

  method ScanSorted(slots: seq<nat>, matches: nat -> bool, compare: (nat, nat) -> int, offset: nat, limit: Option<nat>,
                    ghost all: set<nat>)
    returns (window: seq<nat>, totalRows: nat)
    requires TotalOn(compare, all) && NoDuplicates(slots) && forall x | x in slots :: x in all
    ensures TotalOn(compare, Chosen(slots, matches))
    ensures IsWindow(window, totalRows, Chosen(slots, matches), compare, offset, limit)
  {
    totalRows := 0;
    var filteredSlots: seq<nat> := [];
    for i := 0 to |slots|
      invariant filteredSlots == Filtered(slots[..i], matches) && totalRows == |filteredSlots|
    {
      assert slots[..i + 1][..i] == slots[..i];
      if matches(slots[i]) {
        totalRows := totalRows + 1;
        filteredSlots := filteredSlots + [slots[i]];
      }
    }
    assert slots[..|slots|] == slots;
    ChosenIsTotal(slots, matches, compare, all, |slots|);
    FilteredListsChosen(slots, matches);
    SortByRanks(filteredSlots, Chosen(slots, matches), compare);
    window := Slice(SortBy(filteredSlots, compare), offset, limit);
  }

  // ----- Reading slots that are listed in order -----

  lemma {:induction false} FilteredKeepsOrder(slots: seq<nat>, matches: nat -> bool, compare: (nat, nat) -> int)
    requires Sorted(slots, compare)
    ensures Sorted(Filtered(slots, matches), compare)
    ensures forall x | x in Filtered(slots, matches) :: x in slots
  {
    if slots != [] {
      var front, last := slots[..|slots| - 1], slots[|slots| - 1];
      FilteredKeepsOrder(front, matches, compare);
      forall x | x in front
        ensures compare(x, last) < 0
      {
        var i :| 0 <= i < |front| && front[i] == x;
        assert slots[i] == x;
      }
      assert forall x | x in front :: x in slots;
    }
  }

  /** Counts every match of a sorted listing and keeps those inside the window. */
  method ScanOrdered(slots: seq<nat>, matches: nat -> bool, offset: nat, limit: nat, ghost compare: (nat, nat) -> int,
                     ghost all: set<nat>)
    returns (window: seq<nat>, totalRows: nat)
    requires TotalOn(compare, all) && Sorted(slots, compare) && forall x | x in slots :: x in all
    ensures TotalOn(compare, Chosen(slots, matches))
    ensures IsWindow(window, totalRows, Chosen(slots, matches), compare, offset, Some(limit))
  {
    hide TotalOn, Sorted, Chosen;
    var windowEnd := offset + limit;
    totalRows := 0;
    window := [];
    for i := 0 to |slots|
      invariant totalRows == |Filtered(slots[..i], matches)|
      invariant window == Slice(Filtered(slots[..i], matches), offset, Some(limit))
    {
      assert slots[..i + 1][..i] == slots[..i];
      var slot := slots[i];
      if matches(slot) {
        SliceGrows(Filtered(slots[..i], matches), slot, offset, limit);
        var matchIndex := totalRows;
        totalRows := totalRows + 1;
        if offset <= matchIndex < windowEnd {
          window := window + [slot];
        }
      }
    }
    assert slots[..|slots|] == slots;
    ChosenIsTotal(slots, matches, compare, all, |slots|);
    FilteredIsRanked(slots, matches, compare, all);
  }

  lemma FilteredIsRanked(slots: seq<nat>, matches: nat -> bool, compare: (nat, nat) -> int, all: set<nat>)
    requires TotalOn(compare, all) && Sorted(slots, compare) && forall x | x in slots :: x in all
    requires TotalOn(compare, Chosen(slots, matches))
    ensures Filtered(slots, matches) == Ranked(Chosen(slots, matches), compare)
  {
    SortedHasNoDuplicates(slots, all, compare);
    FilteredListsChosen(slots, matches);
    FilteredKeepsOrder(slots, matches, compare);
    SortedListingIsRanked(Filtered(slots, matches), Chosen(slots, matches), compare);
  }

  lemma SliceGrows(es: seq<nat>, x: nat, offset: nat, limit: nat)
    ensures Slice(es + [x], offset, Some(limit)) ==
            Slice(es, offset, Some(limit)) + if offset <= |es| < offset + limit then [x] else []
  {
  }

  // ----- The bounded heap -----

  /** No slot comes after its parent: the worst slot is at the root. */
  ghost predicate IsHeap(heap: seq<nat>, compare: (nat, nat) -> int) {
    forall i | 0 < i < |heap| :: ParentIsWorse(heap, i, compare)
  }

  ghost predicate ParentIsWorse(heap: seq<nat>, i: nat, compare: (nat, nat) -> int)
    requires 0 < i < |heap|
  {
    compare(heap[Parent(i)], heap[i]) >= 0
  }

  function Parent(i: nat): nat
    requires i > 0
  {
    (i - 1) / 2
  }

  ghost predicate SameMembers(a: seq<nat>, b: seq<nat>) {
    |a| == |b| && NoDuplicates(a) && NoDuplicates(b) && forall x :: x in a <==> x in b
  }

  function Swapped<T>(heap: seq<T>, i: nat, j: nat): seq<T>
    requires i < |heap| && j < |heap|
  {
    heap[i := heap[j]][j := heap[i]]
  }

  lemma SwapKeepsMembers(heap: seq<nat>, i: nat, j: nat)
    requires NoDuplicates(heap) && i < |heap| && j < |heap|
    ensures SameMembers(heap, Swapped(heap, i, j))
  {
    var r := Swapped(heap, i, j);
    forall x | x in heap
      ensures x in r
    {
      var k :| 0 <= k < |heap| && heap[k] == x;
      assert r[if k == i then j else if k == j then i else k] == x;
    }
  }

  method SwapHeapSlots(heap: array<nat>, size: nat, left: nat, right: nat)
    requires left < size <= heap.Length && right < size
    modifies heap
    ensures heap[..size] == Swapped(old(heap[..size]), left, right)
  {
    var value := heap[left];
    heap[left] := heap[right];
    heap[right] := value;
  }

  /** A heap but for the slot at `index`, which may be worse than its parent. */
  ghost predicate IsHeapBelow(heap: seq<nat>, index: nat, compare: (nat, nat) -> int) {
    && (forall i | 0 < i < |heap| && i != index :: ParentIsWorse(heap, i, compare))
    && (forall i | 0 < i < |heap| && Parent(i) == index && 0 < index < |heap| ::
      compare(heap[Parent(index)], heap[i]) >= 0)
  }

  /** A heap but for the slot at `index`, which may be better than its children. */
  ghost predicate IsHeapAround(heap: seq<nat>, index: nat, compare: (nat, nat) -> int) {
    && (forall i | 0 < i < |heap| && Parent(i) != index :: ParentIsWorse(heap, i, compare))
    && (forall i | 0 < i < |heap| && Parent(i) == index && 0 < index < |heap| ::
      compare(heap[Parent(index)], heap[i]) >= 0)
  }

  lemma SiftUpStep(heap: seq<nat>, current: nat, compare: (nat, nat) -> int, all: set<nat>)
    requires TotalOn(compare, all) && (forall x | x in heap :: x in all)
    requires 0 < current < |heap| && IsHeapBelow(heap, current, compare)
    requires compare(heap[Parent(current)], heap[current]) < 0
    ensures IsHeapBelow(Swapped(heap, Parent(current), current), Parent(current), compare)
  {
    var parent := Parent(current);
    var r := Swapped(heap, parent, current);
    forall i | 0 < i < |heap| && i != parent
      ensures ParentIsWorse(r, i, compare)
    {
      assert heap[i] in all && heap[parent] in all && heap[current] in all;
      assert i != current ==> ParentIsWorse(heap, i, compare);
      if Parent(i) == parent && i != current {
        Chains(compare, all, heap[i], heap[parent], heap[current]);
      }
    }
    forall i | 0 < i < |heap| && Parent(i) == parent && 0 < parent
      ensures compare(r[Parent(parent)], r[i]) >= 0
    {
      assert heap[i] in all && heap[parent] in all && heap[Parent(parent)] in all;
      assert ParentIsWorse(heap, parent, compare);
      if i != current {
        assert ParentIsWorse(heap, i, compare);
        Chains(compare, all, heap[i], heap[parent], heap[Parent(parent)]);
      }
    }
  }

  method SiftUp(heap: array<nat>, size: nat, index: nat, compare: (nat, nat) -> int, ghost all: set<nat>)
    requires index < size <= heap.Length && TotalOn(compare, all)
    requires NoDuplicates(heap[..size]) && forall x | x in heap[..size] :: x in all
    requires IsHeapBelow(heap[..size], index, compare)
    modifies heap
    ensures IsHeap(heap[..size], compare) && SameMembers(old(heap[..size]), heap[..size])
  {
    var current: nat := index;
    while current > 0
      invariant current < size
      invariant IsHeapBelow(heap[..size], current, compare) && SameMembers(old(heap[..size]), heap[..size])
    {
      var parent := (current - 1) / 2;
      if compare(heap[parent], heap[current]) >= 0 {
        assert ParentIsWorse(heap[..size], current, compare);
        return;
      }
      SiftUpStep(heap[..size], current, compare, all);
      SwapKeepsMembers(heap[..size], parent, current);
      SwapHeapSlots(heap, size, parent, current);
      current := parent;
    }
  }

  lemma SiftDownStep(heap: seq<nat>, current: nat, largest: nat, compare: (nat, nat) -> int, all: set<nat>)
    requires TotalOn(compare, all) && (forall x | x in heap :: x in all)
    requires current < largest < |heap| && Parent(largest) == current && IsHeapAround(heap, current, compare)
    requires forall i | 0 < i < |heap| && Parent(i) == current :: compare(heap[largest], heap[i]) >= 0
    requires compare(heap[largest], heap[current]) >= 0
    ensures IsHeapAround(Swapped(heap, current, largest), largest, compare)
  {
    var r := Swapped(heap, current, largest);
    forall i | 0 < i < |heap| && Parent(i) != largest
      ensures ParentIsWorse(r, i, compare)
    {
      assert Parent(i) != current ==> ParentIsWorse(heap, i, compare);
    }
    forall i | 0 < i < |heap| && Parent(i) == largest
      ensures compare(r[Parent(largest)], r[i]) >= 0
    {
      assert ParentIsWorse(heap, i, compare);
    }
  }

  method SiftDown(heap: array<nat>, size: nat, index: nat, compare: (nat, nat) -> int, ghost all: set<nat>)
    requires index < size <= heap.Length && TotalOn(compare, all)
    requires NoDuplicates(heap[..size]) && forall x | x in heap[..size] :: x in all
    requires IsHeapAround(heap[..size], index, compare)
    modifies heap
    ensures IsHeap(heap[..size], compare) && SameMembers(old(heap[..size]), heap[..size])
  {
    var current: nat := index;
    while true
      invariant current < size
      invariant IsHeapAround(heap[..size], current, compare) && SameMembers(old(heap[..size]), heap[..size])
      decreases size - current
    {
      var largest := LargestOf(heap[..size], current, compare, all);
      if largest == current {
        assert forall i | 0 < i < size && Parent(i) == current :: ParentIsWorse(heap[..size], i, compare);
        return;
      }
      SiftDownStep(heap[..size], current, largest, compare, all);
      SwapKeepsMembers(heap[..size], current, largest);
      SwapHeapSlots(heap, size, current, largest);
      current := largest;
    }
  }

  /** The worst of a slot and its children. */
  function LargestOf(heap: seq<nat>, current: nat, compare: (nat, nat) -> int, ghost all: set<nat>): (largest: nat)
    requires current < |heap| && TotalOn(compare, all) && forall x | x in heap :: x in all
    ensures largest < |heap| && (largest == current || (largest > current && Parent(largest) == current))
    ensures compare(heap[largest], heap[current]) >= 0
    ensures forall i | 0 < i < |heap| && Parent(i) == current :: compare(heap[largest], heap[i]) >= 0
  {
    var left := current * 2 + 1;
    var right := left + 1;
    var larger := if left < |heap| && compare(heap[left], heap[current]) > 0 then left else current;
    var largest := if right < |heap| && compare(heap[right], heap[larger]) > 0 then right else larger;
    assert heap[current] in all && (left < |heap| ==> heap[left] in all) && (right < |heap| ==> heap[right] in all);
    assert right < |heap| ==>
      Chain(heap[left], heap[larger], heap[right]) && Chain(heap[current], heap[larger], heap[right]);
    assert forall i | i > 0 && Parent(i) == current :: i == left || i == right;
    largest
  }

  lemma {:induction false} RootIsWorst(heap: seq<nat>, compare: (nat, nat) -> int, all: set<nat>, i: nat)
    requires TotalOn(compare, all) && (forall x | x in heap :: x in all) && IsHeap(heap, compare) && i < |heap|
    ensures compare(heap[0], heap[i]) >= 0
    decreases i
  {
    if i == 0 {
      assert heap[0] in all;
    } else {
      RootIsWorst(heap, compare, all, Parent(i));
      assert ParentIsWorse(heap, i, compare);
      assert heap[0] in all && heap[i] in all && heap[Parent(i)] in all;
      Chains(compare, all, heap[i], heap[Parent(i)], heap[0]);
    }
  }

  /** `kept` holds, in any order, the best members of `s`, as many as `bound` allows. */
  ghost predicate HoldsBest(kept: seq<nat>, s: set<nat>, compare: (nat, nat) -> int, bound: nat) {
    && NoDuplicates(kept) && |kept| == Min(bound, |s|)
    && (forall x | x in kept :: x in s)
    && (forall x, y | x in kept && y in s && y !in kept :: compare(x, y) < 0)
  }

  lemma MembersHoldBest(a: seq<nat>, b: seq<nat>, s: set<nat>, compare: (nat, nat) -> int, bound: nat)
    requires SameMembers(a, b) && HoldsBest(a, s, compare, bound)
    ensures HoldsBest(b, s, compare, bound)
  {
  }

  lemma AppendHoldsBest(kept: seq<nat>, s: set<nat>, x: nat, compare: (nat, nat) -> int, bound: nat)
    requires HoldsBest(kept, s, compare, bound) && |kept| < bound && x !in s
    ensures HoldsBest(kept + [x], s + {x}, compare, bound)
  {
    NoDuplicatesCount(kept);
    assert Elements(kept) <= s;
    SubsetOfSameSize(Elements(kept), s);
    assert forall y :: y in kept + [x] <==> y in kept || y == x;
  }

  lemma SubsetOfSameSize(a: set<nat>, b: set<nat>)
    requires a <= b && |a| == |b|
    ensures a == b
  {
    assert |b - a| == 0;
  }

  lemma ReplaceRootHoldsBest(kept: seq<nat>, s: set<nat>, x: nat, compare: (nat, nat) -> int, bound: nat)
    requires HoldsBest(kept, s, compare, bound) && |kept| == bound > 0 && x !in s && TotalOn(compare, s + {x})
    requires (forall i | 0 <= i < |kept| :: compare(kept[0], kept[i]) >= 0) && compare(x, kept[0]) < 0
    ensures HoldsBest(kept[0 := x], s + {x}, compare, bound)
  {
    var root := kept[0];
    assert root in kept;
    ReplaceHeadMembers(kept, x);
    forall y | y in kept && y != root
      ensures compare(y, root) < 0
    {
      var i :| 0 <= i < |kept| && kept[i] == y;
      assert compare(kept[0], kept[i]) >= 0;
    }
    forall z | z in s && z !in kept
      ensures compare(x, z) < 0
    {
      Chains(compare, s + {x}, x, root, z);
    }
  }

  lemma ReplaceHeadMembers(kept: seq<nat>, x: nat)
    requires NoDuplicates(kept) && kept != [] && x !in kept
    ensures forall z :: z in kept[0 := x] <==> z == x || (z in kept && z != kept[0])
  {
    assert kept[0 := x] == [x] + kept[1..] && kept == [kept[0]] + kept[1..];
  }

  lemma WorseIsNotBest(kept: seq<nat>, s: set<nat>, x: nat, compare: (nat, nat) -> int, bound: nat)
    requires HoldsBest(kept, s, compare, bound) && |kept| == bound > 0 && x !in s && TotalOn(compare, s + {x})
    requires (forall i | 0 <= i < |kept| :: compare(kept[0], kept[i]) >= 0) && compare(x, kept[0]) >= 0
    ensures HoldsBest(kept, s + {x}, compare, bound)
  {
    forall y | y in kept
      ensures compare(y, x) < 0
    {
      assert kept[0] in kept;
      Chains(compare, s + {x}, y, kept[0], x);
    }
  }

  method RetainBoundedSlot(heap: array<nat>, size: nat, slot: nat, windowEnd: nat, compare: (nat, nat) -> int,
                           ghost s: set<nat>, ghost all: set<nat>)
    returns (size': nat)
    requires size <= heap.Length == windowEnd && windowEnd > 0
    requires TotalOn(compare, all) && s <= all && slot in all && slot !in s
    requires IsHeap(heap[..size], compare) && HoldsBest(heap[..size], s, compare, windowEnd)
    modifies heap
    ensures size' <= windowEnd
    ensures IsHeap(heap[..size'], compare) && HoldsBest(heap[..size'], s + {slot}, compare, windowEnd)
  {
    TotalOnSubset(compare, all, s + {slot});
    ghost var kept := heap[..size];
    if size < windowEnd {
      heap[size] := slot;
      size' := size + 1;
      assert heap[..size'] == kept + [slot];
      AppendHoldsBest(kept, s, slot, compare, windowEnd);
      AppendIsHeapBelow(kept, slot, compare);
      SiftUp(heap, size', size, compare, s + {slot});
      MembersHoldBest(kept + [slot], heap[..size'], s + {slot}, compare, windowEnd);
      return;
    }
    size' := size;
    forall i | 0 <= i < |kept|
      ensures compare(kept[0], kept[i]) >= 0
    {
      RootIsWorst(kept, compare, s + {slot}, i);
    }
    if compare(slot, heap[0]) >= 0 {
      WorseIsNotBest(kept, s, slot, compare, windowEnd);
      return;
    }
    heap[0] := slot;
    assert heap[..size] == kept[0 := slot];
    ReplaceRootHoldsBest(kept, s, slot, compare, windowEnd);
    ReplaceRootIsHeapAround(kept, slot, compare);
    SiftDown(heap, size, 0, compare, s + {slot});
    MembersHoldBest(kept[0 := slot], heap[..size], s + {slot}, compare, windowEnd);
  }

  lemma AppendIsHeapBelow(heap: seq<nat>, x: nat, compare: (nat, nat) -> int)
    requires IsHeap(heap, compare)
    ensures IsHeapBelow(heap + [x], |heap|, compare)
  {
    forall i | 0 < i < |heap|
      ensures ParentIsWorse(heap + [x], i, compare)
    {
      assert ParentIsWorse(heap, i, compare);
    }
  }

  lemma ReplaceRootIsHeapAround(heap: seq<nat>, x: nat, compare: (nat, nat) -> int)
    requires IsHeap(heap, compare) && heap != []
    ensures IsHeapAround(heap[0 := x], 0, compare)
  {
    forall i | 0 < i < |heap| && Parent(i) != 0
      ensures ParentIsWorse(heap[0 := x], i, compare)
    {
      assert ParentIsWorse(heap, i, compare);
    }
  }

  method ScanBoundedHeap(slots: seq<nat>, matches: nat -> bool, compare: (nat, nat) -> int, offset: nat, limit: nat,
                         ghost all: set<nat>)
    returns (window: seq<nat>, totalRows: nat)
    requires TotalOn(compare, all) && NoDuplicates(slots) && (forall x | x in slots :: x in all) && limit > 0
    ensures TotalOn(compare, Chosen(slots, matches))
    ensures IsWindow(window, totalRows, Chosen(slots, matches), compare, offset, Some(limit))
  {
    var windowEnd := offset + limit;
    totalRows := 0;
    var heap := new nat[windowEnd];
    var size: nat := 0;
    for i := 0 to |slots|
      invariant size <= windowEnd && IsHeap(heap[..size], compare)
      invariant HoldsBest(heap[..size], Chosen(slots[..i], matches), compare, windowEnd)
      invariant totalRows == |Chosen(slots[..i], matches)|
    {
      ChosenStep(slots, matches, i);
      if matches(slots[i]) {
        totalRows := totalRows + 1;
        ChosenIsTotal(slots, matches, compare, all, i);
        size := RetainBoundedSlot(heap, size, slots[i], windowEnd, compare, Chosen(slots[..i], matches), all);
      }
    }
    assert slots[..|slots|] == slots;
    ChosenIsTotal(slots, matches, compare, all, |slots|);
    var best := SortBy(heap[..size], compare);
    BestSortedIsBest(heap[..size], Chosen(slots, matches), compare, windowEnd);
    BestIsWindow(best, Chosen(slots, matches), compare, offset, limit);
    window := Slice(best, offset, None);
  }

  lemma BestSortedIsBest(kept: seq<nat>, s: set<nat>, compare: (nat, nat) -> int, bound: nat)
    requires TotalOn(compare, s) && HoldsBest(kept, s, compare, bound)
    ensures IsBest(SortBy(kept, compare), s, compare, bound)
  {
    TotalOnSubset(compare, s, Elements(kept));
    SortByRanks(kept, Elements(kept), compare);
    NoDuplicatesCount(kept);
  }
}
