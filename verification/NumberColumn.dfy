/** The column of a numeric field: numbers in an array that doubles, with a validity mark for each slot. */
module NumberColumn {
  import opened Values

  const INITIAL_CAPACITY: nat := 16

  /** A column that was written past its end holds nothing in the slots it skipped. */
  function Padded(contents: seq<Option<Rational>>, length: nat): seq<Option<Rational>> {
    if length <= |contents| then contents else contents + seq(length - |contents|, i => None)
  }

  function NumberOf(value: Value): Option<Rational> {
    if value.Number? then Some(value.n) else None
  }

  function SlotOf(contents: seq<Option<Rational>>, slot: int): Option<Rational> {
    if 0 <= slot < |contents| then contents[slot] else None
  }

  class NumberTopicColumn {
    var values: array<Rational>
    var validity: array<bool>
    var lengthValue: nat

    /** Both arrays have one capacity, and past the end no slot is valid. */
    ghost predicate Valid()
      reads this, validity
    {
      && validity.Length == values.Length && lengthValue <= values.Length
      && forall i | lengthValue <= i < validity.Length :: !validity[i]
    }

    /** The column as a sequence of optional numbers. */
    ghost function Contents(): (contents: seq<Option<Rational>>)
      requires Valid()
      reads this, values, validity
    {
      seq(lengthValue, i requires 0 <= i < lengthValue && Valid() reads this, values, validity =>
        if validity[i] then Some(values[i]) else None)
    }

    constructor ()
      ensures Valid() && Contents() == [] && fresh(values) && fresh(validity)
    {
      values, validity, lengthValue := new Rational[0], new bool[0], 0;
    }

    method NumberAt(slot: int) returns (number: Option<Rational>)
      requires Valid()
      ensures number == SlotOf(Contents(), slot)
    {
      if slot < 0 || slot >= lengthValue || !validity[slot] {
        return None;
      }
      return Some(values[slot]);
    }

    /** A slot past the end lengthens the column; what is not a number leaves its slot empty. */
    method Set(slot: nat, value: Value)
      requires Valid()
      modifies this, values, validity
      ensures Valid() && (values == old(values) || fresh(values)) && (validity == old(validity) || fresh(validity))
      ensures Contents() == Padded(old(Contents()), slot + 1)[slot := NumberOf(value)]
    {
      EnsureCapacity(slot + 1);
      if slot >= lengthValue {
        lengthValue := slot + 1;
      }
      if value.Number? {
        values[slot], validity[slot] := value.n, true;
      } else {
        values[slot], validity[slot] := RationalZero(), false;
      }
    }

    /** A slot beyond the source's end is copied as an empty one. */
    method CopySlot(targetSlot: nat, sourceSlot: nat)
      requires Valid()
      modifies this, values, validity
      ensures Valid() && (values == old(values) || fresh(values)) && (validity == old(validity) || fresh(validity))
      ensures Contents() == Padded(old(Contents()), targetSlot + 1)[targetSlot := SlotOf(old(Contents()), sourceSlot)]
    {
      EnsureCapacity(targetSlot + 1);
      if targetSlot >= lengthValue {
        lengthValue := targetSlot + 1;
      }
      values[targetSlot] := if sourceSlot < values.Length then values[sourceSlot] else RationalZero();
      validity[targetSlot] := sourceSlot < validity.Length && validity[sourceSlot];
    }

    method Pop()
      requires Valid()
      modifies this`lengthValue, values, validity
      ensures Valid()
      ensures Contents() == if old(lengthValue) == 0 then [] else old(Contents())[..old(lengthValue) - 1]
    {
      if lengthValue == 0 {
        return;
      }
      lengthValue := lengthValue - 1;
      values[lengthValue], validity[lengthValue] := RationalZero(), false;
    }

    method Clear()
      modifies this
      ensures Valid() && Contents() == [] && fresh(values) && fresh(validity)
    {
      values, validity, lengthValue := new Rational[0], new bool[0], 0;
    }

    /** Makes room and keeps what the column holds. */
    method EnsureCapacity(minimumCapacity: nat)
      requires Valid()
      modifies this`values, this`validity
      ensures Valid() && values.Length >= minimumCapacity && Contents() == old(Contents())
      ensures (values == old(values) || fresh(values)) && (validity == old(validity) || fresh(validity))
    {
      if minimumCapacity <= values.Length {
        return;
      }
      var nextCapacity := if values.Length * 2 > INITIAL_CAPACITY then values.Length * 2 else INITIAL_CAPACITY;
      while nextCapacity < minimumCapacity
        invariant nextCapacity > values.Length && nextCapacity > 0
        decreases minimumCapacity - nextCapacity
      {
        nextCapacity := nextCapacity * 2;
      }
      var nextValues := new Rational[nextCapacity](i => RationalZero());
      var nextValidity := new bool[nextCapacity](i => false);
      forall i | 0 <= i < values.Length {
        nextValues[i] := values[i];
      }
      forall i | 0 <= i < validity.Length {
        nextValidity[i] := validity[i];
      }
      values, validity := nextValues, nextValidity;
    }
  }

  // ----- Columns of a store -----

  function NumbersOf(column: seq<Value>): seq<Option<Rational>> {
    seq(|column|, i requires 0 <= i < |column| => NumberOf(column[i]))
  }

  /** Copying the last slot over another and popping it deletes that slot as the store does, and writing one
      past the end appends. */
  lemma NumbersFollowTheSlots(column: seq<Value>, slot: nat, value: Value)
    requires slot < |column|
    ensures
      var numbers, last := NumbersOf(column), |column| - 1;
      && Padded(numbers, slot + 1)[slot := SlotOf(numbers, last)][..last] ==
        NumbersOf(column[slot := column[last]][..last])
      && Padded(numbers, |column| + 1)[|column| := NumberOf(value)] == NumbersOf(column + [value])
      && Padded(numbers, slot + 1)[slot := NumberOf(value)] == NumbersOf(column[slot := value])
  {
  }

  /** Writes a slot of the store, or the one past its end. */
  method WriteSlot(column: NumberTopicColumn, slot: nat, value: Value, ghost values: seq<Value>)
    requires column.Valid() && column.Contents() == NumbersOf(values) && slot <= |values|
    modifies column, column.values, column.validity
    ensures column.Valid()
    ensures column.Contents() == NumbersOf(if slot < |values| then values[slot := value] else values + [value])
  {
    if slot < |values| {
      NumbersFollowTheSlots(values, slot, value);
    } else {
      assert Padded(NumbersOf(values), slot + 1)[slot := NumberOf(value)] == NumbersOf(values + [value]);
    }
    column.Set(slot, value);
  }

  /** Deletes a slot as the store does: the last slot is copied over it and popped. */
  method DeleteSlot(column: NumberTopicColumn, slot: nat, lastSlot: nat, ghost values: seq<Value>)
    requires column.Valid() && column.Contents() == NumbersOf(values) && slot <= lastSlot == |values| - 1
    modifies column, column.values, column.validity
    ensures column.Valid() && column.Contents() == NumbersOf(values[slot := values[lastSlot]][..lastSlot])
  {
    NumbersFollowTheSlots(values, slot, values[lastSlot]);
    if slot != lastSlot {
      column.CopySlot(slot, lastSlot);
    }
    column.Pop();
  }
}
