/**
 * The ordered slots of a mask (SlotsList.java). The list links its slots both ways and keeps
 * its size and its first and last slot; here that is one sequence, and a slot is addressed by
 * its index in it. The value changes of Slot.java, which walk along those links, are methods of
 * the list too: each one is proved to produce the chain its specification function in `Slots`
 * describes.
 */
module SlotLists {
  import opened Wrappers
  import opened Slots
  import SlotProperties

  class SlotsList {
    var slots: seq<Slot>

    /** `new SlotsList()` */
    constructor Empty()
      ensures slots == []
    {
      slots := [];
    }

    /** `ofArray(slots)`: links copies of the array's slots in their order. */
    constructor OfArray(a: array<Slot>)
      ensures slots == a[..]
    {
      var linked: seq<Slot> := [];
      for i := 0 to a.Length
        invariant linked == a[..i]
      {
        linked := linked + [Copy(a[i])];
      }
      slots := linked;
    }

    /** The copy constructor `new SlotsList(list)`: a copy of every slot, in order. */
    constructor CopyOf(list: SlotsList)
      ensures slots == list.slots
    {
      var copied: seq<Slot> := [];
      for i := 0 to |list.slots|
        invariant copied == list.slots[..i]
      {
        copied := copied + [Copy(list.slots[i])];
      }
      slots := copied;
    }

    function Size(): nat
      reads this
    {
      |slots|
    }

    predicate IsEmpty()
      reads this
    {
      |slots| == 0
    }

    /** `checkIsIndex(position)` */
    predicate CheckIsIndex(position: int)
      reads this
    {
      0 <= position < |slots|
    }

    /**
     * `getSlot(index)`: None outside the list; otherwise the slot, reached by walking from the
     * nearer end of the list. The list is a sequence here, so the two loops only stand for
     * that walk: they count the steps from the head or from the tail to the position reached.
     */
    method GetSlot(index: int) returns (r: Option<Slot>)
      ensures r.Some? <==> 0 <= index < |slots|
      ensures r.Some? ==> r.value == slots[index]
    {
      if !CheckIsIndex(index) {
        return None;
      }
      var size := |slots|;
      var at: int;
      if index < size / 2 {
        at := 0;
        for i := 0 to index
          invariant at == i
        {
          at := at + 1;
        }
      } else {
        at := size - 1;
        var i := size - 1;
        while i > index
          invariant index <= i <= size - 1 && at == i
        {
          at := at - 1;
          i := i - 1;
        }
      }
      r := Some(slots[at]);
    }

    /**
     * `insertSlotAt(position, slot)`: a copy of `slot` goes to `position`, which may be the
     * size of the list (the tail); any other position is an IndexOutOfBoundsException.
     */
    method InsertSlotAt(position: int, slot: Slot) returns (r: Result<Slot>)
      modifies this
      ensures r.Failure? <==> !(0 <= position <= old(|slots|))
      ensures r.Failure? ==> r.error == IndexOutOfBounds && slots == old(slots)
      ensures r.Success? ==> r.value == slot
      ensures r.Success? ==> slots == old(slots)[..position] + [slot] + old(slots)[position..]
    {
      if position < 0 || |slots| < position {
        return Failure(IndexOutOfBounds);
      }
      var toInsert := Copy(slot);
      slots := slots[..position] + [toInsert] + slots[position..];
      r := Success(toInsert);
    }

    /** `removeSlotAt(position)`: unlinks the slot at an index of the list and returns it. */
    method RemoveSlotAt(position: int) returns (r: Result<Slot>)
      modifies this
      ensures r.Failure? <==> !(0 <= position < old(|slots|))
      ensures r.Failure? ==> r.error == IndexOutOfBounds && slots == old(slots)
      ensures r.Success? ==> r.value == old(slots)[position]
      ensures r.Success? ==> slots == old(slots)[..position] + old(slots)[position + 1..]
    {
      if !CheckIsIndex(position) {
        return Failure(IndexOutOfBounds);
      }
      r := Success(slots[position]);
      slots := slots[..position] + slots[position + 1..];
    }

    /**
     * `add(slot)`: appends a copy; it reports whether the inserted slot is `slot` itself, which a
     * copy never is.
     */
    method Add(slot: Slot) returns (added: bool)
      modifies this
      ensures !added && slots == old(slots) + [slot]
    {
      var r := InsertSlotAt(|slots|, slot);
      added := false;
    }

    /**
     * `equals(obj)`: the same list, or lists of one size whose slots are pairwise equal. Two
     * distinct empty lists make the list iterator refuse its null first slot.
     */
    method Equals(other: SlotsList) returns (r: Result<bool>)
      ensures this == other ==> r == Success(true)
      ensures this != other && |slots| != |other.slots| ==> r == Success(false)
      ensures this != other && |slots| == |other.slots| == 0 ==> r == Failure(IllegalArgument)
      ensures this != other && |slots| == |other.slots| > 0 ==>
        r == Success(forall k :: 0 <= k < |slots| ==> SlotEquals(slots[k], other.slots[k]))
    {
      if this == other {
        return Success(true);
      }
      if |other.slots| != |slots| {
        return Success(false);
      }
      if |slots| == 0 {
        return Failure(IllegalArgument);
      }
      var i := 0;
      while i < |slots|
        invariant 0 <= i <= |slots|
        invariant forall k :: 0 <= k < i ==> SlotEquals(slots[k], other.slots[k])
      {
        if !SlotEquals(slots[i], other.slots[i]) {
          return Success(false);
        }
        i := i + 1;
      }
      r := Success(true);
    }

    /**
     * `clear()`: deletes the value of every slot from the tail to the head, so that no slot
     * pulls a value that is still to be deleted.
     */
    method Clear()
      modifies this
      ensures slots == SlotProperties.Cleared(old(slots))
    {
      ghost var s0 := slots;
      var i := |slots|;
      while i > 0
        invariant 0 <= i <= |slots| == |s0|
        invariant ValuesOnlyChanged(s0, slots) && HardcodedKept(s0, slots)
        invariant forall k :: 0 <= k < |s0| ==> (Hardcoded(slots[k]) <==> Hardcoded(s0[k]))
        invariant forall k :: i <= k < |s0| && !Hardcoded(s0[k]) ==> slots[k].value.None?
      {
        i := i - 1;
        SlotProperties.ClearStep(slots, i);
        ghost var before := slots;
        var _ := SetValue(i, None, false);
        assert slots == Slots.RemoveCurrentValue(before, i);
      }
      assert slots == SlotProperties.Cleared(s0);
    }

    /** `withTags(tag)` on the slot at `i`. */
    method WithTagAt(i: nat, tag: int)
      requires i < |slots|
      modifies this
      ensures slots == old(slots)[i := WithTag(old(slots)[i], tag)]
    {
      slots := slots[i := WithTag(slots[i], tag)];
    }

    /** `setValue(newValue, fromLeft)` on the slot at `i`; returns the caret offset. */
    method SetValue(i: nat, newValue: Option<char>, fromLeft: bool) returns (offset: int)
      requires i < |slots|
      modifies this
      ensures (slots, offset) == Slots.SetValue(old(slots), i, newValue, fromLeft)
    {
      offset := SetValueInner(i, 0, newValue, fromLeft);
    }

    /** `setValueInner(offset, newValue, fromLeft)` on the slot at `i`. */
    method SetValueInner(i: nat, offset: int, newValue: Option<char>, fromLeft: bool) returns (r: int)
      requires i < |slots|
      modifies this
      ensures (slots, r) == Slots.SetValueInner(old(slots), i, offset, newValue, fromLeft)
      decreases |slots| - i, 2
    {
      var v := Interpret(slots[i], newValue);
      if v.None? {
        RemoveCurrentValue(i);
        r := if CheckRule(slots[i], RULE_FORBID_CURSOR_MOVE_LEFT) then 1 else 0;
      } else {
        r := SetNewValue(i, offset, v.value, fromLeft);
      }
    }

    /** `setNewValue(offset, newValue, fromLeft)` on the slot at `i`. */
    method SetNewValue(i: nat, offset: int, newValue: char, fromLeft: bool) returns (r: int)
      requires i < |slots|
      modifies this
      ensures (slots, r) == Slots.SetNewValue(old(slots), i, offset, newValue, fromLeft)
      decreases |slots| - i, 1
    {
      var slot := slots[i];
      var changeCurrent := true;
      var forbiddenInputFromLeft := fromLeft && CheckRule(slot, RULE_INPUT_MOVES_INPUT) && !CheckRule(slot, RULE_INPUT_REPLACE);
      if Hardcoded(slot) && !forbiddenInputFromLeft && slot.value == Some(newValue) {
        return if CheckRule(slot, RULE_FORBID_CURSOR_MOVE_RIGHT) then offset else offset + 1;
      }
      r := 0;
      if CheckRule(slot, RULE_INPUT_MOVES_INPUT) || forbiddenInputFromLeft {
        r := PushValueToSlot(i, offset + 1, newValue);
        changeCurrent := false;
      }
      if slots[i].value.Some? && slots[i].rules & MASK_INPUT_RULES == RULES_DEFAULT {
        var _ := PushValueToSlot(i, 0, slots[i].value.value);
      }
      if changeCurrent {
        slots := SetSlotValue(slots, i, Some(newValue));
        r := if CheckRule(slot, RULE_FORBID_CURSOR_MOVE_RIGHT) then offset else offset + 1;
      }
    }

    /** `pushValueToSlot(offset, newValue, nextSlot)` from the slot at `i`: 0 without a next slot. */
    method PushValueToSlot(i: nat, offset: int, newValue: char) returns (r: int)
      requires i < |slots|
      modifies this
      ensures (slots, r) == Slots.PushValueToSlot(old(slots), i, offset, newValue)
      decreases |slots| - i, 0
    {
      if i + 1 == |slots| {
        return 0;
      }
      r := SetValueInner(i + 1, offset, Some(newValue), true);
    }

    /** `removeCurrentValue()` on the slot at `i`. */
    method RemoveCurrentValue(i: nat)
      requires i < |slots|
      modifies this
      ensures slots == Slots.RemoveCurrentValue(old(slots), i)
      decreases if Hardcoded(slots[i]) then 1 else 0, if Hardcoded(slots[i]) then i else |slots| - i, 1
    {
      if !Hardcoded(slots[i]) {
        var v := PullValueFromSlot(i + 1);
        slots := SetSlotValue(slots, i, v);
      } else if i > 0 {
        RemoveCurrentValue(i - 1);
      }
    }

    /** `pullValueFromSlot(slot)` where `slot` is at `j` (`j == |slots|`: the null slot). */
    method PullValueFromSlot(j: nat) returns (v: Option<char>)
      requires j <= |slots|
      modifies this
      ensures (slots, v) == Slots.PullValueFromSlot(old(slots), j)
      decreases 0, |slots| - j, 2
    {
      if j == |slots| {
        return None;
      }
      if !Hardcoded(slots[j]) {
        v := slots[j].value;
        RemoveCurrentValue(j);
      } else if j + 1 < |slots| {
        v := PullValueFromSlot(j + 1);
      } else {
        v := None;
      }
    }
  }
}
