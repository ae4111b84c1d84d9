/**
 * What the recursive push and pull of Slot.java amount to on a whole chain: deleting from a
 * slot that is not hardcoded shifts the values of the following non-hardcoded slots one place
 * to the left; inserting into slots with the default rules shifts values one place to the right.
 */
module SlotProperties {
  import opened Wrappers
  import opened Slots
  import opened SlotValidators

  /** The first index from `j` on whose slot is not hardcoded, or `|s|` when there is none. */
  function NextFree(s: seq<Slot>, j: nat): (k: nat)
    requires j <= |s|
    ensures j <= k <= |s|
    ensures k < |s| ==> !Hardcoded(s[k])
    ensures forall m :: j <= m < k ==> Hardcoded(s[m])
    decreases |s| - j
  {
    if j == |s| || !Hardcoded(s[j]) then j else NextFree(s, j + 1)
  }

  /** The value a pull from index `j` delivers: that of the next slot that is not hardcoded. */
  function NextValue(s: seq<Slot>, j: nat): Option<char>
    requires j <= |s|
  {
    var k := NextFree(s, j);
    if k < |s| then s[k].value else None
  }

  /**
   * Reference definition of a deletion that starts at `j`: every non-hardcoded slot from `j` on
   * takes the value of the next non-hardcoded slot (the last one becomes empty); the rest stay.
   */
  ghost function ShiftedLeftFrom(s: seq<Slot>, j: nat): (r: seq<Slot>)
    requires j <= |s|
    ensures |r| == |s|
  {
    seq(|s|, k requires 0 <= k < |s| =>
      if j <= k && !Hardcoded(s[k]) then s[k].(value := NextValue(s, k + 1)) else s[k])
  }

  /** The last index up to `i` whose slot is not hardcoded, or -1 when there is none. */
  function PrevFree(s: seq<Slot>, i: int): (k: int)
    requires -1 <= i < |s|
    ensures -1 <= k <= i
    ensures k >= 0 ==> !Hardcoded(s[k])
    ensures forall m :: k < m <= i ==> Hardcoded(s[m])
    decreases i + 1
  {
    if i < 0 || !Hardcoded(s[i]) then i else PrevFree(s, i - 1)
  }

  /** Deleting from a slot that is not hardcoded is the left shift from that slot. */
  lemma {:induction false} RemoveShiftsLeft(s: seq<Slot>, i: nat)
    requires i < |s| && !Hardcoded(s[i])
    ensures RemoveCurrentValue(s, i) == ShiftedLeftFrom(s, i)
    decreases 0, |s| - i, 1
  {
    PullDeliversNextValue(s, i + 1);
    var s1 := ShiftedLeftFrom(s, i + 1);
    assert RemoveCurrentValue(s, i) == s1[i := s1[i].(value := NextValue(s, i + 1))];
  }

  /** A pull from `j` delivers the next non-hardcoded value and shifts the rest of the chain left. */
  lemma {:induction false} PullDeliversNextValue(s: seq<Slot>, j: nat)
    requires j <= |s|
    ensures PullValueFromSlot(s, j) == (ShiftedLeftFrom(s, j), NextValue(s, j))
    decreases 0, |s| - j, 2
  {
    if j == |s| {
      assert ShiftedLeftFrom(s, j) == s;
    } else if !Hardcoded(s[j]) {
      RemoveShiftsLeft(s, j);
    } else if j + 1 < |s| {
      PullDeliversNextValue(s, j + 1);
      assert ShiftedLeftFrom(s, j) == ShiftedLeftFrom(s, j + 1);
    } else {
      assert ShiftedLeftFrom(s, j) == s;
    }
  }

  /**
   * Deleting from a hardcoded slot acts on the nearest non-hardcoded slot to its left, and does
   * nothing when every slot up to it is hardcoded.
   */
  lemma {:induction false} RemoveFromHardcodedDelegatesLeft(s: seq<Slot>, i: nat)
    requires i < |s|
    ensures RemoveCurrentValue(s, i) == if PrevFree(s, i) < 0 then s else ShiftedLeftFrom(s, PrevFree(s, i))
    decreases i
  {
    if !Hardcoded(s[i]) {
      RemoveShiftsLeft(s, i);
    } else if i > 0 {
      RemoveFromHardcodedDelegatesLeft(s, i - 1);
    }
  }

  /** After a deletion the last slot from `i` on that is not hardcoded is empty. */
  lemma LastFreeSlotEmptied(s: seq<Slot>, i: nat)
    requires i < |s| && !Hardcoded(s[i])
    ensures var r := RemoveCurrentValue(s, i);
      forall k :: i <= k < |s| && !Hardcoded(s[k]) && NextFree(s, k + 1) == |s| ==> r[k].value.None?
  {
    var r := RemoveCurrentValue(s, i);
    RemoveShiftsLeft(s, i);
    forall k | i <= k < |s| && !Hardcoded(s[k]) && NextFree(s, k + 1) == |s|
      ensures r[k].value.None?
    {
      assert r[k] == s[k].(value := NextValue(s, k + 1));
    }
  }

  /** Every slot from `i` on has the default rules and no interpreter. */
  ghost predicate DefaultTail(s: seq<Slot>, i: nat) {
    forall k :: i <= k < |s| ==> s[k].rules == RULES_DEFAULT && s[k].interpreter.None?
  }

  /** The first index from `i` on whose slot is empty, or `|s|` when there is none. */
  function FirstEmpty(s: seq<Slot>, i: nat): (k: nat)
    requires i <= |s|
    ensures i <= k <= |s|
    ensures k < |s| ==> s[k].value.None?
    ensures forall m :: i <= m < k ==> s[m].value.Some?
    decreases |s| - i
  {
    if i == |s| || s[i].value.None? then i else FirstEmpty(s, i + 1)
  }

  /**
   * Reference definition of inserting `c` at `i`: `c` goes to `i` and the values from `i` up to
   * the first empty slot move one place right; with no empty slot the last value is lost.
   */
  ghost function ShiftedRight(s: seq<Slot>, i: nat, c: char): (r: seq<Slot>)
    requires i < |s|
    ensures |r| == |s|
  {
    var e := FirstEmpty(s, i);
    seq(|s|, k requires 0 <= k < |s| =>
      if k < i || e < k then s[k]
      else s[k].(value := if k == i then Some(c) else s[k - 1].value))
  }

  /** In slots with the default rules a new value is inserted and the caret advances by one. */
  lemma {:induction false} DefaultSlotsInsert(s: seq<Slot>, i: nat, offset: int, c: char, fromLeft: bool)
    requires i < |s| && DefaultTail(s, i)
    ensures SetNewValue(s, i, offset, c, fromLeft) == (ShiftedRight(s, i, c), offset + 1)
    decreases |s| - i
  {
    assert !Hardcoded(s[i]) && !CheckRule(s[i], RULE_INPUT_MOVES_INPUT);
    assert !CheckRule(s[i], RULE_FORBID_CURSOR_MOVE_RIGHT);
    if s[i].value.Some? && i + 1 < |s| {
      var prev := s[i].value.value;
      DefaultSlotsInsert(s, i + 1, 0, prev, true);
      var s2 := ShiftedRight(s, i + 1, prev);
      assert Interpret(s[i + 1], Some(prev)) == Some(prev);
      assert SetValueInner(s, i + 1, 0, Some(prev), true) == SetNewValue(s, i + 1, 0, prev, true);
      assert PushValueToSlot(s, i, 0, prev).0 == s2;
      assert SetNewValue(s, i, offset, c, fromLeft) == (SetSlotValue(s2, i, Some(c)), offset + 1);
      assert SetSlotValue(s2, i, Some(c)) == ShiftedRight(s, i, c);
    } else if s[i].value.Some? {
      assert SetSlotValue(s, i, Some(c)) == ShiftedRight(s, i, c);
    } else {
      assert FirstEmpty(s, i) == i;
      assert SetSlotValue(s, i, Some(c)) == ShiftedRight(s, i, c);
    }
  }

  /** A slot with only the replace rule takes the new value and touches no other slot. */
  lemma ReplaceSlotKeepsNeighbours(s: seq<Slot>, i: nat, offset: int, c: char, fromLeft: bool)
    requires i < |s| && s[i].rules & MASK_INPUT_RULES == RULE_INPUT_REPLACE
    ensures SetNewValue(s, i, offset, c, fromLeft)
         == (SetSlotValue(s, i, Some(c)), if CheckRule(s[i], RULE_FORBID_CURSOR_MOVE_RIGHT) then offset else offset + 1)
  {
    assert !CheckRule(s[i], RULE_INPUT_MOVES_INPUT);
  }

  /**
   * A hardcoded slot that accepts input from the left leaves the chain as it is when given
   * its own value, and otherwise hands the value on with the caret one further.
   */
  lemma HardcodedSlotPassesInputOn(s: seq<Slot>, i: nat, offset: int, c: char)
    requires i < |s| && Hardcoded(s[i]) && CheckRule(s[i], RULE_INPUT_REPLACE)
    ensures SetNewValue(s, i, offset, c, true)
         == if s[i].value == Some(c)
            then (s, if CheckRule(s[i], RULE_FORBID_CURSOR_MOVE_RIGHT) then offset else offset + 1)
            else PushValueToSlot(s, i, offset + 1, c)
  {
    assert s[i].rules & MASK_INPUT_RULES != RULES_DEFAULT;
  }

  /** `anyInputToTheRight` holds exactly when some slot from `i` on holds user input. */
  lemma {:induction false} AnyInputToTheRightMeans(s: seq<Slot>, i: nat)
    requires i < |s|
    ensures AnyInputToTheRight(s, i) <==> exists j :: i <= j < |s| && IsUserInput(s[j])
    decreases |s| - i
  {
    if i + 1 < |s| {
      AnyInputToTheRightMeans(s, i + 1);
      if !IsUserInput(s[i]) && (exists j :: i <= j < |s| && IsUserInput(s[j])) {
        var j :| i <= j < |s| && IsUserInput(s[j]);
        assert i + 1 <= j;
      }
    }
  }

  /**
   * What `canInsertHere(c)` decides: a hardcoded slot accepts nothing but its own value, a free
   * slot accepts what one of its validators accepts (after interpretation), so a free slot
   * without validators accepts nothing, and the current value of a free slot plays no part.
   */
  lemma CanInsertHereMeans(s: Slot, c: char)
    ensures Hardcoded(s) ==> (CanInsertHere(s, c) <==> s.value == Interpret(s, Some(c)))
    ensures !Hardcoded(s) ==>
      (CanInsertHere(s, c) <==> exists v :: v in s.validators && Validate(v, Interpret(s, Some(c)).value))
    ensures !Hardcoded(s) && s.validators == {} ==> !CanInsertHere(s, c)
    ensures !Hardcoded(s) && Generous in s.validators ==> CanInsertHere(s, c)
    ensures !Hardcoded(s) ==> (CanInsertHere(s, c) <==> CanInsertHere(s.(value := None), c))
  {
  }

  /**
   * `hardcodedSequenceEndIndex(from)` is -1 on a slot that is not hardcoded and otherwise
   * `from` plus the length of the run of hardcoded slots that starts there.
   */
  lemma {:induction false} HardcodedSequenceEndIndexIsRunLength(s: seq<Slot>, i: nat, fromIndex: int)
    requires i < |s|
    ensures HardcodedSequenceEndIndex(s, i, fromIndex)
         == if Hardcoded(s[i]) then fromIndex + (NextFree(s, i) - i) else -1
    decreases |s| - i
  {
    if Hardcoded(s[i]) && i + 1 < |s| && Hardcoded(s[i + 1]) {
      HardcodedSequenceEndIndexIsRunLength(s, i + 1, fromIndex + 1);
    }
  }

  /** A chain after `clear()`: every slot that is not hardcoded is empty, the others are as they were. */
  ghost function Cleared(s: seq<Slot>): (r: seq<Slot>)
    ensures |r| == |s|
  {
    seq(|s|, k requires 0 <= k < |s| => if Hardcoded(s[k]) then s[k] else s[k].(value := None))
  }

  /** With every slot from `j` on that is not hardcoded empty, a pull from `j` delivers nothing. */
  lemma NothingToPull(s: seq<Slot>, j: nat)
    requires j <= |s|
    requires forall k :: j <= k < |s| && !Hardcoded(s[k]) ==> s[k].value.None?
    ensures NextValue(s, j) == None
  {
  }

  /** Deleting where every slot from `j` on that is not hardcoded is already empty changes nothing. */
  lemma EmptyTailShiftsToItself(s: seq<Slot>, j: nat)
    requires j <= |s|
    requires forall k :: j <= k < |s| && !Hardcoded(s[k]) ==> s[k].value.None?
    ensures ShiftedLeftFrom(s, j) == s
  {
    var r := ShiftedLeftFrom(s, j);
    forall k | 0 <= k < |s|
      ensures r[k] == s[k]
    {
      if j <= k && !Hardcoded(s[k]) {
        NothingToPull(s, k + 1);
      }
    }
  }

  /**
   * One step of `clear()`, which walks from the tail: when the slots after `i` that are not
   * hardcoded are already empty, deleting at `i` empties slot `i` too (or, when `i` is hardcoded,
   * the nearest free slot to its left), brings nothing back into the emptied tail, and makes no
   * slot hardcoded or free that was not.
   */
  lemma {:induction false} ClearStep(s: seq<Slot>, i: nat)
    requires i < |s|
    requires forall k :: i < k < |s| && !Hardcoded(s[k]) ==> s[k].value.None?
    ensures var r := RemoveCurrentValue(s, i);
      (forall k :: 0 <= k < |s| ==> (Hardcoded(r[k]) <==> Hardcoded(s[k]))) &&
      (forall k :: i <= k < |s| && !Hardcoded(s[k]) ==> r[k].value.None?)
  {
    RemoveFromHardcodedDelegatesLeft(s, i);
    var p := PrevFree(s, i);
    if p >= 0 {
      forall j | p < j <= |s|
        ensures NextValue(s, j) == None
      {
        NothingToPull(s, j);
      }
      var r := ShiftedLeftFrom(s, p);
      forall k | 0 <= k < |s|
        ensures (Hardcoded(r[k]) <==> Hardcoded(s[k])) && (i <= k && !Hardcoded(s[k]) ==> r[k].value.None?)
      {
        if p <= k && !Hardcoded(s[k]) {
          assert r[k].value == NextValue(s, k + 1);
        }
      }
    }
  }
}
