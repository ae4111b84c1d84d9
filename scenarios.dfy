/**
 * Worked instances of the mask operations on the slot tables used by MaskImplTest.java,
 * stated on the specification functions that the `MaskImpl` methods are proved to follow.
 */
module Scenarios {
  import opened Wrappers
  import opened Slots
  import opened SlotValidators
  import opened SlotProperties
  import opened Masks
  import opened MaskProperties
  import opened PredefinedSlots

  /** The terminated settings with every flag off. */
  function Plain(): Settings {
    Settings(true, false, false, false)
  }

  /** `+`, a slot for any character, `-`, two slots for any character. */
  function PlusMask(decorated: bool): seq<Slot> {
    [HardcodedSlot('+'), AnySlot(), if decorated then DecorationSlot('-') else HardcodedSlot('-'), AnySlot(), AnySlot()]
  }

  /** The text of the empty mask: the hardcoded head, nothing when it is hidden, all slots when empty ones are shown. */
  lemma PlusMaskTexts()
    ensures Render(PlusMask(false), 0, true, false, true, '_') == "+"
    ensures Render(PlusMask(false), 0, true, false, false, '_') == ""
    ensures Render(PlusMask(false), 0, true, true, false, '_') == "+_-__"
    ensures Render(PlusMask(true), 0, false, false, true, '_') == "+"
    ensures Render(PlusMask(true), 0, false, true, false, '_') == "+___"
  {
    var s, d := PlusMask(false), PlusMask(true);
    assert AnyInputToTheRight(s, 1) == false by { AnyInputToTheRightMeans(s, 1); }
    assert AnyInputToTheRight(s, 0) == false by { AnyInputToTheRightMeans(s, 0); }
    assert AnyInputToTheRight(d, 1) == false by { AnyInputToTheRightMeans(d, 1); }
    assert AnyInputToTheRight(d, 0) == false by { AnyInputToTheRightMeans(d, 0); }
    ShowingEmptySlotsRendersAll(s, 0, true, false, '_');
    ShowingEmptySlotsRendersAll(d, 0, false, false, '_');
  }

  /**
   * On `+7 (___) ___-__-__`, the unformatted caret for the formatted carets 1, 2, 3 and 4 is
   * 1, 1, 1 and 2.
   */
  lemma PhoneUnformattedCarets()
    ensures var s := RusPhoneNumber();
      1 - DecorationCount(s, 2) == 1 && 2 - DecorationCount(s, 3) == 1 &&
      3 - DecorationCount(s, 4) == 1 && 4 - DecorationCount(s, 5) == 2
  {
    var s := RusPhoneNumber();
    assert DecorationCount(s, 1) == 0;
    assert DecorationCount(s, 2) == 0;
    assert DecorationCount(s, 3) == 1;
    assert DecorationCount(s, 4) == 2;
    assert DecorationCount(s, 5) == 2;
  }

  /** The empty phone mask showing its empty slots reads as its template. */
  lemma PhoneTemplateText()
    ensures Render(RusPhoneNumber(), 0, true, true, true, '_') == "+7 (___) ___-__-__"
  {
    var s := RusPhoneNumber();
    PhoneTemplateShown();
    ShowingEmptySlotsRendersAll(s, 0, true, true, '_');
    AllShownFormatted(s, 0, '_');
  }

  /** Slot by slot, the empty phone mask shows its template. */
  lemma PhoneTemplateShown()
    ensures var s := RusPhoneNumber();
      seq(18, k requires 0 <= k < 18 => Shown(s[k], '_')) == "+7 (___) ___-__-__"
  {
    var s := RusPhoneNumber();
    var shown := seq(18, k requires 0 <= k < 18 => Shown(s[k], '_'));
    forall k | 0 <= k < 18
      ensures shown[k] == "+7 (___) ___-__-__"[k]
    {
      PhoneTemplateShownAt(k);
    }
  }

  lemma PhoneTemplateShownAt(k: nat)
    requires k < 18
    ensures Shown(RusPhoneNumber()[k], '_') == "+7 (___) ___-__-__"[k]
  {
    var s := RusPhoneNumber();
    if k < 4 {
      assert s[k] == [HardcodedSlot('+'), HardcodedSlot('7'), DecorationSlot(' '), DecorationSlot('(')][k];
    } else if k < 9 {
      assert s[k] == [DigitSlot(), DigitSlot(), DigitSlot(), DecorationSlot(')'), DecorationSlot(' ')][k - 4];
    } else if k < 13 {
      assert s[k] == [DigitSlot(), DigitSlot(), DigitSlot(), DecorationSlot('-')][k - 9];
    } else {
      assert s[k] == [DigitSlot(), DigitSlot(), DecorationSlot('-'), DigitSlot(), DigitSlot()][k - 13];
    }
  }

  /** A mask whose first slot is not hardcoded shows nothing once it holds no user input. */
  lemma ClearedMaskShowsNothing(s: seq<Slot>, showHardcodedTail: bool, placeholder: char)
    requires |s| > 0 && !Hardcoded(s[0])
    ensures Render(Cleared(s), 0, true, false, showHardcodedTail, placeholder) == []
  {
    var c := Cleared(s);
    ClearedHasNoUserInput(s);
    NoInputRendersHardcodedHead(c, 0, showHardcodedTail, placeholder);
  }

  /** The mask of MaskImplTest: a slot for any character, `-`, two slots for any character. */
  function DashMask(): seq<Slot> {
    [AnySlot(), HardcodedSlot('-'), AnySlot(), AnySlot()]
  }

  function Typed(c: char): Slot {
    AnySlot().(value := Some(c))
  }

  /** On the terminated dash mask, typing "1" at the head puts the caret after the `-` (2). */
  lemma DashMaskTypingCaret()
    ensures var e := InsertOutcome(Plain(), DashMask(), true, 0, Some("1"), true);
      e.cursor == 2 && e.slots == DashMask()[0 := Typed('1')]
  {
    var s := DashMask();
    var st := Plain();
    assert SlotIndexOffsetFrom(s, 0, '1') == SlotIndexOffset(0, false) by {
      assert CanInsertHere(s[0], '1');
    }
    var s1 := s[0 := Typed('1')];
    assert Placed(true, s, 0, '1', false) == Typing(s1, 1, Some(1)) by {
      assert Slots.SetValue(s, 0, Some('1'), false) == (s1, 1);
    }
    assert TypeChar(st, Typing(s, 0, Some(0)), '1') == Some(Typing(s1, 1, Some(1)));
    assert TypeAll(st, Typing(s, 0, Some(0)), "1") == Typing(s1, 1, Some(1));
    assert HardcodedSequenceEndIndex(s1, 1, 0) == 1;
  }

  /**
   * On the terminated dash mask holding "1-", deleting the `-` at 1 deletes the "1" instead and
   * leaves the caret at 1.
   */
  lemma DashMaskDeletingHardcoded()
    ensures var e := RemoveOutcome(Plain(), DashMask()[0 := Typed('1')], 1, 1, true);
      e.cursor == 1 && e.slots == DashMask()
  {
    var s := DashMask();
    var s1 := s[0 := Typed('1')];
    assert RemoveCurrentValue(s1, 1) == s by {
      RemoveFromHardcodedDelegatesLeft(s1, 1);
      assert ShiftedLeftFrom(s1, 0) == s;
    }
    assert RemoveSteps(s1, 1, 1, true, true) == (s, 0);
  }

  /** Deleting at 0 on the empty terminated dash mask leaves the caret at 0. */
  lemma DashMaskDeletingNothing()
    ensures var e := RemoveOutcome(Plain(), DashMask(), 0, 1, true);
      e.cursor == 0 && e.slots == DashMask()
  {
    var s := DashMask();
    assert HardcodedWalk(s, 1) == 0;
    assert RemoveSteps(s, 0, 1, true, true) == (s, -1) by {
      RemoveShiftsLeft(s, 0);
      assert ShiftedLeftFrom(s, 0) == s;
    }
  }

  /**
   * A mask that is not terminated and ends in a hardcoded slot loses the character just typed:
   * typing "1" into `_-` fills the first slot, the extension copies the `-`, and the deletion
   * of the copy's value is handed left to the first slot.
   */
  lemma ExtensionAfterHardcodedLosesInput()
    ensures var s := [DigitSlot(), HardcodedSlot('-')];
      var e := InsertOutcome(Settings(false, false, false, false), s, true, 0, Some("1"), true);
      e.slots == [DigitSlot(), HardcodedSlot('-'), WithTag(HardcodedSlot('-'), TAG_EXTENSION)] && e.cursor == 3
  {
    var s := [DigitSlot(), HardcodedSlot('-')];
    var st := Settings(false, false, false, false);
    assert SlotIndexOffsetFrom(s, 0, '1') == SlotIndexOffset(0, false) by {
      assert CanInsertHere(s[0], '1');
    }
    var s2 := [DigitSlot(), HardcodedSlot('-'), WithTag(HardcodedSlot('-'), TAG_EXTENSION)];
    TypingBeforeDashIsExtended();
    assert TypeChar(st, Typing(s, 0, Some(0)), '1') == Some(Typing(s2, 1, Some(1)));
    assert TypeAll(st, Typing(s, 0, Some(0)), "1") == Typing(s2, 1, Some(1));
    assert HardcodedSequenceEndIndex(s2, 1, 0) == 2;
  }

  /** The turn that types "1" into `_-`, which the extension then empties again. */
  lemma TypingBeforeDashIsExtended()
    ensures Placed(false, [DigitSlot(), HardcodedSlot('-')], 0, '1', false)
         == Typing([DigitSlot(), HardcodedSlot('-'), WithTag(HardcodedSlot('-'), TAG_EXTENSION)], 1, Some(1))
  {
    var s := [DigitSlot(), HardcodedSlot('-')];
    var s1 := s[0 := DigitSlot().(value := Some('1'))];
    assert Slots.SetValue(s, 0, Some('1'), false) == (s1, 1);
    assert EmptySlotsOnTail(s1) == 0;
    ExtendAfterHardcodedSlot(s1);
    assert PrevFree(s1, 1) == 0;
    assert ExtendedTail(s1) == [DigitSlot(), HardcodedSlot('-'), WithTag(HardcodedSlot('-'), TAG_EXTENSION)];
  }

  /** A slot that replaces its value, for any character. */
  function Replacing(v: Option<char>): Slot {
    NewSlot(RULE_INPUT_REPLACE, v, Some({Generous}))
  }

  function ReplaceMask(a: char, b: char, c: char): seq<Slot> {
    [Replacing(Some(a)), Replacing(Some(b)), Replacing(Some(c)), Replacing(None)]
  }

  /** Replacing slots render their values: "123", and "013" after the two edits below. */
  lemma ReplaceMaskTexts()
    ensures Render(ReplaceMask('1', '2', '3'), 0, true, false, true, '_') == "123"
    ensures Render(ReplaceMask('0', '1', '3'), 0, true, false, true, '_') == "013"
  {
    assert AnyInputToTheRight(ReplaceMask('1', '2', '3'), 3) == false;
    assert AnyInputToTheRight(ReplaceMask('0', '1', '3'), 3) == false;
  }

  /** Typing "0" at the head of "123" overwrites the "1" in place; the caret is 1. */
  lemma ReplaceAtHead()
    ensures var e := InsertOutcome(Plain(), ReplaceMask('1', '2', '3'), true, 0, Some("0"), true);
      e.cursor == 1 && e.slots == ReplaceMask('0', '2', '3')
  {
    var s := ReplaceMask('1', '2', '3');
    var s0 := ReplaceMask('0', '2', '3');
    assert SlotIndexOffsetFrom(s, 0, '0') == SlotIndexOffset(0, false) by {
      assert CanInsertHere(s[0], '0') by { GenerousAcceptsEverything('0'); }
    }
    assert Slots.SetValue(s, 0, Some('0'), false) == (s0, 1) by {
      ReplaceSlotKeepsNeighbours(s, 0, 0, '0', false);
      assert Slots.SetValue(s, 0, Some('0'), false) == SetNewValue(s, 0, 0, '0', false);
      assert SetSlotValue(s, 0, Some('0')) == s0;
    }
    assert TypeAll(Plain(), Typing(s, 0, Some(0)), "0") == Typing(s0, 1, Some(1));
    assert HardcodedSequenceEndIndex(s0, 1, 0) == -1;
  }

  /** Typing "1" at 1 of "023" overwrites the "2" in place; the caret is 2. */
  lemma ReplaceAtOne()
    ensures var e := InsertOutcome(Plain(), ReplaceMask('0', '2', '3'), true, 1, Some("1"), true);
      e.cursor == 2 && e.slots == ReplaceMask('0', '1', '3')
  {
    var s0 := ReplaceMask('0', '2', '3');
    var s1 := ReplaceMask('0', '1', '3');
    assert SlotIndexOffsetFrom(s0, 1, '1') == SlotIndexOffset(0, false) by {
      assert CanInsertHere(s0[1], '1') by { GenerousAcceptsEverything('1'); }
    }
    assert Slots.SetValue(s0, 1, Some('1'), false) == (s1, 1) by {
      ReplaceSlotKeepsNeighbours(s0, 1, 0, '1', false);
      assert Slots.SetValue(s0, 1, Some('1'), false) == SetNewValue(s0, 1, 0, '1', false);
      assert SetSlotValue(s0, 1, Some('1')) == s1;
    }
    assert TypeAll(Plain(), Typing(s0, 1, Some(1)), "1") == Typing(s1, 2, Some(2));
    assert HardcodedSequenceEndIndex(s1, 2, 0) == -1;
  }

  /** The dash mask holding `a-bc`. */
  function DashText(a: char, b: char, c: char): seq<Slot> {
    [Typed(a), HardcodedSlot('-'), Typed(b), Typed(c)]
  }

  /** With input forbidden on a filled mask, "2-11" refuses "3" at the head and "4" at 2. */
  lemma FilledMaskRefusesInput()
    ensures var st := Settings(true, false, true, false);
      InsertOutcome(st, DashText('2', '1', '1'), true, 0, Some("3"), true).slots == DashText('2', '1', '1') &&
      InsertOutcome(st, DashText('2', '1', '1'), true, 2, Some("4"), true).slots == DashText('2', '1', '1')
  {
    assert IsFilledFrom(DashText('2', '1', '1'), 0);
  }

  /**
   * Input allowed again, "3" typed at 2 of "2-11" pushes the "1" there on to the last slot,
   * whose own "1" falls off the end: "2-31", caret 3.
   */
  lemma TypingPushesValuesRight()
    ensures var e := InsertOutcome(Plain(), DashText('2', '1', '1'), true, 2, Some("3"), true);
      e.slots == DashText('2', '3', '1') && e.cursor == 3
  {
    var s := DashText('2', '1', '1');
    var r := DashText('2', '3', '1');
    assert SlotIndexOffsetFrom(s, 2, '3') == SlotIndexOffset(0, false) by {
      assert CanInsertHere(s[2], '3');
    }
    assert PushValueToSlot(s, 3, 0, '1') == (s, 0);
    assert SetNewValue(s, 3, 0, '1', true) == (s, 1) by {
      assert SetSlotValue(s, 3, Some('1')) == s;
    }
    assert PushValueToSlot(s, 2, 0, '1') == (s, 1);
    assert SetNewValue(s, 2, 0, '3', false) == (r, 1) by {
      assert SetSlotValue(s, 2, Some('3')) == r;
    }
    assert Slots.SetValue(s, 2, Some('3'), false) == (r, 1);
    assert TypeAll(Plain(), Typing(s, 2, Some(2)), "3") == Typing(r, 3, Some(3));
    assert HardcodedSequenceEndIndex(r, 3, 0) == -1;
  }

  /** The dash mask holding "1-1", its last slot empty. */
  function HalfFilled(): seq<Slot> {
    [Typed('1'), HardcodedSlot('-'), Typed('1'), AnySlot()]
  }

  /**
   * `insertFront("1")` on "1-": the "1" already in the first slot is pushed over the `-` into
   * the first slot after it, giving "1-1".
   */
  lemma FrontInputPushedOverDash()
    ensures InsertOutcome(Plain(), DashMask()[0 := Typed('1')], true, 0, Some("1"), true).slots == HalfFilled()
  {
    var s := DashMask()[0 := Typed('1')];
    var r := HalfFilled();
    assert SlotIndexOffsetFrom(s, 0, '1') == SlotIndexOffset(0, false) by {
      assert CanInsertHere(s[0], '1');
    }
    assert SetNewValue(s, 2, 1, '1', true) == (r, 2) by {
      assert SetSlotValue(s, 2, Some('1')) == r;
    }
    assert SetNewValue(s, 1, 0, '1', true) == (r, 2) by {
      assert s[1] == HardcodedSlot('-');
      assert PushValueToSlot(s, 1, 1, '1') == (r, 2);
    }
    assert SetNewValue(s, 0, 0, '1', false) == (r, 1) by {
      assert PushValueToSlot(s, 0, 0, '1') == (r, 2);
      assert SetSlotValue(r, 0, Some('1')) == r;
    }
    assert Slots.SetValue(s, 0, Some('1'), false) == (r, 1);
    assert TypeAll(Plain(), Typing(s, 0, Some(0)), "1") == Typing(r, 1, Some(1));
  }

  /** `insertFront("1")` on "1-1": both "1"s move one free slot right, giving "1-11". */
  lemma FrontInputFillsDashMask()
    ensures InsertOutcome(Plain(), HalfFilled(), true, 0, Some("1"), true).slots == DashText('1', '1', '1')
  {
    var s := HalfFilled();
    var r := DashText('1', '1', '1');
    assert SlotIndexOffsetFrom(s, 0, '1') == SlotIndexOffset(0, false) by {
      assert CanInsertHere(s[0], '1');
    }
    assert SetNewValue(s, 3, 0, '1', true) == (r, 1) by {
      assert SetSlotValue(s, 3, Some('1')) == r;
    }
    assert SetNewValue(s, 2, 1, '1', true) == (r, 2) by {
      assert PushValueToSlot(s, 2, 0, '1') == (r, 1);
      assert SetSlotValue(r, 2, Some('1')) == r;
    }
    assert SetNewValue(s, 1, 0, '1', true) == (r, 2);
    assert SetNewValue(s, 0, 0, '1', false) == (r, 1) by {
      assert PushValueToSlot(s, 0, 0, '1') == (r, 2);
      assert SetSlotValue(r, 0, Some('1')) == r;
    }
    assert Slots.SetValue(s, 0, Some('1'), false) == (r, 1);
    assert TypeAll(Plain(), Typing(s, 0, Some(0)), "1") == Typing(r, 1, Some(1));
  }

  /** `removeBackwards(0, 1)` on "1-11" empties the first slot and the values after it close up: "1-1". */
  lemma FrontDeletionClosesUp()
    ensures RemoveOutcome(Plain(), DashText('1', '1', '1'), 0, 1, true).slots == HalfFilled()
  {
    var s := DashText('1', '1', '1');
    assert RemoveCurrentValue(s, 0) == HalfFilled() by {
      RemoveShiftsLeft(s, 0);
      assert ShiftedLeftFrom(s, 0) == HalfFilled();
    }
    assert RemoveSteps(s, 0, 1, true, true) == (HalfFilled(), -1);
  }

  /** `removeBackwards(0, 1)` on "1-" empties the mask again. */
  lemma FrontDeletionEmpties()
    ensures RemoveOutcome(Plain(), DashMask()[0 := Typed('1')], 0, 1, true).slots == DashMask()
  {
    var s := DashMask()[0 := Typed('1')];
    assert RemoveCurrentValue(s, 0) == DashMask() by {
      RemoveShiftsLeft(s, 0);
      assert ShiftedLeftFrom(s, 0) == DashMask();
    }
    assert RemoveSteps(s, 0, 1, true, true) == (DashMask(), -1);
  }

  /**
   * The states of the `filled` test: the dash mask is filled only once three "1"s are typed at
   * its front, and no longer after the first of them is deleted.
   */
  lemma DashMaskFilledOnlyWhenFull()
    ensures !IsFilledFrom(DashMask(), 0)
    ensures !IsFilledFrom(DashMask()[0 := Typed('1')], 0)
    ensures !IsFilledFrom(HalfFilled(), 0)
    ensures IsFilledFrom(DashText('1', '1', '1'), 0)
  {
    assert !Hardcoded(DashMask()[0]) && DashMask()[0].value.None?;
    assert !HasTag(HalfFilled()[3], TAG_EXTENSION) && !Hardcoded(HalfFilled()[3]);
    var typed := DashMask()[0 := Typed('1')];
    assert !HasTag(typed[2], TAG_EXTENSION) && !Hardcoded(typed[2]) && typed[2].value.None?;
  }

  /**
   * The states of the `hasUserInput` test: the empty dash mask, which `FrontDeletionEmpties`
   * returns to, has no user input, and "1-" has.
   */
  lemma DashMaskUserInput()
    ensures !exists k :: 0 <= k < |DashMask()| && IsUserInput(DashMask()[k])
    ensures IsUserInput((DashMask()[0 := Typed('1')])[0])
  {
    assert forall k :: 0 <= k < |DashMask()| ==> !IsUserInput(DashMask()[k]) by {
      assert DashMask()[1] == HardcodedSlot('-');
    }
  }
}
