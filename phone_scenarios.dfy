/**
 * The caret scenario of MaskImplTest.java on the terminated `+7 (___) ___-__-__` mask whose
 * hardcoded head is hidden, and the offsets of `setValue` in SlotTest.java, stated on the
 * specification functions.
 */
module PhoneScenarios {
  import opened Wrappers
  import opened Slots
  import opened SlotValidators
  import opened SlotProperties
  import opened Masks
  import opened PredefinedSlots

  /** The settings of the terminated phone mask with its hardcoded head hidden. */
  function HiddenHead(): Settings {
    Settings(true, false, false, true)
  }

  /** The phone mask after "99" was typed: both digits in the first group. */
  function PhoneWithNines(): seq<Slot> {
    RusPhoneNumber()[4 := DigitSlot().(value := Some('9'))][5 := DigitSlot().(value := Some('9'))]
  }

  /** The phone mask holding a single "9" at the head of the first group. */
  function PhoneWithNine(): seq<Slot> {
    RusPhoneNumber()[4 := DigitSlot().(value := Some('9'))]
  }

  /** The walk left over `+7 (` from the first digit slot ends at the head. */
  lemma WalkOverPhoneHead(s: seq<Slot>)
    requires |s| == 18 && s[..4] == RusPhoneNumber()[..4]
    ensures HardcodedWalk(s, 4) == 0
  {
    assert Hardcoded(s[3]) && Hardcoded(s[2]) && Hardcoded(s[1]);
  }

  /** The empty phone mask holds no user input. */
  lemma PhoneIsEmpty()
    ensures forall k :: 0 <= k < 18 && !Hardcoded(RusPhoneNumber()[k]) ==> RusPhoneNumber()[k].value.None?
  {
    RusPhoneNumberLayout();
  }

  /** `removeBackwards(4, 1)` on the empty mask changes nothing and leaves the caret at 4. */
  lemma PhoneDeletingOnEmpty()
    ensures RemoveOutcome(HiddenHead(), RusPhoneNumber(), 4, 1, true) == Edit(RusPhoneNumber(), 4, false)
  {
    var s := RusPhoneNumber();
    assert RemoveCurrentValue(s, 4) == s by {
      RemoveShiftsLeft(s, 4);
      PhoneIsEmpty();
      EmptyTailShiftsToItself(s, 4);
    }
    assert RemoveSteps(s, 4, 1, true, true) == (s, 3);
    WalkOverPhoneHead(s);
  }

  /** A search for a slot that takes `c` passes over a leading run of four hardcoded slots. */
  lemma SkipsFourHardcoded(s: seq<Slot>, c: char)
    requires |s| > 4 && CanInsertHere(s[4], c)
    requires forall k :: 0 <= k < 4 ==> Hardcoded(s[k]) && !CanInsertHere(s[k], c)
    ensures SlotIndexOffsetFrom(s, 0, c) == SlotIndexOffset(4, false)
  {
    assert SlotIndexOffsetFrom(s, 4, c) == SlotIndexOffset(0, false);
    assert SlotIndexOffsetFrom(s, 3, c) == SlotIndexOffset(1, false);
    assert SlotIndexOffsetFrom(s, 2, c) == SlotIndexOffset(2, false);
    assert SlotIndexOffsetFrom(s, 1, c) == SlotIndexOffset(3, false);
  }

  /** Looking for a slot that takes "9" from the head passes over `+7 (` to slot 4. */
  lemma PhoneNineSkipsHead()
    ensures SlotIndexOffsetFrom(RusPhoneNumber(), 0, '9') == SlotIndexOffset(4, false)
  {
    var s := RusPhoneNumber();
    assert s[4] == DigitSlot();
    forall k | 0 <= k < 4
      ensures Hardcoded(s[k]) && !CanInsertHere(s[k], '9')
    {
      assert s[k] == [HardcodedSlot('+'), HardcodedSlot('7'), DecorationSlot(' '), DecorationSlot('(')][k];
    }
    SkipsFourHardcoded(s, '9');
  }

  /** Placing "9" in the empty slot 4 stores it there and moves the caret one on. */
  lemma PhonePlacingFirstNine()
    ensures Placed(true, RusPhoneNumber(), 4, '9', true) == Typing(PhoneWithNine(), 5, Some(5))
  {
    var s := RusPhoneNumber();
    assert s[4] == DigitSlot();
    assert SetNewValue(s, 4, 0, '9', true) == (PhoneWithNine(), 1);
    assert Slots.SetValue(s, 4, Some('9'), true) == (PhoneWithNine(), 1);
  }

  /** Typing "9" into the empty mask skips the hardcoded head and fills slot 4; the caret is 5. */
  lemma PhoneTypingFirstNine()
    ensures TypeChar(HiddenHead(), Typing(RusPhoneNumber(), 0, Some(0)), '9')
         == Some(Typing(PhoneWithNine(), 5, Some(5)))
  {
    PhoneNineSkipsHead();
    PhonePlacingFirstNine();
  }

  /** The second "9" goes into slot 5, the candidate left by the first; the caret is 6. */
  lemma PhoneTypingSecondNine()
    ensures TypeChar(HiddenHead(), Typing(PhoneWithNine(), 5, Some(5)), '9')
         == Some(Typing(PhoneWithNines(), 6, Some(6)))
  {
    var s := PhoneWithNine();
    assert SlotIndexOffsetFrom(s, 5, '9') == SlotIndexOffset(0, false) by {
      assert CanInsertHere(s[5], '9');
    }
    assert Slots.SetValue(s, 5, Some('9'), false) == (PhoneWithNines(), 1);
  }

  /** The typing loop of `insertFront("99")` ends on the caret 6 with slot 6 as candidate. */
  lemma PhoneTypingNinesLoop()
    ensures TypeAll(HiddenHead(), Typing(RusPhoneNumber(), 0, Some(0)), "99") == Typing(PhoneWithNines(), 6, Some(6))
  {
    PhoneTypingFirstNine();
    PhoneTypingSecondNine();
    assert "99"[1..] == "9" && "9"[1..] == [];
  }

  /** After the two nines no user input follows the caret. */
  lemma NothingAfterNines()
    ensures !AnyInputToTheRight(PhoneWithNines(), 6)
  {
    var s := PhoneWithNines();
    forall j | 6 <= j < |s|
      ensures !IsUserInput(s[j])
    {
      assert s[j] == RusPhoneNumber()[j];
      RusPhoneNumberLayout();
    }
    AnyInputToTheRightMeans(s, 6);
  }

  /** `insertFront("99")` after that deletion fills the first two digit slots and returns 6. */
  lemma PhoneTypingNines()
    ensures InsertOutcome(HiddenHead(), RusPhoneNumber(), false, 0, Some("99"), true)
         == Edit(PhoneWithNines(), 6, true)
  {
    PhoneTypingNinesLoop();
    assert HardcodedSequenceEndIndex(PhoneWithNines(), 6, 0) == -1 by {
      RusPhoneNumberLayout();
      assert !Hardcoded(PhoneWithNines()[6]);
    }
    NothingAfterNines();
  }

  /** One turn of the deletion loop on a slot that is not hardcoded deletes the value there. */
  lemma DeletingOneFreeSlot(s: seq<Slot>, cursor: nat)
    requires cursor < |s| && !Hardcoded(s[cursor])
    ensures var (s1, offset) := Slots.SetValue(s, cursor, None, false);
      RemoveSteps(s, cursor, 1, true, true) == RemoveSteps(s1, cursor + offset - 1, 0, true, true)
  {
  }

  /** With no turn left the deletion loop leaves slots and caret as they are. */
  lemma NoDeletionStepsLeft(s: seq<Slot>, cursor: int)
    ensures RemoveSteps(s, cursor, 0, true, true) == (s, cursor)
  {
  }

  /**
   * Deleting at 4 from a mask holding a nine at 4 and at 5 pulls the second nine into slot 4
   * and empties slot 5.
   */
  lemma PhoneNinesShiftLeft()
    ensures RemoveCurrentValue(PhoneWithNines(), 4) == PhoneWithNine()
  {
    var s := PhoneWithNines();
    RusPhoneNumberLayout();
    RemoveShiftsLeft(s, 4);
    var r := ShiftedLeftFrom(s, 4);
    forall k | 0 <= k < 18
      ensures r[k] == PhoneWithNine()[k]
    {
      if 6 <= k && !Hardcoded(s[k]) {
        NothingToPull(s, k + 1);
      } else if k == 5 {
        NothingToPull(s, 6);
      }
    }
  }

  /** `removeBackwards(4, 1)` on the two nines deletes the first of them; the caret stays at 4. */
  lemma PhoneDeletingFirstNine()
    ensures RemoveOutcome(HiddenHead(), PhoneWithNines(), 4, 1, true) == Edit(PhoneWithNine(), 4, false)
  {
    var s := PhoneWithNines();
    var d := Slots.SetValue(s, 4, None, false);
    assert d.0 == PhoneWithNine() && d.1 == 0 by {
      PhoneNinesShiftLeft();
    }
    assert !Hardcoded(s[4]);
    DeletingOneFreeSlot(s, 4);
    NoDeletionStepsLeft(d.0, 3);
    WalkOverPhoneHead(PhoneWithNine());
  }

  /**
   * `removeBackwards(3, 1)` on the hardcoded `(` hands the deletion to the slots on its left,
   * which are all hardcoded: nothing changes and the caret is 3.
   */
  lemma PhoneDeletingHardcodedHead()
    ensures RemoveOutcome(HiddenHead(), PhoneWithNine(), 3, 1, true) == Edit(PhoneWithNine(), 3, false)
  {
    var s := PhoneWithNine();
    assert Hardcoded(s[3]) && Hardcoded(s[2]) && Hardcoded(s[1]) && Hardcoded(s[0]);
    assert RemoveCurrentValue(s, 3) == s by {
      RemoveFromHardcodedDelegatesLeft(s, 3);
      assert PrevFree(s, 3) == -1;
    }
    assert RemoveSteps(s, 3, 1, true, true) == (s, 2);
    assert HardcodedWalk(s, 3) == 0;
  }

  // ------------------------------------------------ the `+359 ___ __ __` template

  import opened Parsers

  /** The template of the caret test on the phone parser. */
  function BulgarianTemplate(): string {
    "+359 ___ __ __"
  }

  /** The settings of that terminated mask with its hardcoded head shown. */
  function ShownHead(): Settings {
    Settings(true, false, false, false)
  }

  /**
   * The head of the parsed template: `+`, the digit literals `3`, `5`, `9` (the first one with
   * the replace rule) and a decoration space, then a digit slot.
   */
  ghost predicate BulgarianLayout(s: seq<Slot>) {
    |s| == 14 &&
    s[0] == HardcodedSlot('+') &&
    s[1] == NewSlot(LEADING_DIGIT_RULE, Some('3'), Some({Digit})) &&
    Hardcoded(s[2]) && Hardcoded(s[3]) && s[4] == DecorationSlot(' ') && s[5] == DigitSlot()
  }

  /** The phone parser lays the template out so. */
  lemma BulgarianHead()
    ensures BulgarianLayout(PhoneSlots(BulgarianTemplate()))
  {
    var m := BulgarianTemplate();
    assert m[0] == '+' && m[1] == '3' && m[2] == '5' && m[3] == '9' && m[4] == ' ' && m[5] == '_';
    PhoneSlotsAre(m, 0);
    PhoneSlotsAre(m, 1);
    PhoneSlotsAre(m, 2);
    PhoneSlotsAre(m, 3);
    PhoneSlotsAre(m, 4);
    PhoneSlotsAre(m, 5);
    assert !AfterDigitLiteral(m, 1);
  }

  /** Typing "3" from the head matches the literal `3` in slot 1 and moves the caret to 2. */
  lemma TypingThreeOverLayout(s: seq<Slot>)
    requires BulgarianLayout(s)
    ensures TypeAll(ShownHead(), Typing(s, 0, Some(0)), "3") == Typing(s, 2, Some(2))
  {
    assert SlotIndexOffsetFrom(s, 0, '3') == SlotIndexOffset(1, false) by {
      assert !CanInsertHere(s[0], '3') && CanInsertHere(s[1], '3');
    }
    assert CheckRule(s[1], RULE_INPUT_REPLACE) && !CheckRule(s[1], RULE_FORBID_CURSOR_MOVE_RIGHT);
    assert SetNewValue(s, 1, 0, '3', true) == (s, 1);
    assert Slots.SetValue(s, 1, Some('3'), true) == (s, 1);
    assert "3"[1..] == [];
  }

  /** Typing "3" then passes over the hardcoded run `59 `: the caret is 5 and nothing changes. */
  lemma InsertFrontOverLayout(s: seq<Slot>)
    requires BulgarianLayout(s)
    requires forall k :: 0 <= k < |s| ==> !IsUserInput(s[k])
    ensures InsertOutcome(ShownHead(), s, false, 0, Some("3"), true) == Edit(s, 5, true)
  {
    TypingThreeOverLayout(s);
    assert !Hardcoded(s[5]) && Hardcoded(s[4]);
    assert HardcodedSequenceEndIndex(s, 4, 2) == 3;
    assert HardcodedSequenceEndIndex(s, 2, 0) == 3;
    AnyInputToTheRightMeans(s, 5);
  }

  /**
   * Deleting one character at the decoration space hands the deletion to the hardcoded slots on
   * its left and walks back over them: nothing changes and the caret is 4.
   */
  lemma DeletingSpaceOverLayout(s: seq<Slot>)
    requires BulgarianLayout(s)
    ensures RemoveOutcome(ShownHead(), s, 4, 1, true) == Edit(s, 4, true)
  {
    assert RemoveCurrentValue(s, 4) == s by {
      RemoveFromHardcodedDelegatesLeft(s, 4);
      assert PrevFree(s, 4) == -1;
    }
    assert RemoveSteps(s, 4, 1, true, true) == (s, 3);
    assert HardcodedWalk(s, 4) == 0;
  }

  /**
   * `insertFront("3")` on the parsed template passes over the literal `3` and the hardcoded run
   * after it: the caret is 5.
   */
  lemma BulgarianInsertFront()
    ensures var s := PhoneSlots(BulgarianTemplate());
      InsertOutcome(ShownHead(), s, false, 0, Some("3"), true) == Edit(s, 5, true)
  {
    BulgarianHead();
    PhoneSlotsHoldNoInput(BulgarianTemplate());
    InsertFrontOverLayout(PhoneSlots(BulgarianTemplate()));
  }

  /** `removeBackwards(4, 1)` on the parsed template changes nothing; the caret is 4. */
  lemma BulgarianDeletingSpace()
    ensures var s := PhoneSlots(BulgarianTemplate());
      RemoveOutcome(ShownHead(), s, 4, 1, true) == Edit(s, 4, true)
  {
    BulgarianHead();
    DeletingSpaceOverLayout(PhoneSlots(BulgarianTemplate()));
  }
}
