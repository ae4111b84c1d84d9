/**
 * The offsets `setValue` returns in the `setValueOffset` case of SlotTest.java, on a chain of a
 * hardcoded slot followed by two slots with the default rules.
 */
module SlotScenarios {
  import opened Wrappers
  import opened Slots

  /** `new Slot(RULE_INPUT_MOVES_INPUT, 'a', null)`: hardcoded, and it forbids input from the left. */
  function MovingA(): Slot {
    NewSlot(RULE_INPUT_MOVES_INPUT, Some('a'), None)
  }

  /** A slot with the default rules holding `c`. */
  function Plain(c: char): Slot {
    NewSlot(RULES_DEFAULT, Some(c), None)
  }

  /** Typing the value a hardcoded slot already holds only advances the caret by one. */
  lemma TypingHeldValue()
    ensures Slots.SetValue([MovingA(), Plain('2'), Plain('3')], 0, Some('a'), false)
         == ([MovingA(), Plain('2'), Plain('3')], 1)
  {
    var s := [MovingA(), Plain('2'), Plain('3')];
    assert Hardcoded(s[0]);
    assert SetNewValue(s, 0, 0, 'a', false) == (s, 1);
  }

  /**
   * Another value typed at that slot is pushed into the next one, whose value is pushed on in
   * turn (the last value falls off the end); the caret lands after the pushed value.
   */
  lemma TypingPushesIntoDefault()
    ensures Slots.SetValue([MovingA(), Plain('2'), Plain('3')], 0, Some('3'), false)
         == ([MovingA(), Plain('3'), Plain('2')], 2)
  {
    var s := [MovingA(), Plain('2'), Plain('3')];
    var s1 := [MovingA(), Plain('2'), Plain('2')];
    assert PushValueToSlot(s, 2, 0, '3') == (s, 0);
    assert SetSlotValue(s, 2, Some('2')) == s1;
    assert SetNewValue(s, 2, 0, '2', true) == (s1, 1);
    assert PushValueToSlot(s, 1, 0, '2') == (s1, 1);
    assert PushValueToSlot(s1, 1, 0, '2').0 == s1;
    assert SetSlotValue(s1, 1, Some('3')) == [MovingA(), Plain('3'), Plain('2')];
    assert SetNewValue(s, 1, 1, '3', true) == ([MovingA(), Plain('3'), Plain('2')], 2);
    assert PushValueToSlot(s, 0, 1, '3') == ([MovingA(), Plain('3'), Plain('2')], 2);
    assert SetNewValue(s, 0, 0, '3', false) == ([MovingA(), Plain('3'), Plain('2')], 2);
  }

  /**
   * Two such hardcoded slots in a row: a value pushed from the first into the second is not
   * compared with the second's own value, since it forbids input from the left, and travels on.
   */
  lemma PushingThroughTwoHardcoded()
    ensures Slots.SetValue([MovingA(), MovingA(), Plain('3'), Plain('2')], 0, Some(' '), false)
         == ([MovingA(), MovingA(), Plain(' '), Plain('3')], 3)
  {
    var s := [MovingA(), MovingA(), Plain('3'), Plain('2')];
    var s1 := [MovingA(), MovingA(), Plain('3'), Plain('3')];
    var r := [MovingA(), MovingA(), Plain(' '), Plain('3')];
    assert PushValueToSlot(s, 3, 0, '2') == (s, 0);
    assert SetSlotValue(s, 3, Some('3')) == s1;
    assert SetNewValue(s, 3, 0, '3', true) == (s1, 1);
    assert PushValueToSlot(s, 2, 0, '3') == (s1, 1);
    assert PushValueToSlot(s1, 2, 0, '3').0 == s1;
    assert SetSlotValue(s1, 2, Some(' ')) == r;
    assert SetNewValue(s, 2, 2, ' ', true) == (r, 3);
    assert PushValueToSlot(s, 1, 2, ' ') == (r, 3);
    assert SetNewValue(s, 1, 1, ' ', true) == (r, 3);
    assert PushValueToSlot(s, 0, 1, ' ') == (r, 3);
    assert SetNewValue(s, 0, 0, ' ', false) == (r, 3);
  }
}
