/**
 * The two template parsers: UnderscoreDigitSlotsParser.java turns `_` into a digit slot and any
 * other character into a hardcoded slot; PhoneNumberUnderscoreSlotsParser.java also turns digit
 * literals into hardcoded digit slots whose rules depend on the literal before them.
 */
module Parsers {
  import opened Wrappers
  import opened SlotValidators
  import opened Slots
  import opened PredefinedSlots

  const SLOT_STUB: char := '_'
  const PLUS_SIGN: char := '+'

  // ---------------------------------------------------------------- UnderscoreDigitSlotsParser

  /** `slotFromChar(c)` of the underscore parser. */
  function SlotFromChar(c: char): (r: Slot)
    ensures c == SLOT_STUB ==> r == DigitSlot()
    ensures c != SLOT_STUB ==> r == HardcodedSlot(c)
    ensures Hardcoded(r) <==> c != SLOT_STUB
  {
    if c == SLOT_STUB then DigitSlot() else HardcodedSlot(c)
  }

  /** `parseSlots(rawMask)`: a null or empty template throws; otherwise one slot per character. */
  method ParseSlots(rawMask: Option<string>) returns (r: Result<seq<Slot>>)
    ensures rawMask.None? || rawMask == Some([]) ==> r == Failure(IllegalArgument)
    ensures rawMask.Some? && rawMask.value != [] ==> r.Success? && |r.value| == |rawMask.value|
    ensures r.Success? ==> forall i :: 0 <= i < |r.value| ==> r.value[i] == SlotFromChar(rawMask.value[i])
  {
    if rawMask.None? || |rawMask.value| == 0 {
      return Failure(IllegalArgument);
    }
    var mask := rawMask.value;
    var result := new Slot[|mask|](_ => DigitSlot());
    for index := 0 to |mask|
      invariant forall i :: 0 <= i < index ==> result[i] == SlotFromChar(mask[i])
    {
      result[index] := SlotFromChar(mask[index]);
    }
    return Success(result[..]);
  }

  /** The slots of a parsed template: digit slots exactly where it holds `_`. */
  lemma UnderscoreTemplateSlots(mask: string, slots: seq<Slot>)
    requires |slots| == |mask| && forall i :: 0 <= i < |mask| ==> slots[i] == SlotFromChar(mask[i])
    ensures forall i :: 0 <= i < |mask| ==> (Hardcoded(slots[i]) <==> mask[i] != SLOT_STUB)
    ensures forall i :: 0 <= i < |mask| && mask[i] != SLOT_STUB ==> slots[i].value == Some(mask[i])
    ensures forall i :: 0 <= i < |mask| && mask[i] == SLOT_STUB ==> forall c :: CanInsertHere(slots[i], c) <==> IsDigit(c)
  {
  }

  // ---------------------------------------------------------------- PhoneNumberUnderscoreSlotsParser

  /** The rule given to a digit literal that follows the start or a literal that is not a digit. */
  const LEADING_DIGIT_RULE: bv32 := RULE_INPUT_MOVES_INPUT | RULE_INPUT_REPLACE
  /** The rule given to a digit literal that follows another digit literal. */
  const FOLLOWING_DIGIT_RULE: bv32 := RULE_INPUT_MOVES_INPUT

  /** `slotFromNonUnderscoredChar(c)` under the current `rule`: the slot and the rule afterwards. */
  function PhoneSlotFromLiteral(c: char, rule: bv32): (Slot, bv32) {
    if !IsDigit(c) then
      (if c == PLUS_SIGN then HardcodedSlot(c) else DecorationSlot(c), LEADING_DIGIT_RULE)
    else
      (NewSlot(rule, Some(c), Some({Digit})), FOLLOWING_DIGIT_RULE)
  }

  /** `slotFromChar(c)` of the phone parser under `rule`: `_` leaves the rule alone. */
  function PhoneSlotFromChar(c: char, rule: bv32): (Slot, bv32) {
    if c == SLOT_STUB then (DigitSlot(), rule) else PhoneSlotFromLiteral(c, rule)
  }

  /** The loop of `parseSlots` over `mask` from index `i` with the rule `rule`. */
  function PhoneSlotsFrom(mask: string, i: nat, rule: bv32): (r: seq<Slot>)
    requires i <= |mask|
    ensures |r| == |mask| - i
    decreases |mask| - i
  {
    if i == |mask| then []
    else
      var (slot, next) := PhoneSlotFromChar(mask[i], rule);
      [slot] + PhoneSlotsFrom(mask, i + 1, next)
  }

  /** The slots the phone parser builds from a template, whatever the parser did before. */
  function PhoneSlots(mask: string): (r: seq<Slot>)
    ensures |r| == |mask|
  {
    PhoneSlotsFrom(mask, 0, LEADING_DIGIT_RULE)
  }

  /** Whether the last character before `i` that is not `_` is a digit. */
  predicate AfterDigitLiteral(mask: string, i: nat)
    requires i <= |mask|
    decreases i
  {
    if i == 0 then false
    else if mask[i - 1] == SLOT_STUB then AfterDigitLiteral(mask, i - 1)
    else IsDigit(mask[i - 1])
  }

  /** The rule the loop carries when it reaches index `i`. */
  function RuleAt(mask: string, i: nat): bv32
    requires i <= |mask|
  {
    if AfterDigitLiteral(mask, i) then FOLLOWING_DIGIT_RULE else LEADING_DIGIT_RULE
  }

  /** The class with its mutable `rule` field. */
  class PhoneNumberUnderscoreSlotsParser {
    var rule: bv32

    constructor ()
      ensures rule == 0
    {
      rule := 0;
    }

    /** `slotFromNonUnderscoredChar(c)`: builds the slot and moves `rule` on. */
    method SlotFromNonUnderscoredChar(c: char) returns (slot: Slot)
      requires c != SLOT_STUB
      modifies this
      ensures (slot, rule) == PhoneSlotFromLiteral(c, old(rule))
    {
      if !IsDigit(c) {
        rule := LEADING_DIGIT_RULE;
        var hardcoded := HardcodedSlot(c);
        slot := if c == PLUS_SIGN then hardcoded else WithTag(hardcoded, TAG_DECORATION);
        return;
      }
      slot := NewSlot(rule, Some(c), Some({Digit}));
      rule := FOLLOWING_DIGIT_RULE;
    }

    /** `slotFromChar(c)` inherited from the underscore parser, with the overridden literal case. */
    method SlotFromChar(c: char) returns (slot: Slot)
      modifies this
      ensures (slot, rule) == PhoneSlotFromChar(c, old(rule))
    {
      if c == SLOT_STUB {
        slot := DigitSlot();
      } else {
        slot := SlotFromNonUnderscoredChar(c);
      }
    }

    /** `parseSlots(rawMask)`: resets `rule`, then fills the result one character at a time. */
    method ParseSlots(rawMask: Option<string>) returns (r: Result<seq<Slot>>)
      modifies this
      ensures rawMask.None? || rawMask == Some([]) ==> r == Failure(IllegalArgument)
      ensures rawMask.Some? && rawMask.value != [] ==> r == Success(PhoneSlots(rawMask.value))
    {
      rule := LEADING_DIGIT_RULE;
      if rawMask.None? || |rawMask.value| == 0 {
        return Failure(IllegalArgument);
      }
      var mask := rawMask.value;
      var result := new Slot[|mask|](_ => DigitSlot());
      for index := 0 to |mask|
        invariant result[..index] + PhoneSlotsFrom(mask, index, rule) == PhoneSlots(mask)
      {
        var slot := SlotFromChar(mask[index]);
        result[index] := slot;
        assert result[..index + 1] == result[..index] + [slot];
      }
      assert PhoneSlotsFrom(mask, |mask|, rule) == [];
      assert result[..|mask|] == result[..];
      assert result[..] == PhoneSlots(mask);
      return Success(result[..]);
    }
  }

  /** The rule threaded from the start reaches index `i` as `RuleAt(mask, i)`. */
  lemma {:induction false} PhoneSlotsFromRule(mask: string, i: nat)
    requires i <= |mask|
    ensures PhoneSlots(mask) == PhoneSlots(mask)[..i] + PhoneSlotsFrom(mask, i, RuleAt(mask, i))
  {
    if i > 0 {
      PhoneSlotsFromRule(mask, i - 1);
      var rule := RuleAt(mask, i - 1);
      var (slot, next) := PhoneSlotFromChar(mask[i - 1], rule);
      assert next == RuleAt(mask, i);
      assert PhoneSlotsFrom(mask, i - 1, rule) == [slot] + PhoneSlotsFrom(mask, i, next);
      assert PhoneSlots(mask)[..i] == PhoneSlots(mask)[..i - 1] + [slot];
    }
  }

  /**
   * The slots of the phone parser: `_` gives a digit slot; `+` a plain hardcoded slot; any other
   * character that is not a digit a hardcoded decoration slot; a digit a hardcoded slot holding it
   * that takes only digits, with the replace rule exactly when it follows the start or a literal
   * that is not a digit.
   */
  lemma PhoneSlotsAre(mask: string, i: nat)
    requires i < |mask|
    ensures var s := PhoneSlots(mask)[i];
      var c := mask[i];
      (c == SLOT_STUB ==> s == DigitSlot()) &&
      (c == PLUS_SIGN ==> s == HardcodedSlot(c)) &&
      (c != SLOT_STUB && c != PLUS_SIGN && !IsDigit(c) ==> s == DecorationSlot(c)) &&
      (IsDigit(c) ==>
        s == NewSlot(RuleAt(mask, i), Some(c), Some({Digit})) &&
        Hardcoded(s) && s.value == Some(c) && s.validators == {Digit} && s.tags == {} &&
        (CheckRule(s, RULE_INPUT_REPLACE) <==> !AfterDigitLiteral(mask, i)))
  {
    PhoneSlotsFromRule(mask, i);
    assert PhoneSlots(mask)[i] == PhoneSlotsFrom(mask, i, RuleAt(mask, i))[0];
  }

  /**
   * A digit literal that follows another digit literal forbids input from the left: a character
   * typed before it is pushed on, never compared with the literal.
   */
  lemma FollowingDigitIsForbiddenFromLeft(mask: string, i: nat)
    requires i < |mask| && IsDigit(mask[i]) && AfterDigitLiteral(mask, i)
    ensures var s := PhoneSlots(mask)[i];
      CheckRule(s, RULE_INPUT_MOVES_INPUT) && !CheckRule(s, RULE_INPUT_REPLACE)
  {
    PhoneSlotsAre(mask, i);
    PhoneSlotsFromRule(mask, i);
    assert PhoneSlots(mask)[i] == PhoneSlotsFrom(mask, i, RuleAt(mask, i))[0];
  }

  /** A template fresh from the phone parser holds no user input: its only values are hardcoded. */
  lemma PhoneSlotsHoldNoInput(mask: string)
    ensures forall k :: 0 <= k < |mask| ==> !IsUserInput(PhoneSlots(mask)[k])
  {
    forall k | 0 <= k < |mask|
      ensures !IsUserInput(PhoneSlots(mask)[k])
    {
      PhoneSlotsAre(mask, k);
    }
  }
}
