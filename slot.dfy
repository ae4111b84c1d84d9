/**
 * One typed position of a mask (Slot.java). The library links slots into a doubly linked
 * chain; here a chain is a `seq<Slot>` and the neighbours of slot `i` are `i - 1` and `i + 1`.
 * The recursive push and pull of Slot.setValue become functions of (chain, index) that return
 * the whole new chain.
 */
module Slots {
  import opened Wrappers
  import opened SlotValidators
  import SlotValidatorSet

  /** Input typed into the slot replaces its value; other slots are not touched. */
  const RULE_INPUT_REPLACE: bv32 := 1
  /** Input is moved on to the next slot and the slot keeps its value (hardcoded slots). */
  const RULE_INPUT_MOVES_INPUT: bv32 := 2
  const MASK_INPUT_RULES: bv32 := 3
  /** With no input rule, the current value is moved to the next slot before the new one is stored. */
  const RULES_DEFAULT: bv32 := 0
  const RULES_HARDCODED: bv32 := RULE_INPUT_MOVES_INPUT | RULE_INPUT_REPLACE
  const RULE_FORBID_CURSOR_MOVE_LEFT: bv32 := 4
  const RULE_FORBID_CURSOR_MOVE_RIGHT: bv32 := 8

  /** Tag of slots that only decorate the text and are left out of the unformatted text. */
  const TAG_DECORATION: int := 14779
  const PLACEHOLDER_DEFAULT: char := '_'

  /**
   * A slot: its rule flags, its value (None: empty), its validators, its tags and its optional
   * value interpreter, an opaque map applied to every character before it is checked or stored.
   */
  datatype Slot = Slot(
    rules: bv32,
    value: Option<char>,
    validators: SlotValidatorSet.ValidatorSet,
    tags: set<int>,
    interpreter: Option<char -> char>)

  /** `new Slot(rules, value, validators)`: a null validator set becomes the empty set. */
  function NewSlot(rules: bv32, value: Option<char>, validators: Option<SlotValidatorSet.ValidatorSet>): Slot {
    Slot(rules, value, validators.GetOr({}), {}, None)
  }

  /** The copy constructor `new Slot(slotToCopy)`: every field is carried over. */
  function Copy(s: Slot): (r: Slot)
    ensures SlotEquals(r, s) && r.interpreter == s.interpreter
  {
    Slot(s.rules, s.value, s.validators, s.tags, s.interpreter)
  }

  /** `withTags(tag)` */
  function WithTag(s: Slot, tag: int): Slot {
    s.(tags := s.tags + {tag})
  }

  predicate HasTag(s: Slot, tag: int) {
    tag in s.tags
  }

  /** `equals`: rules, value, tags and validators agree; the interpreter is not compared. */
  predicate SlotEquals(a: Slot, b: Slot) {
    a.rules == b.rules && a.value == b.value && a.tags == b.tags && a.validators == b.validators
  }

  /** `checkRule(rule)`: every bit of `rule` is set. */
  predicate CheckRule(s: Slot, rule: bv32) {
    s.rules & rule == rule
  }

  /** `hardcoded()`: the slot holds a value and moves input on. */
  predicate Hardcoded(s: Slot) {
    s.value.Some? && CheckRule(s, RULE_INPUT_MOVES_INPUT)
  }

  /** A value the user typed: a filled slot that is not hardcoded. */
  predicate IsUserInput(s: Slot) {
    s.value.Some? && !Hardcoded(s)
  }

  /** Applies the slot's value interpreter; an absent value stays absent. */
  function Interpret(s: Slot, v: Option<char>): (r: Option<char>)
    ensures r.None? <==> v.None?
    ensures s.interpreter.None? ==> r == v
  {
    if s.interpreter.Some? && v.Some? then Some(s.interpreter.value(v.value)) else v
  }

  /** `canInsertHere(c)`: a hardcoded slot accepts only its own value, any other slot asks its validators. */
  predicate CanInsertHere(s: Slot, c: char) {
    var v := Interpret(s, Some(c)).value;
    if Hardcoded(s) then s.value.value == v else SlotValidatorSet.Validate(s.validators, v)
  }

  /** `anyInputToTheRight()` of slot `i`: some slot from `i` to the end holds user input. */
  predicate AnyInputToTheRight(s: seq<Slot>, i: nat)
    requires i < |s|
    decreases |s| - i
  {
    if s[i].value.Some? && !Hardcoded(s[i]) then true
    else if i + 1 < |s| then AnyInputToTheRight(s, i + 1)
    else false
  }

  /** `hardcodedSequenceEndIndex(fromIndex)` of slot `i`. */
  function HardcodedSequenceEndIndex(s: seq<Slot>, i: nat, fromIndex: int): int
    requires i < |s|
    decreases |s| - i
  {
    if Hardcoded(s[i]) && (i + 1 == |s| || !Hardcoded(s[i + 1])) then fromIndex + 1
    else if Hardcoded(s[i]) && Hardcoded(s[i + 1]) then HardcodedSequenceEndIndex(s, i + 1, fromIndex + 1)
    else -1
  }

  /** Stores `v` as the value of slot `i`. */
  function SetSlotValue(s: seq<Slot>, i: nat, v: Option<char>): seq<Slot>
    requires i < |s|
  {
    s[i := s[i].(value := v)]
  }

  /** `b` differs from `a` at most in its value. */
  ghost predicate SameShape(a: Slot, b: Slot) {
    b == a.(value := b.value)
  }

  /** Every slot of `r` is the slot of `s` at that index with perhaps another value. */
  ghost predicate ValuesOnlyChanged(s: seq<Slot>, r: seq<Slot>) {
    |r| == |s| && forall k :: 0 <= k < |s| ==> SameShape(s[k], r[k])
  }

  /** No slot hardcoded in `s` is changed in `r`. */
  ghost predicate HardcodedKept(s: seq<Slot>, r: seq<Slot>)
    requires |r| == |s|
  {
    forall k :: 0 <= k < |s| && Hardcoded(s[k]) ==> r[k] == s[k]
  }

  /**
   * `removeCurrentValue()` on slot `i`: a slot that is not hardcoded pulls its new value from
   * the chain to its right; a hardcoded slot hands the deletion to its previous slot.
   */
  function RemoveCurrentValue(s: seq<Slot>, i: nat): (r: seq<Slot>)
    requires i < |s|
    ensures ValuesOnlyChanged(s, r) && HardcodedKept(s, r)
    decreases if Hardcoded(s[i]) then 1 else 0, if Hardcoded(s[i]) then i else |s| - i, 1
  {
    if !Hardcoded(s[i]) then
      var (s1, v) := PullValueFromSlot(s, i + 1);
      SetSlotValue(s1, i, v)
    else if i > 0 then RemoveCurrentValue(s, i - 1)
    else s
  }

  /**
   * `pullValueFromSlot(slot j)`: takes the value of the first slot from `j` on that is not
   * hardcoded (skipping hardcoded ones) and removes it from there; index `|s|` is the null slot.
   */
  function PullValueFromSlot(s: seq<Slot>, j: nat): (r: (seq<Slot>, Option<char>))
    requires j <= |s|
    ensures ValuesOnlyChanged(s, r.0) && HardcodedKept(s, r.0)
    decreases 0, |s| - j, 2
  {
    if j == |s| then (s, None)
    else if !Hardcoded(s[j]) then (RemoveCurrentValue(s, j), s[j].value)
    else if j + 1 < |s| then PullValueFromSlot(s, j + 1)
    else (s, None)
  }

  /**
   * `setValueInner(offset, newValue, fromLeft)` on slot `i`: returns the new chain and the caret
   * offset. A null value (after interpretation) is a deletion, which returns 1 when the slot
   * forbids moving the caret left and 0 otherwise; any other value is stored or pushed on.
   */
  function SetValueInner(s: seq<Slot>, i: nat, offset: int, newValue: Option<char>, fromLeft: bool): (r: (seq<Slot>, int))
    requires i < |s|
    ensures ValuesOnlyChanged(s, r.0) && HardcodedKept(s, r.0)
    ensures newValue.Some? ==> forall k :: 0 <= k < i ==> r.0[k] == s[k]
    ensures newValue.None? ==> r.1 == if CheckRule(s[i], RULE_FORBID_CURSOR_MOVE_LEFT) then 1 else 0
    ensures 0 <= offset ==> 0 <= r.1 <= offset + |s| - i
    decreases |s| - i, 2
  {
    var v := Interpret(s[i], newValue);
    if v.None? then
      (RemoveCurrentValue(s, i), if CheckRule(s[i], RULE_FORBID_CURSOR_MOVE_LEFT) then 1 else 0)
    else
      SetNewValue(s, i, offset, v.value, fromLeft)
  }

  /**
   * `setNewValue(offset, newValue, fromLeft)` on slot `i`. A hardcoded slot already holding
   * `newValue` only advances the caret, unless it forbids input from the left. A slot that moves
   * input (or forbids it from the left) pushes `newValue` on to the next slot with `offset + 1`
   * and keeps its own value. A filled slot with the default rules first pushes its current value
   * on to the next slot. Otherwise the slot stores `newValue` and advances the caret.
   */
  function SetNewValue(s: seq<Slot>, i: nat, offset: int, newValue: char, fromLeft: bool): (r: (seq<Slot>, int))
    requires i < |s|
    ensures ValuesOnlyChanged(s, r.0) && HardcodedKept(s, r.0)
    ensures forall k :: 0 <= k < i ==> r.0[k] == s[k]
    ensures 0 <= offset ==> 0 <= r.1 <= offset + |s| - i
    decreases |s| - i, 1
  {
    var slot := s[i];
    var forbiddenInputFromLeft := fromLeft && CheckRule(slot, RULE_INPUT_MOVES_INPUT) && !CheckRule(slot, RULE_INPUT_REPLACE);
    if Hardcoded(slot) && !forbiddenInputFromLeft && slot.value == Some(newValue) then
      (s, if CheckRule(slot, RULE_FORBID_CURSOR_MOVE_RIGHT) then offset else offset + 1)
    else
      var moves := CheckRule(slot, RULE_INPUT_MOVES_INPUT) || forbiddenInputFromLeft;
      var (s1, pushedOffset) := if moves then PushValueToSlot(s, i, offset + 1, newValue) else (s, 0);
      // the first push leaves slot i alone, so `slot.value` is still its value here
      var s2 := if slot.value.Some? && slot.rules & MASK_INPUT_RULES == RULES_DEFAULT
                then PushValueToSlot(s1, i, 0, slot.value.value).0 else s1;
      if moves then (s2, pushedOffset)
      else (SetSlotValue(s2, i, Some(newValue)), if CheckRule(slot, RULE_FORBID_CURSOR_MOVE_RIGHT) then offset else offset + 1)
  }

  /** `pushValueToSlot(offset, newValue, nextSlot)` from slot `i`: without a next slot it returns 0. */
  function PushValueToSlot(s: seq<Slot>, i: nat, offset: int, newValue: char): (r: (seq<Slot>, int))
    requires i < |s|
    ensures ValuesOnlyChanged(s, r.0) && HardcodedKept(s, r.0)
    ensures forall k :: 0 <= k <= i ==> r.0[k] == s[k]
    ensures 0 <= offset ==> 0 <= r.1 <= offset + |s| - i - 1
    decreases |s| - i, 0
  {
    if i + 1 == |s| then (s, 0) else SetValueInner(s, i + 1, offset, Some(newValue), true)
  }

  /** `setValue(newValue, fromLeft)` on slot `i`. */
  function SetValue(s: seq<Slot>, i: nat, newValue: Option<char>, fromLeft: bool): (r: (seq<Slot>, int))
    requires i < |s|
    ensures ValuesOnlyChanged(s, r.0) && HardcodedKept(s, r.0)
    ensures 0 <= r.1 <= |s| - i
    ensures newValue.None? ==> (r.1 == 1 <==> CheckRule(s[i], RULE_FORBID_CURSOR_MOVE_LEFT))
  {
    SetValueInner(s, i, 0, newValue, fromLeft)
  }
}
