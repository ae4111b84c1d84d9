/**
 * The slot constructors and fixture tables of PredefinedSlots.java.
 */
module PredefinedSlots {
  import opened Wrappers
  import opened SlotValidators
  import SlotValidatorSet
  import opened Slots

  /** `hardcodedSlot(c)`: a slot with the hardcoded rules holding `c`, with no validators. */
  function HardcodedSlot(c: char): (r: Slot)
    ensures Hardcoded(r) && r.value == Some(c)
    ensures CheckRule(r, RULE_INPUT_REPLACE) && r.tags == {} && r.validators == {}
    ensures forall d :: CanInsertHere(r, d) <==> d == c
  {
    NewSlot(RULES_HARDCODED, Some(c), None)
  }

  /** `new Slot(null, validator)`: an empty slot with the default rules and that one validator. */
  function ValidatedSlot(v: Validator): (r: Slot)
    ensures r.value.None? && r.rules == RULES_DEFAULT && r.tags == {} && !Hardcoded(r)
    ensures r.validators == SlotValidatorSet.Flatten([SlotValidatorSet.Single(v)])
  {
    NewSlot(RULES_DEFAULT, None, Some({v}))
  }

  /** `digit()`: an empty slot that takes exactly the digits. */
  function DigitSlot(): (r: Slot)
    ensures r.value.None? && r.rules == RULES_DEFAULT && r.tags == {}
    ensures forall c :: CanInsertHere(r, c) <==> IsDigit(c)
  {
    ValidatedSlot(Digit)
  }

  /** `any()`: an empty slot that takes every character. */
  function AnySlot(): (r: Slot)
    ensures r.value.None? && r.rules == RULES_DEFAULT && r.tags == {}
    ensures forall c :: CanInsertHere(r, c)
  {
    ValidatedSlot(Generous)
  }

  /** `maskableDigit()`: an empty slot that takes digits and the mask characters 'X', 'x' and '*'. */
  function MaskableDigitSlot(): (r: Slot)
    ensures r.value.None? && r.rules == RULES_DEFAULT && r.tags == {}
    ensures forall c :: CanInsertHere(r, c) <==> IsDigit(c) || c == 'X' || c == 'x' || c == '*'
  {
    ValidatedSlot(DefaultMaskedDigit())
  }

  /** A hardcoded decoration slot: `hardcodedSlot(c).withTags(TAG_DECORATION)`. */
  function DecorationSlot(c: char): (r: Slot)
    ensures Hardcoded(r) && r.value == Some(c) && r.tags == {TAG_DECORATION}
  {
    WithTag(HardcodedSlot(c), TAG_DECORATION)
  }

  /** `SINGLE_SLOT` */
  function SingleSlot(): (r: seq<Slot>)
    ensures |r| == 1 && !Hardcoded(r[0])
  {
    [AnySlot()]
  }

  /** `RUS_PHONE_NUMBER`: `+7 (___) ___-__-__`. */
  function RusPhoneNumber(): (r: seq<Slot>)
    ensures |r| == 18
  {
    [HardcodedSlot('+'), HardcodedSlot('7'), DecorationSlot(' '), DecorationSlot('('),
     DigitSlot(), DigitSlot(), DigitSlot(), DecorationSlot(')'), DecorationSlot(' '),
     DigitSlot(), DigitSlot(), DigitSlot(), DecorationSlot('-'),
     DigitSlot(), DigitSlot(), DecorationSlot('-'), DigitSlot(), DigitSlot()]
  }

  /**
   * The layout of `RUS_PHONE_NUMBER`: the `+7` head is hardcoded without a tag, the other
   * hardcoded slots are decorations, and every other slot is an empty digit slot.
   */
  lemma RusPhoneNumberLayout()
    ensures var r := RusPhoneNumber();
      (forall k :: 0 <= k < 18 ==> (Hardcoded(r[k]) <==> k in {0, 1, 2, 3, 7, 8, 12, 15})) &&
      (forall k :: 0 <= k < 18 ==> (HasTag(r[k], TAG_DECORATION) <==> Hardcoded(r[k]) && k >= 2)) &&
      (forall k :: 0 <= k < 18 && !Hardcoded(r[k]) ==> r[k] == DigitSlot())
  {
  }

  /** `RUS_PASSPORT`: four digits, an untagged space, six digits. */
  function RusPassport(): (r: seq<Slot>)
    ensures |r| == 11
    ensures forall k :: 0 <= k < 11 ==> (Hardcoded(r[k]) <==> k == 4)
    ensures forall k :: 0 <= k < 11 ==> r[k].tags == {}
    ensures r[4].value == Some(' ')
  {
    [DigitSlot(), DigitSlot(), DigitSlot(), DigitSlot(), HardcodedSlot(' '),
     DigitSlot(), DigitSlot(), DigitSlot(), DigitSlot(), DigitSlot(), DigitSlot()]
  }

  /** Four groups of four digits parted by decoration spaces. */
  function CardNumberStandard(): (r: seq<Slot>)
    ensures |r| == 19
    ensures forall k :: 0 <= k < 19 ==> (Hardcoded(r[k]) <==> k in {4, 9, 14})
    ensures forall k :: 0 <= k < 19 ==> (HasTag(r[k], TAG_DECORATION) <==> Hardcoded(r[k]))
    ensures forall k :: 0 <= k < 19 && Hardcoded(r[k]) ==> r[k] == DecorationSlot(' ')
    ensures forall k :: 0 <= k < 19 && !Hardcoded(r[k]) ==> r[k] == DigitSlot()
  {
    var d, sp := DigitSlot(), DecorationSlot(' ');
    [d, d, d, d, sp, d, d, d, d, sp, d, d, d, d, sp, d, d, d, d]
  }

  /** Eight digits, a decoration space, four digits. */
  function CardNumberMaestro(): (r: seq<Slot>)
    ensures |r| == 13
    ensures forall k :: 0 <= k < 13 ==> (Hardcoded(r[k]) <==> k == 8)
    ensures forall k :: 0 <= k < 13 ==> (HasTag(r[k], TAG_DECORATION) <==> k == 8)
    ensures forall k :: 0 <= k < 13 && k != 8 ==> r[k] == DigitSlot()
  {
    var d, sp := DigitSlot(), DecorationSlot(' ');
    [d, d, d, d, d, d, d, d, sp, d, d, d, d]
  }

  /** The standard card layout whose digits after the first also take the mask characters. */
  function CardNumberStandardMaskable(): (r: seq<Slot>)
    ensures |r| == 19
    ensures forall k :: 0 <= k < 19 ==> (Hardcoded(r[k]) <==> k in {4, 9, 14})
    ensures forall k :: 0 <= k < 19 ==> (HasTag(r[k], TAG_DECORATION) <==> Hardcoded(r[k]))
    ensures r[0] == DigitSlot()
    ensures forall k :: 0 < k < 19 && !Hardcoded(r[k]) ==> r[k] == MaskableDigitSlot()
  {
    var d, m, sp := DigitSlot(), MaskableDigitSlot(), DecorationSlot(' ');
    [d, m, m, m, sp, m, m, m, m, sp, m, m, m, m, sp, m, m, m, m]
  }

  /** The Maestro layout whose digits after the first also take the mask characters. */
  function CardNumberMaestroMaskable(): (r: seq<Slot>)
    ensures |r| == 13
    ensures forall k :: 0 <= k < 13 ==> (Hardcoded(r[k]) <==> k == 8)
    ensures forall k :: 0 <= k < 13 ==> (HasTag(r[k], TAG_DECORATION) <==> k == 8)
    ensures r[0] == DigitSlot()
    ensures forall k :: 0 < k < 13 && k != 8 ==> r[k] == MaskableDigitSlot()
  {
    var d, m, sp := DigitSlot(), MaskableDigitSlot(), DecorationSlot(' ');
    [d, m, m, m, m, m, m, m, sp, m, m, m, m]
  }
}
