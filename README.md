# decoro slot-chain masking engine in Dafny

This project models the core of the `ru.tinkoff.decoro` Android input-mask library. A mask is a
chain of *slots*. Each slot holds at most one character and carries a rule word, a set of
validators that decide which characters it accepts, a set of tags, and an optional value
interpreter. Hardcoded slots hold the fixed parts of the mask: the `+7` head of a phone
number, the spaces of a card number. Free slots hold user input.

Typing walks the chain from a position. It finds the next slot that accepts the character,
writes the character there, and pushes displaced values to the right. A hardcoded slot that
will not take a character passes it on. Deleting walks backwards: every free slot to the right
pulls its value from its next free neighbour. Rendering turns the chain back into text, with
or without decoration slots, hiding an untouched hardcoded head and the empty tail when asked.

## Modules

| file | module | models |
|---|---|---|
| `wrappers.dfy` | `Wrappers` | `Option` stands for a Java reference that may be null. `Result` stands for a call that may throw. |
| `validators.dfy` | `SlotValidators`, `SlotValidatorSet` | `SlotValidators.java` and `SlotValidatorSet.java`: the four validators, their Java `equals`, `setOf`, `validate`, and `countValidIn`. |
| `slot.dfy` | `Slots` | `Slot.java`: a slot as a value, with its rule constants. `setValue`, `setNewValue`, `pushValueToSlot`, `removeCurrentValue` and `pullValueFromSlot` are functions over the whole chain (a `seq<Slot>`) and an index into it. |
| `slot_properties.dfy` | `SlotProperties` | Reference definitions: the left shift that deletion performs, the right shift that insertion into default slots performs, and clearing. Lemmas tie the `Slot.java` recursion to them. |
| `slots_list.dfy` | `SlotLists` | `SlotsList.java`: a class whose `slots` field is the chain. Its methods update the field in place and are proved equal to the `Slots` functions. |
| `predefined.dfy` | `PredefinedSlots` | `PredefinedSlots.java`: the slot factories and the fixture tables (Russian phone, passport, card numbers). |
| `parsers.dfy` | `Parsers` | `UnderscoreDigitSlotsParser.java`, and `PhoneNumberUnderscoreSlotsParser.java` with its mutable `rule` field. |
| `mask.dfy` | `Masks` | `MaskImpl.java`. Functions state what typing, deleting, tail extension and trimming, and rendering compute. The class `MaskImpl`, with its flags and its `SlotsList`, runs the same loops imperatively. Each method is proved equal to its function. |
| `mask_properties.dfy` | `MaskProperties` | Lemmas about the `Masks` functions: hardcoded slots survive every edit, clearing is idempotent, rendering shows a prefix of the full text, and so on. |
| `diff_measures.dfy` | `Diffs` | `DiffMeasures.java`: the record a text watcher fills before a change. |
| `scenarios.dfy`, `phone_scenarios.dfy`, `slot_scenarios.dfy` | `Scenarios`, `PhoneScenarios`, `SlotScenarios` | The concrete expectations of `MaskImplTest.java` and `SlotTest.java`, proved about the model. |

Java `null` is `None`. A thrown exception is a `Failure` carrying the exception's kind. Object
identity appears only where the code compares references: `SlotsList.equals` and `add`. A slot
is a datatype value. The Java code copies slots whenever it inserts them into a list, so
value semantics match what a caller can observe.

Where the code and the library's tests disagree, the model follows the code:

- **Deleting does not validate.** `pullValueFromSlot` (`Slot.java:250-265`) writes the
  pulled value without consulting the receiving slot's validators. `SlotTest.java:97-119`
  expects a digit slot to refuse a pulled letter. The model lets the letter through, as the
  code does.
- **Comparing two empty lists throws.** `SlotsList.equals` on two distinct empty lists reaches
  the iterator constructor (`SlotsList.java:349-355`), which refuses a null first slot. The
  model returns `Failure(IllegalArgument)`.
- **Deleting from a hardcoded slot reaches back.** `removeBackwards(1, 1)` on the dash mask
  showing `1-` deletes the `1`: the hardcoded `-` hands the deletion to the nearest free slot
  on its left (`Slot.java:234-240`). The comment `1|-` at `MaskImplTest.java:172` describes
  only the caret, which is 1.

Java `Character.isDigit` is modelled as `'0'..'9'`. All other Unicode digits are left out.

## Model

| member | source | states |
|---|---|---|
| SlotValidators.Validate | library/src/main/java/ru/tinkoff/decoro/slots/SlotValidators.java:31-161 | The `validate` method of each validator class. Its meaning per class is stated by `SlotValidators.GenerousAcceptsEverything`, `SlotValidators.DigitAcceptsExactlyDigits`, `SlotValidators.MaskedDigitAcceptsDigitsAndMaskChars` and `SlotValidators.LetterAcceptsSelectedAlphabets`. |
| SlotValidators.JavaEquals | library/src/main/java/ru/tinkoff/decoro/slots/SlotValidators.java:41-180 | The `equals` method of each validator class. What it decides is stated by `SlotValidators.JavaEqualsWithinClass` and `SlotValidators.JavaEqualsAsymmetric`. |
| SlotValidators.NewMaskedDigit | library/src/main/java/ru/tinkoff/decoro/slots/SlotValidators.java:83-89 | A null mask-character array gives IllegalArgument. Any other array gives a masked-digit validator that keeps exactly those characters. |
| SlotValidators.ValidateMaskedDigit | library/src/main/java/ru/tinkoff/decoro/slots/SlotValidators.java:91-102 | The loop over the mask characters gives the same answer as the validator: accept a digit, or any of the mask characters. |
| SlotValidators.GenerousAcceptsEverything | library/src/main/java/ru/tinkoff/decoro/slots/SlotValidators.java:31-34 | The generous validator accepts every character. |
| SlotValidators.DigitAcceptsExactlyDigits | library/src/main/java/ru/tinkoff/decoro/slots/SlotValidators.java:54-57 | The digit validator accepts exactly '0' to '9'. |
| SlotValidators.MaskedDigitAcceptsDigitsAndMaskChars | library/src/main/java/ru/tinkoff/decoro/slots/SlotValidators.java:77-102 | A masked-digit validator accepts a digit or one of its mask characters. The default one accepts a digit, 'X', 'x' or '*'. |
| SlotValidators.LetterAcceptsSelectedAlphabets | library/src/main/java/ru/tinkoff/decoro/slots/SlotValidators.java:132-161 | A Latin letter is accepted iff English is enabled. A Cyrillic letter is accepted iff Russian is enabled. The default letter validator accepts both alphabets. |
| SlotValidators.JavaEqualsWithinClass | library/src/main/java/ru/tinkoff/decoro/slots/SlotValidators.java:41-180 | For two validators of the same class, `equals` holds iff their parameters agree: the mask characters, or the two alphabet flags. |
| SlotValidators.JavaEqualsAsymmetric | library/src/main/java/ru/tinkoff/decoro/slots/SlotValidators.java:64-119 | `equals` is not symmetric. A digit validator equals a masked-digit validator (an instanceof test), but not the other way round (a getClass test). |
| SlotValidatorSet.Validate | library/src/main/java/ru/tinkoff/decoro/slots/SlotValidatorSet.java:72-80 | `validate(c)` of a set: some member accepts the character. `SlotValidatorSet.ValidateMembers` computes it with the library's loop. `SlotValidatorSet.SetOfValidates` and `SlotValidatorSet.EmptySetRejects` state what it means for sets built by `setOf` and for the empty set. |
| SlotValidatorSet.SetOf | library/src/main/java/ru/tinkoff/decoro/slots/SlotValidatorSet.java:27-42 | A null argument array gives the empty set. Otherwise the set holds each validator argument, plus the members of each set-valued argument. |
| SlotValidatorSet.FlattenMembers | library/src/main/java/ru/tinkoff/decoro/slots/SlotValidatorSet.java:33-39 | A validator is in the built set iff some argument contributes it. |
| SlotValidatorSet.SetOfValidates | library/src/main/java/ru/tinkoff/decoro/slots/SlotValidatorSet.java:72-80 | The built set accepts a character iff the contribution of some argument accepts it. |
| SlotValidatorSet.SetOfPairIsDisjunction | library/src/main/java/ru/tinkoff/decoro/slots/SlotValidatorSet.java:33-39 | A set built from two arguments accepts exactly what either argument accepts. |
| SlotValidatorSet.EmptySetRejects | library/src/main/java/ru/tinkoff/decoro/slots/SlotValidatorSet.java:72-80 | The empty set rejects every character. |
| SlotValidatorSet.CountValid | library/src/main/java/ru/tinkoff/decoro/slots/SlotValidatorSet.java:52-69 | A null element gives NullPointer. Otherwise the count is at most the length. It equals the length iff every character is accepted, and is zero iff none is. |
| SlotValidatorSet.ValidateMembers | library/src/main/java/ru/tinkoff/decoro/slots/SlotValidatorSet.java:72-80 | The loop over the members returns true iff some member accepts the character. |
| SlotValidatorSet.CountValidIn | library/src/main/java/ru/tinkoff/decoro/slots/SlotValidatorSet.java:52-69 | A null collection gives IllegalArgument. Otherwise the loop returns the count of accepted characters. |
| SlotValidatorSet.CountValidAppend | library/src/main/java/ru/tinkoff/decoro/slots/SlotValidatorSet.java:58-66 | The count over a concatenation is the sum of the counts over its parts. |
| Slots.NewSlot | library/src/main/java/ru/tinkoff/decoro/slots/Slot.java:81-85 | The primary constructor: a null validator set becomes the empty set, and the slot starts with no tags and no interpreter. The slots the mask builders make from it are stated by the contracts of `PredefinedSlots.HardcodedSlot` and `PredefinedSlots.ValidatedSlot`. |
| Slots.WithTag | library/src/main/java/ru/tinkoff/decoro/slots/Slot.java:295-306 | Adds one tag and changes nothing else. `SlotLists.SlotsList.WithTagAt` and `PredefinedSlots.DecorationSlot` state its effect on a list and on a decoration slot. |
| Slots.SlotEquals | library/src/main/java/ru/tinkoff/decoro/slots/Slot.java:370-381 | `Slot.equals`: rules, value, tags and validators agree, and the interpreter is ignored. `Slots.Copy` is stated against it. |
| Slots.Hardcoded | library/src/main/java/ru/tinkoff/decoro/slots/Slot.java:174-176 | A slot is hardcoded iff it has a value and the moves-input rule. This is where the model defines the word; `SlotProperties.CanInsertHereMeans` and the push and pull lemmas rely on it. |
| Slots.CanInsertHere | library/src/main/java/ru/tinkoff/decoro/slots/Slot.java:160-172 | Decides whether a character may go into a slot. `SlotProperties.CanInsertHereMeans` states what it decides. |
| Slots.AnyInputToTheRight | library/src/main/java/ru/tinkoff/decoro/slots/Slot.java:109-119 | Whether user input lies from the slot to the end of the chain. `SlotProperties.AnyInputToTheRightMeans` states what it means. |
| Slots.HardcodedSequenceEndIndex | library/src/main/java/ru/tinkoff/decoro/slots/Slot.java:182-196 | The end of the hardcoded run starting at a slot. `SlotProperties.HardcodedSequenceEndIndexIsRunLength` states its value. |
| Slots.Copy | library/src/main/java/ru/tinkoff/decoro/slots/Slot.java:99-107 | The copy equals the original under `Slot.equals` and shares its value interpreter. |
| Slots.Interpret | library/src/main/java/ru/tinkoff/decoro/slots/Slot.java:146-148 | Interpreting maps a value to a value and null to null. Without an interpreter the value is unchanged. |
| Slots.RemoveCurrentValue | library/src/main/java/ru/tinkoff/decoro/slots/Slot.java:234-240 | Deletion changes only the values of free slots. Every hardcoded slot and every slot's rules, validators and tags stay as they were. |
| Slots.PullValueFromSlot | library/src/main/java/ru/tinkoff/decoro/slots/Slot.java:250-265 | Pulling changes only the values of free slots and leaves hardcoded slots alone. |
| Slots.SetValueInner | library/src/main/java/ru/tinkoff/decoro/slots/Slot.java:146-153 | Only free slots' values change. Writing a value leaves every slot left of the index alone. Writing null returns offset 1 iff the slot forbids moving the cursor left. A non-negative offset grows by at most the number of slots from the index on. |
| Slots.SetNewValue | library/src/main/java/ru/tinkoff/decoro/slots/Slot.java:198-228 | Only free slots' values change, and slots left of the index stay. A non-negative offset grows by at most the number of slots from the index on. |
| Slots.PushValueToSlot | library/src/main/java/ru/tinkoff/decoro/slots/Slot.java:242-248 | Only free slots' values change, and slots up to the index stay. The offset grows by at most the number of slots after the index. |
| Slots.SetValue | library/src/main/java/ru/tinkoff/decoro/slots/Slot.java:121-127 | Only free slots' values change, and hardcoded slots do not. The returned caret offset lies between 0 and the number of slots from the index on. A deletion returns 1 iff the slot forbids moving the cursor left. |
| SlotProperties.NextFree | library/src/main/java/ru/tinkoff/decoro/slots/Slot.java:250-265 | Returns the first free slot at or after the index, skipping only hardcoded slots. Returns the list length if there is none. |
| SlotProperties.ShiftedLeftFrom | library/src/main/java/ru/tinkoff/decoro/slots/Slot.java:234-265 | The reference definition of a deletion: each free slot from the index on takes the value of the next free slot, and the last one is emptied. The length is kept. |
| SlotProperties.PrevFree | library/src/main/java/ru/tinkoff/decoro/slots/Slot.java:234-240 | Returns the last free slot at or before the index, skipping only hardcoded slots. Returns -1 if there is none. |
| SlotProperties.RemoveShiftsLeft | library/src/main/java/ru/tinkoff/decoro/slots/Slot.java:234-265 | Deleting at a free slot equals the reference left shift from that slot. |
| SlotProperties.PullDeliversNextValue | library/src/main/java/ru/tinkoff/decoro/slots/Slot.java:250-265 | A pull returns the value of the next free slot and leaves the chain shifted left from there. |
| SlotProperties.RemoveFromHardcodedDelegatesLeft | library/src/main/java/ru/tinkoff/decoro/slots/Slot.java:234-240 | Deleting at a hardcoded slot is the left shift from the nearest free slot on its left. If there is none, nothing changes. |
| SlotProperties.LastFreeSlotEmptied | library/src/main/java/ru/tinkoff/decoro/slots/Slot.java:250-265 | After a deletion, the last free slot from the deleted index on is empty. |
| SlotProperties.FirstEmpty | library/src/main/java/ru/tinkoff/decoro/slots/Slot.java:217-225 | Returns the first empty slot at or after the index. Every slot before it holds a value. |
| SlotProperties.ShiftedRight | library/src/main/java/ru/tinkoff/decoro/slots/Slot.java:217-225 | The reference definition of typing into default slots: the new character goes in at the index, and the values up to the first empty slot move one slot right. The length is kept. |
| SlotProperties.DefaultSlotsInsert | library/src/main/java/ru/tinkoff/decoro/slots/Slot.java:198-228 | On a run of default-rule slots, `setNewValue` is the reference right shift, and the offset grows by one. |
| SlotProperties.ReplaceSlotKeepsNeighbours | library/src/main/java/ru/tinkoff/decoro/slots/Slot.java:198-228 | A replace-rule slot overwrites its own value and leaves every other slot alone. The offset grows by one unless the slot forbids moving the cursor right. |
| SlotProperties.HardcodedSlotPassesInputOn | library/src/main/java/ru/tinkoff/decoro/slots/Slot.java:201-215 | A hardcoded replace-rule slot typed into from the left keeps its value. Its own character advances the cursor; any other character is pushed to the next slot with the offset grown by one. |
| SlotProperties.CanInsertHereMeans | library/src/main/java/ru/tinkoff/decoro/slots/Slot.java:160-172 | A hardcoded slot accepts a character iff it interprets to the slot's own value. A free slot accepts it iff one of its validators accepts the interpreted character. So a free slot with no validators accepts nothing, a generous validator makes it accept everything, and its current value plays no part. |
| SlotProperties.AnyInputToTheRightMeans | library/src/main/java/ru/tinkoff/decoro/slots/Slot.java:109-119 | `anyInputToTheRight` holds iff some slot from the index on holds user input. |
| SlotProperties.HardcodedSequenceEndIndexIsRunLength | library/src/main/java/ru/tinkoff/decoro/slots/Slot.java:182-196 | Returns -1 at a free slot. At a hardcoded slot it returns the start index plus the length of the hardcoded run from there. |
| SlotProperties.Cleared | library/src/main/java/ru/tinkoff/decoro/SlotsList.java:212-224 | The reference definition of `clear`: every free slot emptied, the length kept. |
| SlotProperties.NothingToPull | library/src/main/java/ru/tinkoff/decoro/slots/Slot.java:250-265 | When no free slot from the index on holds a value, a pull returns null. |
| SlotProperties.EmptyTailShiftsToItself | library/src/main/java/ru/tinkoff/decoro/slots/Slot.java:234-265 | When no free slot from the index on holds a value, the left shift changes nothing. |
| SlotProperties.ClearStep | library/src/main/java/ru/tinkoff/decoro/SlotsList.java:219-223 | Deleting at an index with nothing to its right keeps which slots are hardcoded, and leaves every free slot from the index on empty. |
| SlotLists.SlotsList.Empty | library/src/main/java/ru/tinkoff/decoro/SlotsList.java:74-75 | The new list holds no slots. |
| SlotLists.SlotsList.OfArray | library/src/main/java/ru/tinkoff/decoro/SlotsList.java:38-72 | The list holds the array's slots in order. |
| SlotLists.SlotsList.CopyOf | library/src/main/java/ru/tinkoff/decoro/SlotsList.java:77-95 | The copy holds the same slots in the same order. |
| SlotLists.SlotsList.GetSlot | library/src/main/java/ru/tinkoff/decoro/SlotsList.java:101-127 | Returns a slot iff the index is in range, and then the slot at that index. |
| SlotLists.SlotsList.InsertSlotAt | library/src/main/java/ru/tinkoff/decoro/SlotsList.java:136-178 | A position outside 0 to size gives IndexOutOfBounds and leaves the list unchanged. Otherwise the slot is placed at that position with the others in order, and the inserted copy is returned. |
| SlotLists.SlotsList.RemoveSlotAt | library/src/main/java/ru/tinkoff/decoro/SlotsList.java:180-210 | A position outside 0 to size-1 gives IndexOutOfBounds and leaves the list unchanged. Otherwise the slot at that position is removed and returned, with the others in order. |
| SlotLists.SlotsList.Add | library/src/main/java/ru/tinkoff/decoro/SlotsList.java:255-257 | The slot is appended. The method returns false because the list stores a copy, never the given reference. |
| SlotLists.SlotsList.Equals | library/src/main/java/ru/tinkoff/decoro/SlotsList.java:261-276 | The same list is equal. Lists of different sizes are not. Two distinct empty lists throw IllegalArgument. Otherwise the result is slot-by-slot `Slot.equals`. |
| SlotLists.SlotsList.Clear | library/src/main/java/ru/tinkoff/decoro/SlotsList.java:212-224 | The loop leaves the list equal to the reference clearing of the old list. |
| SlotLists.SlotsList.WithTagAt | library/src/main/java/ru/tinkoff/decoro/slots/Slot.java:295-306 | The tag is added to the one slot at the index, and nothing else changes. |
| SlotLists.SlotsList.SetValue | library/src/main/java/ru/tinkoff/decoro/slots/Slot.java:121-127 | The new list and the returned offset are those of `Slots.SetValue` on the old list. |
| SlotLists.SlotsList.SetValueInner | library/src/main/java/ru/tinkoff/decoro/slots/Slot.java:146-153 | The new list and the offset are those of `Slots.SetValueInner` on the old list. |
| SlotLists.SlotsList.SetNewValue | library/src/main/java/ru/tinkoff/decoro/slots/Slot.java:198-228 | The new list and the offset are those of `Slots.SetNewValue` on the old list. |
| SlotLists.SlotsList.PushValueToSlot | library/src/main/java/ru/tinkoff/decoro/slots/Slot.java:242-248 | The new list and the offset are those of `Slots.PushValueToSlot` on the old list. |
| SlotLists.SlotsList.RemoveCurrentValue | library/src/main/java/ru/tinkoff/decoro/slots/Slot.java:234-240 | The new list is `Slots.RemoveCurrentValue` of the old list. |
| SlotLists.SlotsList.PullValueFromSlot | library/src/main/java/ru/tinkoff/decoro/slots/Slot.java:250-265 | The new list and the pulled value are those of `Slots.PullValueFromSlot` on the old list. |
| PredefinedSlots.HardcodedSlot | library/src/main/java/ru/tinkoff/decoro/slots/PredefinedSlots.java:137-139 | A hardcoded replace-rule slot holding the character, with no tags or validators. It accepts exactly its own character. |
| PredefinedSlots.ValidatedSlot | library/src/main/java/ru/tinkoff/decoro/slots/PredefinedSlots.java:141-151 | An empty default-rule slot that is not hardcoded, whose validators are `setOf` of the one validator. |
| PredefinedSlots.DigitSlot | library/src/main/java/ru/tinkoff/decoro/slots/PredefinedSlots.java:141-143 | An empty slot that accepts exactly the digits. |
| PredefinedSlots.AnySlot | library/src/main/java/ru/tinkoff/decoro/slots/PredefinedSlots.java:145-147 | An empty slot that accepts every character. |
| PredefinedSlots.MaskableDigitSlot | library/src/main/java/ru/tinkoff/decoro/slots/PredefinedSlots.java:149-151 | An empty slot that accepts digits, 'X', 'x' and '*'. |
| PredefinedSlots.DecorationSlot | library/src/main/java/ru/tinkoff/decoro/slots/PredefinedSlots.java:26-45 | A hardcoded slot holding the character, tagged as decoration. |
| PredefinedSlots.SingleSlot | library/src/main/java/ru/tinkoff/decoro/slots/PredefinedSlots.java:24 | One slot that is not hardcoded. |
| PredefinedSlots.RusPhoneNumber | library/src/main/java/ru/tinkoff/decoro/slots/PredefinedSlots.java:26-45 | The Russian phone layout has 18 slots. |
| PredefinedSlots.RusPhoneNumberLayout | library/src/main/java/ru/tinkoff/decoro/slots/PredefinedSlots.java:26-45 | Slots 0-3, 7, 8, 12 and 15 are hardcoded. All of them except the `+7` head are decorations. Every other slot is an empty digit slot. |
| PredefinedSlots.RusPassport | library/src/main/java/ru/tinkoff/decoro/slots/PredefinedSlots.java:47-59 | Eleven untagged slots. Only slot 4, a space, is hardcoded. |
| PredefinedSlots.CardNumberStandard | library/src/main/java/ru/tinkoff/decoro/slots/PredefinedSlots.java:61-81 | Nineteen slots: digit slots, with decoration spaces at 4, 9 and 14. |
| PredefinedSlots.CardNumberMaestro | library/src/main/java/ru/tinkoff/decoro/slots/PredefinedSlots.java:83-97 | Thirteen slots: digit slots, with a decoration space at 8. |
| PredefinedSlots.CardNumberStandardMaskable | library/src/main/java/ru/tinkoff/decoro/slots/PredefinedSlots.java:99-119 | The standard card layout. The first slot is a digit slot; every later free slot is a maskable digit slot. |
| PredefinedSlots.CardNumberMaestroMaskable | library/src/main/java/ru/tinkoff/decoro/slots/PredefinedSlots.java:121-135 | The Maestro layout. The first slot is a digit slot; every later free slot is a maskable digit slot. |
| Parsers.SlotFromChar | library/src/main/java/ru/tinkoff/decoro/parser/UnderscoreDigitSlotsParser.java:48-64 | '_' becomes a digit slot. Any other character becomes a hardcoded slot holding it. The slot is hardcoded iff the character is not '_'. |
| Parsers.ParseSlots | library/src/main/java/ru/tinkoff/decoro/parser/UnderscoreDigitSlotsParser.java:34-46 | A null or empty template gives IllegalArgument. Otherwise there is one slot per template character, made from that character. |
| Parsers.UnderscoreTemplateSlots | library/src/main/java/ru/tinkoff/decoro/parser/UnderscoreDigitSlotsParser.java:39-64 | In a parsed template, exactly the non-'_' characters are hardcoded and hold themselves. Each '_' accepts exactly the digits. |
| Parsers.PhoneSlotsFrom | library/src/main/java/ru/tinkoff/decoro/parser/PhoneNumberUnderscoreSlotsParser.java:43-54 | Parsing the template from an index on, threading the parser's `rule`, gives one slot per remaining character. |
| Parsers.PhoneSlots | library/src/main/java/ru/tinkoff/decoro/parser/PhoneNumberUnderscoreSlotsParser.java:37-40 | Parsing starts from the replace-and-move rule and gives one slot per template character. |
| Parsers.PhoneNumberUnderscoreSlotsParser.constructor | library/src/main/java/ru/tinkoff/decoro/parser/PhoneNumberUnderscoreSlotsParser.java:33 | A new parser's `rule` field is 0. |
| Parsers.PhoneNumberUnderscoreSlotsParser.SlotFromNonUnderscoredChar | library/src/main/java/ru/tinkoff/decoro/parser/PhoneNumberUnderscoreSlotsParser.java:43-54 | The returned slot and the new `rule` field are the parser step for one literal character: a digit, '+', or a decoration. |
| Parsers.PhoneNumberUnderscoreSlotsParser.SlotFromChar | library/src/main/java/ru/tinkoff/decoro/parser/UnderscoreDigitSlotsParser.java:48-54 | The returned slot and the new `rule` field are the parser step for any one character. |
| Parsers.PhoneNumberUnderscoreSlotsParser.ParseSlots | library/src/main/java/ru/tinkoff/decoro/parser/PhoneNumberUnderscoreSlotsParser.java:37-40 | A null or empty template gives IllegalArgument. Otherwise the result is the phone slots of the template, whatever earlier calls left in `rule`. |
| Parsers.PhoneSlotsFromRule | library/src/main/java/ru/tinkoff/decoro/parser/PhoneNumberUnderscoreSlotsParser.java:38-51 | The first parsed slots depend only on the template prefix. The rest are parsed from the rule that prefix leaves behind. |
| Parsers.PhoneSlotsAre | library/src/main/java/ru/tinkoff/decoro/parser/PhoneNumberUnderscoreSlotsParser.java:43-54 | Each parsed slot: '_' gives a digit slot and '+' a plain hardcoded slot. Another non-digit gives a decoration slot. A digit gives a hardcoded digit-validated slot holding it, with the rule in force. |
| Parsers.FollowingDigitIsForbiddenFromLeft | library/src/main/java/ru/tinkoff/decoro/parser/PhoneNumberUnderscoreSlotsParser.java:50-51 | A digit that directly follows another digit literal moves input on and does not take replacement input. |
| Parsers.PhoneSlotsHoldNoInput | library/src/main/java/ru/tinkoff/decoro/parser/PhoneNumberUnderscoreSlotsParser.java:43-54 | No slot of a freshly parsed phone template holds user input. |
| Masks.EmptySlotsOnTail | library/src/main/java/ru/tinkoff/decoro/MaskImpl.java:289-298 | Returns the number of trailing empty slots: those slots are all empty, and the slot before them holds a value. |
| Masks.ExtendedTail | library/src/main/java/ru/tinkoff/decoro/MaskImpl.java:472-483 | A non-terminated mask grows by one slot, tagged as an extension. |
| Masks.Trimmed | library/src/main/java/ru/tinkoff/decoro/MaskImpl.java:485-504 | Trimming keeps a prefix, and a non-empty mask stays non-empty. Every dropped slot is an empty extension slot. The last two kept slots are never both removable. |
| Masks.SlotIndexOffsetFrom | library/src/main/java/ru/tinkoff/decoro/MaskImpl.java:454-466 | Returns an index within the mask. If it is inside the mask, that slot accepts the character. |
| Masks.SlotIndexOffsetFromFinds | library/src/main/java/ru/tinkoff/decoro/MaskImpl.java:454-466 | No slot before the found one accepts the character. The skipped-free-slot flag holds iff some skipped slot is free. |
| Masks.Placed | library/src/main/java/ru/tinkoff/decoro/MaskImpl.java:254-267 | Placing a character keeps the cursor at or after the slot and the mask no shorter. A terminated mask keeps its size. |
| Masks.TypeChar | library/src/main/java/ru/tinkoff/decoro/MaskImpl.java:241-268 | One loop turn either stops, or moves the cursor forward and keeps the mask no shorter. A terminated mask keeps its size. |
| Masks.TypeAll | library/src/main/java/ru/tinkoff/decoro/MaskImpl.java:239-269 | Typing a string leaves the cursor at or after the start and the mask no shorter. A terminated mask keeps its size. |
| Masks.InsertOutcome | library/src/main/java/ru/tinkoff/decoro/MaskImpl.java:225-287 | A position out of range, or a null or empty input, changes nothing. A mask filled from the position, with input forbidden when filled, refuses input. A terminated mask keeps its size. The cursor never moves left of the position. |
| Masks.RemoveSteps | library/src/main/java/ru/tinkoff/decoro/MaskImpl.java:530-539 | The deletion loop changes only free slots' values and keeps every hardcoded slot. |
| Masks.HardcodedWalk | library/src/main/java/ru/tinkoff/decoro/MaskImpl.java:548-552 | The walk ends left of its start, and never on a hardcoded slot above index 0. |
| Masks.HardcodedWalkPassesHardcoded | library/src/main/java/ru/tinkoff/decoro/MaskImpl.java:548-552 | Every slot the walk steps over is hardcoded. |
| Masks.RemoveOutcome | library/src/main/java/ru/tinkoff/decoro/MaskImpl.java:526-562 | The caret lies between 0 and the new size, and the mask never grows. A terminated mask keeps its size. Every hardcoded slot survives. |
| Masks.Render | library/src/main/java/ru/tinkoff/decoro/MaskImpl.java:114-152 | The text is at most one character per slot from the start index. |
| Masks.SourceBreaksAreStops | library/src/main/java/ru/tinkoff/decoro/MaskImpl.java:124-142 | The two `break`s of the rendering loop happen exactly where the model's stop predicate holds. |
| Masks.RenderStep | library/src/main/java/ru/tinkoff/decoro/MaskImpl.java:120-149 | Rendering from one slot is what one loop turn does: skip a decoration, stop, or emit the slot's character before the rest. |
| Masks.DecorationCount | library/src/main/java/ru/tinkoff/decoro/MaskImpl.java:423-435 | Counts the decoration slots among the first n slots, so the count is at most n. `MaskProperties.AllShownLength` ties the count to the length of the unformatted text. |
| Masks.MaskImpl.constructor | library/src/main/java/ru/tinkoff/decoro/MaskImpl.java:56-66 | The flags take their defaults and the slots are the array's. A single-slot non-terminated mask gets one extension slot. |
| Masks.MaskImpl.CopyOf | library/src/main/java/ru/tinkoff/decoro/MaskImpl.java:68-80 | The copy takes every flag of the original, the given terminated flag, and a fresh list with the same slots. |
| Masks.MaskImpl.CreateTerminated | library/src/main/java/ru/tinkoff/decoro/MaskImpl.java:35-37 | Returns a new terminated mask holding exactly the array's slots. |
| Masks.MaskImpl.CreateNonTerminated | library/src/main/java/ru/tinkoff/decoro/MaskImpl.java:39-41 | Returns a new non-terminated mask holding the array's slots. A single slot gets one extension slot. |
| Masks.MaskImpl.SetPlaceholder | library/src/main/java/ru/tinkoff/decoro/MaskImpl.java:382-388 | A null placeholder gives IllegalArgument and keeps the old one. Otherwise the placeholder is set. |
| Masks.MaskImpl.SetShowingEmptySlots | library/src/main/java/ru/tinkoff/decoro/MaskImpl.java:371-373 | The flag is set. |
| Masks.MaskImpl.SetForbidInputWhenFilled | library/src/main/java/ru/tinkoff/decoro/MaskImpl.java:411-413 | The flag is set. |
| Masks.MaskImpl.SetHideHardcodedHead | library/src/main/java/ru/tinkoff/decoro/MaskImpl.java:397-403 | The flag is set. Without user input, showing the hardcoded tail becomes its negation; otherwise that flag is unchanged. |
| Masks.MaskImpl.HasUserInput | library/src/main/java/ru/tinkoff/decoro/MaskImpl.java:168-174 | True iff some slot holds user input. |
| Masks.MaskImpl.GetInitialInputPosition | library/src/main/java/ru/tinkoff/decoro/MaskImpl.java:155-165 | Returns the first empty slot: every slot before it holds a value. |
| Masks.MaskImpl.FilledFrom | library/src/main/java/ru/tinkoff/decoro/MaskImpl.java:181-198 | An index out of range gives IllegalArgument. Otherwise returns whether every free slot from the index on that is not an extension slot holds a value. Extension slots are skipped whether or not they are empty. |
| Masks.MaskImpl.Filled | library/src/main/java/ru/tinkoff/decoro/MaskImpl.java:177-179 | True iff the mask is non-empty and filled from its start. |
| Masks.MaskImpl.CountEmptySlotsOnTail | library/src/main/java/ru/tinkoff/decoro/MaskImpl.java:289-298 | The loop counts the trailing empty slots. |
| Masks.MaskImpl.ExtendTail | library/src/main/java/ru/tinkoff/decoro/MaskImpl.java:472-483 | A terminated mask, or a count below 1, changes nothing. Otherwise the mask grows by count slots, and by exactly one extension slot when count is 1. |
| Masks.MaskImpl.TrimTail | library/src/main/java/ru/tinkoff/decoro/MaskImpl.java:485-497 | A non-terminated mask drops its removable empty extension slots. |
| Masks.MaskImpl.Clear | library/src/main/java/ru/tinkoff/decoro/MaskImpl.java:201-204 | Every free slot is emptied, then the tail is trimmed. |
| Masks.MaskImpl.ValidSlotIndexOffset | library/src/main/java/ru/tinkoff/decoro/MaskImpl.java:454-466 | The loop returns the slot found after the candidate index. |
| Masks.MaskImpl.TypeOne | library/src/main/java/ru/tinkoff/decoro/MaskImpl.java:243-268 | One turn of the typing loop: either it stops with nothing changed, or the mask and cursor are the model's next typing state. |
| Masks.MaskImpl.PlaceValue | library/src/main/java/ru/tinkoff/decoro/MaskImpl.java:254-267 | Writing at the found slot, including extending the tail, gives the model's placed state. |
| Masks.MaskImpl.TypeInput | library/src/main/java/ru/tinkoff/decoro/MaskImpl.java:239-269 | The whole input loop leaves the mask and cursor equal to typing the string in the model. |
| Masks.MaskImpl.InsertAt | library/src/main/java/ru/tinkoff/decoro/MaskImpl.java:225-287 | The new slots, the hardcoded-tail flag and the returned caret are the model's insertion outcome. |
| Masks.MaskImpl.InsertAtAfterHardcoded | library/src/main/java/ru/tinkoff/decoro/MaskImpl.java:310-312 | The overload that puts the caret after trailing hardcoded slots. |
| Masks.MaskImpl.InsertFront | library/src/main/java/ru/tinkoff/decoro/MaskImpl.java:324-326 | An insertion at position 0 that puts the caret after trailing hardcoded slots. |
| Masks.MaskImpl.RemoveBackwardsInner | library/src/main/java/ru/tinkoff/decoro/MaskImpl.java:526-562 | The new slots, the hardcoded-tail flag and the returned caret are the model's deletion outcome. |
| Masks.MaskImpl.DeleteBackwards | library/src/main/java/ru/tinkoff/decoro/MaskImpl.java:527-541 | The deletion loop leaves the slots and cursor of the model's deletion steps. |
| Masks.MaskImpl.WalkOverHardcoded | library/src/main/java/ru/tinkoff/decoro/MaskImpl.java:548-552 | The cursor walk over a hardcoded run ends where the model's walk does. |
| Masks.MaskImpl.RemoveBackwardsAt | library/src/main/java/ru/tinkoff/decoro/MaskImpl.java:348-351 | `removeBackwards` is a deletion that also removes hardcoded slots. |
| Masks.MaskImpl.RemoveBackwardsWithoutHardcoded | library/src/main/java/ru/tinkoff/decoro/MaskImpl.java:354-357 | A deletion that stops at hardcoded slots. |
| Masks.MaskImpl.Text | library/src/main/java/ru/tinkoff/decoro/MaskImpl.java:104-107 | The text is the model's rendering under the current flags. |
| Masks.MaskImpl.ToString | library/src/main/java/ru/tinkoff/decoro/MaskImpl.java:84-86 | The rendering with decoration slots included. |
| Masks.MaskImpl.ToUnformattedString | library/src/main/java/ru/tinkoff/decoro/MaskImpl.java:100-102 | The rendering with decoration slots left out. |
| Masks.MaskImpl.ToStringFrom | library/src/main/java/ru/tinkoff/decoro/MaskImpl.java:114-152 | The rendering loop builds exactly the model's rendering from slot 0. |
| Masks.MaskImpl.FindCursorPositionInUnformattedString | library/src/main/java/ru/tinkoff/decoro/MaskImpl.java:416-438 | Position 0 maps to 0, and a negative position or one beyond the size throws IndexOutOfBounds. Otherwise the result is the position minus the decoration slots up to and including it, counting only the first n at the end. |
| MaskProperties.ExtensionDeletesFromCopy | library/src/main/java/ru/tinkoff/decoro/MaskImpl.java:477-480 | Erasing the copied tail slot is an ordinary deletion on it. |
| MaskProperties.ExtendAfterFreeSlot | library/src/main/java/ru/tinkoff/decoro/MaskImpl.java:472-483 | After a free last slot, the extension is an empty copy of it with the extension tag. |
| MaskProperties.ExtendAfterHardcodedSlot | library/src/main/java/ru/tinkoff/decoro/MaskImpl.java:472-483 | After a hardcoded last slot, the extension keeps its value. The erasure delegates left, so the nearest free slot before it loses its value; every other slot is unchanged. |
| MaskProperties.ExtensionWithinRules | library/src/main/java/ru/tinkoff/decoro/MaskImpl.java:472-483 | Extending changes no old slot's shape and no hardcoded slot. |
| MaskProperties.PlacedWithinRules | library/src/main/java/ru/tinkoff/decoro/MaskImpl.java:254-267 | Placing a character changes no slot's shape and no hardcoded slot. |
| MaskProperties.TypeCharWithinRules | library/src/main/java/ru/tinkoff/decoro/MaskImpl.java:241-268 | One typing turn changes no slot's shape and no hardcoded slot. |
| MaskProperties.TypeAllWithinRules | library/src/main/java/ru/tinkoff/decoro/MaskImpl.java:239-269 | Typing a whole string changes no slot's shape and no hardcoded slot. |
| MaskProperties.InsertKeepsHardcoded | library/src/main/java/ru/tinkoff/decoro/MaskImpl.java:225-287 | An insertion keeps every old slot's rules, validators, tags and interpreter, and every hardcoded slot whole. |
| MaskProperties.InsertStopsBeforeGap | library/src/main/java/ru/tinkoff/decoro/MaskImpl.java:241-252 | If the first character meets a free slot that refuses it before any slot that takes it, with empty slots hidden, the insertion changes nothing. |
| MaskProperties.ClearedHasNoUserInput | library/src/main/java/ru/tinkoff/decoro/SlotsList.java:212-224 | After clearing, no slot holds user input. |
| MaskProperties.ClearedIsFixed | library/src/main/java/ru/tinkoff/decoro/SlotsList.java:212-224 | Clearing twice is clearing once. |
| MaskProperties.ClearIsIdempotent | library/src/main/java/ru/tinkoff/decoro/MaskImpl.java:201-204 | A second `clear` of a mask leaves it as the first left it. |
| MaskProperties.AllShownFormatted | library/src/main/java/ru/tinkoff/decoro/MaskImpl.java:114-152 | With decorations shown, the full text is each slot's value, or the placeholder for an empty slot. |
| MaskProperties.RenderIsPrefix | library/src/main/java/ru/tinkoff/decoro/MaskImpl.java:114-152 | Whatever the flags, the rendering is a prefix of the full text. |
| MaskProperties.ShowingEmptySlotsRendersAll | library/src/main/java/ru/tinkoff/decoro/MaskImpl.java:124-139 | With empty slots shown, the rendering is the full text. |
| MaskProperties.AllShownLength | library/src/main/java/ru/tinkoff/decoro/MaskImpl.java:120-149 | The formatted full text has one character per slot. The unformatted one has one fewer for each decoration slot. |
| MaskProperties.NoDecorationSameText | library/src/main/java/ru/tinkoff/decoro/MaskImpl.java:122-124 | Without decoration slots, the formatted and unformatted renderings agree. |
| MaskProperties.NoInputRendersHardcodedHead | library/src/main/java/ru/tinkoff/decoro/MaskImpl.java:124-142 | With no user input and empty slots hidden, the rendering shows at most the leading hardcoded run. It is empty when the hardcoded tail is hidden. |
| MaskProperties.DeleteOneShiftsLeft | library/src/main/java/ru/tinkoff/decoro/MaskImpl.java:530-535 | Deleting one character at a free slot of a terminated mask shifts the later free slots left. |
| MaskProperties.DeleteOutsideChangesNothing | library/src/main/java/ru/tinkoff/decoro/MaskImpl.java:530-531 | Deleting from a negative position changes no slot. |
| Diffs.TypeName | library/src/main/java/ru/tinkoff/decoro/watchers/DiffMeasures.java:116-129 | A type word that is neither zero nor a combination of the two flags is an illegal state. Every other word has a name. |
| Diffs.FlagTypesAreNamed | library/src/main/java/ru/tinkoff/decoro/watchers/DiffMeasures.java:116-129 | Every type word made of the two flags names a type. |
| Diffs.DiffMeasures.constructor | library/src/main/java/ru/tinkoff/decoro/watchers/DiffMeasures.java:39-40 | Every field starts at its Java default. |
| Diffs.DiffMeasures.CalculateBeforeTextChanged | library/src/main/java/ru/tinkoff/decoro/watchers/DiffMeasures.java:42-63 | The change inserts iff characters are added and removes iff characters are replaced. The lengths, end positions, reset cursor and trimming flag follow from that. |
| Diffs.DiffMeasures.RecalculateOnModifyingWord | library/src/main/java/ru/tinkoff/decoro/watchers/DiffMeasures.java:65-69 | The insert flag is cleared and the remove flag kept. The remove length loses the insert length and the start moves by the real difference; nothing else changes. |
| Diffs.DiffMeasures.SetCursorPosition | library/src/main/java/ru/tinkoff/decoro/watchers/DiffMeasures.java:87-89 | The cursor is set. |
| Diffs.DiffMeasures.DescribeType | library/src/main/java/ru/tinkoff/decoro/watchers/DiffMeasures.java:116-129 | For a valid record the description never reaches its illegal-state branch. |
| Scenarios.PlusMaskTexts | library/src/test/java/ru/tinkoff/decoro/MaskImplTest.java:103-142 | On `+_-__`: the formatted texts are "+", "" and "+_-__". With the dash a decoration, the unformatted texts are "+", "" and "+___". |
| Scenarios.PhoneUnformattedCarets | library/src/test/java/ru/tinkoff/decoro/MaskImplTest.java:221-228 | On the Russian phone layout, formatted caret positions 1, 2, 3 and 4 map to unformatted 1, 1, 1 and 2. |
| Scenarios.PhoneTemplateText | library/src/main/java/ru/tinkoff/decoro/slots/PredefinedSlots.java:26-45 | With empty slots shown, the Russian phone layout renders as "+7 (___) ___-__-__". |
| Scenarios.PhoneTemplateShown | library/src/main/java/ru/tinkoff/decoro/slots/PredefinedSlots.java:26-45 | The shown characters of the layout, slot by slot, spell "+7 (___) ___-__-__". |
| Scenarios.PhoneTemplateShownAt | library/src/main/java/ru/tinkoff/decoro/slots/PredefinedSlots.java:26-45 | Slot k of the layout shows character k of "+7 (___) ___-__-__". |
| Scenarios.ClearedMaskShowsNothing | library/src/test/java/ru/tinkoff/decoro/MaskImplTest.java:211-219 | A cleared mask whose first slot is free renders as the empty text. |
| Scenarios.DashMaskTypingCaret | library/src/test/java/ru/tinkoff/decoro/MaskImplTest.java:171 | Typing "1" at the front of `_-__` fills the first slot and puts the caret at 2. |
| Scenarios.DashMaskDeletingHardcoded | library/src/test/java/ru/tinkoff/decoro/MaskImplTest.java:172 | Deleting at 1 in "1-" empties the mask and returns caret 1. |
| Scenarios.DashMaskDeletingNothing | library/src/test/java/ru/tinkoff/decoro/MaskImplTest.java:173 | Deleting at 0 in the empty dash mask changes nothing and returns caret 0. |
| Scenarios.ExtensionAfterHardcodedLosesInput | library/src/main/java/ru/tinkoff/decoro/MaskImpl.java:264-266 | Typing "1" into a non-terminated digit-then-dash mask extends it. The erased copy of the dash takes the digit away again, and the caret is 3. |
| Scenarios.TypingBeforeDashIsExtended | library/src/main/java/ru/tinkoff/decoro/MaskImpl.java:254-267 | Placing the digit in front of the dash extends the mask by a tagged dash, and the typed digit is gone from the first slot. |
| Scenarios.ReplaceMaskTexts | library/src/test/java/ru/tinkoff/decoro/MaskImplTest.java:160-165 | The replace-rule mask renders "123" before and "013" after the two insertions. |
| Scenarios.ReplaceAtHead | library/src/test/java/ru/tinkoff/decoro/MaskImplTest.java:162 | Inserting "0" at the front replaces the '1' and returns caret 1. |
| Scenarios.ReplaceAtOne | library/src/test/java/ru/tinkoff/decoro/MaskImplTest.java:163 | Inserting "1" at 1 replaces the '2' and returns caret 2. |
| Scenarios.FilledMaskRefusesInput | library/src/test/java/ru/tinkoff/decoro/MaskImplTest.java:77-82 | With input forbidden when filled, "2-11" refuses "3" at the front and "4" at 2. |
| Scenarios.TypingPushesValuesRight | library/src/test/java/ru/tinkoff/decoro/MaskImplTest.java:84-86 | Inserting "3" at 2 in "2-11" gives "2-31" with caret 3. |
| Scenarios.FrontInputPushedOverDash | library/src/test/java/ru/tinkoff/decoro/MaskImplTest.java:58-59 | `insertFront("1")` on "1-" pushes the first "1" over the hardcoded `-` into the next free slot, giving "1-1". |
| Scenarios.FrontInputFillsDashMask | library/src/test/java/ru/tinkoff/decoro/MaskImplTest.java:61-62 | `insertFront("1")` on "1-1" moves both values one free slot right, giving "1-11". |
| Scenarios.FrontDeletionClosesUp | library/src/test/java/ru/tinkoff/decoro/MaskImplTest.java:64-65 | `removeBackwards(0, 1)` on "1-11" deletes the first value and the others close up over the `-`, giving "1-1". |
| Scenarios.FrontDeletionEmpties | library/src/test/java/ru/tinkoff/decoro/MaskImplTest.java:95-96 | `removeBackwards(0, 1)` on "1-" gives the empty dash mask back. |
| Scenarios.DashMaskFilledOnlyWhenFull | library/src/test/java/ru/tinkoff/decoro/MaskImplTest.java:52-67 | The states of the `filled` test: the empty mask, "1-", "1-1" (before the third "1" and after the deletion) are not filled, and "1-11" is. |
| Scenarios.DashMaskUserInput | library/src/test/java/ru/tinkoff/decoro/MaskImplTest.java:89-97 | The states of the `hasUserInput` test: the empty dash mask has no user input and "1-" has. |
| PhoneScenarios.WalkOverPhoneHead | library/src/main/java/ru/tinkoff/decoro/MaskImpl.java:548-552 | From slot 4 of the phone layout, the walk over the hardcoded `+7 (` reaches 0. |
| PhoneScenarios.PhoneIsEmpty | library/src/main/java/ru/tinkoff/decoro/slots/PredefinedSlots.java:26-45 | Every free slot of the Russian phone layout is empty. |
| PhoneScenarios.PhoneDeletingOnEmpty | library/src/test/java/ru/tinkoff/decoro/MaskImplTest.java:179 | Deleting at 4 in the empty phone mask changes nothing and returns caret 4. |
| PhoneScenarios.SkipsFourHardcoded | library/src/main/java/ru/tinkoff/decoro/MaskImpl.java:454-466 | A search passes four refusing hardcoded slots and finds slot 4 without skipping a free slot. |
| PhoneScenarios.PhoneNineSkipsHead | library/src/main/java/ru/tinkoff/decoro/MaskImpl.java:454-466 | '9' typed at the front of the phone mask lands in slot 4. |
| PhoneScenarios.PhonePlacingFirstNine | library/src/main/java/ru/tinkoff/decoro/MaskImpl.java:254-267 | Writing '9' into slot 4 moves the cursor to 5. |
| PhoneScenarios.PhoneTypingFirstNine | library/src/main/java/ru/tinkoff/decoro/MaskImpl.java:241-268 | The first typing turn for "99" puts a 9 in slot 4 and the cursor at 5. |
| PhoneScenarios.PhoneTypingSecondNine | library/src/main/java/ru/tinkoff/decoro/MaskImpl.java:241-268 | The second turn puts a 9 in slot 5 and the cursor at 6. |
| PhoneScenarios.PhoneTypingNinesLoop | library/src/main/java/ru/tinkoff/decoro/MaskImpl.java:239-269 | Typing "99" from the front fills slots 4 and 5 and leaves the cursor at 6. |
| PhoneScenarios.NothingAfterNines | library/src/main/java/ru/tinkoff/decoro/MaskImpl.java:283-284 | After "99", no slot from 6 on holds user input. |
| PhoneScenarios.PhoneTypingNines | library/src/test/java/ru/tinkoff/decoro/MaskImplTest.java:180 | `insertFront("99")` on the phone mask returns caret 6. |
| PhoneScenarios.DeletingOneFreeSlot | library/src/main/java/ru/tinkoff/decoro/MaskImpl.java:530-539 | One deletion step at a free slot erases its value and continues from the moved cursor. |
| PhoneScenarios.NoDeletionStepsLeft | library/src/main/java/ru/tinkoff/decoro/MaskImpl.java:530 | With no steps left, the deletion loop changes nothing. |
| PhoneScenarios.PhoneNinesShiftLeft | library/src/main/java/ru/tinkoff/decoro/slots/Slot.java:234-265 | Deleting the first 9 of "99" pulls the second one left. |
| PhoneScenarios.PhoneDeletingFirstNine | library/src/test/java/ru/tinkoff/decoro/MaskImplTest.java:181 | `removeBackwards(4, 1)` after "99" leaves one 9 and returns caret 4. |
| PhoneScenarios.PhoneDeletingHardcodedHead | library/src/test/java/ru/tinkoff/decoro/MaskImplTest.java:182 | `removeBackwards(3, 1)` at a hardcoded slot of the head returns caret 3 and changes no slot. |
| PhoneScenarios.BulgarianHead | library/src/test/java/ru/tinkoff/decoro/MaskImplTest.java:187 | Parsing "+359 ___ __ __" as a phone template gives a hardcoded '+', a '3' that takes replacement, two hardcoded digits, a decoration space, and a digit slot. |
| PhoneScenarios.TypingThreeOverLayout | library/src/test/java/ru/tinkoff/decoro/MaskImplTest.java:190 | Typing "3" at the front of that head is absorbed by the hardcoded '3', and the cursor moves to 2. |
| PhoneScenarios.InsertFrontOverLayout | library/src/test/java/ru/tinkoff/decoro/MaskImplTest.java:190 | On that head with no input, `insertFront("3")` changes no slot and returns the caret after "+359 ", at 5. |
| PhoneScenarios.DeletingSpaceOverLayout | library/src/test/java/ru/tinkoff/decoro/MaskImplTest.java:191 | On that head, `removeBackwards(4, 1)` changes no slot and returns caret 4. |
| PhoneScenarios.BulgarianInsertFront | library/src/test/java/ru/tinkoff/decoro/MaskImplTest.java:190 | `insertFront("3")` on the parsed "+359 ___ __ __" mask returns 5 and changes no slot. |
| PhoneScenarios.BulgarianDeletingSpace | library/src/test/java/ru/tinkoff/decoro/MaskImplTest.java:191 | `removeBackwards(4, 1)` on the parsed mask returns 4 and changes no slot. |
| SlotScenarios.TypingHeldValue | library/src/test/java/ru/tinkoff/decoro/SlotTest.java:84-87 | Typing 'a' into a move-input slot that already holds 'a' changes nothing and returns offset 1. |
| SlotScenarios.TypingPushesIntoDefault | library/src/test/java/ru/tinkoff/decoro/SlotTest.java:88 | Typing '3' into that slot pushes the '3' along the default slots, which swap to '3', '2'. The offset is 2. |
| SlotScenarios.PushingThroughTwoHardcoded | library/src/test/java/ru/tinkoff/decoro/SlotTest.java:90-94 | Typing ' ' into the first of two 'a' slots passes it through both. The default slots become ' ', '3' and the offset is 3. |

## Left out

- The Android layer is not part of this model: the text watchers (`MaskFormatWatcher`, `DescriptorFormatWatcher`, `FormatWatcher`), `UnmodifiableMask`, `MaskFactoryImpl`, `MaskDescriptor`, the older `ru.tinkoff.formatting` package and the demo application. They drive the core through the Android `Editable` API.
- `Parcelable` and `Serializable` support, `hashCode`, the debug `toString` of slots and lists, and iterators are left out. They carry no masking logic, and iteration is modelled as walking the `seq` in order.
- `SlotsList` keeps its slots as a doubly linked chain with `firstSlot` / `lastSlot` pointers. The model keeps them as a `seq<Slot>`. The linking code (`linkSlots`, `setNextSlot` / `setPrevSlot`) and the aliasing of slots between lists are not modelled. Nor is the sharing of one validator set object between a slot and its copies (`Slot.java:103`): a validator set here is a value.
- SlotLists.SlotsList.InsertSlotAt: the contract promises a well-formed list for an insertion at position 0 into an empty list. In Java that insertion sets `firstSlot` and never `lastSlot`: the `position == size` branch is an `else if` after `position == 0` (`SlotsList.java:169-173`). So the next `getSlot(0)` walks from the null tail and throws IllegalStateException (`SlotsList.java:108-124`), and `add` on an empty list breaks the same way. The model, with no tail pointer, does not capture this. `MaskImpl` only inserts into non-empty lists, so the masking operations never reach it.
- `SlotLists.SlotsList.GetSlot`: the model indexes the sequence directly. It does not model whether `getSlot` walks from the head or from the tail, which changes only the number of steps.
- `SlotsList.removeSlot(Slot)` by reference, `toArray`, `getFirstSlot` and `getLastSlot` are covered only through `RemoveSlotAt`, `GetSlot` and the `slots` field, because slots are values in the model.
- Masks.Trimmed: the model assumes slot 0 never carries the extension tag. If it does, Java's `trimTail` loop reaches slot 0 with a null `prevSlot`, and `isAllowedToRemoveSlot` throws NullPointerException on `previousSlot.hasTag` (`MaskImpl.java:490-501`). The model instead stops at one slot and returns normally. The library itself tags only the copies it appends after slot 0. A caller can tag slot 0 only by passing the private tag's raw number to `withTags`.
- Masks.MaskImpl.TrimTail: inherits the case just described. So do `Masks.MaskImpl.Clear`, which ends with `trimTail`, and `Masks.MaskImpl.RemoveBackwardsInner`, which calls it (`MaskImpl.java:543`). When slot 0 is extension-tagged, these return normally where Java throws NullPointerException.
- The one-argument copy constructor of `MaskImpl` is left out. It only passes the original's `terminated` flag to `CopyOf`.
- The deprecated `insertAt(CharSequence, int, boolean)` (`MaskImpl.java:329-331`) is left out. It only swaps the argument order of `insertAt(int, CharSequence, boolean)`, which is `InsertAt`.
- Plain getters (`getSize`, `getPlaceholder`, `isShowingEmptySlots`, `isTerminated`, the `DiffMeasures` getters) are functions or fields without a contract of their own.
- A slot's `ValueInterpreter` is an opaque total function `char -> char`. The model passes null through without calling the interpreter, and an interpreter cannot return null, although in Java it is called on null and may return null.
- Java `int` overflow is not modelled. Positions, offsets and the `DiffMeasures` fields are unbounded integers, because every bound in the core is a list size.
- Validators are a closed datatype holding the library's four validator classes. A `Slot.SlotValidator` written outside the library is not modelled, because validator sets need equality on their members.
- A slot whose validator set is null is not modelled. `setValidators(null)` (`Slot.java:287-289`) can produce one, and `canInsertHere` then accepts every character (`Slot.java:170-172`). Here a slot's validators are always a set; the constructors turn a null set into the empty set (`Slot.java:84`), as in the library. `Slots.WithTag` takes a tag that is never null, so the null checks of `withTags` (`Slot.java:296-303`) are not modelled either.
- `Character.isDigit`, and the Cyrillic range of the letter validator, are restricted to the characters the model names. Other Unicode digits are not digits here.
- Masks.MaskImpl.ExtendTail: when count is greater than 1 the contract states only the new size, not the content of the added slots. The library calls it only with count 1.
- MaskProperties.InsertStopsBeforeGap: states that insertion stops only for the first character of the input, not for a gap met by a later character.
- The rest of the `+359` scenario (`MaskImplTest.java:192-208`, ending in the text "+359 535 49") is not proved. Only its first two steps are, as `PhoneScenarios.BulgarianInsertFront` and `PhoneScenarios.BulgarianDeletingSpace`.
- The caret of `insertFront("12345656")` on the empty dash mask (`MaskImplTest.java:175`, caret 4) is not proved. It takes eight typing turns, and no scenario here unfolds them. The last line of the `hasUserInput` test (`MaskImplTest.java:99-100`, a mask without slots) is the empty-list case of `Masks.MaskImpl.HasUserInput`'s contract and has no scenario of its own.
- `SlotTest.java:97-119` expects a pulled value to be validated by the receiving slot. The code does not do that, and the model follows the code; this is described above.
