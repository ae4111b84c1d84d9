/**
 * The mask (MaskImpl.java): a list of slots plus display settings. Typing, deletion, tail
 * extension of a mask that is not terminated, and rendering are first written as functions on
 * the slot sequence; the class `MaskImpl` below runs the source's loops and proves that each
 * method ends in the state and returns the value those functions give.
 */
module Masks {
  import opened Wrappers
  import opened Slots
  import SlotProperties
  import opened SlotLists

  /** Tag of the slots a mask that is not terminated appends to its tail. */
  const TAG_EXTENSION: int := -149635

  /** The settings of a mask that its editing operations read. */
  datatype Settings = Settings(
    terminated: bool,
    showingEmptySlots: bool,
    forbidInputWhenFilled: bool,
    hideHardcodedHead: bool)

  /** The outcome of an edit: the new slots, the returned caret and the new `showHardcodedTail`. */
  datatype Edit = Edit(slots: seq<Slot>, cursor: int, showHardcodedTail: bool)

  // ---------------------------------------------------------------- tail of the mask

  /** `emptySlotsOnTail()`: the number of empty slots at the end of the list. */
  function EmptySlotsOnTail(s: seq<Slot>): (n: nat)
    ensures n <= |s|
    ensures forall k :: |s| - n <= k < |s| ==> s[k].value.None?
    ensures n < |s| ==> s[|s| - n - 1].value.Some?
  {
    if |s| == 0 || s[|s| - 1].value.Some? then 0 else EmptySlotsOnTail(s[..|s| - 1]) + 1
  }

  /**
   * One round of `extendTail`: a copy of the last slot is appended, its value is deleted through
   * the chain (`setValue(null)`), and it is tagged as an extension.
   */
  function ExtendedTail(s: seq<Slot>): (r: seq<Slot>)
    requires |s| > 0
    ensures |r| == |s| + 1
    ensures HasTag(r[|s|], TAG_EXTENSION)
  {
    var t := s + [Copy(s[|s| - 1])];
    var t2 := Slots.SetValue(t, |s|, None, false).0;
    t2[|s| := WithTag(t2[|s|], TAG_EXTENSION)]
  }

  /** `isAllowedToRemoveSlot` for the last two slots: both are empty extension slots. */
  predicate RemovableTail(s: seq<Slot>)
    requires |s| >= 2
  {
    var last, prev := s[|s| - 1], s[|s| - 2];
    HasTag(last, TAG_EXTENSION) && HasTag(prev, TAG_EXTENSION) && last.value.None? && prev.value.None?
  }

  /** The loop of `trimTail`: drops the last slot while it and the one before are empty extensions. */
  function Trimmed(s: seq<Slot>): (r: seq<Slot>)
    ensures |r| <= |s| && r == s[..|r|]
    ensures |s| > 0 ==> |r| > 0
    ensures |r| >= 2 ==> !RemovableTail(r)
    ensures forall k :: |r| <= k < |s| ==> HasTag(s[k], TAG_EXTENSION) && s[k].value.None?
    decreases |s|
  {
    if |s| >= 2 && RemovableTail(s) then Trimmed(s[..|s| - 1]) else s
  }

  /** `trimTail()`: nothing happens to a terminated or empty mask. */
  function TrimmedTail(terminated: bool, s: seq<Slot>): seq<Slot> {
    if terminated || |s| == 0 then s else Trimmed(s)
  }

  // ---------------------------------------------------------------- typing

  /** The result of `validSlotIndexOffset`. */
  datatype SlotIndexOffset = SlotIndexOffset(indexOffset: nat, nonHardcodedSlotSkipped: bool)

  /**
   * `validSlotIndexOffset(slot at from, value)`: the distance from `from` to the first slot that
   * can take `ch` (or to the end of the list), and whether a slot that is not hardcoded was passed.
   */
  function SlotIndexOffsetFrom(s: seq<Slot>, from: nat, ch: char): (r: SlotIndexOffset)
    requires from <= |s|
    ensures from + r.indexOffset <= |s|
    ensures from + r.indexOffset < |s| ==> CanInsertHere(s[from + r.indexOffset], ch)
    decreases |s| - from
  {
    if from == |s| || CanInsertHere(s[from], ch) then SlotIndexOffset(0, false)
    else
      var rest := SlotIndexOffsetFrom(s, from + 1, ch);
      SlotIndexOffset(rest.indexOffset + 1, rest.nonHardcodedSlotSkipped || !Hardcoded(s[from]))
  }

  /**
   * The search stops at the first slot that can take `ch`: no slot before it can, and a slot
   * that is not hardcoded was passed exactly when one lies before it.
   */
  lemma {:induction false} SlotIndexOffsetFromFinds(s: seq<Slot>, from: nat, ch: char)
    requires from <= |s|
    ensures var r := SlotIndexOffsetFrom(s, from, ch);
      (forall k :: from <= k < from + r.indexOffset ==> !CanInsertHere(s[k], ch)) &&
      (r.nonHardcodedSlotSkipped <==> exists k :: from <= k < from + r.indexOffset && !Hardcoded(s[k]))
    decreases |s| - from
  {
    if !(from == |s| || CanInsertHere(s[from], ch)) {
      SlotIndexOffsetFromFinds(s, from + 1, ch);
    }
  }

  /** `validSlotIndexOffset` from the candidate slot; a null candidate gives offset 0 and no skip. */
  function SlotIndexOffsetOf(s: seq<Slot>, candidate: Option<nat>, ch: char): SlotIndexOffset
    requires candidate.Some? ==> candidate.value < |s|
  {
    match candidate
    case None => SlotIndexOffset(0, false)
    case Some(c) => SlotIndexOffsetFrom(s, c, ch)
  }

  /**
   * The state of the typing loop of `insertAt`: the slots, the caret and the candidate slot
   * (its index; None for null). The candidate is a slot of the list, so its index stays valid.
   */
  datatype Typing = Typing(slots: seq<Slot>, cursor: nat, candidate: Option<nat>)

  ghost predicate TypingOk(t: Typing) {
    |t.slots| > 0 && (t.candidate.Some? ==> t.candidate.value < |t.slots|)
  }

  /**
   * The turn of the typing loop that found slot `at` for `ch`: the value is set there, the caret
   * takes the returned offset, the candidate is the slot at the caret (None past the end), and a
   * mask that is not terminated whose tail has no empty slot left is extended by one slot.
   */
  function Placed(terminated: bool, s: seq<Slot>, at: nat, ch: char, fromLeft: bool): (r: Typing)
    requires at < |s|
    ensures TypingOk(r) && r.cursor >= at && |r.slots| >= |s|
    ensures terminated ==> |r.slots| == |s|
  {
    var (s1, insertOffset) := Slots.SetValue(s, at, Some(ch), fromLeft);
    var cursor := at + insertOffset;
    var candidate := if cursor < |s1| then Some(cursor) else None;
    var s2 := if !terminated && EmptySlotsOnTail(s1) < 1 then ExtendedTail(s1) else s1;
    Typing(s2, cursor, candidate)
  }

  /**
   * One turn of the typing loop for the character `ch`; None when the loop breaks because a
   * slot that is not hardcoded would be left behind empty and empty slots are not shown.
   */
  function TypeChar(st: Settings, t: Typing, ch: char): (r: Option<Typing>)
    requires TypingOk(t)
    ensures r.Some? ==> TypingOk(r.value) && r.value.cursor >= t.cursor && |r.value.slots| >= |t.slots|
    ensures r.Some? && st.terminated ==> |r.value.slots| == |t.slots|
  {
    var off := SlotIndexOffsetOf(t.slots, t.candidate, ch);
    if !st.showingEmptySlots && off.nonHardcodedSlotSkipped then None
    else
      var cursor := t.cursor + off.indexOffset;
      if cursor >= |t.slots| then Some(Typing(t.slots, cursor, t.candidate))
      else Some(Placed(st.terminated, t.slots, cursor, ch, off.indexOffset > 0))
  }

  /** The typing loop over the characters of `input`, in order. */
  function TypeAll(st: Settings, t: Typing, input: seq<char>): (r: Typing)
    requires TypingOk(t)
    ensures TypingOk(r) && r.cursor >= t.cursor && |r.slots| >= |t.slots|
    ensures st.terminated ==> |r.slots| == |t.slots|
    decreases |input|
  {
    if input == [] then t
    else match TypeChar(st, t, input[0])
      case None => t
      case Some(t1) => TypeAll(st, t1, input[1..])
  }

  /** `filledFrom(slot i)`: every slot from `i` on that is not an extension is hardcoded or filled. */
  predicate IsFilledFrom(s: seq<Slot>, i: nat) {
    forall k :: i <= k < |s| && !HasTag(s[k], TAG_EXTENSION) ==> Hardcoded(s[k]) || s[k].value.Some?
  }

  /**
   * `insertAt(position, input, cursorAfterTrailingHardcoded)`. Nothing happens for an empty mask,
   * a position outside it, or a null or empty input; nor, apart from `showHardcodedTail` becoming
   * true, when input is forbidden on a mask filled from `position`. Otherwise the characters are
   * typed one by one, the caret may skip a hardcoded run after the last one, and the hardcoded
   * tail is shown only when no user input follows the caret.
   */
  function InsertOutcome(st: Settings, s: seq<Slot>, showTail: bool, position: int, input: Option<seq<char>>,
                         cursorAfterTrailingHardcoded: bool): (e: Edit)
    ensures !(0 <= position < |s|) || input.None? || input == Some([]) ==> e == Edit(s, position, showTail)
    ensures 0 <= position < |s| && st.forbidInputWhenFilled && IsFilledFrom(s, position) ==> e.slots == s && e.cursor == position
    ensures st.terminated ==> |e.slots| == |s|
    ensures |e.slots| >= |s| && e.cursor >= position
  {
    if |s| == 0 || !(0 <= position < |s|) || input.None? || |input.value| == 0 then Edit(s, position, showTail)
    else if st.forbidInputWhenFilled && IsFilledFrom(s, position) then Edit(s, position, true)
    else
      var t := TypeAll(st, Typing(s, position, Some(position)), input.value);
      var hardcodedTailLength :=
        if cursorAfterTrailingHardcoded && t.candidate.Some?
        then HardcodedSequenceEndIndex(t.slots, t.candidate.value, 0) else 0;
      var cursor := if hardcodedTailLength > 0 then t.cursor + hardcodedTailLength else t.cursor;
      Edit(t.slots, cursor, cursor >= |t.slots| || !AnyInputToTheRight(t.slots, cursor))
  }

  // ---------------------------------------------------------------- deletion

  /**
   * The loop of `removeBackwardsInner`, `steps` turns from `cursor`: a slot inside the list is
   * cleared when it is not hardcoded, or when hardcoded slots may be removed and only one
   * character is; the caret takes the returned offset and moves one to the left each turn.
   */
  function RemoveSteps(s: seq<Slot>, cursor: int, steps: nat, removeHardcoded: bool, single: bool): (r: (seq<Slot>, int))
    ensures ValuesOnlyChanged(s, r.0) && HardcodedKept(s, r.0)
    decreases steps
  {
    if steps == 0 then (s, cursor)
    else if 0 <= cursor < |s| && (!Hardcoded(s[cursor]) || (removeHardcoded && single)) then
      var (s1, offset) := Slots.SetValue(s, cursor, None, false);
      RemoveSteps(s1, cursor + offset - 1, steps - 1, removeHardcoded, single)
    else RemoveSteps(s, cursor - 1, steps - 1, removeHardcoded, single)
  }

  /**
   * The `do … while` walk of `removeBackwardsInner` from `tmp`: steps left, and goes on while it
   * stands on a hardcoded slot of the list at an index above 0.
   */
  function HardcodedWalk(s: seq<Slot>, tmp: int): (r: int)
    ensures r < tmp
    ensures !(0 < r < |s| && Hardcoded(s[r]))
    decreases if tmp > 0 then tmp else 0
  {
    var t := tmp - 1;
    if 0 <= t < |s| && Hardcoded(s[t]) && t > 0 then HardcodedWalk(s, t) else t
  }

  /** Every slot the walk steps over is a hardcoded slot of the list, at an index above 0. */
  lemma {:induction false} HardcodedWalkPassesHardcoded(s: seq<Slot>, tmp: int)
    ensures HardcodedWalk(s, tmp) < tmp - 1 ==> 0 <= HardcodedWalk(s, tmp) && tmp <= |s|
    ensures forall m :: HardcodedWalk(s, tmp) < m < tmp ==> Hardcoded(s[m])
    decreases if tmp > 0 then tmp else 0
  {
    var t := tmp - 1;
    if 0 <= t < |s| && Hardcoded(s[t]) && t > 0 {
      HardcodedWalkPassesHardcoded(s, t);
      assert HardcodedWalk(s, tmp) == HardcodedWalk(s, t);
    } else {
      assert HardcodedWalk(s, tmp) == t;
    }
  }

  /**
   * `removeBackwardsInner(position, count, removeHardcoded)`: the deletion loop, the tail trim,
   * and the caret moved to just after the last slot left of it that is not hardcoded; the
   * hardcoded tail is shown only when the walk reached the head and the head is not hidden. A
   * caret outside `[0, size]` becomes 0.
   */
  function RemoveOutcome(st: Settings, s: seq<Slot>, position: int, count: int, removeHardcoded: bool): (e: Edit)
    ensures 0 <= e.cursor <= |e.slots| <= |s|
    ensures st.terminated ==> |e.slots| == |s|
    ensures forall k :: 0 <= k < |e.slots| && Hardcoded(s[k]) ==> e.slots[k] == s[k]
  {
    var (s1, c1) := RemoveSteps(s, position, if count > 0 then count else 0, removeHardcoded, count == 1);
    var cursor := c1 + 1;
    var s2 := TrimmedTail(st.terminated, s1);
    var tmp := HardcodedWalk(s2, cursor);
    var cursor2 := if tmp > 0 then tmp + 1 else cursor;
    Edit(s2, if 0 <= cursor2 <= |s2| then cursor2 else 0, tmp <= 0 && !st.hideHardcodedHead)
  }

  // ---------------------------------------------------------------- rendering

  /** The character a shown slot contributes: its value, or the placeholder when it is empty. */
  function Shown(slot: Slot, placeholder: char): char {
    if slot.value.Some? then slot.value.value else placeholder
  }

  /**
   * Where `toStringFrom` stops: empty slots are not shown, nothing from here on is user input,
   * and the slot is not part of a hardcoded tail that is being shown.
   */
  predicate StopsAt(s: seq<Slot>, i: nat, showingEmptySlots: bool, showHardcodedTail: bool)
    requires i < |s|
  {
    !showingEmptySlots && !AnyInputToTheRight(s, i) && (!showHardcodedTail || !Hardcoded(s[i]))
  }

  /**
   * The text `toStringFrom` renders from slot `i`: decoration slots are left out of the
   * unformatted text, every other slot shows its character until the rendering stops.
   */
  function Render(s: seq<Slot>, i: nat, allowDecoration: bool, showingEmptySlots: bool,
                  showHardcodedTail: bool, placeholder: char): (r: string)
    requires i <= |s|
    ensures |r| <= |s| - i
    decreases |s| - i
  {
    if i == |s| then []
    else if !allowDecoration && HasTag(s[i], TAG_DECORATION) then
      Render(s, i + 1, allowDecoration, showingEmptySlots, showHardcodedTail, placeholder)
    else if StopsAt(s, i, showingEmptySlots, showHardcodedTail) then []
    else [Shown(s[i], placeholder)] + Render(s, i + 1, allowDecoration, showingEmptySlots, showHardcodedTail, placeholder)
  }

  /**
   * The two `break`s of `toStringFrom` on slot `i` fire exactly when the rendering stops there,
   * and otherwise the slot shows its value or, when empty, the placeholder.
   */
  lemma SourceBreaksAreStops(s: seq<Slot>, i: nat, showingEmptySlots: bool, showHardcodedTail: bool)
    requires i < |s|
    ensures var any := AnyInputToTheRight(s, i);
      var firstBreak := !any && !showingEmptySlots &&
        (!showHardcodedTail || !(0 <= HardcodedSequenceEndIndex(s, i, 0) - 1 + i < |s|));
      var secondBreak := s[i].value.None? && !(showingEmptySlots || any);
      (firstBreak || secondBreak) <==> StopsAt(s, i, showingEmptySlots, showHardcodedTail)
  {
    SlotProperties.HardcodedSequenceEndIndexIsRunLength(s, i, 0);
  }

  /** One turn of the loop of `toStringFrom` on slot `i`, as `Render` unfolds there. */
  lemma RenderStep(s: seq<Slot>, i: nat, allowDecoration: bool, showingEmptySlots: bool,
                   showHardcodedTail: bool, placeholder: char)
    requires i < |s|
    ensures var rest := Render(s, i, allowDecoration, showingEmptySlots, showHardcodedTail, placeholder);
      var next := Render(s, i + 1, allowDecoration, showingEmptySlots, showHardcodedTail, placeholder);
      var any := AnyInputToTheRight(s, i);
      var firstBreak := !any && !showingEmptySlots &&
        (!showHardcodedTail || !(0 <= HardcodedSequenceEndIndex(s, i, 0) - 1 + i < |s|));
      var secondBreak := s[i].value.None? && !(showingEmptySlots || any);
      if !allowDecoration && HasTag(s[i], TAG_DECORATION) then rest == next
      else if firstBreak || secondBreak then rest == []
      else rest == [Shown(s[i], placeholder)] + next
  {
    SourceBreaksAreStops(s, i, showingEmptySlots, showHardcodedTail);
  }

  /**
   * Regrouping an append, as the rendering loop needs when it adds one character in front of the
   * rest of the text. Stated as a lemma because an inline assert of it costs the loop's proof far more.
   */
  lemma AppendRegroups(a: string, b: string, c: string)
    ensures a + b + c == a + (b + c)
  {
  }

  /** The number of decoration slots among the first `n`. */
  function DecorationCount(s: seq<Slot>, n: nat): (c: nat)
    requires n <= |s|
    ensures c <= n
  {
    if n == 0 then 0 else DecorationCount(s, n - 1) + (if HasTag(s[n - 1], TAG_DECORATION) then 1 else 0)
  }

  // ---------------------------------------------------------------- the mask object

  class MaskImpl {
    const terminated: bool
    var placeholder: Option<char>
    var showingEmptySlots: bool
    var forbidInputWhenFilled: bool
    var hideHardcodedHead: bool
    var showHardcodedTail: bool
    const slots: SlotsList

    function Config(): Settings
      reads this
    {
      Settings(terminated, showingEmptySlots, forbidInputWhenFilled, hideHardcodedHead)
    }

    /**
     * `new MaskImpl(slots, terminated)`: a list of copies of the slots; a single-slot mask that
     * is not terminated gets one extension slot at once.
     */
    constructor (a: array<Slot>, terminated: bool)
      ensures this.terminated == terminated && placeholder.None?
      ensures !showingEmptySlots && !forbidInputWhenFilled && !hideHardcodedHead && showHardcodedTail
      ensures fresh(slots)
      ensures slots.slots == if a.Length == 1 && !terminated then ExtendedTail(a[..]) else a[..]
    {
      this.terminated := terminated;
      placeholder := None;
      showingEmptySlots := false;
      forbidInputWhenFilled := false;
      hideHardcodedHead := false;
      showHardcodedTail := true;
      slots := new SlotsList.OfArray(a);
      new;
      if |slots.slots| == 1 && !terminated {
        ExtendTail(1);
      }
    }

    /** `new MaskImpl(mask, terminated)`: the settings and a copy of the slots of `mask`. */
    constructor CopyOf(mask: MaskImpl, terminated: bool)
      ensures this.terminated == terminated && placeholder == mask.placeholder
      ensures showingEmptySlots == mask.showingEmptySlots && forbidInputWhenFilled == mask.forbidInputWhenFilled
      ensures hideHardcodedHead == mask.hideHardcodedHead && showHardcodedTail == mask.showHardcodedTail
      ensures fresh(slots) && slots.slots == mask.slots.slots
    {
      this.terminated := terminated;
      placeholder := mask.placeholder;
      showingEmptySlots := mask.showingEmptySlots;
      forbidInputWhenFilled := mask.forbidInputWhenFilled;
      hideHardcodedHead := mask.hideHardcodedHead;
      showHardcodedTail := mask.showHardcodedTail;
      slots := new SlotsList.CopyOf(mask.slots);
    }

    /** `createTerminated(slots)` */
    static method CreateTerminated(a: array<Slot>) returns (m: MaskImpl)
      ensures fresh(m) && fresh(m.slots) && m.terminated && m.slots.slots == a[..]
    {
      m := new MaskImpl(a, true);
    }

    /** `createNonTerminated(slots)` */
    static method CreateNonTerminated(a: array<Slot>) returns (m: MaskImpl)
      ensures fresh(m) && fresh(m.slots) && !m.terminated
      ensures m.slots.slots == if a.Length == 1 then ExtendedTail(a[..]) else a[..]
    {
      m := new MaskImpl(a, false);
    }

    function GetSize(): nat
      reads this, slots
    {
      |slots.slots|
    }

    /** `getPlaceholder()`: the placeholder set, or '_' . */
    function GetPlaceholder(): char
      reads this
    {
      placeholder.GetOr(PLACEHOLDER_DEFAULT)
    }

    /** `setPlaceholder(placeholder)`: null is an IllegalArgumentException. */
    method SetPlaceholder(p: Option<char>) returns (r: Result<()>)
      modifies this`placeholder
      ensures p.None? ==> r == Failure(IllegalArgument) && placeholder == old(placeholder)
      ensures p.Some? ==> r.Success? && placeholder == p
    {
      if p.None? {
        return Failure(IllegalArgument);
      }
      placeholder := p;
      r := Success(());
    }

    method SetShowingEmptySlots(b: bool)
      modifies this`showingEmptySlots
      ensures showingEmptySlots == b
    {
      showingEmptySlots := b;
    }

    method SetForbidInputWhenFilled(b: bool)
      modifies this`forbidInputWhenFilled
      ensures forbidInputWhenFilled == b
    {
      forbidInputWhenFilled := b;
    }

    /** `setHideHardcodedHead(b)`: without user input the hardcoded tail is shown exactly when the head is not hidden. */
    method SetHideHardcodedHead(b: bool)
      modifies this`hideHardcodedHead, this`showHardcodedTail
      ensures hideHardcodedHead == b
      ensures showHardcodedTail == if HasUserInput() then old(showHardcodedTail) else !b
    {
      hideHardcodedHead := b;
      if !HasUserInput() {
        showHardcodedTail := !hideHardcodedHead;
      }
    }

    /** `hasUserInput()`: some slot holds a value the user typed. */
    function HasUserInput(): (b: bool)
      reads this, slots
      ensures b <==> exists k :: 0 <= k < |slots.slots| && IsUserInput(slots.slots[k])
    {
      if |slots.slots| == 0 then false
      else
        SlotProperties.AnyInputToTheRightMeans(slots.slots, 0);
        AnyInputToTheRight(slots.slots, 0)
    }

    /** `getInitialInputPosition()`: the index of the first empty slot, or the size. */
    method GetInitialInputPosition() returns (r: nat)
      ensures r <= |slots.slots|
      ensures forall k :: 0 <= k < r ==> slots.slots[k].value.Some?
      ensures r < |slots.slots| ==> slots.slots[r].value.None?
    {
      r := 0;
      var slot := slots.GetSlot(r);
      while slot.Some? && slot.value.value.Some?
        invariant r <= |slots.slots|
        invariant forall k :: 0 <= k < r ==> slots.slots[k].value.Some?
        invariant slot.Some? <==> r < |slots.slots|
        invariant slot.Some? ==> slot.value == slots.slots[r]
        decreases |slots.slots| - r
      {
        r := r + 1;
        slot := if r < |slots.slots| then Some(slots.slots[r]) else None;
      }
    }

    /** `filledFrom(slot i)`: a null start slot is an IllegalArgumentException. */
    method FilledFrom(i: int) returns (r: Result<bool>)
      ensures !(0 <= i < |slots.slots|) ==> r == Failure(IllegalArgument)
      ensures 0 <= i < |slots.slots| ==> r == Success(IsFilledFrom(slots.slots, i))
    {
      if !slots.CheckIsIndex(i) {
        return Failure(IllegalArgument);
      }
      var k := i;
      while k < |slots.slots|
        invariant i <= k <= |slots.slots|
        invariant forall j :: i <= j < k && !HasTag(slots.slots[j], TAG_EXTENSION) ==>
          Hardcoded(slots.slots[j]) || slots.slots[j].value.Some?
      {
        var s := slots.slots[k];
        if !HasTag(s, TAG_EXTENSION) && !Hardcoded(s) && s.value.None? {
          return Success(false);
        }
        k := k + 1;
      }
      r := Success(true);
    }

    /** `filled()`: a mask with slots, filled from its first slot. */
    method Filled() returns (b: bool)
      ensures b <==> |slots.slots| > 0 && IsFilledFrom(slots.slots, 0)
    {
      if |slots.slots| == 0 {
        return false;
      }
      var r := FilledFrom(0);
      b := r.value;
    }

    /** `emptySlotsOnTail()`: walks back from the last slot over empty ones. */
    method CountEmptySlotsOnTail() returns (count: nat)
      ensures count == EmptySlotsOnTail(slots.slots)
    {
      var s := slots.slots;
      count := 0;
      var k := |s|;
      while k > 0 && s[k - 1].value.None?
        invariant 0 <= k <= |s| && count == |s| - k
        invariant EmptySlotsOnTail(s) == count + EmptySlotsOnTail(s[..k])
      {
        assert s[..k][..k - 1] == s[..k - 1];
        count := count + 1;
        k := k - 1;
      }
    }

    /** `extendTail(count)`: appends `count` extension slots to a mask that is not terminated. */
    method ExtendTail(count: int)
      requires |slots.slots| > 0
      modifies slots
      ensures terminated || count < 1 ==> slots.slots == old(slots.slots)
      ensures !terminated && count == 1 ==> slots.slots == ExtendedTail(old(slots.slots))
      ensures !terminated && count >= 1 ==> |slots.slots| == old(|slots.slots|) + count
    {
      if terminated || count < 1 {
        return;
      }
      var remaining := count;
      while remaining > 0
        invariant 0 <= remaining <= count
        invariant |slots.slots| == old(|slots.slots|) + (count - remaining)
        invariant remaining == count ==> slots.slots == old(slots.slots)
        invariant count == 1 && remaining == 0 ==> slots.slots == ExtendedTail(old(slots.slots))
      {
        ghost var before := slots.slots;
        var n := |slots.slots|;
        var inserted := slots.InsertSlotAt(n, slots.slots[n - 1]);
        assert slots.slots == before + [Copy(before[n - 1])];
        ghost var appended := slots.slots;
        var _ := slots.SetValue(n, None, false);
        assert slots.slots == Slots.SetValue(appended, n, None, false).0;
        slots.WithTagAt(n, TAG_EXTENSION);
        assert slots.slots == ExtendedTail(before);
        remaining := remaining - 1;
      }
    }

    /** `trimTail()` */
    method TrimTail()
      modifies slots
      ensures slots.slots == TrimmedTail(terminated, old(slots.slots))
    {
      if terminated || |slots.slots| == 0 {
        return;
      }
      while |slots.slots| >= 2 && RemovableTail(slots.slots)
        invariant Trimmed(slots.slots) == Trimmed(old(slots.slots))
        decreases |slots.slots|
      {
        ghost var before := slots.slots;
        var removed := slots.RemoveSlotAt(|slots.slots| - 1);
        assert slots.slots == before[..|before| - 1];
      }
    }

    /** `clear()`: every value that is not hardcoded is deleted, then the tail is trimmed. */
    method Clear()
      modifies slots
      ensures slots.slots == TrimmedTail(terminated, SlotProperties.Cleared(old(slots.slots)))
    {
      slots.Clear();
      TrimTail();
    }

    /** `validSlotIndexOffset(candidate, value)`: walks right from the candidate while it cannot take `value`. */
    method ValidSlotIndexOffset(candidate: Option<nat>, value: char) returns (r: SlotIndexOffset)
      requires candidate.Some? ==> candidate.value < |slots.slots|
      ensures r == SlotIndexOffsetOf(slots.slots, candidate, value)
    {
      r := SlotIndexOffset(0, false);
      if candidate.None? {
        return;
      }
      var at := candidate.value;
      while at < |slots.slots| && !CanInsertHere(slots.slots[at], value)
        invariant candidate.value <= at <= |slots.slots|
        invariant r.indexOffset == at - candidate.value
        invariant SlotIndexOffsetFrom(slots.slots, candidate.value, value)
               == (var rest := SlotIndexOffsetFrom(slots.slots, at, value);
                   SlotIndexOffset(rest.indexOffset + r.indexOffset, rest.nonHardcodedSlotSkipped || r.nonHardcodedSlotSkipped))
        decreases |slots.slots| - at
      {
        if !r.nonHardcodedSlotSkipped && !Hardcoded(slots.slots[at]) {
          r := r.(nonHardcodedSlotSkipped := true);
        }
        at := at + 1;
        r := r.(indexOffset := r.indexOffset + 1);
      }
    }

    /** One turn of the typing loop of `insertAt` for `newValue`; `stop` is its `break`. */
    method TypeOne(cursor: nat, candidate: Option<nat>, newValue: char)
      returns (stop: bool, nextCursor: nat, nextCandidate: Option<nat>)
      requires TypingOk(Typing(slots.slots, cursor, candidate))
      modifies slots
      ensures var r := TypeChar(Config(), Typing(old(slots.slots), cursor, candidate), newValue);
        if stop then r.None? && slots.slots == old(slots.slots) && nextCursor == cursor && nextCandidate == candidate
        else r == Some(Typing(slots.slots, nextCursor, nextCandidate))
    {
      ghost var t := Typing(slots.slots, cursor, candidate);
      var slotForInputIndex := ValidSlotIndexOffset(candidate, newValue);
      if !showingEmptySlots && slotForInputIndex.nonHardcodedSlotSkipped {
        assert TypeChar(Config(), t, newValue).None?;
        return true, cursor, candidate;
      }
      stop := false;
      nextCursor := cursor + slotForInputIndex.indexOffset;
      nextCandidate := candidate;
      var slotForInput := slots.GetSlot(nextCursor);
      if slotForInput.Some? {
        ghost var placed := Placed(terminated, t.slots, nextCursor, newValue, slotForInputIndex.indexOffset > 0);
        assert TypeChar(Config(), t, newValue) == Some(placed);
        nextCursor, nextCandidate := PlaceValue(nextCursor, newValue, slotForInputIndex.indexOffset > 0);
      } else {
        assert TypeChar(Config(), t, newValue) == Some(Typing(t.slots, nextCursor, candidate));
      }
    }

    /** The body of the typing loop once a slot for the value is found. */
    method PlaceValue(at: nat, newValue: char, fromLeft: bool) returns (nextCursor: nat, nextCandidate: Option<nat>)
      requires at < |slots.slots|
      modifies slots
      ensures Typing(slots.slots, nextCursor, nextCandidate) == Placed(terminated, old(slots.slots), at, newValue, fromLeft)
    {
      var insertOffset := slots.SetValue(at, Some(newValue), fromLeft);
      nextCursor := at + insertOffset;
      nextCandidate := if slots.CheckIsIndex(nextCursor) then Some(nextCursor) else None;
      if !terminated {
        var tail := CountEmptySlotsOnTail();
        if tail < 1 {
          ExtendTail(1);
        }
      }
    }

    /** The typing loop of `insertAt`: the characters of `chars` in order, from `position`. */
    method TypeInput(position: nat, chars: seq<char>) returns (cursor: nat, candidate: Option<nat>)
      requires position < |slots.slots|
      modifies slots
      ensures Typing(slots.slots, cursor, candidate) == TypeAll(Config(), Typing(old(slots.slots), position, Some(position)), chars)
    {
      cursor, candidate := position, Some(position);
      ghost var st := Config();
      ghost var final := TypeAll(st, Typing(slots.slots, cursor, candidate), chars);
      var i := 0;
      while i < |chars|
        invariant 0 <= i <= |chars|
        invariant Config() == st
        invariant TypingOk(Typing(slots.slots, cursor, candidate))
        invariant TypeAll(st, Typing(slots.slots, cursor, candidate), chars[i..]) == final
      {
        ghost var before := Typing(slots.slots, cursor, candidate);
        assert chars[i..][0] == chars[i] && chars[i..][1..] == chars[i + 1..];
        var stop;
        stop, cursor, candidate := TypeOne(cursor, candidate, chars[i]);
        if stop {
          assert TypeAll(st, before, chars[i..]) == before;
          break;
        }
        assert TypeAll(st, before, chars[i..]) == TypeAll(st, Typing(slots.slots, cursor, candidate), chars[i + 1..]);
        i := i + 1;
      }
    }

    /**
     * `insertAt(position, input, cursorAfterTrailingHardcoded)`; the input is None for null.
     * Returns the new caret.
     */
    method InsertAt(position: int, input: Option<seq<char>>, cursorAfterTrailingHardcoded: bool) returns (r: int)
      modifies this`showHardcodedTail, slots
      ensures var e := InsertOutcome(Config(), old(slots.slots), old(showHardcodedTail), position, input, cursorAfterTrailingHardcoded);
        slots.slots == e.slots && r == e.cursor && showHardcodedTail == e.showHardcodedTail
    {
      if |slots.slots| == 0 || !slots.CheckIsIndex(position) || input.None? || |input.value| == 0 {
        return position;
      }
      showHardcodedTail := true;
      var cursor: nat := position;
      var candidate: Option<nat> := Some(position);
      if forbidInputWhenFilled {
        var filled := FilledFrom(position);
        if filled == Success(true) {
          return position;
        }
      }
      cursor, candidate := TypeInput(position, input.value);
      if cursorAfterTrailingHardcoded {
        var hardcodedTailLength := 0;
        if candidate.Some? {
          hardcodedTailLength := HardcodedSequenceEndIndex(slots.slots, candidate.value, 0);
        }
        if hardcodedTailLength > 0 {
          cursor := cursor + hardcodedTailLength;
        }
      }
      var nextSlot := slots.GetSlot(cursor);
      showHardcodedTail := nextSlot.None? || !AnyInputToTheRight(slots.slots, cursor);
      r := cursor;
    }

    /** `insertAt(position, input)`: the caret goes after a trailing hardcoded run. */
    method InsertAtAfterHardcoded(position: int, input: Option<seq<char>>) returns (r: int)
      modifies this`showHardcodedTail, slots
      ensures var e := InsertOutcome(Config(), old(slots.slots), old(showHardcodedTail), position, input, true);
        slots.slots == e.slots && r == e.cursor && showHardcodedTail == e.showHardcodedTail
    {
      r := InsertAt(position, input, true);
    }

    /** `insertFront(input)`: typing from the first slot. */
    method InsertFront(input: Option<seq<char>>) returns (r: int)
      modifies this`showHardcodedTail, slots
      ensures var e := InsertOutcome(Config(), old(slots.slots), old(showHardcodedTail), 0, input, true);
        slots.slots == e.slots && r == e.cursor && showHardcodedTail == e.showHardcodedTail
    {
      r := InsertAt(0, input, true);
    }

    /** `removeBackwardsInner(position, count, removeHardcoded)` */
    method RemoveBackwardsInner(position: int, count: int, removeHardcoded: bool) returns (r: int)
      modifies this`showHardcodedTail, slots
      ensures var e := RemoveOutcome(Config(), old(slots.slots), position, count, removeHardcoded);
        slots.slots == e.slots && r == e.cursor && showHardcodedTail == e.showHardcodedTail
    {
      var cursor := DeleteBackwards(position, count, removeHardcoded);
      cursor := cursor + 1;
      TrimTail();
      var tmpPosition := WalkOverHardcoded(cursor);
      showHardcodedTail := tmpPosition <= 0 && !hideHardcodedHead;
      if tmpPosition > 0 {
        cursor := tmpPosition + 1;
      }
      r := if 0 <= cursor <= |slots.slots| then cursor else 0;
    }

    /** The deletion loop of `removeBackwardsInner`; returns the caret it ends on. */
    method DeleteBackwards(position: int, count: int, removeHardcoded: bool) returns (cursor: int)
      modifies slots
      ensures (slots.slots, cursor)
           == RemoveSteps(old(slots.slots), position, if count > 0 then count else 0, removeHardcoded, count == 1)
    {
      cursor := position;
      ghost var steps: nat := if count > 0 then count else 0;
      ghost var final := RemoveSteps(slots.slots, position, steps, removeHardcoded, count == 1);
      var i := 0;
      while i < count
        invariant 0 <= i <= steps
        invariant RemoveSteps(slots.slots, cursor, steps - i, removeHardcoded, count == 1) == final
      {
        if slots.CheckIsIndex(cursor) {
          var s := slots.GetSlot(cursor);
          if s.Some? && (!Hardcoded(s.value) || (removeHardcoded && count == 1)) {
            var offset := slots.SetValue(cursor, None, false);
            cursor := cursor + offset;
          }
        }
        cursor := cursor - 1;
        i := i + 1;
      }
    }

    /** The `do … while` of `removeBackwardsInner`: steps left from `cursor` over hardcoded slots. */
    method WalkOverHardcoded(cursor: int) returns (tmpPosition: int)
      ensures tmpPosition == HardcodedWalk(slots.slots, cursor)
    {
      tmpPosition := cursor - 1;
      var slot := slots.GetSlot(tmpPosition);
      while slot.Some? && Hardcoded(slot.value) && tmpPosition > 0
        invariant HardcodedWalk(slots.slots, tmpPosition + 1) == HardcodedWalk(slots.slots, cursor)
        invariant slot.Some? <==> 0 <= tmpPosition < |slots.slots|
        invariant slot.Some? ==> slot.value == slots.slots[tmpPosition]
        decreases tmpPosition
      {
        tmpPosition := tmpPosition - 1;
        slot := slots.GetSlot(tmpPosition);
      }
    }

    /** `removeBackwards(position, count)`: a single hardcoded character may be deleted too. */
    method RemoveBackwardsAt(position: int, count: int) returns (r: int)
      modifies this`showHardcodedTail, slots
      ensures var e := RemoveOutcome(Config(), old(slots.slots), position, count, true);
        slots.slots == e.slots && r == e.cursor && showHardcodedTail == e.showHardcodedTail
    {
      r := RemoveBackwardsInner(position, count, true);
    }

    /** `removeBackwardsWithoutHardcoded(position, count)` */
    method RemoveBackwardsWithoutHardcoded(position: int, count: int) returns (r: int)
      modifies this`showHardcodedTail, slots
      ensures var e := RemoveOutcome(Config(), old(slots.slots), position, count, false);
        slots.slots == e.slots && r == e.cursor && showHardcodedTail == e.showHardcodedTail
    {
      r := RemoveBackwardsInner(position, count, false);
    }

    /** `toString(allowDecoration)`: the empty mask renders as the empty text. */
    method Text(allowDecoration: bool) returns (result: string)
      ensures result == Render(slots.slots, 0, allowDecoration, showingEmptySlots, showHardcodedTail, GetPlaceholder())
    {
      if |slots.slots| == 0 {
        return [];
      }
      result := ToStringFrom(allowDecoration);
    }

    /** `toString()` */
    method ToString() returns (result: string)
      ensures result == Render(slots.slots, 0, true, showingEmptySlots, showHardcodedTail, GetPlaceholder())
    {
      result := Text(true);
    }

    /** `toUnformattedString()`: the text without the characters of decoration slots. */
    method ToUnformattedString() returns (result: string)
      ensures result == Render(slots.slots, 0, false, showingEmptySlots, showHardcodedTail, GetPlaceholder())
    {
      result := Text(false);
    }

    /** `toStringFrom(first slot, allowDecoration)`: appends slot characters until a `break`. */
    method ToStringFrom(allowDecoration: bool) returns (result: string)
      ensures result == Render(slots.slots, 0, allowDecoration, showingEmptySlots, showHardcodedTail, GetPlaceholder())
    {
      var s, showEmpty, showTail, stub := slots.slots, showingEmptySlots, showHardcodedTail, GetPlaceholder();
      ghost var whole := Render(s, 0, allowDecoration, showEmpty, showTail, stub);
      result := [];
      var index := 0;
      while index < |s|
        invariant 0 <= index <= |s|
        invariant result + Render(s, index, allowDecoration, showEmpty, showTail, stub) == whole
      {
        RenderStep(s, index, allowDecoration, showEmpty, showTail, stub);
        var slot := s[index];
        var c := slot.value;
        if allowDecoration || !HasTag(slot, TAG_DECORATION) {
          var anyInputFromHere := AnyInputToTheRight(s, index);
          if !anyInputFromHere && !showEmpty {
            if !showTail || !slots.CheckIsIndex(HardcodedSequenceEndIndex(s, index, 0) - 1 + index) {
              break;
            }
          }
          if c.None? && (showEmpty || anyInputFromHere) {
            c := Some(stub);
          } else if c.None? {
            break;
          }
          AppendRegroups(result, [c.value], Render(s, index + 1, allowDecoration, showEmpty, showTail, stub));
          result := result + [c.value];
        }
        index := index + 1;
      }
    }

    /**
     * `findCursorPositionInUnformattedString(cursorPosition)`: 0 stays 0; a position outside
     * `[0, size]` is an IndexOutOfBoundsException; otherwise the position less the number of
     * decoration slots from the head up to and including the slot at the position (the last
     * slot when the position is the size).
     */
    method FindCursorPositionInUnformattedString(cursorPosition: int) returns (r: Result<int>)
      ensures cursorPosition == 0 ==> r == Success(0)
      ensures cursorPosition != 0 && (cursorPosition < 0 || |slots.slots| < cursorPosition) ==> r == Failure(IndexOutOfBounds)
      ensures 0 < cursorPosition < |slots.slots| ==> r == Success(cursorPosition - DecorationCount(slots.slots, cursorPosition + 1))
      ensures 0 < cursorPosition == |slots.slots| ==> r == Success(cursorPosition - DecorationCount(slots.slots, cursorPosition))
    {
      if cursorPosition == 0 {
        return Success(0);
      } else if cursorPosition < 0 || GetSize() < cursorPosition {
        return Failure(IndexOutOfBounds);
      }
      var at := if cursorPosition == GetSize() then cursorPosition - 1 else cursorPosition;
      ghost var counted := at + 1;
      var position := cursorPosition;
      while true
        invariant 0 <= at < counted <= |slots.slots|
        invariant position == cursorPosition - (DecorationCount(slots.slots, counted) - DecorationCount(slots.slots, at + 1))
        decreases at
      {
        if HasTag(slots.slots[at], TAG_DECORATION) {
          position := position - 1;
        }
        if at == 0 {
          break;
        }
        at := at - 1;
      }
      r := Success(position);
    }
  }
}
