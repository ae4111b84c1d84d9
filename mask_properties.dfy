/**
 * Properties of the mask operations of MaskImpl.java, stated on the specification functions that
 * the `MaskImpl` methods are proved to follow.
 */
module MaskProperties {
  import opened Wrappers
  import opened Slots
  import opened SlotProperties
  import opened Masks

  // ---------------------------------------------------------------- tail extension

  /** The copy appended by `extendTail`, before its value is deleted. */
  lemma ExtensionDeletesFromCopy(s: seq<Slot>)
    requires |s| > 0
    ensures var t := s + [Copy(s[|s| - 1])];
      Slots.SetValue(t, |s|, None, false).0 == RemoveCurrentValue(t, |s|)
  {
  }

  /** Extending after a last slot that is not hardcoded appends an empty extension copy of it. */
  lemma {:induction false} ExtendAfterFreeSlot(s: seq<Slot>)
    requires |s| > 0 && !Hardcoded(s[|s| - 1])
    ensures ExtendedTail(s) == s + [WithTag(s[|s| - 1].(value := None), TAG_EXTENSION)]
  {
    var t := s + [Copy(s[|s| - 1])];
    ExtensionDeletesFromCopy(s);
    RemoveShiftsLeft(t, |s|);
    assert ShiftedLeftFrom(t, |s|) == s + [s[|s| - 1].(value := None)];
  }

  /** `PrevFree` looks only at the slots up to its index. */
  lemma {:induction false} PrevFreeOfPrefix(s: seq<Slot>, t: seq<Slot>, i: int)
    requires -1 <= i < |s| <= |t| && s == t[..|s|]
    ensures PrevFree(t, i) == PrevFree(s, i)
    decreases i + 1
  {
    if i >= 0 && Hardcoded(s[i]) {
      PrevFreeOfPrefix(s, t, i - 1);
    }
  }

  /**
   * Extending after a hardcoded last slot keeps the copy's value (a hardcoded slot hands the
   * deletion to its left), and the deletion empties the nearest slot that is not hardcoded:
   * user input there is lost. With no such slot nothing but the copy changes.
   */
  lemma {:induction false} ExtendAfterHardcodedSlot(s: seq<Slot>)
    requires |s| > 0 && Hardcoded(s[|s| - 1])
    ensures var r := ExtendedTail(s);
      var p := PrevFree(s, |s| - 1);
      r[|s|] == WithTag(s[|s| - 1], TAG_EXTENSION) &&
      (p < 0 ==> r[..|s|] == s) &&
      (p >= 0 ==> r[p] == s[p].(value := None) && forall k :: 0 <= k < |s| && k != p ==> r[k] == s[k])
  {
    var n := |s|;
    var t := s + [Copy(s[n - 1])];
    ExtensionDeletesFromCopy(s);
    RemoveFromHardcodedDelegatesLeft(t, n);
    assert PrevFree(t, n) == PrevFree(t, n - 1);
    PrevFreeOfPrefix(s, t, n - 1);
    var p := PrevFree(s, n - 1);
    var t2 := Slots.SetValue(t, n, None, false).0;
    if p >= 0 {
      ShiftFromLastFreeSlot(t, p);
      assert t2 == t[p := t[p].(value := None)];
    } else {
      assert t2 == t;
    }
  }

  /** A deletion from the last slot that is not hardcoded only empties that slot. */
  lemma ShiftFromLastFreeSlot(t: seq<Slot>, p: nat)
    requires p < |t| && !Hardcoded(t[p]) && forall m :: p < m < |t| ==> Hardcoded(t[m])
    ensures ShiftedLeftFrom(t, p) == t[p := t[p].(value := None)]
  {
    NextFreeOverHardcoded(t, p + 1);
  }

  lemma {:induction false} NextFreeOverHardcoded(s: seq<Slot>, j: nat)
    requires j <= |s| && forall m :: j <= m < |s| ==> Hardcoded(s[m])
    ensures NextFree(s, j) == |s|
    decreases |s| - j
  {
    if j < |s| {
      NextFreeOverHardcoded(s, j + 1);
    }
  }

  // ---------------------------------------------------------------- typing keeps hardcoded slots

  /** The slots of `r` before `|s|` differ from those of `s` only in the values of free slots. */
  ghost predicate EditedWithinRules(s: seq<Slot>, r: seq<Slot>) {
    |s| <= |r| &&
    (forall k :: 0 <= k < |s| ==> SameShape(s[k], r[k])) &&
    (forall k :: 0 <= k < |s| && Hardcoded(s[k]) ==> r[k] == s[k])
  }

  lemma EditedWithinRulesTransitive(a: seq<Slot>, b: seq<Slot>, c: seq<Slot>)
    requires EditedWithinRules(a, b) && EditedWithinRules(b, c)
    ensures EditedWithinRules(a, c)
  {
  }

  lemma {:induction false} ExtensionWithinRules(s: seq<Slot>)
    requires |s| > 0
    ensures EditedWithinRules(s, ExtendedTail(s))
  {
    var t := s + [Copy(s[|s| - 1])];
    var t2 := Slots.SetValue(t, |s|, None, false).0;
    assert forall k :: 0 <= k < |s| ==> t[k] == s[k];
    assert forall k :: 0 <= k < |s| ==> ExtendedTail(s)[k] == t2[k];
  }

  lemma {:induction false} PlacedWithinRules(terminated: bool, s: seq<Slot>, at: nat, ch: char, fromLeft: bool)
    requires at < |s|
    ensures EditedWithinRules(s, Placed(terminated, s, at, ch, fromLeft).slots)
  {
    var s1 := Slots.SetValue(s, at, Some(ch), fromLeft).0;
    assert EditedWithinRules(s, s1);
    if !terminated && EmptySlotsOnTail(s1) < 1 {
      ExtensionWithinRules(s1);
      EditedWithinRulesTransitive(s, s1, ExtendedTail(s1));
    }
  }

  lemma {:induction false} TypeCharWithinRules(st: Settings, t: Typing, ch: char)
    requires TypingOk(t)
    ensures var r := TypeChar(st, t, ch); r.Some? ==> EditedWithinRules(t.slots, r.value.slots)
  {
    var off := SlotIndexOffsetOf(t.slots, t.candidate, ch);
    var cursor := t.cursor + off.indexOffset;
    if !st.showingEmptySlots && off.nonHardcodedSlotSkipped {
      assert TypeChar(st, t, ch).None?;
    } else if cursor >= |t.slots| {
      assert TypeChar(st, t, ch) == Some(Typing(t.slots, cursor, t.candidate));
      EditedWithinRulesReflexive(t.slots);
    } else {
      assert TypeChar(st, t, ch) == Some(Placed(st.terminated, t.slots, cursor, ch, off.indexOffset > 0));
      PlacedWithinRules(st.terminated, t.slots, cursor, ch, off.indexOffset > 0);
    }
  }

  lemma EditedWithinRulesReflexive(s: seq<Slot>)
    ensures EditedWithinRules(s, s)
  {
  }

  lemma {:induction false} TypeAllWithinRules(st: Settings, t: Typing, input: seq<char>)
    requires TypingOk(t)
    ensures EditedWithinRules(t.slots, TypeAll(st, t, input).slots)
    decreases |input|
  {
    if input != [] {
      TypeCharWithinRules(st, t, input[0]);
      match TypeChar(st, t, input[0])
      case None =>
      case Some(t1) =>
        TypeAllWithinRules(st, t1, input[1..]);
        EditedWithinRulesTransitive(t.slots, t1.slots, TypeAll(st, t1, input[1..]).slots);
    }
  }

  /**
   * Typing never changes a hardcoded slot, nor the rules, validators, tags or interpreter of
   * any slot; it only changes values (and may append extension slots).
   */
  lemma InsertKeepsHardcoded(st: Settings, s: seq<Slot>, showTail: bool, position: int,
                             input: Option<seq<char>>, after: bool)
    ensures var e := InsertOutcome(st, s, showTail, position, input, after);
      EditedWithinRules(s, e.slots)
  {
    if 0 <= position < |s| && input.Some? && |input.value| > 0 {
      TypeAllWithinRules(st, Typing(s, position, Some(position)), input.value);
    }
  }

  /**
   * When empty slots are not shown, typing stops at the first character that could only go
   * beyond a slot that is not hardcoded: a first such character leaves the mask as it is.
   */
  lemma InsertStopsBeforeGap(st: Settings, s: seq<Slot>, showTail: bool, position: int, input: seq<char>, after: bool)
    requires 0 <= position < |s| && |input| > 0 && !st.showingEmptySlots
    requires exists k :: position <= k < |s| && !Hardcoded(s[k]) && !CanInsertHere(s[k], input[0]) &&
                         (forall m :: position <= m <= k ==> !CanInsertHere(s[m], input[0]))
    ensures InsertOutcome(st, s, showTail, position, Some(input), after).slots == s
  {
    var k :| position <= k < |s| && !Hardcoded(s[k]) && !CanInsertHere(s[k], input[0]) &&
      forall m :: position <= m <= k ==> !CanInsertHere(s[m], input[0]);
    var off := SlotIndexOffsetFrom(s, position, input[0]);
    SlotIndexOffsetFromFinds(s, position, input[0]);
    assert position + off.indexOffset > k;
  }

  // ---------------------------------------------------------------- clearing

  /** A cleared chain holds no user input. */
  lemma ClearedHasNoUserInput(s: seq<Slot>)
    ensures forall k :: 0 <= k < |s| ==> !IsUserInput(Cleared(s)[k])
  {
  }

  /** Clearing keeps which slots are hardcoded, so clearing again changes nothing. */
  lemma ClearedIsFixed(s: seq<Slot>)
    ensures Cleared(Cleared(s)) == Cleared(s)
  {
    var c := Cleared(s);
    assert forall k :: 0 <= k < |s| ==> (Hardcoded(c[k]) <==> Hardcoded(s[k]));
  }

  lemma {:induction false} ClearedOfPrefix(s: seq<Slot>, n: nat)
    requires n <= |s|
    ensures Cleared(s[..n]) == Cleared(s)[..n]
  {
  }

  /** `clear()` is idempotent: clearing a cleared mask leaves its slots as they are. */
  lemma {:induction false} ClearIsIdempotent(terminated: bool, s: seq<Slot>)
    ensures var once := TrimmedTail(terminated, Cleared(s));
      TrimmedTail(terminated, Cleared(once)) == once
  {
    var c := Cleared(s);
    ClearedIsFixed(s);
    var once := TrimmedTail(terminated, c);
    assert once == c[..|once|];
    ClearedOfPrefix(c, |once|);
    assert Cleared(once) == once;
  }

  // ---------------------------------------------------------------- rendering

  /** Every slot from `i` shown in order, decoration slots left out of the unformatted text. */
  function AllShown(s: seq<Slot>, i: nat, allowDecoration: bool, placeholder: char): (r: string)
    requires i <= |s|
    decreases |s| - i
  {
    if i == |s| then []
    else if !allowDecoration && HasTag(s[i], TAG_DECORATION) then AllShown(s, i + 1, allowDecoration, placeholder)
    else [Shown(s[i], placeholder)] + AllShown(s, i + 1, allowDecoration, placeholder)
  }

  /** Formatted, the full text holds one character per slot, in order. */
  lemma {:induction false} AllShownFormatted(s: seq<Slot>, i: nat, placeholder: char)
    requires i <= |s|
    ensures AllShown(s, i, true, placeholder) == seq(|s| - i, k requires 0 <= k < |s| - i => Shown(s[i + k], placeholder))
    decreases |s| - i
  {
    if i < |s| {
      AllShownFormatted(s, i + 1, placeholder);
      var rest := seq(|s| - i - 1, k requires 0 <= k < |s| - i - 1 => Shown(s[i + 1 + k], placeholder));
      var all := seq(|s| - i, k requires 0 <= k < |s| - i => Shown(s[i + k], placeholder));
      assert all == [Shown(s[i], placeholder)] + rest;
    }
  }

  /** The rendered text is always a prefix of the text of all slots: rendering only stops early. */
  lemma {:induction false} RenderIsPrefix(s: seq<Slot>, i: nat, allowDecoration: bool, showingEmptySlots: bool,
                                          showHardcodedTail: bool, placeholder: char)
    requires i <= |s|
    ensures var r := Render(s, i, allowDecoration, showingEmptySlots, showHardcodedTail, placeholder);
      var all := AllShown(s, i, allowDecoration, placeholder);
      |r| <= |all| && r == all[..|r|]
    decreases |s| - i
  {
    if i < |s| {
      RenderIsPrefix(s, i + 1, allowDecoration, showingEmptySlots, showHardcodedTail, placeholder);
    }
  }

  /** With empty slots shown, every slot is rendered: a value or the placeholder. */
  lemma {:induction false} ShowingEmptySlotsRendersAll(s: seq<Slot>, i: nat, allowDecoration: bool,
                                                        showHardcodedTail: bool, placeholder: char)
    requires i <= |s|
    ensures Render(s, i, allowDecoration, true, showHardcodedTail, placeholder) == AllShown(s, i, allowDecoration, placeholder)
    decreases |s| - i
  {
    if i < |s| {
      ShowingEmptySlotsRendersAll(s, i + 1, allowDecoration, showHardcodedTail, placeholder);
    }
  }

  /** The full text of the slots has one character per slot, and per non-decoration slot unformatted. */
  lemma {:induction false} AllShownLength(s: seq<Slot>, i: nat, placeholder: char)
    requires i <= |s|
    ensures |AllShown(s, i, true, placeholder)| == |s| - i
    ensures |AllShown(s, i, false, placeholder)| == (|s| - i) - (DecorationCount(s, |s|) - DecorationCount(s, i))
    decreases |s| - i
  {
    if i < |s| {
      AllShownLength(s, i + 1, placeholder);
      DecorationCountStep(s, i);
    }
  }

  lemma {:induction false} DecorationCountStep(s: seq<Slot>, i: nat)
    requires i < |s|
    ensures DecorationCount(s, |s|) - DecorationCount(s, i)
         == (if HasTag(s[i], TAG_DECORATION) then 1 else 0) + DecorationCount(s, |s|) - DecorationCount(s, i + 1)
  {
  }

  /** A mask without decoration slots renders the same text formatted and unformatted. */
  lemma {:induction false} NoDecorationSameText(s: seq<Slot>, i: nat, showingEmptySlots: bool,
                                                showHardcodedTail: bool, placeholder: char)
    requires i <= |s|
    requires forall k :: i <= k < |s| ==> !HasTag(s[k], TAG_DECORATION)
    ensures Render(s, i, false, showingEmptySlots, showHardcodedTail, placeholder)
         == Render(s, i, true, showingEmptySlots, showHardcodedTail, placeholder)
    decreases |s| - i
  {
    if i < |s| {
      NoDecorationSameText(s, i + 1, showingEmptySlots, showHardcodedTail, placeholder);
    }
  }

  /**
   * With empty slots hidden and no user input, only a hardcoded head can be shown, and only
   * while the hardcoded tail is shown: the text is the values of the leading hardcoded run.
   */
  lemma {:induction false} NoInputRendersHardcodedHead(s: seq<Slot>, i: nat, showHardcodedTail: bool, placeholder: char)
    requires i <= |s|
    requires forall k :: i <= k < |s| ==> !IsUserInput(s[k])
    ensures var r := Render(s, i, true, false, showHardcodedTail, placeholder);
      (!showHardcodedTail ==> r == []) &&
      |r| <= NextFree(s, i) - i &&
      forall k :: 0 <= k < |r| ==> Some(r[k]) == s[i + k].value
    decreases |s| - i
  {
    if i < |s| {
      AnyInputToTheRightMeans(s, i);
      if Hardcoded(s[i]) && showHardcodedTail {
        NoInputRendersHardcodedHead(s, i + 1, showHardcodedTail, placeholder);
      }
    }
  }

  // ---------------------------------------------------------------- deletion

  /**
   * Deleting a single character at a slot that is not hardcoded in a terminated mask shifts the
   * following user input one free slot to the left.
   */
  lemma DeleteOneShiftsLeft(st: Settings, s: seq<Slot>, position: nat, removeHardcoded: bool)
    requires st.terminated && position < |s| && !Hardcoded(s[position])
    ensures RemoveOutcome(st, s, position, 1, removeHardcoded).slots == ShiftedLeftFrom(s, position)
  {
    RemoveShiftsLeft(s, position);
    var (s1, off) := Slots.SetValue(s, position, None, false);
    assert RemoveSteps(s, position, 1, removeHardcoded, true) == RemoveSteps(s1, position + off - 1, 0, removeHardcoded, true);
  }

  /** Deleting beyond the ends of the mask changes no slot. */
  lemma {:induction false} DeleteOutsideChangesNothing(s: seq<Slot>, cursor: int, steps: nat, removeHardcoded: bool, single: bool)
    requires cursor < 0
    ensures RemoveSteps(s, cursor, steps, removeHardcoded, single).0 == s
    decreases steps
  {
    if steps > 0 {
      DeleteOutsideChangesNothing(s, cursor - 1, steps - 1, removeHardcoded, single);
    }
  }
}
