/**
 * DiffMeasures.java: the record a text watcher fills before a change to the text, describing
 * the change as a start position with an inserted and a removed length.
 */
module Diffs {
  import opened Wrappers

  const INSERT: bv32 := 1
  const REMOVE: bv32 := 2
  const MASK_BOTH_TYPE: bv32 := 3

  /**
   * The type name the debug description selects for a `diffType`; any value other than the
   * four combinations of the two flags is an illegal state.
   */
  function TypeName(diffType: bv32): (r: Result<string>)
    ensures r.Failure? <==> diffType & MASK_BOTH_TYPE == 0 && diffType != 0
    ensures r.Failure? ==> r.error == IllegalState
  {
    if MASK_BOTH_TYPE & diffType == MASK_BOTH_TYPE then Success("both")
    else if INSERT & diffType == INSERT then Success("insert")
    else if REMOVE & diffType == REMOVE then Success("remove")
    else if diffType == 0 then Success("none")
    else Failure(IllegalState)
  }

  /** Every `diffType` made of the two flags has a name. */
  lemma FlagTypesAreNamed(diffType: bv32)
    requires diffType <= MASK_BOTH_TYPE
    ensures TypeName(diffType).Success?
  {
  }

  class DiffMeasures {
    var diffStartPosition: int
    var diffInsertLength: int
    var diffRemoveLength: int
    var diffType: bv32
    var cursorPosition: int
    var trimmingSequence: bool

    /** `diffType` holds no bit apart from INSERT and REMOVE. */
    predicate Valid()
      reads this
    {
      diffType <= MASK_BOTH_TYPE
    }

    constructor ()
      ensures Valid()
      ensures diffStartPosition == 0 && diffInsertLength == 0 && diffRemoveLength == 0
      ensures diffType == 0 && cursorPosition == 0 && !trimmingSequence
    {
      diffStartPosition := 0;
      diffInsertLength := 0;
      diffRemoveLength := 0;
      diffType := 0;
      cursorPosition := 0;
      trimmingSequence := false;
    }

    predicate IsInsertingChars()
      reads this
    {
      diffType & INSERT == INSERT
    }

    predicate IsRemovingChars()
      reads this
    {
      diffType & REMOVE == REMOVE
    }

    function GetInsertEndPosition(): int
      reads this
    {
      diffStartPosition + diffInsertLength
    }

    function GetRemoveEndPosition(): int
      reads this
    {
      diffStartPosition + diffRemoveLength - 1
    }

    /**
     * `calculateBeforeTextChanged(start, count, after)`: `count` characters from `start` are
     * about to be replaced by `after` new ones.
     */
    method CalculateBeforeTextChanged(start: int, count: int, after: int)
      modifies this
      ensures Valid()
      ensures IsInsertingChars() <==> after > 0
      ensures IsRemovingChars() <==> count > 0
      ensures diffStartPosition == start && cursorPosition == -1
      ensures diffInsertLength == (if after > 0 then after else 0)
      ensures diffRemoveLength == (if count > 0 then count else 0)
      ensures GetInsertEndPosition() == start + diffInsertLength
      ensures GetRemoveEndPosition() == start + diffRemoveLength - 1
      ensures trimmingSequence <==> 0 < after < count
    {
      diffStartPosition := start;
      diffRemoveLength := 0;
      diffType := 0;
      diffInsertLength := 0;
      cursorPosition := -1;
      if after > 0 {
        diffType := diffType | INSERT;
        diffInsertLength := after;
      }
      if count > 0 {
        diffType := diffType | REMOVE;
        diffRemoveLength := count;
      }
      trimmingSequence := diffInsertLength > 0 && diffRemoveLength > 0 && diffInsertLength < diffRemoveLength;
    }

    /**
     * `recalculateOnModifyingWord(realDiffLen)`: the inserted part was already in the text, so
     * only the rest is removed, `realDiffLen` further on, and nothing counts as inserted.
     */
    method RecalculateOnModifyingWord(realDiffLen: int)
      requires Valid()
      modifies this
      ensures Valid()
      ensures !IsInsertingChars() && (IsRemovingChars() <==> old(IsRemovingChars()))
      ensures diffRemoveLength == old(diffRemoveLength) - old(diffInsertLength)
      ensures diffStartPosition == old(diffStartPosition) + realDiffLen
      ensures diffInsertLength == old(diffInsertLength) && cursorPosition == old(cursorPosition)
      ensures trimmingSequence == old(trimmingSequence)
    {
      diffRemoveLength := diffRemoveLength - diffInsertLength;
      diffStartPosition := diffStartPosition + realDiffLen;
      diffType := diffType & !INSERT;
    }

    method SetCursorPosition(c: int)
      modifies this`cursorPosition
      ensures cursorPosition == c
    {
      cursorPosition := c;
    }

    /** The type part of `toString()`: it never reaches its illegal-state exception. */
    method DescribeType() returns (r: Result<string>)
      requires Valid()
      ensures r == TypeName(diffType) && r.Success?
    {
      FlagTypesAreNamed(diffType);
      r := TypeName(diffType);
    }
  }
}
