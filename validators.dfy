/**
 * Character validators (SlotValidators.java) and validator sets (SlotValidatorSet.java).
 * A validator is a value compared structurally, so a `set<Validator>` keeps one copy of each
 * distinct validator, as the library's HashSet does through the validators' equals and hashCode.
 */
module SlotValidators {
  import opened Wrappers

  /** The four validator classes of the library with their parameters. */
  datatype Validator =
    | Generous
    | Digit
    | MaskedDigit(maskChars: seq<char>)
    | Letter(supportsEnglish: bool, supportsRussian: bool)

  /** The mask characters of a MaskedDigitValidator built without arguments. */
  const DEFAULT_DIGIT_MASK_CHARS: seq<char> := ['X', 'x', '*']

  /** `Character.isDigit`, restricted to the ASCII digits. */
  predicate IsDigit(c: char) {
    '0' <= c <= '9'
  }

  predicate IsEnglishCharacter(c: char) {
    ('A' <= c <= 'Z') || ('a' <= c <= 'z')
  }

  /** Cyrillic capital A (U+0410) up to Cyrillic small ya (U+044F). */
  predicate IsRussianCharacter(c: char) {
    '\U{0410}' <= c <= '\U{044F}'
  }

  /** `new MaskedDigitValidator()` */
  function DefaultMaskedDigit(): Validator {
    MaskedDigit(DEFAULT_DIGIT_MASK_CHARS)
  }

  /** `new MaskedDigitValidator(maskChars)`: a null array throws. */
  function NewMaskedDigit(maskChars: Option<seq<char>>): (r: Result<Validator>)
    ensures r.Failure? <==> maskChars.None?
    ensures r.Failure? ==> r.error == IllegalArgument
    ensures r.Success? ==> r.value.MaskedDigit? && r.value.maskChars == maskChars.value
  {
    match maskChars
    case None => Failure(IllegalArgument)
    case Some(m) => Success(MaskedDigit(m))
  }

  /** `new LetterValidator()` */
  function DefaultLetter(): Validator {
    Letter(true, true)
  }

  /** `validate(c)` of each validator class. */
  predicate Validate(v: Validator, c: char) {
    match v
    case Generous => true
    case Digit => IsDigit(c)
    case MaskedDigit(maskChars) => IsDigit(c) || c in maskChars
    case Letter(english, russian) =>
      (english && IsEnglishCharacter(c)) || (russian && IsRussianCharacter(c))
  }

  /**
   * `a.equals(b)` as the classes define it. DigitValidator tests `instanceof`, so it also
   * accepts a MaskedDigitValidator (its subclass); the others compare classes exactly.
   */
  predicate JavaEquals(a: Validator, b: Validator) {
    match a
    case Generous => b.Generous?
    case Digit => b.Digit? || b.MaskedDigit?
    case MaskedDigit(m) => b.MaskedDigit? && b.maskChars == m
    case Letter(e, r) => b.Letter? && b.supportsEnglish == e && b.supportsRussian == r
  }

  /** `validate(c)` of MaskedDigitValidator: a digit, or a walk over the mask characters. */
  method ValidateMaskedDigit(maskChars: seq<char>, c: char) returns (r: bool)
    ensures r == Validate(MaskedDigit(maskChars), c)
  {
    if IsDigit(c) {
      return true;
    }
    for i := 0 to |maskChars|
      invariant c !in maskChars[..i]
    {
      if maskChars[i] == c {
        return true;
      }
      assert maskChars[..i + 1] == maskChars[..i] + [maskChars[i]];
    }
    assert maskChars[..|maskChars|] == maskChars;
    return false;
  }

  lemma GenerousAcceptsEverything(c: char)
    ensures Validate(Generous, c)
  {
  }

  lemma DigitAcceptsExactlyDigits(c: char)
    ensures Validate(Digit, c) <==> '0' <= c <= '9'
  {
  }

  lemma MaskedDigitAcceptsDigitsAndMaskChars(maskChars: seq<char>, c: char)
    ensures Validate(MaskedDigit(maskChars), c) <==> IsDigit(c) || exists i :: 0 <= i < |maskChars| && maskChars[i] == c
    ensures Validate(DefaultMaskedDigit(), c) <==> IsDigit(c) || c == 'X' || c == 'x' || c == '*'
  {
  }

  lemma LetterAcceptsSelectedAlphabets(english: bool, russian: bool, c: char)
    ensures (Validate(Letter(english, russian), c) && !IsRussianCharacter(c)) <==> english && IsEnglishCharacter(c)
    ensures (Validate(Letter(english, russian), c) && !IsEnglishCharacter(c)) <==> russian && IsRussianCharacter(c)
    ensures Validate(DefaultLetter(), c) <==> IsEnglishCharacter(c) || IsRussianCharacter(c)
  {
  }

  /** Two validators of the same class are equal in Java's sense exactly when they are equal values. */
  lemma JavaEqualsWithinClass(a: Validator, b: Validator)
    requires a.Generous? == b.Generous? && a.Digit? == b.Digit? && a.MaskedDigit? == b.MaskedDigit?
    ensures JavaEquals(a, b) <==> a == b
    ensures a.MaskedDigit? ==> (JavaEquals(a, b) <==> a.maskChars == b.maskChars)
    ensures a.Letter? ==> (JavaEquals(a, b) <==> a.supportsEnglish == b.supportsEnglish && a.supportsRussian == b.supportsRussian)
  {
  }

  /** Java equality is not symmetric between DigitValidator and MaskedDigitValidator. */
  lemma JavaEqualsAsymmetric(m: seq<char>)
    ensures JavaEquals(Digit, MaskedDigit(m)) && !JavaEquals(MaskedDigit(m), Digit)
  {
  }
}

module SlotValidatorSet {
  import opened Wrappers
  import opened SlotValidators

  type ValidatorSet = set<Validator>

  /** One argument of `setOf`: a single validator, or a nested set whose members are added. */
  datatype ValidatorArg = Single(validator: Validator) | Nested(members: ValidatorSet)

  /** What one argument adds to the set built by `setOf`. */
  function Contributes(arg: ValidatorArg): ValidatorSet {
    match arg
    case Single(v) => {v}
    case Nested(members) => members
  }

  /** The set `setOf` builds from its arguments, accumulated left to right. */
  function Flatten(args: seq<ValidatorArg>): ValidatorSet {
    if args == [] then {} else Flatten(args[..|args| - 1]) + Contributes(args[|args| - 1])
  }

  /** `validate(c)`: some member of the set accepts `c`. */
  predicate Validate(vs: ValidatorSet, c: char) {
    exists v :: v in vs && SlotValidators.Validate(v, c)
  }

  /** `setOf(validators...)`: a null argument array gives the empty set. */
  method SetOf(validators: Option<seq<ValidatorArg>>) returns (r: ValidatorSet)
    ensures validators.None? ==> r == {}
    ensures validators.Some? ==> r == Flatten(validators.value)
  {
    if validators.None? {
      return {};
    }
    var args := validators.value;
    r := {};
    for i := 0 to |args|
      invariant r == Flatten(args[..i])
    {
      assert args[..i + 1][..i] == args[..i];
      match args[i]
      case Nested(members) =>
        r := r + members;
      case Single(v) =>
        r := r + {v};
    }
    assert args[..|args|] == args;
  }

  /** The members of `setOf(args)` are exactly what the arguments contribute. */
  lemma {:induction false} FlattenMembers(args: seq<ValidatorArg>, v: Validator)
    ensures v in Flatten(args) <==> exists i :: 0 <= i < |args| && v in Contributes(args[i])
  {
    if args != [] {
      var init := args[..|args| - 1];
      FlattenMembers(init, v);
      if v in Flatten(init) {
        var i :| 0 <= i < |init| && v in Contributes(init[i]);
        assert args[i] == init[i];
      }
      if exists i :: 0 <= i < |args| && v in Contributes(args[i]) {
        var i :| 0 <= i < |args| && v in Contributes(args[i]);
        if i < |args| - 1 {
          assert init[i] == args[i];
        }
      }
    }
  }

  /** `setOf(args).validate(c)` holds iff one of the arguments accepts `c`. */
  lemma SetOfValidates(args: seq<ValidatorArg>, c: char)
    ensures Validate(Flatten(args), c) <==> exists i :: 0 <= i < |args| && Validate(Contributes(args[i]), c)
  {
    if Validate(Flatten(args), c) {
      var v :| v in Flatten(args) && SlotValidators.Validate(v, c);
      FlattenMembers(args, v);
    }
    if exists i :: 0 <= i < |args| && Validate(Contributes(args[i]), c) {
      var i :| 0 <= i < |args| && Validate(Contributes(args[i]), c);
      var v :| v in Contributes(args[i]) && SlotValidators.Validate(v, c);
      FlattenMembers(args, v);
    }
  }

  /** The validator set is an OR of its arguments: `setOf(a, b).validate(c) == a.validate(c) || b.validate(c)`. */
  lemma SetOfPairIsDisjunction(a: ValidatorArg, b: ValidatorArg, c: char)
    ensures Validate(Flatten([a, b]), c) <==> Validate(Contributes(a), c) || Validate(Contributes(b), c)
  {
    SetOfValidates([a, b], c);
    assert [a, b][0] == a && [a, b][1] == b;
  }

  lemma EmptySetRejects(c: char)
    ensures !Validate({}, c)
  {
  }

  predicate NoNulls(cs: seq<Option<char>>) {
    forall i :: 0 <= i < |cs| ==> cs[i].Some?
  }

  /** The number of elements of `cs` the set accepts; a null element throws. */
  function CountValid(vs: ValidatorSet, cs: seq<Option<char>>): (r: Result<nat>)
    ensures r.Failure? <==> !NoNulls(cs)
    ensures r.Failure? ==> r.error == NullPointer
    ensures r.Success? ==> r.value <= |cs|
    ensures r.Success? ==> (r.value == |cs| <==> forall i :: 0 <= i < |cs| ==> Validate(vs, cs[i].value))
    ensures r.Success? ==> (r.value == 0 <==> forall i :: 0 <= i < |cs| ==> !Validate(vs, cs[i].value))
  {
    if cs == [] then Success(0)
    else if cs[0].None? then Failure(NullPointer)
    else
      match CountValid(vs, cs[1..])
      case Failure(e) =>
        assert !NoNulls(cs) by {
          var i :| 0 <= i < |cs[1..]| && cs[1..][i].None?;
          assert cs[i + 1].None?;
        }
        Failure(e)
      case Success(n) =>
        assert forall i :: 1 <= i < |cs| ==> cs[i] == cs[1..][i - 1];
        Success(if Validate(vs, cs[0].value) then n + 1 else n)
  }

  /**
   * `validate(c)` as the library runs it: a walk over the members that stops at the first one
   * accepting `c`.
   */
  method ValidateMembers(vs: ValidatorSet, c: char) returns (r: bool)
    ensures r == Validate(vs, c)
  {
    var rest := vs;
    while rest != {}
      invariant rest <= vs
      invariant forall v :: v in vs - rest ==> !SlotValidators.Validate(v, c)
      decreases rest
    {
      var v :| v in rest;
      if SlotValidators.Validate(v, c) {
        return true;
      }
      rest := rest - {v};
    }
    return false;
  }

  /**
   * `countValidIn(chars)`: a null collection throws IllegalArgumentException; otherwise the
   * elements are counted in order and the first null element throws NullPointerException.
   */
  method CountValidIn(vs: ValidatorSet, chars: Option<seq<Option<char>>>) returns (r: Result<nat>)
    ensures chars.None? ==> r == Failure(IllegalArgument)
    ensures chars.Some? ==> r == CountValid(vs, chars.value)
  {
    if chars.None? {
      return Failure(IllegalArgument);
    }
    var cs := chars.value;
    var result := 0;
    for i := 0 to |cs|
      invariant NoNulls(cs[..i]) && CountValid(vs, cs[..i]) == Success(result)
    {
      if cs[i].None? {
        assert !NoNulls(cs);
        return Failure(NullPointer);
      }
      var accepted := ValidateMembers(vs, cs[i].value);
      assert cs[..i + 1] == cs[..i] + [cs[i]];
      assert CountValid(vs, [cs[i]]) == Success(if accepted then 1 else 0) by {
        assert [cs[i]][1..] == [];
      }
      CountValidAppend(vs, cs[..i], [cs[i]]);
      if accepted {
        result := result + 1;
      }
    }
    assert cs[..|cs|] == cs;
    return Success(result);
  }

  /** Counting is additive over concatenation. */
  lemma {:induction false} CountValidAppend(vs: ValidatorSet, a: seq<Option<char>>, b: seq<Option<char>>)
    requires NoNulls(a) && NoNulls(b)
    ensures NoNulls(a + b)
    ensures CountValid(vs, a + b).value == CountValid(vs, a).value + CountValid(vs, b).value
  {
    assert NoNulls(a + b) by {
      forall i | 0 <= i < |a + b| ensures (a + b)[i].Some? {
        if i < |a| { assert (a + b)[i] == a[i]; } else { assert (a + b)[i] == b[i - |a|]; }
      }
    }
    if a != [] {
      assert (a + b)[1..] == a[1..] + b;
      assert NoNulls(a[1..]) by {
        forall i | 0 <= i < |a[1..]| ensures a[1..][i].Some? { assert a[1..][i] == a[i + 1]; }
      }
      CountValidAppend(vs, a[1..], b);
    } else {
      assert a + b == b;
    }
  }
}
