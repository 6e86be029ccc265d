/**
 * The mobile-number input component: a validator for Bangladeshi mobile numbers and the
 * two pieces of component state (`mobile`, `isValid`) that its change handler keeps in step.
 *
 * The validator is the JavaScript regular expression `^01[3-9][0-9]{8}$` without flags.
 * It is modelled as a sequence of character classes matched against the whole input:
 * `^` and `$` (no multiline flag) pin the match to the start and the end of the input,
 * so a match must consume every character, no more and no fewer.
 */
module MobileInputComponent {
  import opened Wrappers

  /** One position of the pattern: a literal character or a range `[lo-hi]`. */
  datatype CharClass = Exactly(c: char) | Between(lo: char, hi: char)

  predicate Admits(cc: CharClass, c: char)
  {
    match cc
    case Exactly(d) => c == d
    case Between(lo, hi) => lo <= c <= hi
  }

  /** `cc{n}`: the class repeated exactly n times. */
  function Repeat(cc: CharClass, n: nat): (p: seq<CharClass>)
    ensures |p| == n
    ensures forall i :: 0 <= i < n ==> p[i] == cc
  {
    if n == 0 then [] else [cc] + Repeat(cc, n - 1)
  }

  /** `^01[3-9][0-9]{8}$` */
  const MobilePattern: seq<CharClass> :=
    [Exactly('0'), Exactly('1'), Between('3', '9')] + Repeat(Between('0', '9'), 8)

  /** Anchored match: the pattern consumes the whole of s, one character per class. */
  predicate MatchesWhole(p: seq<CharClass>, s: string)
  {
    if p == [] then s == []
    else s != [] && Admits(p[0], s[0]) && MatchesWhole(p[1..], s[1..])
  }

  /** An anchored match of a fixed-width pattern succeeds exactly when the lengths agree
      and every character is admitted by the class at its position. */
  lemma {:induction false} MatchesWholeIff(p: seq<CharClass>, s: string)
    ensures MatchesWhole(p, s) <==>
              |s| == |p| && forall i :: 0 <= i < |p| ==> Admits(p[i], s[i])
  {
    if p != [] && s != [] {
      MatchesWholeIff(p[1..], s[1..]);
      if |s| == |p| && forall i :: 0 <= i < |p| ==> Admits(p[i], s[i]) {
        assert forall i :: 0 <= i < |p| - 1 ==> p[1..][i] == p[i + 1] && s[1..][i] == s[i + 1];
      }
      if MatchesWhole(p, s) {
        forall i | 0 <= i < |p| ensures Admits(p[i], s[i]) {
          if i > 0 {
            assert p[i] == p[1..][i - 1] && s[i] == s[1..][i - 1];
          }
        }
      }
    }
  }

  predicate IsAsciiDigit(c: char)
  {
    '0' <= c <= '9'
  }

  /** `validateMobileNumber`: the regular-expression test on the raw input. */
  predicate ValidateMobileNumber(input: string)
  {
    MatchesWhole(MobilePattern, input)
  }

  /** The validator accepts exactly the 11-character strings that read `01`, then a digit
      from 3 to 9, then eight ASCII digits. */
  lemma ValidateMobileNumberIff(s: string)
    ensures ValidateMobileNumber(s) <==>
              && |s| == 11
              && s[0] == '0' && s[1] == '1'
              && '3' <= s[2] <= '9'
              && forall i :: 3 <= i < 11 ==> IsAsciiDigit(s[i])
  {
    MatchesWholeIff(MobilePattern, s);
    assert |MobilePattern| == 11;
    assert MobilePattern[0] == Exactly('0') && MobilePattern[1] == Exactly('1');
    assert MobilePattern[2] == Between('3', '9');
    assert forall i :: 3 <= i < 11 ==> MobilePattern[i] == Between('0', '9');
  }

  /** The match is exact: a valid number stops being valid when anything is added at
      either end (a trailing newline included), so the test is neither a prefix nor a
      suffix search. */
  lemma ValidIsNotExtensible(s: string, extra: string)
    requires ValidateMobileNumber(s)
    requires extra != []
    ensures !ValidateMobileNumber(s + extra)
    ensures !ValidateMobileNumber(extra + s)
  {
    ValidateMobileNumberIff(s);
    ValidateMobileNumberIff(s + extra);
    ValidateMobileNumberIff(extra + s);
  }

  lemma AcceptsTypicalNumber()
    ensures ValidateMobileNumber("01712345678")
  {
    ValidateMobileNumberIff("01712345678");
  }

  lemma RejectsExamples()
    ensures !ValidateMobileNumber("01212345678")   // third character is 2
    ensures !ValidateMobileNumber("0171234567")    // ten characters
    ensures !ValidateMobileNumber("01712345678\n") // trailing newline
    ensures !ValidateMobileNumber("11712345678")   // does not start with 0
    ensures !ValidateMobileNumber("0171234567a")   // last character is not a digit
    ensures !ValidateMobileNumber("")
  {
    ValidateMobileNumberIff("01212345678");
    ValidateMobileNumberIff("0171234567");
    ValidateMobileNumberIff("01712345678\n");
    ValidateMobileNumberIff("11712345678");
    ValidateMobileNumberIff("0171234567a");
    assert "0171234567a"[10] == 'a';
    ValidateMobileNumberIff("");
  }

  const InvalidMobileMessage: string := "Invalid mobile number"

  /** What the component renders from its state: the input's border class and the
      optional error paragraph. */
  datatype View = View(text: string, borderClass: string, error: Option<string>)

  function Render(mobile: string, isValid: bool): (v: View)
    ensures v.text == mobile
    ensures v.error.Some? <==> !isValid
    ensures v.error.Some? ==> v.error.value == InvalidMobileMessage
    ensures v.borderClass == (if isValid then "border-gray-300" else "border-red-500")
  {
    View(mobile, if isValid then "border-gray-300" else "border-red-500",
         if isValid then None else Some(InvalidMobileMessage))
  }

  /** The state starts with an empty number flagged valid, although the empty string does
      not validate: no error is shown before the first change. */
  lemma InitialStateHidesError()
    ensures !ValidateMobileNumber("")
    ensures Render("", true).error == None
  {
    ValidateMobileNumberIff("");
  }

  /** After a change to `input`, the error paragraph is shown exactly when `input` is not
      an 11-character number of the accepted form. */
  lemma ErrorShownIffMalformed(input: string)
    ensures Render(input, ValidateMobileNumber(input)).error.Some? <==>
              !(&& |input| == 11
                && input[0] == '0' && input[1] == '1'
                && '3' <= input[2] <= '9'
                && forall i :: 3 <= i < 11 ==> IsAsciiDigit(input[i]))
  {
    ValidateMobileNumberIff(input);
  }

  /** The component's state. `changed` records whether the change handler has run; once it
      has, `isValid` agrees with the validator on `mobile`. */
  class MobileInput {
    var mobile: string
    var isValid: bool
    ghost var changed: bool

    ghost predicate Valid()
      reads this
    {
      changed ==> isValid == ValidateMobileNumber(mobile)
    }

    function Rendered(): (v: View)
      reads this
      ensures v.error.Some? <==> !isValid
    {
      Render(mobile, isValid)
    }

    /** Once the number has been edited, the error paragraph is shown exactly when the
        stored number fails the validator. */
    lemma ErrorTracksStoredNumber()
      requires Valid() && changed
      ensures Rendered().error.Some? <==> !ValidateMobileNumber(mobile)
    {
    }

    constructor ()
      ensures Valid()
      ensures mobile == "" && isValid && !changed
    {
      mobile := "";
      isValid := true;
      changed := false;
    }

    /** `handleMobileChange`: store the input verbatim, valid or not, then its verdict. */
    method HandleMobileChange(input: string)
      modifies this
      ensures Valid() && changed
      ensures mobile == input
      ensures isValid == ValidateMobileNumber(input)
    {
      mobile := input;
      var valid := ValidateMobileNumber(input);
      isValid := valid;
      changed := true;
    }
  }
}

/** Client code for the mobile-number component. */
module MobileInputScenarios {
  import opened Wrappers
  import opened MobileInputComponent

  /** Typing keeps the raw text and re-validates it on every change. */
  method TypeANumber()
  {
    var input := new MobileInput();
    assert input.Rendered().error == None;
    input.HandleMobileChange("0171234567");
    MobileInputComponent.RejectsExamples();
    assert input.mobile == "0171234567" && !input.isValid && input.Rendered().error.Some?;
    input.HandleMobileChange("01712345678");
    AcceptsTypicalNumber();
    assert input.isValid && input.Rendered().error == None;
  }
}
