/** The UAE passport number validator: one letter `A`–`Z` followed by seven
    digits, after spaces are removed and letters upper-cased. */
module UaePassportValidator {
  import opened Wrappers
  import opened Strings
  import opened Models

  const PassportLength: nat := 8

  /** What `Validate` works on: spaces removed, upper case, trimmed. */
  function Normalize(s: string): string {
    Trim(ToUpperInvariant(Remove(s, ' ')))
  }

  /** The pattern `^[A-Z]\d{7}$`. */
  predicate MatchesPattern(n: string) {
    |n| == PassportLength && IsUpperLetter(n[0]) && AllDigits(n[1..])
  }

  /** The regex's `$` would also accept a final newline before the end; the
      normal form is trimmed, so on it the anchored pattern is the body alone. */
  lemma PatternOnNormalForm(s: string)
    ensures AnchoredMatch(MatchesPattern, Normalize(s)) <==> MatchesPattern(Normalize(s))
  {
    AnchoredOnTrimmed(MatchesPattern, ToUpperInvariant(Remove(s, ' ')));
  }

  /** `Validate(input)`: success carries no fields beyond the base ones. */
  function Validate(input: Option<string>): (r: ValidationResult)
    ensures r.Plain? && r.Consistent()
    ensures r.errorCode == Some(EmptyInput) <==> IsNullOrWhiteSpace(input)
    ensures r.isValid <==> !IsNullOrWhiteSpace(input) && MatchesPattern(Normalize(input.value))
  {
    if IsNullOrWhiteSpace(input) then Fail(EmptyInput) else ValidateNormalized(Normalize(input.value))
  }

  /** The checks after the blank test, on the normalised text. */
  function ValidateNormalized(n: string): (r: ValidationResult)
    ensures r.Plain? && r.Consistent() && r.errorCode != Some(EmptyInput)
    ensures r.isValid <==> MatchesPattern(n)
  {
    if |n| != PassportLength then Fail(InvalidLength)
    else if !MatchesPattern(n) then Fail(InvalidFormat)
    else Models.Success()
  }

  /** `Check` / `IsValid`. */
  function Check(input: Option<string>): (b: bool)
    ensures b <==> !IsNullOrWhiteSpace(input) && MatchesPattern(Normalize(input.value))
  {
    Validate(input).isValid
  }

  /** The length is checked before the format. */
  lemma ErrorCodeOrder(s: string)
    requires !IsNullOrWhiteSpace(Some(s))
    ensures var n, code := Normalize(s), Validate(Some(s)).errorCode;
      && (code == Some(InvalidLength) <==> |n| != PassportLength)
      && (code == Some(InvalidFormat) <==> |n| == PassportLength && !MatchesPattern(n))
  {
  }

  /** Letter case does not matter: an input and its upper-case form get the
      same result, so `a1234567` is accepted like `A1234567`. */
  lemma CaseInsensitive(s: string)
    ensures Validate(Some(s)) == Validate(Some(ToUpperInvariant(s)))
  {
    assert Normalize(ToUpperInvariant(s)) == Normalize(s) by {
      RemoveUpper(s);
      UpperIdempotent(Remove(s, ' '));
    }
    UpperKeepsWhiteSpace(s);
    SameInputsAgree(s, ToUpperInvariant(s));
  }

  /** `Validate` looks only at blankness and the normal form. */
  lemma SameInputsAgree(a: string, b: string)
    requires AllWhiteSpace(a) <==> AllWhiteSpace(b)
    requires Normalize(a) == Normalize(b)
    ensures Validate(Some(a)) == Validate(Some(b))
  {
  }

  /** Removing spaces and upper-casing commute. */
  lemma {:induction false} RemoveUpper(s: string)
    ensures Remove(ToUpperInvariant(s), ' ') == ToUpperInvariant(Remove(s, ' '))
  {
    if s != [] {
      RemoveUpper(s[1..]);
      var u := ToUpperInvariant(s);
      assert u[1..] == ToUpperInvariant(s[1..]);
      assert u[0] == ToUpperChar(s[0]);
    }
  }

  lemma UpperIdempotent(s: string)
    ensures ToUpperInvariant(ToUpperInvariant(s)) == ToUpperInvariant(s)
  {
  }

  /** Upper-casing changes no white space into something else, or back. */
  lemma UpperKeepsWhiteSpace(s: string)
    ensures AllWhiteSpace(ToUpperInvariant(s)) <==> AllWhiteSpace(s)
  {
    var u := ToUpperInvariant(s);
    assert forall i :: 0 <= i < |s| ==> (IsWhiteSpace(u[i]) <==> IsWhiteSpace(s[i]));
  }

  // ---------------------------------------------------------------- Mask

  /** What `Mask` works on: trimmed, then upper case; spaces inside are kept. */
  function MaskText(s: string): string {
    ToUpperInvariant(Trim(s))
  }

  /** `Mask(input)`: a letter and seven digits keep the letter and the last
      three digits and show `*` for the four between; other text is returned
      trimmed and upper-cased. */
  function Mask(input: Option<string>): (r: string)
    ensures IsNullOrWhiteSpace(input) ==> r == []
    ensures !IsNullOrWhiteSpace(input) ==>
      var t := MaskText(input.value);
      && |r| == |t|
      && if MatchesPattern(t) then
           && r[0] == t[0] && r[5..] == t[5..]
           && forall i :: 1 <= i < 5 ==> r[i] == '*'
         else r == t
  {
    if IsNullOrWhiteSpace(input) then []
    else
      var trimmed := MaskText(input.value);
      if |trimmed| != PassportLength || !IsLetter(trimmed[0]) || !AllDigits(trimmed[1..]) then
        assert |trimmed| == PassportLength && IsLetter(trimmed[0]) ==> IsUpperLetter(trimmed[0]) by {
          UpperLetters(Trim(input.value));
        }
        trimmed
      else
        UpperLetters(Trim(input.value));
        [trimmed[0]] + Repeat('*', 4) + trimmed[|trimmed| - 3..]
  }

  /** After upper-casing, every letter is an upper-case letter. */
  lemma UpperLetters(s: string)
    ensures forall i :: 0 <= i < |s| ==>
      (IsLetter(ToUpperInvariant(s)[i]) <==> IsUpperLetter(ToUpperInvariant(s)[i]))
  {
  }

  /** A valid passport number written without spaces is masked: its letter,
      four `*`, its last three digits. */
  lemma MaskOfValid(s: string)
    requires Check(Some(s)) && ' ' !in s
    ensures var n := Normalize(s);
      Mask(Some(s)) == [n[0]] + "****" + n[5..]
  {
    assert Normalize(s) == MaskText(s) by {
      assert Remove(s, ' ') == s;
      TrimUpper(s);
    }
    MaskShape(Mask(Some(s)), MaskText(s));
  }

  /** Eight characters with the letter and the last three kept and `*` at
      the four places between. */
  lemma MaskShape(r: string, t: string)
    requires |r| == |t| == PassportLength
    requires r[0] == t[0] && r[5..] == t[5..] && forall i :: 1 <= i < 5 ==> r[i] == '*'
    ensures r == [t[0]] + "****" + t[5..]
  {
    assert r == [r[0]] + r[1..5] + r[5..];
  }

  /** Trimming and upper-casing commute. */
  lemma TrimUpper(s: string)
    ensures Trim(ToUpperInvariant(s)) == ToUpperInvariant(Trim(s))
  {
    var lead, core, tail := UpperPadding(s);
    UpperKeepsEnds(Trim(s));
    TrimPadded(lead, core, tail);
  }

  /** The upper-cased string is the upper-cased trimmed part between
      white space. */
  lemma UpperPadding(s: string) returns (lead: string, core: string, tail: string)
    ensures ToUpperInvariant(s) == lead + core + tail
    ensures core == ToUpperInvariant(Trim(s))
    ensures AllWhiteSpace(lead) && AllWhiteSpace(tail)
  {
    var l, t := Padding(s);
    UpperAppend(l + Trim(s), t);
    UpperAppend(l, Trim(s));
    UpperKeepsWhiteSpace(l);
    UpperKeepsWhiteSpace(t);
    lead, core, tail := ToUpperInvariant(l), ToUpperInvariant(Trim(s)), ToUpperInvariant(t);
  }

  /** The white space `Trim` drops at either end. */
  lemma Padding(s: string) returns (lead: string, tail: string)
    ensures s == lead + Trim(s) + tail
    ensures AllWhiteSpace(lead) && AllWhiteSpace(tail)
  {
    var k := LeadingWhiteSpace(s);
    var j := k + |Trim(s)|;
    lead, tail := s[..k], s[j..];
    assert s[..j] == lead + Trim(s);
    assert s == s[..j] + tail;
  }

  lemma {:induction false} UpperAppend(a: string, b: string)
    ensures ToUpperInvariant(a + b) == ToUpperInvariant(a) + ToUpperInvariant(b)
  {
    if a == [] {
      assert a + b == b;
    } else {
      assert (a + b)[1..] == a[1..] + b;
      UpperAppend(a[1..], b);
    }
  }

  /** Upper-casing keeps a string's first and last characters white space or not. */
  lemma UpperKeepsEnds(t: string)
    requires t == [] || (!IsWhiteSpace(t[0]) && !IsWhiteSpace(t[|t| - 1]))
    ensures var u := ToUpperInvariant(t);
      u == [] || (!IsWhiteSpace(u[0]) && !IsWhiteSpace(u[|u| - 1]))
  {
  }

  // ---------------------------------------------------------------- examples

  /** The library's own examples. */
  lemma Examples()
    ensures Check(Some("A1234567")) && Check(Some("Z9999999")) && Check(Some("B0000000"))
    ensures Validate(Some("12345678")).errorCode == Some(InvalidFormat)
    ensures Validate(Some("AB123456")).errorCode == Some(InvalidFormat)
    ensures Validate(Some("A123456")).errorCode == Some(InvalidLength)
    ensures Validate(Some("A123456789")).errorCode == Some(InvalidLength)
    ensures Mask(Some("A1234567")) == "A****567"
  {
    ExampleValid();
    ExampleInvalid();
  }

  lemma ExampleValid()
    ensures Check(Some("A1234567")) && Check(Some("Z9999999")) && Check(Some("B0000000"))
    ensures Mask(Some("A1234567")) == "A****567"
  {
    ExampleText();
    PatternAccepted("A1234567");
    PatternAccepted("Z9999999");
    PatternAccepted("B0000000");
    ExampleMask();
  }

  lemma ExampleMask()
    ensures Mask(Some("A1234567")) == "A****567"
  {
    ExampleText();
    PatternAccepted("A1234567");
    MaskOfValid("A1234567");
  }

  lemma ExampleInvalid()
    ensures Validate(Some("12345678")).errorCode == Some(InvalidFormat)
    ensures Validate(Some("AB123456")).errorCode == Some(InvalidFormat)
    ensures Validate(Some("A123456")).errorCode == Some(InvalidLength)
    ensures Validate(Some("A123456789")).errorCode == Some(InvalidLength)
  {
    ExampleText();
    PlainRejected("12345678");
    PlainRejected("AB123456");
    PlainRejected("A123456");
    PlainRejected("A123456789");
  }

  lemma ExampleText()
    ensures MatchesPattern("A1234567") && MatchesPattern("Z9999999") && MatchesPattern("B0000000")
    ensures Plain("12345678") && Plain("AB123456") && Plain("A123456") && Plain("A123456789")
    ensures !MatchesPattern("12345678") && !MatchesPattern("AB123456")
    ensures |"A123456"| != PassportLength && |"A123456789"| != PassportLength
    ensures [("A1234567")[0]] + "****" + "A1234567"[5..] == "A****567"
  {
    assert "AB123456"[1..][0] == 'B';
  }

  /** Upper-case letters and digits only, at least one of them. */
  predicate Plain(s: string) {
    s != [] && forall i :: 0 <= i < |s| ==> IsDigit(s[i]) || IsUpperLetter(s[i])
  }

  /** A string matching the pattern is accepted as written. */
  lemma PatternAccepted(s: string)
    requires MatchesPattern(s)
    ensures Check(Some(s)) && ' ' !in s && Normalize(s) == s
  {
    assert forall i :: 1 <= i < |s| ==> s[i] == s[1..][i - 1];
    PlainText(s);
  }

  /** Plain text that does not match is refused: for its length first, then
      for its format. */
  lemma PlainRejected(s: string)
    requires Plain(s) && !MatchesPattern(s)
    ensures Validate(Some(s)).errorCode
      == Some(if |s| != PassportLength then InvalidLength else InvalidFormat)
  {
    PlainText(s);
  }

  /** Plain text is its own normal form. */
  lemma PlainText(s: string)
    requires Plain(s)
    ensures !IsNullOrWhiteSpace(Some(s)) && Normalize(s) == s && ' ' !in s
  {
    assert ' ' !in s;
    assert ToUpperInvariant(s) == s;
    assert !IsWhiteSpace(s[0]) && !IsWhiteSpace(s[|s| - 1]);
    TrimPadded([], s, []);
    assert [] + s + [] == s;
  }

  // ---------------------------------------------------------------- ParseMany

  /** `ParseMany(inputs)`: one entry per input, in order, each the input
      verbatim with its `Validate` result. */
  function ParseMany(inputs: seq<Option<string>>): (r: seq<BatchValidationResult>)
    ensures |r| == |inputs|
    ensures forall i :: 0 <= i < |inputs| ==>
      r[i].input == inputs[i] && r[i].result == Validate(inputs[i])
    ensures forall i :: 0 <= i < |inputs| && inputs[i].None? ==> r[i].ErrorCode() == Some(EmptyInput)
  {
    RunBatch(inputs, Validate)
  }
}
