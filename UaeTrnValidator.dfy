/** The UAE Tax Registration Number validator: 15 digits starting `100`, with
    spaces and dashes allowed as separators. There is no checksum. */
module UaeTrnValidator {
  import opened Wrappers
  import opened Strings
  import opened Models

  const TrnLength: nat := 15
  const TrnPrefix: string := "100"

  /** What `Validate` works on: spaces and dashes removed, then trimmed. */
  function Normalize(s: string): string {
    Trim(Remove(Remove(s, ' '), '-'))
  }

  /** A TRN in normal form: 15 digits, the first three `100`. */
  predicate WellFormed(n: string) {
    |n| == TrnLength && AllDigits(n) && StartsWith(n, TrnPrefix)
  }

  /** `Validate(input)`: success carries no fields beyond the base ones. */
  function Validate(input: Option<string>): (r: ValidationResult)
    ensures r.Plain? && r.Consistent()
    ensures r.errorCode == Some(EmptyInput) <==> IsNullOrWhiteSpace(input)
    ensures r.isValid <==> !IsNullOrWhiteSpace(input) && WellFormed(Normalize(input.value))
  {
    if IsNullOrWhiteSpace(input) then Fail(EmptyInput)
    else
      var n := Normalize(input.value);
      if |n| != TrnLength then Fail(InvalidLength)
      else if !AllDigits(n) then Fail(InvalidCharacters)
      else if !StartsWith(n, TrnPrefix) then Fail(InvalidPrefix)
      else Models.Success()
  }

  /** `Check` / `IsValid`. */
  function Check(input: Option<string>): (b: bool)
    ensures b <==> !IsNullOrWhiteSpace(input) && WellFormed(Normalize(input.value))
  {
    Validate(input).isValid
  }

  /** The error codes come out in a fixed order: length, then characters,
      then the `100` prefix. */
  lemma ErrorCodeOrder(s: string)
    requires !IsNullOrWhiteSpace(Some(s))
    ensures var n, code := Normalize(s), Validate(Some(s)).errorCode;
      && (code == Some(InvalidLength) <==> |n| != TrnLength)
      && (code == Some(InvalidCharacters) <==> |n| == TrnLength && !AllDigits(n))
      && (code == Some(InvalidPrefix) <==> |n| == TrnLength && AllDigits(n) && !StartsWith(n, TrnPrefix))
  {
  }

  /** Separators do not matter: a space or dash inserted anywhere into a
      non-blank input leaves the result unchanged. */
  lemma SeparatorsIgnored(a: string, b: string, sep: char)
    requires sep == ' ' || sep == '-'
    requires !IsNullOrWhiteSpace(Some(a + b))
    ensures Validate(Some(a + [sep] + b)) == Validate(Some(a + b))
  {
    RemoveSeparator(a, b, sep);
    NotBlankWithSeparator(a, b, sep);
  }

  /** Removing spaces and dashes erases an inserted separator. */
  lemma RemoveSeparator(a: string, b: string, sep: char)
    requires sep == ' ' || sep == '-'
    ensures Remove(Remove(a + [sep] + b, ' '), '-') == Remove(Remove(a + b, ' '), '-')
  {
    var a1, b1 := Remove(a, ' '), Remove(b, ' ');
    RemoveAppend(a + [sep], b, ' ');
    RemoveAppend(a, [sep], ' ');
    RemoveAppend(a, b, ' ');
    var m := Remove([sep], ' ');
    RemoveAppend(a1 + m, b1, '-');
    RemoveAppend(a1, m, '-');
    RemoveAppend(a1, b1, '-');
    assert Remove(m, '-') == [];
    assert Remove(a1, '-') + [] == Remove(a1, '-');
  }

  /** Inserting a character keeps a non-blank input non-blank. */
  lemma NotBlankWithSeparator(a: string, b: string, sep: char)
    requires !AllWhiteSpace(a + b)
    ensures !AllWhiteSpace(a + [sep] + b)
  {
    var s, t := a + [sep] + b, a + b;
    var i :| 0 <= i < |t| && !IsWhiteSpace(t[i]);
    if i < |a| {
      assert s[i] == t[i];
    } else {
      assert s[i + 1] == t[i];
    }
  }

  // ---------------------------------------------------------------- Mask

  /** `Mask(input)`: a trimmed input of 15 digits keeps its first and last
      three digits and shows `*` for the nine between; anything else comes
      back trimmed. Inner separators are not removed and the `100` prefix is
      not checked. */
  function Mask(input: Option<string>): (r: string)
    ensures IsNullOrWhiteSpace(input) ==> r == []
    ensures !IsNullOrWhiteSpace(input) ==>
      var t := Trim(input.value);
      if |t| == TrnLength && AllDigits(t) then
        && |r| == TrnLength && r[..3] == t[..3] && r[12..] == t[12..]
        && forall i :: 3 <= i < 12 ==> r[i] == '*'
      else r == t
  {
    if IsNullOrWhiteSpace(input) then []
    else
      var trimmed := Trim(input.value);
      if |trimmed| != TrnLength || !AllDigits(trimmed) then trimmed
      else trimmed[..3] + Repeat('*', 9) + trimmed[|trimmed| - 3..]
  }

  /** A valid TRN written without separators masks to `100`, nine `*` and
      its last three digits. */
  lemma MaskOfPlainValid(s: string)
    requires Check(Some(s)) && ' ' !in s && '-' !in s
    ensures Mask(Some(s)) == TrnPrefix + Repeat('*', 9) + Trim(s)[12..]
  {
    var t := Trim(s);
    assert Normalize(s) == t;
    var m := Mask(Some(s));
    assert m == m[..3] + m[3..12] + m[12..];
    assert m[3..12] == Repeat('*', 9);
  }

  /** Text with a separator inside is returned trimmed but not masked, even
      when it is a valid TRN (`100-1234-5670-0003`). */
  lemma SeparatedTextUnmasked(s: string)
    requires !IsNullOrWhiteSpace(Some(s)) && ('-' in Trim(s) || ' ' in Trim(s))
    ensures Mask(Some(s)) == Trim(s)
  {
    var t := Trim(s);
    var i :| 0 <= i < |t| && (t[i] == '-' || t[i] == ' ');
    assert !IsDigit(t[i]);
  }

  /** Fifteen digits starting `100`, written plainly: valid, and masked to
      the prefix, nine `*` and the last three digits. */
  lemma PlainTrn(d: string)
    requires |d| == TrnLength && AllDigits(d) && d[..3] == TrnPrefix
    ensures Check(Some(d))
    ensures Mask(Some(d)) == d[..3] + Repeat('*', 9) + d[12..]
  {
    PlainDigits(d);
    var m := Mask(Some(d));
    assert m == m[..3] + m[3..12] + m[12..];
    assert m[3..12] == Repeat('*', 9);
  }

  /** The library's own examples. */
  lemma Examples()
    ensures Check(Some("100123456700003")) && Check(Some("100000000000001"))
    ensures Mask(Some("100123456700003")) == "100*********003"
    ensures Validate(Some("200123456700003")).errorCode == Some(InvalidPrefix)
    ensures Validate(Some("10012345670")).errorCode == Some(InvalidLength)
  {
    ExampleValid();
    ExampleInvalid();
  }

  lemma ExampleValid()
    ensures Check(Some("100123456700003")) && Check(Some("100000000000001"))
    ensures Mask(Some("100123456700003")) == "100*********003"
  {
    ExampleDigits();
    PlainTrn("100123456700003");
    PlainTrn("100000000000001");
  }

  lemma ExampleInvalid()
    ensures Validate(Some("200123456700003")).errorCode == Some(InvalidPrefix)
    ensures Validate(Some("10012345670")).errorCode == Some(InvalidLength)
  {
    ExampleDigits();
    WrongPrefix("200123456700003");
    WrongLength("10012345670");
  }

  lemma WrongPrefix(d: string)
    requires |d| == TrnLength && AllDigits(d) && d[..3] != TrnPrefix
    ensures Validate(Some(d)).errorCode == Some(InvalidPrefix)
  {
    PlainDigits(d);
  }

  lemma WrongLength(d: string)
    requires d != [] && |d| != TrnLength && AllDigits(d)
    ensures Validate(Some(d)).errorCode == Some(InvalidLength)
  {
    PlainDigits(d);
  }

  lemma ExampleDigits()
    ensures AllDigits("100123456700003") && "100123456700003"[..3] == TrnPrefix
    ensures AllDigits("100000000000001") && "100000000000001"[..3] == TrnPrefix
    ensures "100123456700003"[..3] + Repeat('*', 9) + "100123456700003"[12..] == "100*********003"
    ensures AllDigits("200123456700003") && "200123456700003"[..3] != TrnPrefix
    ensures AllDigits("10012345670")
  {
    assert "200123456700003"[0] != TrnPrefix[0];
  }

  /** A non-empty string of digits is its own normal form. */
  lemma PlainDigits(d: string)
    requires d != [] && AllDigits(d)
    ensures !IsNullOrWhiteSpace(Some(d)) && Normalize(d) == d
  {
    assert ' ' !in d && '-' !in d by {
      assert forall i :: 0 <= i < |d| ==> IsDigit(d[i]);
    }
    assert !IsWhiteSpace(d[0]) && !IsWhiteSpace(d[|d| - 1]);
    TrimPadded([], d, []);
    assert [] + d + [] == d;
  }

  // ---------------------------------------------------------------- ParseMany

  /** `ParseMany(inputs)`: one entry per input, in order, each the input
      verbatim with its `Validate` result. */
  function ParseMany(inputs: seq<Option<string>>): (r: seq<BatchValidationResult>)
    ensures |r| == |inputs|
    ensures forall i :: 0 <= i < |inputs| ==>
      r[i].input == inputs[i] && r[i].result == Validate(inputs[i])
    ensures forall i :: 0 <= i < |inputs| && inputs[i].None? ==> r[i].ErrorCode() == Some(EmptyInput)
  {
    RunBatch(inputs, Validate)
  }
}
