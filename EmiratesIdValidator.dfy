/** The Emirates ID validator: a guard chain over the trimmed input, the
    Luhn mod-10 checksum (ISO/IEC 7812-1, Annex B) and the check-digit
    generator. The clock's year is the parameter `currentYear`. */
module EmiratesIdValidator {
  import opened Wrappers
  import opened Strings
  import opened Models
  import opened EmiratesIdConstants

  // ---------------------------------------------------------------- Luhn

  /** One digit's contribution: doubled digits above 9 lose 9. */
  function LuhnTerm(d: int, doubled: bool): (t: int)
    ensures 0 <= d <= 9 ==> 0 <= t <= 9
    ensures !doubled ==> t == d
    ensures doubled && 0 <= d <= 4 ==> t == 2 * d
    ensures doubled && 5 <= d <= 9 ==> t == 2 * d - 9
  {
    if doubled then (if d * 2 > 9 then d * 2 - 9 else d * 2) else d
  }

  /** The Luhn sum of `s` scanned right to left, its last character doubled
      when `doubleLast` holds and the doubling alternating from there. */
  function LuhnSum(s: string, doubleLast: bool): (r: int)
    ensures AllDigits(s) ==> 0 <= r <= 9 * |s|
  {
    if s == [] then 0
    else
      var init := s[..|s| - 1];
      assert AllDigits(s) ==> AllDigits(init);
      LuhnTerm(DigitValue(s[|s| - 1]), doubleLast) + LuhnSum(init, !doubleLast)
  }

  /** The checksum `ValidateLuhn` computes: the sum, starting undoubled at the
      right, is a multiple of ten. */
  predicate LuhnValid(s: string) {
    Rem(LuhnSum(s, false), 10) == 0
  }

  /** Appending a character shifts the doubling by one place: the new last
      character counts as itself and the old ones swap roles. */
  lemma LuhnSumAppend(p: string, c: char)
    ensures LuhnSum(p + [c], false) == DigitValue(c) + LuhnSum(p, true)
  {
    assert (p + [c])[..|p|] == p;
  }

  /** `ValidateLuhn(digits)`: the right-to-left loop accumulating `sum` and
      toggling `isDouble`. */
  method ValidateLuhn(digits: string) returns (ok: bool)
    ensures ok == LuhnValid(digits)
  {
    var sum := 0;
    var isDouble := false;
    assert digits[..|digits|] == digits;
    for i := |digits| downto 0
      invariant sum + LuhnSum(digits[..i], isDouble) == LuhnSum(digits, false)
    {
      assert digits[..i + 1][..i] == digits[..i];
      var d := DigitValue(digits[i]);
      if isDouble {
        d := d * 2;
        if d > 9 {
          d := d - 9;
        }
      }
      sum := sum + d;
      isDouble := !isDouble;
    }
    ok := Rem(sum, 10) == 0;
  }

  /** `ComputeCheckDigit(first14Digits)`: the digit that completes a 14-digit
      prefix to a Luhn-valid 15-digit ID. A prefix of another length or with a
      non-digit throws `ArgumentException`. */
  method ComputeCheckDigit(first14Digits: string) returns (r: Result<int, Exception>)
    ensures r.Failure? <==> !(|first14Digits| == 14 && AllDigits(first14Digits))
    ensures r.Failure? ==> r.error == ArgumentException
    ensures r.Success? ==> 0 <= r.value <= 9 && LuhnValid(first14Digits + [DigitChar(r.value)])
    ensures r.Success? ==> forall d :: 0 <= d <= 9 && LuhnValid(first14Digits + [DigitChar(d)]) ==> d == r.value
  {
    if |first14Digits| != 14 || !AllDigits(first14Digits) {
      return Failure(ArgumentException);
    }
    var sum := 0;
    var isDouble := true;
    assert first14Digits[..|first14Digits|] == first14Digits;
    for i := |first14Digits| downto 0
      invariant sum + LuhnSum(first14Digits[..i], isDouble) == LuhnSum(first14Digits, true)
    {
      assert first14Digits[..i + 1][..i] == first14Digits[..i];
      var d := DigitValue(first14Digits[i]);
      if isDouble {
        d := d * 2;
        if d > 9 {
          d := d - 9;
        }
      }
      sum := sum + d;
      isDouble := !isDouble;
    }
    var v := Rem(10 - Rem(sum, 10), 10);
    CheckDigitCompletes(first14Digits, sum, v);
    return Success(v);
  }

  /** The arithmetic behind `ComputeCheckDigit`: `(10 - s % 10) % 10` is the one
      digit that brings the sum of the extended string to a multiple of ten. */
  lemma CheckDigitCompletes(p: string, s: int, v: int)
    requires AllDigits(p) && s == LuhnSum(p, true)
    requires v == Rem(10 - Rem(s, 10), 10)
    ensures 0 <= v <= 9
    ensures LuhnValid(p + [DigitChar(v)])
    ensures forall d :: 0 <= d <= 9 && LuhnValid(p + [DigitChar(d)]) ==> d == v
  {
    ComplementDigit(s, v, 0);
    LuhnSumAppend(p, DigitChar(v));
    forall d | 0 <= d <= 9 && LuhnValid(p + [DigitChar(d)])
      ensures d == v
    {
      LuhnSumAppend(p, DigitChar(d));
      ComplementDigit(s, v, d);
    }
  }

  /** `(10 - s % 10) % 10` is the one digit whose sum with `s` is a multiple of ten. */
  lemma ComplementDigit(s: int, v: int, d: int)
    requires s >= 0 && v == Rem(10 - Rem(s, 10), 10)
    requires 0 <= d <= 9
    ensures 0 <= v <= 9 && (v + s) % 10 == 0
    ensures (d + s) % 10 == 0 <==> d == v
  {
    var q, m := s / 10, s % 10;
    assert s == 10 * q + m;
    assert v == (10 - m) % 10;
    assert d + s == 10 * q + (d + m);
    assert v + s == 10 * q + (v + m);
  }

  // ---------------------------------------------------------------- Validate

  /** The birth year: digits 3..6 of the normalised ID, parsed as a number. */
  function BirthYearOf(n: string): (y: nat)
    requires MatchesRaw(n)
    ensures y <= 9999
  {
    assert AllDigits(n[3..7]) by {
      assert forall i :: 0 <= i < 4 ==> n[3..7][i] == n[3..][i];
    }
    DecimalValue(n[3..7])
  }

  /** The two spellings the validator accepts, reduced to the 15 digits. A
      trimmed input holding a dash must match the formatted pattern (else
      INVALID_FORMAT); one without must have 15 characters (INVALID_LENGTH),
      all digits (INVALID_CHARACTERS), starting `784` (INVALID_COUNTRY_CODE). */
  function Normalize(trimmed: string): (r: Result<string, ErrorCode>)
    ensures r.Success? <==> MatchesRaw(trimmed) || MatchesFormatted(trimmed)
    ensures r.Success? ==> r.value == Remove(trimmed, '-') && MatchesRaw(r.value)
    ensures r.Failure? ==> r.error in {InvalidFormat, InvalidLength, InvalidCharacters, InvalidCountryCode}
  {
    if '-' in trimmed then
      if !MatchesFormatted(trimmed) then Failure(InvalidFormat)
      else
        FormattedWithoutDashesIsRaw(trimmed);
        Success(Remove(trimmed, '-'))
    else if |trimmed| != TotalDigits then Failure(InvalidLength)
    else if !AllDigits(trimmed) then Failure(InvalidCharacters)
    else if !MatchesRaw(trimmed) then Failure(InvalidCountryCode)
    else Success(trimmed)
  }

  /** The checks on the 15 clean digits: the birth year lies in
      [1900, currentYear], then the Luhn checksum. */
  function ValidateDigits(n: string, currentYear: int): (r: ValidationResult)
    requires MatchesRaw(n)
    ensures r.EmiratesIdInfo? && r.Consistent()
    ensures r.isValid <==> MinBirthYear <= BirthYearOf(n) <= currentYear && LuhnValid(n)
    ensures !r.isValid ==> r.errorCode == Some(
      if MinBirthYear <= BirthYearOf(n) <= currentYear then InvalidChecksum else InvalidBirthYearRange)
  {
    var birthYear := BirthYearOf(n);
    if birthYear < MinBirthYear || birthYear > currentYear then EmiratesIdFail(InvalidBirthYearRange)
    else if !LuhnValid(n) then EmiratesIdFail(InvalidChecksum)
    else EmiratesIdSuccess(n, n[..3], birthYear, n[7..14], DigitValue(n[14]))
  }

  /** An ID is acceptable when its trimmed text matches one of the two
      patterns and its digits carry a birth year in range and a valid Luhn
      checksum. */
  predicate Acceptable(s: string, currentYear: int) {
    var t := Trim(s);
    var raw := Remove(t, '-');
    && (MatchesRaw(t) || MatchesFormatted(t))
    && MatchesRaw(raw)
    && MinBirthYear <= BirthYearOf(raw) <= currentYear
    && LuhnValid(raw)
  }

  /** `Validate(input)`. Never faults; a null or blank input is EMPTY_INPUT.
      A valid result describes the dash-free digits of the trimmed input. */
  function Validate(input: Option<string>, currentYear: int): (r: ValidationResult)
    ensures r.EmiratesIdInfo? && r.Consistent()
    ensures r.errorCode == Some(EmptyInput) <==> IsNullOrWhiteSpace(input)
    ensures r.errorCode != Some(InvalidBirthYear)
    ensures r.isValid <==> input.Some? && Acceptable(input.value, currentYear)
    ensures r.isValid ==>
      && r.rawId == Some(Remove(Trim(input.value), '-'))
      && MatchesRaw(r.rawId.value) && LuhnValid(r.rawId.value)
      && r.countryCode == Some(CountryCode)
      && r.birthYear == BirthYearOf(r.rawId.value)
      && MinBirthYear <= r.birthYear <= currentYear
      && r.sequenceNumber == Some(r.rawId.value[7..14]) && |r.sequenceNumber.value| == 7
      && r.checkDigit == DigitValue(r.rawId.value[14]) && 0 <= r.checkDigit <= 9
  {
    if IsNullOrWhiteSpace(input) then EmiratesIdFail(EmptyInput)
    else ValidateTrimmed(Trim(input.value), currentYear)
  }

  /** The guard chain after trimming. */
  function ValidateTrimmed(trimmed: string, currentYear: int): (r: ValidationResult)
    ensures r.EmiratesIdInfo? && r.Consistent()
    ensures r.errorCode != Some(EmptyInput) && r.errorCode != Some(InvalidBirthYear)
    ensures var raw := Remove(trimmed, '-');
      r.isValid <==>
        && (MatchesRaw(trimmed) || MatchesFormatted(trimmed))
        && MatchesRaw(raw) && MinBirthYear <= BirthYearOf(raw) <= currentYear && LuhnValid(raw)
    ensures r.isValid ==>
      && r.rawId == Some(Remove(trimmed, '-'))
      && MatchesRaw(r.rawId.value) && LuhnValid(r.rawId.value)
      && r.countryCode == Some(CountryCode)
      && r.birthYear == BirthYearOf(r.rawId.value)
      && MinBirthYear <= r.birthYear <= currentYear
      && r.sequenceNumber == Some(r.rawId.value[7..14]) && |r.sequenceNumber.value| == 7
      && r.checkDigit == DigitValue(r.rawId.value[14]) && 0 <= r.checkDigit <= 9
  {
    match Normalize(trimmed)
    case Failure(e) => EmiratesIdFail(e)
    case Success(n) => ValidateDigits(n, currentYear)
  }

  /** `Check` / `IsValid`: whether `Validate` accepts the input. */
  function Check(input: Option<string>, currentYear: int): (b: bool)
    ensures b <==> input.Some? && Acceptable(input.value, currentYear)
    ensures b ==> !IsNullOrWhiteSpace(input)
  {
    Validate(input, currentYear).isValid
  }

  // ---------------------------------------------------------------- properties

  /** The error codes come out in a fixed order: format (dashed input) or
      length, characters and country code (dash-free input), then the birth
      year range, then the checksum. */
  lemma ErrorCodeOrder(s: string, currentYear: int)
    requires !IsNullOrWhiteSpace(Some(s))
    ensures var t, code := Trim(s), Validate(Some(s), currentYear).errorCode;
      && (code == Some(InvalidFormat) <==> '-' in t && !MatchesFormatted(t))
      && (code == Some(InvalidLength) <==> '-' !in t && |t| != TotalDigits)
      && (code == Some(InvalidCharacters) <==> '-' !in t && |t| == TotalDigits && !AllDigits(t))
      && (code == Some(InvalidCountryCode) <==>
            '-' !in t && |t| == TotalDigits && AllDigits(t) && t[..3] != CountryCode)
      && (code == Some(InvalidBirthYearRange) <==>
            (MatchesRaw(t) || MatchesFormatted(t)) && !(MinBirthYear <= BirthYearOf(Remove(t, '-')) <= currentYear))
      && (code == Some(InvalidChecksum) <==>
            (MatchesRaw(t) || MatchesFormatted(t)) && MinBirthYear <= BirthYearOf(Remove(t, '-')) <= currentYear
            && !LuhnValid(Remove(t, '-')))
  {
    var t := Trim(s);
    if !(MatchesRaw(t) || MatchesFormatted(t)) && '-' !in t && |t| == TotalDigits && AllDigits(t) {
      assert t[..3] != CountryCode;
    }
  }

  /** White space around an input does not change its result. */
  lemma ValidatePadded(lead: string, core: string, tail: string, currentYear: int)
    requires AllWhiteSpace(lead) && AllWhiteSpace(tail)
    requires core != [] && !IsWhiteSpace(core[0]) && !IsWhiteSpace(core[|core| - 1])
    ensures Validate(Some(lead + core + tail), currentYear) == ValidateTrimmed(core, currentYear)
  {
    TrimPadded(lead, core, tail);
    assert (lead + core + tail)[|lead|] == core[0];
  }

  /** The dashed spelling and the dash-free 15 digits, each with any
      surrounding white space, produce the same result. */
  lemma DashedAndRawAgree(f: string, lead1: string, tail1: string, lead2: string, tail2: string,
                          currentYear: int)
    requires MatchesFormatted(f)
    requires AllWhiteSpace(lead1) && AllWhiteSpace(tail1) && AllWhiteSpace(lead2) && AllWhiteSpace(tail2)
    ensures Validate(Some(lead1 + f + tail1), currentYear)
         == Validate(Some(lead2 + Remove(f, '-') + tail2), currentYear)
  {
    FormattedWithoutDashesIsRaw(f);
    var raw := Remove(f, '-');
    ValidatePadded(lead1, f, tail1, currentYear);
    ValidatePadded(lead2, raw, tail2, currentYear);
    assert Normalize(f) == Success(raw);
    assert Normalize(raw) == Success(raw);
  }

  /** `ComputeCheckDigit` is a left inverse of the checksum: a 14-digit prefix
      starting `784` with a birth year in range, completed by the digit the
      generator promises, validates, and the result reports that digit. */
  lemma CheckDigitYieldsValidId(p: string, d: int, currentYear: int)
    requires |p| == 14 && AllDigits(p) && p[..3] == CountryCode
    requires MinBirthYear <= DecimalValue(p[3..7]) <= currentYear
    requires 0 <= d <= 9 && LuhnValid(p + [DigitChar(d)])
    ensures var r := Validate(Some(p + [DigitChar(d)]), currentYear);
      r.isValid && r.rawId == Some(p + [DigitChar(d)]) && r.checkDigit == d
  {
    var id := p + [DigitChar(d)];
    assert id[..3] == p[..3];
    assert id[3..7] == p[3..7];
    assert MatchesRaw(id);
    ValidatePadded([], id, [], currentYear);
    assert [] + id + [] == id;
    assert Normalize(id) == Success(id);
  }

  /** A formatted input is judged by its dash-free digits. */
  lemma FormattedResult(f: string, currentYear: int)
    requires MatchesFormatted(f)
    ensures MatchesRaw(Remove(f, '-'))
    ensures Validate(Some(f), currentYear) == ValidateDigits(Remove(f, '-'), currentYear)
  {
    FormattedWithoutDashesIsRaw(f);
    ValidatePadded([], f, [], currentYear);
    assert [] + f + [] == f;
  }

  /** The library's own example: `784-1990-1234567-6` is valid in any year
      from 1990 on, with birth year 1990, sequence `1234567`, check digit 6. */
  lemma ExampleId(currentYear: int)
    requires currentYear >= 1990
    ensures var r := Validate(Some("784-1990-1234567-6"), currentYear);
      && r.isValid && r.rawId == Some("784199012345676") && r.birthYear == 1990
      && r.sequenceNumber == Some("1234567") && r.checkDigit == 6
  {
    ExampleSpelling();
    FormattedResult("784-1990-1234567-6", currentYear);
    ExampleDigits();
    ExampleSlices();
  }

  lemma ExampleSpelling()
    ensures MatchesFormatted("784-1990-1234567-6")
    ensures Remove("784-1990-1234567-6", '-') == "784199012345676"
  {
    ExampleFormatted();
    ExampleSlices();
    GroupsSpelled("784-1990-1234567-6", "784", "1990", "1234567", "6");
  }

  lemma ExampleFormatted()
    ensures MatchesFormatted("784-1990-1234567-6")
  {
    var f := "784-1990-1234567-6";
    ExampleSlices();
    assert AllDigits(f[4..8]) && AllDigits(f[9..16]);
  }

  /** Removing the dashes from a formatted ID joins its four groups. */
  lemma GroupsSpelled(f: string, cc: string, year: string, sequence: string, check: string)
    requires MatchesFormatted(f)
    requires f[..3] == cc && f[4..8] == year && f[9..16] == sequence && f[17..] == check
    ensures Remove(f, '-') == cc + year + sequence + check
  {
    FormattedWithoutDashesIsRaw(f);
  }

  lemma ExampleSlices()
    ensures "784-1990-1234567-6"[..3] == "784" && "784-1990-1234567-6"[4..8] == "1990"
    ensures "784-1990-1234567-6"[9..16] == "1234567" && "784-1990-1234567-6"[17..] == "6"
    ensures "784" + "1990" + "1234567" + "6" == "784199012345676"
    ensures "784199012345676"[7..14] == "1234567"
  {
  }

  lemma ExampleDigits()
    ensures MatchesRaw("784199012345676")
    ensures BirthYearOf("784199012345676") == 1990
    ensures LuhnValid("784199012345676")
  {
    ExampleBirthYear();
    ExampleChecksum();
  }

  lemma ExampleBirthYear()
    ensures MatchesRaw("784199012345676")
    ensures BirthYearOf("784199012345676") == 1990
  {
    assert "784199012345676"[3..7] == "1990";
    assert DecimalValue("1") == 1;
    assert "19"[..1] == "1";
    assert DecimalValue("19") == 19;
    assert "199"[..2] == "19";
    assert DecimalValue("199") == 199;
    assert "1990"[..3] == "199";
    assert DecimalValue("1990") == 1990;
  }

  lemma ExampleChecksum()
    ensures LuhnSum("784199012345676", false) == 70
  {
    assert LuhnSum("7", false) == 7;
    assert "78"[..1] == "7";
    assert LuhnSum("78", true) == 14;
    assert "784"[..2] == "78";
    assert LuhnSum("784", false) == 18;
    assert "7841"[..3] == "784";
    assert LuhnSum("7841", true) == 20;
    assert "78419"[..4] == "7841";
    assert LuhnSum("78419", false) == 29;
    assert "784199"[..5] == "78419";
    assert LuhnSum("784199", true) == 38;
    assert "7841990"[..6] == "784199";
    assert LuhnSum("7841990", false) == 38;
    assert "78419901"[..7] == "7841990";
    assert LuhnSum("78419901", true) == 40;
    assert "784199012"[..8] == "78419901";
    assert LuhnSum("784199012", false) == 42;
    assert "7841990123"[..9] == "784199012";
    assert LuhnSum("7841990123", true) == 48;
    assert "78419901234"[..10] == "7841990123";
    assert LuhnSum("78419901234", false) == 52;
    assert "784199012345"[..11] == "78419901234";
    assert LuhnSum("784199012345", true) == 53;
    assert "7841990123456"[..12] == "784199012345";
    assert LuhnSum("7841990123456", false) == 59;
    assert "78419901234567"[..13] == "7841990123456";
    assert LuhnSum("78419901234567", true) == 64;
    assert "784199012345676"[..14] == "78419901234567";
    assert LuhnSum("784199012345676", false) == 70;
  }

  /** A valid result's approximate age, taken in the year it was validated,
      lies between 0 and `currentYear - 1900`; a failed one's is 0. */
  lemma ApproximateAgeBounds(input: Option<string>, currentYear: int)
    ensures var r := Validate(input, currentYear);
      && (r.isValid ==> 0 <= ApproximateAge(r, currentYear) <= currentYear - MinBirthYear)
      && (!r.isValid ==> ApproximateAge(r, currentYear) == 0)
  {
  }
}
