/** The UAE IBAN validator: `AE` + 2 check digits + 3-digit bank code +
    16-digit account number, checked with the ISO 13616 rearrange-and-mod-97
    rule (ISO/IEC 7064 MOD 97-10). */
module UaeIbanValidator {
  import opened Wrappers
  import opened Strings
  import opened Models
  import UaeBankCodes

  const UaeIbanLength: nat := 23
  const UaeCountryCode: string := "AE"

  /** What `Validate` works on: the input with every space removed, in upper
      case. Other white space is kept. */
  function Normalize(s: string): string {
    ToUpperInvariant(Remove(s, ' '))
  }

  // ---------------------------------------------------------------- mod 97

  predicate Alphanumeric(s: string) {
    forall i :: 0 <= i < |s| ==> IsDigit(s[i]) || IsLetter(s[i])
  }

  /** One character of the numeral: a letter becomes `c - 'A' + 10` written in
      decimal, a digit stays itself. */
  function CharNumeral(c: char): (r: string)
    requires IsDigit(c) || IsLetter(c)
    ensures r != [] && AllDigits(r)
    ensures IsDigit(c) ==> r == [c]
    ensures IsUpperLetter(c) ==> DecimalValue(r) == c as int - 'A' as int + 10 && |r| == 2
  {
    if IsLetter(c) then
      var v := c as int - 'A' as int + 10;
      assert 10 <= v < 100;
      assert NatToString(v) == NatToString(v / 10) + [DigitChar(v % 10)];
      NatToString(v)
    else [c]
  }

  /** `string.Concat(s.Select(CharNumeral))`. */
  function Numeral(s: string): (r: string)
    requires Alphanumeric(s)
    ensures AllDigits(r) && |r| >= |s|
  {
    if s == [] then [] else CharNumeral(s[0]) + Numeral(s[1..])
  }

  lemma {:induction false} NumeralAppend(a: string, b: string)
    requires Alphanumeric(a) && Alphanumeric(b)
    ensures Alphanumeric(a + b)
    ensures Numeral(a + b) == Numeral(a) + Numeral(b)
  {
    if a == [] {
      assert a + b == b;
    } else {
      assert (a + b)[1..] == a[1..] + b;
      NumeralAppend(a[1..], b);
    }
  }

  lemma {:induction false} NumeralOfDigits(s: string)
    requires AllDigits(s)
    ensures Alphanumeric(s) && Numeral(s) == s
  {
    if s != [] {
      NumeralOfDigits(s[1..]);
    }
  }

  /** `ValidateMod97(iban)`: move the first four characters to the end, spell
      each letter as two digits, and require the number to be 1 modulo 97. */
  predicate ValidateMod97(iban: string)
    requires |iban| >= 4 && Alphanumeric(iban)
  {
    var rearranged := iban[4..] + iban[..4];
    assert Alphanumeric(rearranged) by {
      NumeralAppend(iban[4..], iban[..4]);
    }
    DecimalValue(Numeral(rearranged)) % 97 == 1
  }

  /** The explicit numeral the check reads for an `AE` IBAN of digits:
      BBAN, then `10` for A and `14` for E, then the check digits. */
  function Mod97Numeral(n: string): (r: string)
    requires |n| == UaeIbanLength && AllDigits(n[2..])
    ensures |r| == 25 && AllDigits(r)
    ensures r[..19] == n[4..] && r[19..23] == "1014" && r[23..] == n[2..4]
  {
    assert forall i :: 0 <= i < 19 ==> n[4..][i] == n[2..][i + 2];
    assert forall i :: 0 <= i < 2 ==> n[2..4][i] == n[2..][i];
    n[4..] + "1014" + n[2..4]
  }

  /** The mod-97 check on an `AE` IBAN of digits is the check on the explicit
      numeral BBAN ++ "1014" ++ check digits. */
  lemma Mod97OnExplicitNumeral(n: string)
    requires |n| == UaeIbanLength && n[..2] == UaeCountryCode && AllDigits(n[2..])
    ensures Alphanumeric(n)
    ensures ValidateMod97(n) <==> DecimalValue(Mod97Numeral(n)) % 97 == 1
  {
    var bban, cd := n[4..], n[2..4];
    IbanParts(n);
    RearrangedNumeral(bban, cd);
    assert n[4..] + n[..4] == bban + ("AE" + cd);
    assert Mod97Numeral(n) == bban + ("1014" + cd);
  }

  /** An `AE` IBAN of digits splits into `AE`, its check digits and its BBAN. */
  lemma IbanParts(n: string)
    requires |n| == UaeIbanLength && n[..2] == UaeCountryCode && AllDigits(n[2..])
    ensures Alphanumeric(n) && AllDigits(n[4..]) && AllDigits(n[2..4])
    ensures n[..4] == "AE" + n[2..4]
  {
    assert forall i :: 2 <= i < |n| ==> n[i] == n[2..][i - 2];
    assert forall i :: 0 <= i < 2 ==> n[i] == UaeCountryCode[i];
    assert forall i :: 0 <= i < 19 ==> n[4..][i] == n[2..][i + 2];
    assert forall i :: 0 <= i < 2 ==> n[2..4][i] == n[2..][i];
  }

  /** The rearranged IBAN spells out as BBAN, `1014`, check digits. */
  lemma RearrangedNumeral(bban: string, cd: string)
    requires AllDigits(bban) && AllDigits(cd)
    ensures Alphanumeric(bban + ("AE" + cd))
    ensures Numeral(bban + ("AE" + cd)) == bban + ("1014" + cd)
  {
    NumeralOfDigits(bban);
    NumeralOfDigits(cd);
    NumeralOfAE();
    NumeralAppend("AE", cd);
    NumeralAppend(bban, "AE" + cd);
  }

  lemma NumeralOfAE()
    ensures Alphanumeric("AE") && Numeral("AE") == "1014"
  {
    assert NatToString(10) == "10";
    assert NatToString(14) == "14";
    assert Numeral("E") == "14";
  }

  // ---------------------------------------------------------------- Validate

  /** The checks made after the country code: length 23, digits after `AE`,
      then the checksum. */
  function ValidateAe(n: string): (r: ValidationResult)
    requires StartsWith(n, UaeCountryCode)
    ensures r.IbanInfo? && r.Consistent() && r.errorCode != Some(EmptyInput)
    ensures r.isValid <==> WellFormed(n)
    ensures r.isValid ==>
      && r.rawIban == Some(n)
      && r.countryCode == Some(UaeCountryCode)
      && r.checkDigits.Some? && r.bankCode.Some? && r.accountNumber.Some?
      && UaeCountryCode + r.checkDigits.value + r.bankCode.value + r.accountNumber.value == n
      && |r.checkDigits.value| == 2 && |r.bankCode.value| == 3 && |r.accountNumber.value| == 16
      && r.bankName == UaeBankCodes.Resolve(r.bankCode.value)
  {
    if |n| != UaeIbanLength then IbanFail(InvalidLength)
    else if !AllDigits(n[2..]) then IbanFail(InvalidCharacters)
    else
      Mod97OnExplicitNumeral(n);
      if !ValidateMod97(n) then IbanFail(InvalidChecksum)
      else
        assert n == n[..2] + n[2..4] + n[4..7] + n[7..23];
        IbanSuccess(n, n[2..4], n[4..7], UaeBankCodes.Resolve(n[4..7]), n[7..23])
  }

  /** A well-formed UAE IBAN in normalised form: `AE`, 21 digits, and the
      explicit numeral is 1 modulo 97. */
  predicate WellFormed(n: string) {
    && |n| == UaeIbanLength && n[..2] == UaeCountryCode && AllDigits(n[2..])
    && DecimalValue(Mod97Numeral(n)) % 97 == 1
  }

  /** `Validate(input)`, with the country-code failure returned for every
      normalised string not starting `AE` (see `ValidateAsWritten`). */
  function Validate(input: Option<string>): (r: ValidationResult)
    ensures r.IbanInfo? && r.Consistent()
    ensures r.errorCode == Some(EmptyInput) <==> IsNullOrWhiteSpace(input)
    ensures r.isValid <==> !IsNullOrWhiteSpace(input) && WellFormed(Normalize(input.value))
    ensures r.isValid ==>
      && r.rawIban == Some(Normalize(input.value))
      && r.countryCode == Some(UaeCountryCode)
      && r.checkDigits.Some? && r.bankCode.Some? && r.accountNumber.Some?
      && UaeCountryCode + r.checkDigits.value + r.bankCode.value + r.accountNumber.value == r.rawIban.value
      && |r.checkDigits.value| == 2 && |r.bankCode.value| == 3 && |r.accountNumber.value| == 16
      && r.bankName == UaeBankCodes.Resolve(r.bankCode.value)
  {
    if IsNullOrWhiteSpace(input) then IbanFail(EmptyInput)
    else
      var n := Normalize(input.value);
      if !StartsWith(n, UaeCountryCode) then IbanFail(InvalidCountryCode)
      else ValidateAe(n)
  }

  /** `Check` / `IsValid`. */
  function Check(input: Option<string>): (b: bool)
    ensures b <==> !IsNullOrWhiteSpace(input) && WellFormed(Normalize(input.value))
  {
    Validate(input).isValid
  }

  /** The error codes come out in a fixed order: country code, then length,
      then characters, then checksum. */
  lemma ErrorCodeOrder(s: string)
    requires !IsNullOrWhiteSpace(Some(s))
    ensures var n, code := Normalize(s), Validate(Some(s)).errorCode;
      && (code == Some(InvalidCountryCode) <==> !StartsWith(n, UaeCountryCode))
      && (code == Some(InvalidLength) <==> StartsWith(n, UaeCountryCode) && |n| != UaeIbanLength)
      && (code == Some(InvalidCharacters) <==>
            StartsWith(n, UaeCountryCode) && |n| == UaeIbanLength && !AllDigits(n[2..]))
      && (code == Some(InvalidChecksum) <==>
            StartsWith(n, UaeCountryCode) && |n| == UaeIbanLength && AllDigits(n[2..]) && !WellFormed(n))
  {
  }

  /** Spaces and letter case do not matter: inputs with the same normalised
      form get the same result. */
  lemma SameNormalFormSameResult(a: string, b: string)
    requires Normalize(a) == Normalize(b)
    ensures Validate(Some(a)) == Validate(Some(b))
  {
    BlankIffNormalFormBlank(a);
    BlankIffNormalFormBlank(b);
  }

  /** An input is blank exactly when its normal form is. */
  lemma BlankIffNormalFormBlank(s: string)
    ensures AllWhiteSpace(s) <==> AllWhiteSpace(Normalize(s))
  {
    var removed := Remove(s, ' ');
    var n := Normalize(s);
    if AllWhiteSpace(s) {
      forall i | 0 <= i < |n|
        ensures IsWhiteSpace(n[i])
      {
        assert removed[i] in removed;
        RemoveMembers(s, ' ', removed[i]);
      }
    } else {
      var k :| 0 <= k < |s| && !IsWhiteSpace(s[k]);
      assert s[k] in s && s[k] != ' ';
      RemoveMembers(s, ' ', s[k]);
      var j :| 0 <= j < |removed| && removed[j] == s[k];
      assert !IsWhiteSpace(n[j]);
    }
  }

  // ---------------------------------------------------------------- check digits

  /** ISO 13616 check digits for a 19-digit UAE BBAN: 98 minus the remainder
      of BBAN ++ "1014" ++ "00" modulo 97. */
  function CheckDigitsFor(bban: string): (c: int)
    requires |bban| == 19 && AllDigits(bban)
    ensures 2 <= c <= 98
  {
    98 - DecimalValue(bban + "1014" + "00") % 97
  }

  /** A value below 100 as two digits, with a leading zero when needed. */
  function TwoDigits(v: int): (r: string)
    requires 0 <= v <= 99
    ensures |r| == 2 && AllDigits(r) && DecimalValue(r) == v
  {
    var r := [DigitChar(v / 10), DigitChar(v % 10)];
    assert r[..1] == [DigitChar(v / 10)];
    r
  }

  /** Check digits computed by ISO 13616 make any 19-digit BBAN a valid UAE
      IBAN, reporting those digits, the bank code and the account number. */
  lemma CheckDigitsValidate(bban: string, cd: string)
    requires |bban| == 19 && AllDigits(bban)
    requires |cd| == 2 && AllDigits(cd) && DecimalValue(cd) == CheckDigitsFor(bban)
    ensures var iban := UaeCountryCode + cd + bban;
      var r := Validate(Some(iban));
      && r.isValid && r.rawIban == Some(iban) && r.checkDigits == Some(cd)
      && r.bankCode == Some(bban[..3]) && r.accountNumber == Some(bban[3..])
  {
    var iban := UaeCountryCode + cd + bban;
    ChecksumOfSpelling(bban, cd);
    assert WellFormed(iban);
    SpellingParts(bban, cd);
    SpellingIsNormal(iban);
    WellFormedFields(iban);
  }

  /** On a well-formed normal form the checks pass and the parts are read
      from their fixed positions. */
  lemma WellFormedFields(n: string)
    requires WellFormed(n)
    ensures StartsWith(n, UaeCountryCode)
    ensures ValidateAe(n) == IbanSuccess(n, n[2..4], n[4..7], UaeBankCodes.Resolve(n[4..7]), n[7..23])
  {
    Mod97OnExplicitNumeral(n);
  }

  /** No other check digits in 02..98 make the same BBAN valid. */
  lemma CheckDigitsUnique(bban: string, cd: string)
    requires |bban| == 19 && AllDigits(bban)
    requires |cd| == 2 && AllDigits(cd) && 2 <= DecimalValue(cd) <= 98
    requires Validate(Some(UaeCountryCode + cd + bban)).isValid
    ensures DecimalValue(cd) == CheckDigitsFor(bban)
  {
    var iban := UaeCountryCode + cd + bban;
    SpellingParts(bban, cd);
    SpellingIsNormal(iban);
    assert WellFormed(iban);
    ChecksumOfSpelling(bban, cd);
  }

  /** `AE` + check digits + BBAN passes the checksum when the check digits
      are the ISO 13616 ones, and, among 02..98, only then. */
  lemma ChecksumOfSpelling(bban: string, cd: string)
    requires |bban| == 19 && AllDigits(bban)
    requires |cd| == 2 && AllDigits(cd)
    ensures DecimalValue(cd) == CheckDigitsFor(bban) ==> WellFormed(UaeCountryCode + cd + bban)
    ensures WellFormed(UaeCountryCode + cd + bban) && 2 <= DecimalValue(cd) <= 98
        ==> DecimalValue(cd) == CheckDigitsFor(bban)
  {
    var iban := UaeCountryCode + cd + bban;
    SpellingParts(bban, cd);
    SpellingNumeral(iban, bban, cd);
    Mod97Value(bban, cd);
    assert Pow10(2) == 100;
    ChecksumDecides(WellFormed(iban), DecimalValue(bban + "1014" + "00"), DecimalValue(cd));
  }

  /** Where `AE` + check digits + BBAN keeps its parts. */
  lemma SpellingParts(bban: string, cd: string)
    requires |bban| == 19 && AllDigits(bban)
    requires |cd| == 2 && AllDigits(cd)
    ensures var iban := UaeCountryCode + cd + bban;
      && |iban| == UaeIbanLength && iban[..2] == UaeCountryCode && AllDigits(iban[2..])
      && iban[2..4] == cd && iban[4..] == bban
      && iban[4..7] == bban[..3] && iban[7..23] == bban[3..]
  {
    var iban := UaeCountryCode + cd + bban;
    assert iban[..2] == UaeCountryCode && iban[2..4] == cd && iban[4..] == bban;
    assert iban[2..] == cd + bban;
  }

  /** The checksum of `AE` + check digits + BBAN reads BBAN ++ "1014" ++ check digits. */
  lemma SpellingNumeral(iban: string, bban: string, cd: string)
    requires |iban| == UaeIbanLength && iban[..2] == UaeCountryCode && AllDigits(iban[2..])
    requires iban[2..4] == cd && iban[4..] == bban
    ensures AllDigits(bban + "1014" + cd)
    ensures WellFormed(iban) <==> DecimalValue(bban + "1014" + cd) % 97 == 1
  {
    assert Mod97Numeral(iban) == bban + "1014" + cd;
  }

  /** A string of digits after `AE` is its own normal form, so `Validate`
      goes straight to the checks after the country code. */
  lemma SpellingIsNormal(iban: string)
    requires |iban| >= 2 && iban[..2] == UaeCountryCode && AllDigits(iban[2..])
    ensures Normalize(iban) == iban && StartsWith(iban, UaeCountryCode)
    ensures Validate(Some(iban)) == ValidateAe(iban)
  {
    forall i | 0 <= i < |iban|
      ensures IsDigit(iban[i]) || IsUpperLetter(iban[i])
    {
      if i < 2 {
        assert iban[i] == iban[..2][i];
      } else {
        assert iban[i] == iban[2..][i - 2];
      }
    }
    NoSpacesNoLowerCase(iban);
    assert !AllWhiteSpace(iban) by {
      assert iban[0] == iban[..2][0];
    }
  }

  /** The numeral with check digits `cd` exceeds the one with `00` by `cd`. */
  lemma Mod97Value(bban: string, cd: string)
    requires AllDigits(bban) && |cd| == 2 && AllDigits(cd)
    ensures AllDigits(bban + "1014" + cd) && AllDigits(bban + "1014" + "00")
    ensures DecimalValue(bban + "1014" + cd) == DecimalValue(bban + "1014" + "00") + DecimalValue(cd)
  {
    assert AllDigits("1014");
    DecimalValueAppend(bban, "1014");
    DecimalValueAppend(bban + "1014", cd);
    DecimalValueAppend(bban + "1014", "00");
    assert Pow10(2) == 100;
    assert DecimalValue("00") == 0 by {
      assert "00"[..1] == "0";
    }
  }

  /** A checksum test `w` that holds exactly when `x + c` is 1 modulo 97
      passes for `c = 98 - x % 97` and for no other `c` in 2..98. */
  lemma ChecksumDecides(w: bool, x: nat, c: int)
    requires 0 <= c <= 99 && (w <==> (x + c) % 97 == 1)
    ensures c == 98 - x % 97 ==> w
    ensures w && 2 <= c <= 98 ==> c == 98 - x % 97
  {
    Mod97Complement(x, c);
  }

  /** `98 - x % 97` is the one value in 2..98 that brings `x` to 1 modulo 97. */
  lemma Mod97Complement(x: nat, c: int)
    requires 0 <= c <= 99
    ensures (c == 98 - x % 97 ==> (x + c) % 97 == 1)
    ensures ((x + c) % 97 == 1 && 2 <= c <= 98 ==> c == 98 - x % 97)
  {
    var q, m := x / 97, x % 97;
    assert x == 97 * q + m;
    assert x + c == 97 * q + (m + c);
  }

  /** A string of digits and upper-case letters is its own normal form. */
  lemma NoSpacesNoLowerCase(s: string)
    requires forall i :: 0 <= i < |s| ==> IsDigit(s[i]) || IsUpperLetter(s[i])
    ensures Normalize(s) == s
  {
    assert ' ' !in s;
  }

  // ---------------------------------------------------------------- Mask

  /** What `Mask` works on: trimmed, spaces removed, upper case. */
  function MaskText(s: string): string {
    ToUpperInvariant(Remove(Trim(s), ' '))
  }

  /** `Mask(input)`: a 23-character text starting `AE` keeps its first 7 and
      last 5 characters and shows `*` for the 11 between; other text is
      returned normalised. No digit or checksum test is made. */
  function Mask(input: Option<string>): (r: string)
    ensures IsNullOrWhiteSpace(input) ==> r == []
    ensures !IsNullOrWhiteSpace(input) ==> |r| == |MaskText(input.value)|
    ensures !IsNullOrWhiteSpace(input) ==>
      var t := MaskText(input.value);
      if |t| == UaeIbanLength && StartsWith(t, UaeCountryCode) then
        && r[..7] == t[..7] && r[18..] == t[18..]
        && forall i :: 7 <= i < 18 ==> r[i] == '*'
      else r == t
  {
    if IsNullOrWhiteSpace(input) then []
    else
      var trimmed := MaskText(input.value);
      if |trimmed| != UaeIbanLength || !StartsWith(trimmed, UaeCountryCode) then trimmed
      else trimmed[..7] + Repeat('*', 11) + trimmed[|trimmed| - 5..]
  }

  /** The mask of a valid IBAN shows exactly its country code, check digits,
      bank code and last five account digits. */
  lemma MaskOfValid(s: string)
    requires Validate(Some(s)).isValid
    ensures var raw := Validate(Some(s)).rawIban.value;
      Mask(Some(s)) == raw[..7] + Repeat('*', 11) + raw[18..]
  {
    var n := Normalize(s);
    assert MaskText(s) == n by {
      NormalHasNoWhiteSpace(n);
      SpaceOnlyFromNormal(s);
      RemoveTrimmedSpaces(s);
    }
    MaskShape(Mask(Some(s)), n);
  }

  /** Twenty-three characters with the first seven and last five kept and
      `*` at the eleven places between. */
  lemma MaskShape(r: string, t: string)
    requires |r| == |t| == UaeIbanLength
    requires r[..7] == t[..7] && r[18..] == t[18..] && forall i :: 7 <= i < 18 ==> r[i] == '*'
    ensures r == t[..7] + Repeat('*', 11) + t[18..]
  {
    assert r == r[..7] + r[7..18] + r[18..];
    assert r[7..18] == Repeat('*', 11);
  }

  /** A well-formed IBAN holds no white space. */
  lemma NormalHasNoWhiteSpace(n: string)
    requires WellFormed(n)
    ensures forall j :: 0 <= j < |n| ==> !IsWhiteSpace(n[j])
  {
    forall j | 0 <= j < |n|
      ensures !IsWhiteSpace(n[j])
    {
      if j < 2 {
        assert n[j] == n[..2][j];
      } else {
        assert n[j] == n[2..][j - 2];
      }
    }
  }

  /** When the normal form holds no white space, the only white space in the
      input is the space character. */
  lemma SpaceOnlyFromNormal(s: string)
    requires forall j :: 0 <= j < |Normalize(s)| ==> !IsWhiteSpace(Normalize(s)[j])
    ensures SpaceIsOnlyWhiteSpace(s)
  {
    var removed := Remove(s, ' ');
    forall i | 0 <= i < |s| && s[i] != ' '
      ensures !IsWhiteSpace(s[i])
    {
      RemoveMembers(s, ' ', s[i]);
      var j :| 0 <= j < |removed| && removed[j] == s[i];
      assert Normalize(s)[j] == ToUpperChar(s[i]);
    }
  }

  /** The only white space `s` holds, if any, is the space character. */
  predicate SpaceIsOnlyWhiteSpace(s: string) {
    forall i :: 0 <= i < |s| && s[i] != ' ' ==> !IsWhiteSpace(s[i])
  }

  /** When the only white space in `s` is the space character, trimming does
      not change what removing the spaces leaves. */

  lemma RemoveTrimmedSpaces(s: string)
    requires SpaceIsOnlyWhiteSpace(s)
    ensures Remove(Trim(s), ' ') == Remove(s, ' ')
  {
    var k, j := TrimBounds(s);
    WhiteIsSpace(s, 0, k);
    WhiteIsSpace(s, j, |s|);
    RemovePadding(s, k, j);
  }

  /** A white-space stretch of `s` is all spaces when the space is the only
      white space in `s`. */
  lemma WhiteIsSpace(s: string, lo: nat, hi: nat)
    requires SpaceIsOnlyWhiteSpace(s)
    requires lo <= hi <= |s| && forall i :: lo <= i < hi ==> IsWhiteSpace(s[i])
    ensures forall i :: lo <= i < hi ==> s[i] == ' '
  {
  }

  /** Spaces around a stretch of `s` vanish with the stretch's own spaces. */
  lemma RemovePadding(s: string, k: nat, j: nat)
    requires k <= j <= |s|
    requires forall i :: 0 <= i < k ==> s[i] == ' '
    requires forall i :: j <= i < |s| ==> s[i] == ' '
    ensures Remove(s, ' ') == Remove(s[k..j], ' ')
  {
    RemoveTrailingSpaces(s, j);
    RemoveLeadingSpaces(s[..j], k);
    assert s[..j][k..] == s[k..j];
  }

  lemma RemoveLeadingSpaces(s: string, k: nat)
    requires k <= |s| && forall i :: 0 <= i < k ==> s[i] == ' '
    ensures Remove(s, ' ') == Remove(s[k..], ' ')
  {
    assert s == s[..k] + s[k..];
    RemoveAppend(s[..k], s[k..], ' ');
    OnlySpaces(s[..k]);
  }

  lemma RemoveTrailingSpaces(s: string, j: nat)
    requires j <= |s| && forall i :: j <= i < |s| ==> s[i] == ' '
    ensures Remove(s, ' ') == Remove(s[..j], ' ')
  {
    assert s == s[..j] + s[j..];
    RemoveAppend(s[..j], s[j..], ' ');
    OnlySpaces(s[j..]);
    assert Remove(s[..j], ' ') + [] == Remove(s[..j], ' ');
  }

  lemma {:induction false} OnlySpaces(w: string)
    requires forall i :: 0 <= i < |w| ==> w[i] == ' '
    ensures Remove(w, ' ') == []
  {
    if w != [] {
      OnlySpaces(w[1..]);
    }
  }

  // ---------------------------------------------------------------- the source's own guard

  /** The source builds the INVALID_COUNTRY_CODE message from `n[..2]`, which
      throws when the normalised input is shorter than two characters. */
  function ValidateAsWritten(input: Option<string>): (r: Result<ValidationResult, Exception>)
    ensures r.Failure? <==> !IsNullOrWhiteSpace(input) && |Normalize(input.value)| < 2
    ensures r.Failure? ==> r.error == ArgumentOutOfRangeException
    ensures r.Success? ==> r.value == Validate(input)
  {
    if IsNullOrWhiteSpace(input) then Success(IbanFail(EmptyInput))
    else
      var n := Normalize(input.value);
      if !StartsWith(n, UaeCountryCode) then
        if |n| < 2 then Failure(ArgumentOutOfRangeException) else Success(IbanFail(InvalidCountryCode))
      else Success(ValidateAe(n))
  }

  /** The inputs on which the source throws: not blank, with a normal form
      shorter than the two characters the message quotes. */
  predicate Faults(input: Option<string>) {
    !IsNullOrWhiteSpace(input) && |Normalize(input.value)| < 2
  }

  /** `Check` / `IsValid` as written: it throws where `ValidateAsWritten`
      does, and otherwise answers as `Check`. */
  function CheckAsWritten(input: Option<string>): (r: Result<bool, Exception>)
    ensures r.Failure? <==> Faults(input)
    ensures r.Success? ==> r.value == Check(input)
  {
    match ValidateAsWritten(input)
    case Success(v) => Success(v.isValid)
    case Failure(e) => Failure(e)
  }

  /** The one-character input "A" (or "1") makes the source throw, where the
      evident intent is INVALID_COUNTRY_CODE. */
  lemma ShortInputFaults()
    ensures ValidateAsWritten(Some("A")) == Failure(ArgumentOutOfRangeException)
    ensures Validate(Some("A")).errorCode == Some(InvalidCountryCode)
  {
    assert Remove("A", ' ') == "A";
    assert Normalize("A") == "A";
    assert !AllWhiteSpace("A");
  }

  // ---------------------------------------------------------------- examples

  /** The library's own examples: `AE070331234567890123456` is valid and
      masks to `AE07033***********23456`; the same BBAN with check digits 99
      fails the checksum; a short `AE` IBAN fails on length and a `GB` one
      on the country code. */
  lemma Examples()
    ensures Check(Some("AE070331234567890123456"))
    ensures Mask(Some("AE070331234567890123456")) == "AE07033***********23456"
    ensures Validate(Some("AE990331234567890123456")).errorCode == Some(InvalidChecksum)
    ensures Validate(Some("AE0703312345")).errorCode == Some(InvalidLength)
    ensures Validate(Some("GB07033123456789012345")).errorCode == Some(InvalidCountryCode)
  {
    ExampleAccepted();
    ExampleMasked();
    ExampleChecksumFails();
    ExampleShort();
    ExampleOtherCountry();
  }

  lemma ExampleAccepted()
    ensures Check(Some("AE070331234567890123456"))
  {
    SampleAccepted("AE070331234567890123456");
  }

  lemma ExampleMasked()
    ensures Mask(Some("AE070331234567890123456")) == "AE07033***********23456"
  {
    SampleAccepted("AE070331234567890123456");
    SampleMasked("AE070331234567890123456");
  }

  lemma ExampleChecksumFails()
    ensures Validate(Some("AE990331234567890123456")).errorCode == Some(InvalidChecksum)
  {
    SampleWrong("AE990331234567890123456");
  }

  /** `AE07` followed by the example BBAN is a valid IBAN. */
  lemma SampleAccepted(iban: string)
    requires |iban| == 23
    requires iban[0] == 'A' && iban[1] == 'E' && iban[2] == '0' && iban[3] == '7'
    requires iban[4] == '0' && iban[5] == '3' && iban[6] == '3' && iban[7] == '1' && iban[8] == '2'
    requires iban[9] == '3' && iban[10] == '4' && iban[11] == '5' && iban[12] == '6' && iban[13] == '7'
    requires iban[14] == '8' && iban[15] == '9' && iban[16] == '0' && iban[17] == '1' && iban[18] == '2'
    requires iban[19] == '3' && iban[20] == '4' && iban[21] == '5' && iban[22] == '6'
    ensures Check(Some(iban)) && iban[..2] == UaeCountryCode && AllDigits(iban[2..])
  {
    var bban := iban[4..];
    assert iban == UaeCountryCode + "07" + bban;
    SpellingParts(bban, "07");
    ExampleBban(bban);
    ExampleCheckDigits();
    ExampleValid(bban);
  }

  /** The valid example masks to its first seven and last five characters
      around eleven `*`. */
  lemma SampleMasked(iban: string)
    requires Check(Some(iban)) && |iban| == 23 && iban[..2] == UaeCountryCode && AllDigits(iban[2..])
    requires iban[2] == '0' && iban[3] == '7' && iban[4] == '0' && iban[5] == '3' && iban[6] == '3'
    requires iban[18] == '2' && iban[19] == '3' && iban[20] == '4' && iban[21] == '5' && iban[22] == '6'
    ensures Mask(Some(iban)) == "AE07033***********23456"
  {
    ValidMasked(iban);
    StarsShape(iban, Mask(Some(iban)));
  }

  lemma StarsShape(iban: string, m: string)
    requires |iban| == 23 && iban[..2] == UaeCountryCode
    requires iban[2] == '0' && iban[3] == '7' && iban[4] == '0' && iban[5] == '3' && iban[6] == '3'
    requires iban[18] == '2' && iban[19] == '3' && iban[20] == '4' && iban[21] == '5' && iban[22] == '6'
    requires m == iban[..7] + Repeat('*', 11) + iban[18..]
    ensures m == "AE07033***********23456"
  {
    assert iban[0] == 'A' && iban[1] == 'E';
    assert |m| == 23;
    forall i | 0 <= i < 23
      ensures m[i] == "AE07033***********23456"[i]
    {
      if 7 <= i < 18 {
        assert m[i] == Repeat('*', 11)[i - 7];
      }
    }
  }

  /** `AE99` followed by the example BBAN fails the checksum. */
  lemma SampleWrong(iban: string)
    requires |iban| == 23
    requires iban[0] == 'A' && iban[1] == 'E' && iban[2] == '9' && iban[3] == '9'
    requires iban[4] == '0' && iban[5] == '3' && iban[6] == '3' && iban[7] == '1' && iban[8] == '2'
    requires iban[9] == '3' && iban[10] == '4' && iban[11] == '5' && iban[12] == '6' && iban[13] == '7'
    requires iban[14] == '8' && iban[15] == '9' && iban[16] == '0' && iban[17] == '1' && iban[18] == '2'
    requires iban[19] == '3' && iban[20] == '4' && iban[21] == '5' && iban[22] == '6'
    ensures Validate(Some(iban)).errorCode == Some(InvalidChecksum)
  {
    var bban := iban[4..];
    assert iban == UaeCountryCode + "99" + bban;
    ExampleBban(bban);
    ExampleCheckDigits();
    SpellingParts(bban, "99");
    WrongCheckDigits(iban, bban);
    ChecksumFailure(iban);
  }

  lemma ExampleCheckDigits()
    ensures AllDigits("07") && DecimalValue("07") == 7
    ensures AllDigits("99") && DecimalValue("99") == 99
  {
    assert "07"[..1] == "0" && "99"[..1] == "9";
  }

  lemma ExampleShort()
    ensures Validate(Some("AE0703312345")).errorCode == Some(InvalidLength)
  {
    var n := "AE0703312345";
    assert n[..2] == UaeCountryCode;
    assert AllDigits(n[2..]) by {
      assert n[2..] == "0703312345";
    }
    ShortAe(n);
  }

  lemma ExampleOtherCountry()
    ensures Validate(Some("GB07033123456789012345")).errorCode == Some(InvalidCountryCode)
  {
    var s := "GB07033123456789012345";
    assert forall i :: 0 <= i < |s| ==> IsDigit(s[i]) || IsUpperLetter(s[i]);
    OtherCountry(s);
  }

  /** The example BBAN `0331234567890123456`: with `AE00` appended, its
      numeral leaves 91 modulo 97. */
  lemma ExampleBban(bban: string)
    requires |bban| == 19
    requires bban[0] == '0' && bban[1] == '3' && bban[2] == '3' && bban[3] == '1' && bban[4] == '2'
    requires bban[5] == '3' && bban[6] == '4' && bban[7] == '5' && bban[8] == '6' && bban[9] == '7'
    requires bban[10] == '8' && bban[11] == '9' && bban[12] == '0' && bban[13] == '1' && bban[14] == '2'
    requires bban[15] == '3' && bban[16] == '4' && bban[17] == '5' && bban[18] == '6'
    ensures AllDigits(bban)
    ensures AllDigits(bban + "1014" + "00") && DecimalValue(bban + "1014" + "00") % 97 == 91
  {
    var s := bban + "1014" + "00";
    assert s[19] == '1' && s[20] == '0' && s[21] == '1' && s[22] == '4' && s[23] == '0' && s[24] == '0';
    assert forall i :: 0 <= i < 19 ==> s[i] == bban[i];
    ExampleNumeral(s);
  }

  /** A valid IBAN written in normal form masks around its own text. */
  lemma ValidMasked(iban: string)
    requires Check(Some(iban)) && |iban| >= 2 && iban[..2] == UaeCountryCode && AllDigits(iban[2..])
    ensures Mask(Some(iban)) == iban[..7] + Repeat('*', 11) + iban[18..]
  {
    SpellingIsNormal(iban);
    MaskOfValid(iban);
  }

  /** The numeral `0331234567890123456101400` leaves 91 modulo 97. */
  lemma ExampleNumeral(s: string)
    requires |s| == 25 && AllDigits(s)
    requires s[0] == '0' && s[1] == '3' && s[2] == '3' && s[3] == '1' && s[4] == '2'
    requires s[5] == '3' && s[6] == '4' && s[7] == '5' && s[8] == '6' && s[9] == '7'
    requires s[10] == '8' && s[11] == '9' && s[12] == '0' && s[13] == '1' && s[14] == '2'
    requires s[15] == '3' && s[16] == '4' && s[17] == '5' && s[18] == '6' && s[19] == '1'
    requires s[20] == '0' && s[21] == '1' && s[22] == '4' && s[23] == '0' && s[24] == '0'
    ensures DecimalValue(s) % 97 == 91
  {
    ExampleRemainder(s);
    Mod97PrefixValue(s, 25);
    assert s[..25] == s;
  }

  /** The digit-by-digit remainders of `0331234567890123456101400`. */
  lemma ExampleRemainder(s: string)
    requires |s| == 25
    requires s[0] == '0' && s[1] == '3' && s[2] == '3' && s[3] == '1' && s[4] == '2'
    requires s[5] == '3' && s[6] == '4' && s[7] == '5' && s[8] == '6' && s[9] == '7'
    requires s[10] == '8' && s[11] == '9' && s[12] == '0' && s[13] == '1' && s[14] == '2'
    requires s[15] == '3' && s[16] == '4' && s[17] == '5' && s[18] == '6' && s[19] == '1'
    requires s[20] == '0' && s[21] == '1' && s[22] == '4' && s[23] == '0' && s[24] == '0'
    ensures Mod97Prefix(s, 25) == 91
  {
    assert Mod97Prefix(s, 1) == 0;
    assert Mod97Prefix(s, 2) == 3;
    assert Mod97Prefix(s, 3) == 33;
    assert Mod97Prefix(s, 4) == 40;
    assert Mod97Prefix(s, 5) == 14;
    assert Mod97Prefix(s, 6) == 46;
    assert Mod97Prefix(s, 7) == 76;
    assert Mod97Prefix(s, 8) == 86;
    assert Mod97Prefix(s, 9) == 90;
    assert Mod97Prefix(s, 10) == 34;
    assert Mod97Prefix(s, 11) == 57;
    assert Mod97Prefix(s, 12) == 94;
    assert Mod97Prefix(s, 13) == 67;
    assert Mod97Prefix(s, 14) == 89;
    assert Mod97Prefix(s, 15) == 19;
    assert Mod97Prefix(s, 16) == 96;
    assert Mod97Prefix(s, 17) == 91;
    assert Mod97Prefix(s, 18) == 42;
    assert Mod97Prefix(s, 19) == 38;
    assert Mod97Prefix(s, 20) == 90;
    assert Mod97Prefix(s, 21) == 27;
    assert Mod97Prefix(s, 22) == 77;
    assert Mod97Prefix(s, 23) == 95;
    assert Mod97Prefix(s, 24) == 77;
    assert Mod97Prefix(s, 25) == 91;
  }

  /** The remainder modulo 97 of the numeral `s[..k]`, computed digit by
      digit from the left, as ISO/IEC 7064 computes it piece-wise. */
  function Mod97Prefix(s: string, k: nat): (r: int)
    requires k <= |s|
    ensures 0 <= r < 97
  {
    if k == 0 then 0 else (10 * Mod97Prefix(s, k - 1) + DigitValue(s[k - 1])) % 97
  }

  /** The digit-by-digit remainder is the remainder of the whole numeral. */
  lemma {:induction false} Mod97PrefixValue(s: string, k: nat)
    requires k <= |s| && AllDigits(s)
    ensures AllDigits(s[..k]) && DecimalValue(s[..k]) % 97 == Mod97Prefix(s, k)
  {
    if k == 0 {
      assert s[..0] == [];
    } else {
      Mod97PrefixValue(s, k - 1);
      StepAt(s, k - 1, Mod97Prefix(s, k - 1));
    }
  }

  /** The remainder of the numeral `s[..i + 1]` from that of `s[..i]`. */
  lemma StepAt(s: string, i: nat, m: int)
    requires i < |s| && AllDigits(s) && DecimalValue(s[..i]) % 97 == m
    ensures AllDigits(s[..i + 1]) && DecimalValue(s[..i + 1]) % 97 == (10 * m + DigitValue(s[i])) % 97
  {
    assert AllDigits(s[..i]);
    assert s[..i + 1] == s[..i] + [s[i]];
    DigitStep(s[..i], s[i], m);
  }

  /** Appending a digit to a numeral multiplies its remainder by ten and adds
      the digit, modulo 97. */
  lemma DigitStep(p: string, c: char, m: int)
    requires AllDigits(p) && IsDigit(c) && DecimalValue(p) % 97 == m
    ensures AllDigits(p + [c])
    ensures DecimalValue(p + [c]) % 97 == (10 * m + DigitValue(c)) % 97
  {
    assert (p + [c])[..|p|] == p;
    ShiftRemainder(DecimalValue(p), DigitValue(c), m);
  }

  /** `(10x + d) mod 97` depends on `x` only through `x mod 97`. */
  lemma ShiftRemainder(x: int, d: int, m: int)
    requires x % 97 == m
    ensures (10 * x + d) % 97 == (10 * m + d) % 97
  {
    var q := x / 97;
    assert x == 97 * q + m;
    assert 10 * x + d == 97 * (10 * q) + (10 * m + d);
  }

  /** Check digits 07 are the ISO 13616 ones for the example BBAN. */
  lemma ExampleValid(bban: string)
    requires |bban| == 19 && AllDigits(bban) && AllDigits("07") && DecimalValue("07") == 7
    requires AllDigits(bban + "1014" + "00") && DecimalValue(bban + "1014" + "00") % 97 == 91
    ensures Check(Some(UaeCountryCode + "07" + bban))
  {
    assert CheckDigitsFor(bban) == 7;
    CheckDigitsValidate(bban, "07");
  }

  /** Check digits 99 do not fit the example BBAN. */
  lemma WrongCheckDigits(iban: string, bban: string)
    requires |iban| == UaeIbanLength && iban[..2] == UaeCountryCode && AllDigits(iban[2..])
    requires iban[2..4] == "99" && iban[4..] == bban
    requires AllDigits("99") && DecimalValue("99") == 99
    requires AllDigits(bban + "1014" + "00") && DecimalValue(bban + "1014" + "00") % 97 == 91
    ensures !WellFormed(iban)
  {
    SpellingNumeral(iban, bban, "99");
    Mod97Value(bban, "99");
    RemainderShift(DecimalValue(bban + "1014" + "00"));
  }

  lemma RemainderShift(x: int)
    requires x % 97 == 91
    ensures (x + 99) % 97 == 93
  {
    assert x + 99 == 97 * (x / 97 + 1) + 93;
  }

  /** An `AE` IBAN of 21 digits that is not well formed fails the checksum. */
  lemma ChecksumFailure(iban: string)
    requires |iban| == UaeIbanLength && iban[..2] == UaeCountryCode && AllDigits(iban[2..])
    requires !WellFormed(iban)
    ensures Validate(Some(iban)).errorCode == Some(InvalidChecksum)
  {
    SpellingIsNormal(iban);
  }

  /** `AE` and a number of digits other than 21 fails on length. */
  lemma ShortAe(n: string)
    requires |n| >= 2 && |n| != UaeIbanLength && n[..2] == UaeCountryCode && AllDigits(n[2..])
    ensures Validate(Some(n)).errorCode == Some(InvalidLength)
  {
    SpellingIsNormal(n);
  }

  /** Upper-case letters and digits that do not start with `A` fail on the
      country code. */
  lemma OtherCountry(s: string)
    requires s != [] && s[0] != 'A'
    requires forall i :: 0 <= i < |s| ==> IsDigit(s[i]) || IsUpperLetter(s[i])
    ensures Validate(Some(s)).errorCode == Some(InvalidCountryCode)
  {
    NoSpacesNoLowerCase(s);
    assert !IsWhiteSpace(s[0]);
  }

  // ---------------------------------------------------------------- ParseMany

  /** `ParseMany(inputs)`: one entry per input, in order, each the input
      verbatim with its `Validate` result. */
  function ParseMany(inputs: seq<Option<string>>): (r: seq<BatchValidationResult>)
    ensures |r| == |inputs|
    ensures forall i :: 0 <= i < |inputs| ==>
      r[i].input == inputs[i] && r[i].result == Validate(inputs[i])
    ensures forall i :: 0 <= i < |inputs| && inputs[i].None? ==> r[i].ErrorCode() == Some(EmptyInput)
  {
    RunBatch(inputs, Validate)
  }

  /** `ParseMany(inputs)` as written: `ToList` runs the `Select` over every
      input, so one input on which `Validate` throws loses the whole batch;
      otherwise the answer is `ParseMany`'s. */
  function ParseManyAsWritten(inputs: seq<Option<string>>): (r: Result<seq<BatchValidationResult>, Exception>)
    ensures r.Failure? <==> exists i :: 0 <= i < |inputs| && Faults(inputs[i])
    ensures r.Failure? ==> r.error == ArgumentOutOfRangeException
    ensures r.Success? ==> r.value == ParseMany(inputs)
  {
    if inputs == [] then Success([])
    else
      var rest := ParseManyAsWritten(inputs[1..]);
      assert (exists i :: 0 <= i < |inputs| && Faults(inputs[i])) <==>
        Faults(inputs[0]) || exists i :: 0 <= i < |inputs[1..]| && Faults(inputs[1..][i]) by {
        forall i | 0 < i < |inputs| ensures inputs[i] == inputs[1..][i - 1] {}
      }
      match ValidateAsWritten(inputs[0])
      case Failure(e) => Failure(e)
      case Success(v) =>
        if rest.Failure? then rest
        else Success([BatchValidationResult(inputs[0], v)] + rest.value)
  }

  /** The input "A" anywhere in a batch loses the batch as written; the
      corrected batch answers it with INVALID_COUNTRY_CODE. */
  lemma ShortInputLosesBatch(before: seq<Option<string>>, after: seq<Option<string>>)
    ensures ParseManyAsWritten(before + [Some("A")] + after) == Failure(ArgumentOutOfRangeException)
    ensures ParseMany(before + [Some("A")] + after)[|before|].ErrorCode() == Some(InvalidCountryCode)
  {
    var batch := before + [Some("A")] + after;
    assert batch[|before|] == Some("A");
    ShortInputFaults();
  }
}
