# EmiratesKit.Core in Dafny

A model of the validation engine of EmiratesKit.Core, a library that checks
five kinds of UAE identifier. Each validator follows the same four steps:

- it normalises the input (trim, strip separators, upper-case);
- it runs a fixed chain of guards, each failing with its own error code;
- it applies a checksum where the identifier has one;
- on success it builds a typed result from slices of the normal form.

The five validators are:

- **Emirates ID**: `784-YYYY-NNNNNNN-C`, written with or without dashes. The
  checksum is Luhn mod 10 (ISO/IEC 7812-1, Annex B). The library also
  computes the check digit for a 14-digit prefix.
- **IBAN**: `AE`, then two check digits, a three-digit bank code and a
  sixteen-digit account number. The checksum is the ISO 13616
  rearrange-and-mod-97 rule (ISO/IEC 7064 MOD 97-10).
- **Mobile number**: any of the usual UAE spellings, normalised to the
  ITU-T E.164 form `+971` plus nine digits. The carrier comes from the
  prefix table.
- **TRN** (Tax Registration Number): 15 digits starting `100`.
- **Passport number**: one letter and seven digits.

Besides the validators, the model covers:

- the `Mask` functions of the IBAN, mobile, TRN and passport validators,
  which hide the middle of an identifier for logging;
- the mobile `Sanitize` canonicaliser;
- the `ParseMany` batch functions;
- the read-only tables of mobile prefixes and bank codes;
- the Emirates ID pattern constants.

## Layout

| file | models |
|---|---|
| `Wrappers.dfy` | `Option` (a nullable value) and `Result` (a value or a thrown exception) |
| `Strings.dfy` | the .NET string operations the validators use: `IsNullOrWhiteSpace`, `Trim` with the exact .NET white-space set, `Replace(x, "")`, `ToUpperInvariant`, `char.IsDigit`, `StartsWith`, decimal parsing, truncating `%` |
| `Models.dfy` | `ValidationResult` and its three subclasses as one datatype with one variant per class, their factories, `BatchValidationResult`, and the `Select` that every `ParseMany` performs |
| `EmiratesIdConstants.dfy` | the constants and the two regular expressions, as predicates |
| `UaeMobilePrefixes.dfy`, `UaeBankCodes.dfy` | the two lookup tables, as `map`s |
| `EmiratesIdValidator.dfy` | `Validate`, and the `ValidateLuhn` and `ComputeCheckDigit` loops as methods |
| `UaeIbanValidator.dfy`, `UaeMobileValidator.dfy`, `UaeTrnValidator.dfy`, `UaePassportValidator.dfy` | `Validate`, `Check`, `Mask`, `ParseMany`, and the mobile `Sanitize` |

Conventions:

- The result classes have init-only properties, so each is a datatype.
- The tables are initialised once and never written, so each is a constant `map`.
- A reference that may be null is an `Option`.
- A member that throws returns a `Result` whose failure names the exception.
- The clock's year (`DateTime.Now.Year`) is the parameter `currentYear`.
- `BigInteger` is `nat`.

## Model

| member | source | states |
|---|---|---|
| Models.Success | EmiratesKit.Core/Models/ValidationResult.cs:15-16 | a plain result that is valid and carries no error code |
| Models.Fail | EmiratesKit.Core/Models/ValidationResult.cs:18-19 | a plain result that is invalid and carries exactly the given code; valid exactly when no code is set |
| Models.TokensDistinct | EmiratesKit.Core/Models/ValidationResult.cs:13 | two error codes have the same string form only when they are the same code, so comparing `ErrorCode` strings compares codes |
| Models.EmiratesIdSuccess | EmiratesKit.Core/Models/EmiratesIdInfo.cs:20-31 | valid, no error code, and each of the five Emirates ID fields holds the argument passed for it |
| Models.EmiratesIdFail | EmiratesKit.Core/Models/EmiratesIdInfo.cs:33-34 | invalid with the given code; the string fields are null and the year and check digit are 0 |
| Models.IbanSuccess | EmiratesKit.Core/Models/IbanInfo.cs:18-30 | valid; country code `AE` whatever the arguments; the other fields as passed, and the bank name may be null |
| Models.IbanFail | EmiratesKit.Core/Models/IbanInfo.cs:32-33 | invalid with the given code, and all six IBAN fields null |
| Models.MobileSuccess | EmiratesKit.Core/Models/MobileInfo.cs:15-23 | valid, no error code, and number, prefix and carrier as passed |
| Models.MobileFail | EmiratesKit.Core/Models/MobileInfo.cs:25-26 | invalid with the given code, and number, prefix and carrier null |
| Models.ApproximateAge | EmiratesKit.Core/Models/EmiratesIdInfo.cs:17-18 | the years from the birth year to the current year, or 0 when no birth year is set (a failed result); the bounds on a validated result are `EmiratesIdValidator.ApproximateAgeBounds` |
| Models.BatchValidationResult.IsValid | EmiratesKit.Core/Models/BatchValidationResult.cs:15-16 | the shortcut always equals the wrapped result's validity |
| Models.BatchValidationResult.ErrorCode | EmiratesKit.Core/Models/BatchValidationResult.cs:18-19 | the shortcut always equals the wrapped result's error code |
| Models.RunBatch | EmiratesKit.Core/Validators/UaeIbanValidator.cs:25-31 | the batch has one entry per input, in input order; entry i holds input i verbatim (null included) and the validator's result for it |
| Models.RunBatchAppend | EmiratesKit.Core/Validators/UaeIbanValidator.cs:25-31 | a batch is never cut short or reordered: the batch of a concatenation is the concatenation of the batches |
| EmiratesIdConstants.MatchesRaw | EmiratesKit.Core/Constants/EmiratesIdConstants.cs:20 | the body of the raw pattern, between its anchors: exactly the 15-digit strings that begin with the country code `784` |
| EmiratesIdConstants.MatchesFormatted | EmiratesKit.Core/Constants/EmiratesIdConstants.cs:19 | the body of the formatted pattern, between its anchors: exactly the 18-character strings of `784`, then dashes at positions 3, 8 and 16 and digits everywhere else |
| EmiratesIdConstants.PatternsOnTrimmedText | EmiratesKit.Core/Validators/EmiratesIdValidator.cs:35-62 | the .NET `$` also matches before a final newline, but on trimmed text, which is what the validator matches, each anchored pattern accepts exactly what its body accepts |
| EmiratesIdConstants.FormattedWithoutDashesIsRaw | EmiratesKit.Core/Constants/EmiratesIdConstants.cs:11-20 | "dashes optional": removing the dashes from a formatted match joins its four digit groups in order, and the result matches the raw pattern |
| EmiratesIdValidator.LuhnTerm | EmiratesKit.Core/Validators/EmiratesIdValidator.cs:103-104 | an undoubled digit counts as itself; a doubled digit counts as twice itself, less 9 when that exceeds 9; every term of a digit is a digit |
| EmiratesIdValidator.LuhnSum | EmiratesKit.Core/Validators/EmiratesIdValidator.cs:100-106 | the sum over a string of digits lies in 0..9 times its length, since each term is a digit; so `sum` stays far below `int.MaxValue` |
| EmiratesIdValidator.LuhnSumAppend | EmiratesKit.Core/Validators/EmiratesIdValidator.cs:101-105 | appending a digit to a string adds that digit undoubled and swaps the doubling of every earlier digit |
| EmiratesIdValidator.ValidateLuhn | EmiratesKit.Core/Validators/EmiratesIdValidator.cs:98-108 | the right-to-left loop answers exactly whether the Luhn sum (rightmost digit undoubled, doubling alternating leftwards) is a multiple of 10 |
| EmiratesIdValidator.ComputeCheckDigit | EmiratesKit.Core/Validators/EmiratesIdValidator.cs:111-128 | throws `ArgumentException` exactly when the argument is not 14 digits; otherwise returns a digit 0..9 that makes the 15 digits Luhn-valid, and no other digit does |
| EmiratesIdValidator.CheckDigitCompletes | EmiratesKit.Core/Validators/EmiratesIdValidator.cs:116-127 | `(10 - sum % 10) % 10` over a prefix's sum with its last digit doubled is the one digit that completes the prefix to a Luhn-valid string |
| EmiratesIdValidator.ComplementDigit | EmiratesKit.Core/Validators/EmiratesIdValidator.cs:127 | `(10 - s % 10) % 10` is a digit, and it is the only digit whose sum with `s` is a multiple of 10 |
| EmiratesIdValidator.BirthYearOf | EmiratesKit.Core/Validators/EmiratesIdValidator.cs:72-74 | the birth year read from digits 3..6 is a number of at most four digits, so it always parses |
| EmiratesIdValidator.Normalize | EmiratesKit.Core/Validators/EmiratesIdValidator.cs:38-67 | accepts exactly the trimmed texts that match the raw or the formatted pattern and returns their dash-free 15 digits; otherwise fails with the format, length, characters or country-code code |
| EmiratesIdValidator.ValidateDigits | EmiratesKit.Core/Validators/EmiratesIdValidator.cs:71-94 | valid exactly when the birth year lies in 1900..currentYear and the Luhn check passes; a year out of range is reported before a bad checksum |
| EmiratesIdValidator.Validate | EmiratesKit.Core/Validators/EmiratesIdValidator.cs:30-95 | never faults; `EMPTY_INPUT` exactly for null or blank input; valid exactly for acceptable IDs; on success the fields are the dash-free digits, `784`, the birth year in range, digits 7..13 and the last digit |
| EmiratesIdValidator.ValidateTrimmed | EmiratesKit.Core/Validators/EmiratesIdValidator.cs:35-94 | the guard chain after trimming: valid exactly when the text matches a pattern, the year is in range and the checksum holds, with the success fields as for `Validate` |
| EmiratesIdValidator.Check | EmiratesKit.Core/Validators/EmiratesIdValidator.cs:24-28 | `Check` and `IsValid` hold exactly for acceptable IDs, and never for blank input |
| EmiratesIdValidator.ErrorCodeOrder | EmiratesKit.Core/Validators/EmiratesIdValidator.cs:38-86 | each failure code is characterised exactly: format for a dashed non-match; then length, characters and country code for dash-free text; then birth-year range; then checksum |
| EmiratesIdValidator.ValidatePadded | EmiratesKit.Core/Validators/EmiratesIdValidator.cs:32-35 | white space around an ID does not change its result |
| EmiratesIdValidator.DashedAndRawAgree | EmiratesKit.Core/Validators/EmiratesIdValidator.cs:35-67 | a formatted ID and its dash-free digits, each with any surrounding white space, give identical results |
| EmiratesIdValidator.FormattedResult | EmiratesKit.Core/Validators/EmiratesIdValidator.cs:38-48 | a formatted ID is judged on its dash-free digits |
| EmiratesIdValidator.CheckDigitYieldsValidId | EmiratesKit.Core/Validators/EmiratesIdValidator.cs:111-127 | the check digit is a left inverse of the checksum: a `784` prefix with a year in range, completed by the digit `ComputeCheckDigit` promises, is a valid ID whose reported check digit is that digit |
| EmiratesIdValidator.ExampleId | EmiratesKit.Core.Tests/EmiratesIdValidatorTests.cs:17-30 | `784-1990-1234567-6` is valid in every year from 1990, with digits `784199012345676`, birth year 1990, sequence `1234567` and check digit 6 |
| EmiratesIdValidator.ApproximateAgeBounds | EmiratesKit.Core/Models/EmiratesIdInfo.cs:17-18 | a valid result's approximate age, taken in the year of validation, lies in 0..currentYear-1900; a failed result's is 0 |
| UaeMobilePrefixes.GetCarrier | EmiratesKit.Core/Constants/UaeMobilePrefixes.cs:21-24 | a carrier is found exactly for a known prefix; it is that prefix's table entry, and always one of the two carrier names |
| UaeMobilePrefixes.PrefixTableShape | EmiratesKit.Core/Constants/UaeMobilePrefixes.cs:11-19 | the table holds exactly the eight prefixes 050, 052, 054, 055, 056, 057, 058 and 059, each three characters starting `05` |
| UaeMobilePrefixes.IsValidPrefix | EmiratesKit.Core/Constants/UaeMobilePrefixes.cs:24 | holds exactly for the eight listed prefixes; every prefix it accepts is `05` and a digit |
| UaeMobilePrefixes.KnownCarriers | EmiratesKit.Core.Tests/OtherValidatorTests.cs:69-75 | 050 is e& (Etisalat), 055 is du, and 051 and 053 have no carrier |
| UaeBankCodes.Resolve | EmiratesKit.Core/Constants/UaeBankCodes.cs:35-38 | a name is found exactly for a known code, and it is that code's table entry; an unknown code gives null, never a fault |
| UaeBankCodes.BankTableSize | EmiratesKit.Core/Constants/UaeBankCodes.cs:11-33 | the table's keys are exactly the twenty listed codes, and no entry overwrites another |
| UaeBankCodes.KnownIsListed | EmiratesKit.Core/Constants/UaeBankCodes.cs:38 | `IsKnown` holds exactly for the twenty listed codes; every code it accepts is three digits |
| UaeBankCodes.KnownBank | EmiratesKit.Core/Constants/UaeBankCodes.cs:13-36 | `033` resolves to Emirates NBD and `999` to null |
| UaeIbanValidator.CharNumeral | EmiratesKit.Core/Validators/UaeIbanValidator.cs:92-93 | a digit stays itself; an upper-case letter becomes the two digits of its value `c - 'A' + 10` |
| UaeIbanValidator.Numeral | EmiratesKit.Core/Validators/UaeIbanValidator.cs:92-93 | the spelled-out numeral is all digits and never shorter than its text |
| UaeIbanValidator.NumeralAppend | EmiratesKit.Core/Validators/UaeIbanValidator.cs:92-93 | spelling out a concatenation spells out each part in turn |
| UaeIbanValidator.Mod97Numeral | EmiratesKit.Core/Validators/UaeIbanValidator.cs:91-93 | for `AE` and 21 digits the numeral is the BBAN, then `1014` (A is 10, E is 14), then the check digits: 25 digits |
| UaeIbanValidator.Mod97OnExplicitNumeral | EmiratesKit.Core/Validators/UaeIbanValidator.cs:89-95 | on `AE` and 21 digits, the rearrange-and-spell mod-97 check holds exactly when the explicit numeral is 1 modulo 97 |
| UaeIbanValidator.Mod97PrefixValue | EmiratesKit.Core/Validators/UaeIbanValidator.cs:94 | reducing a numeral modulo 97 digit by digit from the left, as ISO/IEC 7064 does, gives the remainder of the whole number |
| UaeIbanValidator.ValidateAe | EmiratesKit.Core/Validators/UaeIbanValidator.cs:71-85 | after the country code: valid exactly for well-formed IBANs; on success the check digits, bank code and account number have lengths 2, 3 and 16, rebuild the IBAN after `AE`, and the bank name is the table's, possibly null |
| UaeIbanValidator.Validate | EmiratesKit.Core/Validators/UaeIbanValidator.cs:60-86 | `EMPTY_INPUT` exactly for blank input; valid exactly when the input without spaces, upper-cased, is well formed; on success the raw IBAN is that normal form and its parts rebuild it |
| UaeIbanValidator.Check | EmiratesKit.Core/Validators/UaeIbanValidator.cs:58 | holds exactly when the input is not blank and its normal form is well formed |
| UaeIbanValidator.ErrorCodeOrder | EmiratesKit.Core/Validators/UaeIbanValidator.cs:67-79 | each failure code is characterised exactly: country code, then length 23, then digits after `AE`, then checksum |
| UaeIbanValidator.SameNormalFormSameResult | EmiratesKit.Core/Validators/UaeIbanValidator.cs:65 | spaces and letter case do not matter: inputs with the same normal form get the same result |
| UaeIbanValidator.BlankIffNormalFormBlank | EmiratesKit.Core/Validators/UaeIbanValidator.cs:62-65 | an input is blank exactly when its normal form is |
| UaeIbanValidator.CheckDigitsFor | EmiratesKit.Core/Validators/UaeIbanValidator.cs:89-95 | the ISO 13616 check digits of a 19-digit BBAN lie in 02..98 |
| UaeIbanValidator.CheckDigitsValidate | EmiratesKit.Core/Validators/UaeIbanValidator.cs:78-85 | with its ISO 13616 check digits, any 19-digit BBAN is a valid IBAN that reports those check digits, its bank code and its account number |
| UaeIbanValidator.CheckDigitsUnique | EmiratesKit.Core/Validators/UaeIbanValidator.cs:89-95 | check digits in 02..98 that validate a BBAN are its ISO 13616 check digits |
| UaeIbanValidator.ChecksumOfSpelling | EmiratesKit.Core/Validators/UaeIbanValidator.cs:89-95 | `AE`, check digits and BBAN pass the checksum for the ISO 13616 digits, and among 02..98 for no others |
| UaeIbanValidator.WellFormedFields | EmiratesKit.Core/Validators/UaeIbanValidator.cs:81-85 | a well-formed IBAN's result takes its parts from positions 2..3, 4..6 and 7..22 |
| UaeIbanValidator.Mask | EmiratesKit.Core/Validators/UaeIbanValidator.cs:39-57 | blank gives empty text; the output keeps the normalised text's length; 23 characters starting `AE` keep the first 7 and last 5 with `*` between; anything else is returned normalised; no digit or checksum test |
| UaeIbanValidator.MaskOfValid | EmiratesKit.Core/Validators/UaeIbanValidator.cs:39-57 | a valid IBAN masks to its country code, check digits, bank code, eleven `*` and its last five digits |
| UaeIbanValidator.ValidateAsWritten | EmiratesKit.Core/Validators/UaeIbanValidator.cs:60-86 | the source's guard chain, which throws `ArgumentOutOfRangeException` exactly when the normal form of a non-blank input is shorter than two characters, and otherwise agrees with `Validate` |
| UaeIbanValidator.ShortInputFaults | EmiratesKit.Core/Validators/UaeIbanValidator.cs:67-69 | the input `A` makes the source's chain throw, where `Validate` reports `INVALID_COUNTRY_CODE` |
| UaeIbanValidator.CheckAsWritten | EmiratesKit.Core/Validators/UaeIbanValidator.cs:58 | `IsValid` as written throws exactly on the inputs where the guard chain does, and otherwise answers as `Check` |
| UaeIbanValidator.ParseManyAsWritten | EmiratesKit.Core/Validators/UaeIbanValidator.cs:22-32 | the batch as written throws `ArgumentOutOfRangeException`, losing every result, exactly when some input makes the guard chain throw; otherwise it equals `ParseMany` |
| UaeIbanValidator.ShortInputLosesBatch | EmiratesKit.Core/Validators/UaeIbanValidator.cs:22-32 | one input `A` anywhere in a batch makes the whole batch throw as written, where `ParseMany` reports `INVALID_COUNTRY_CODE` for that entry |
| UaeIbanValidator.Examples | EmiratesKit.Core.Tests/OtherValidatorTests.cs:18-28 | `AE990331234567890123456` fails the checksum; `AE0703312345` fails on length; `GB07033123456789012345` fails on the country code; and `AE070331234567890123456` is valid (as `ExampleAccepted` states) and masks as `ExampleMasked` states |
| UaeIbanValidator.ExampleAccepted | EmiratesKit.Core.Tests/BatchValidationTests.cs:58-67 | `AE070331234567890123456`, the valid entry of the batch test, is valid |
| UaeIbanValidator.ExampleMasked | EmiratesKit.Core.Tests/MaskingTests.cs:41-49 | `AE070331234567890123456` masks to `AE07033***********23456` |
| UaeIbanValidator.ParseMany | EmiratesKit.Core/Validators/UaeIbanValidator.cs:22-32 | one entry per input, in order, each the input verbatim with its `Validate` result; a null input gives `EMPTY_INPUT` |
| UaeMobileValidator.LocalPart | EmiratesKit.Core/Validators/UaeMobileValidator.cs:89-95 | the local part is a suffix of the normalised number: only a leading prefix is ever stripped |
| UaeMobileValidator.PlusLocal | EmiratesKit.Core/Validators/UaeMobileValidator.cs:91 | `+971` before nine characters is stripped, leaving those nine |
| UaeMobileValidator.ZerosLocal | EmiratesKit.Core/Validators/UaeMobileValidator.cs:92 | `00971` before nine characters is stripped, leaving those nine |
| UaeMobileValidator.CountryLocal | EmiratesKit.Core/Validators/UaeMobileValidator.cs:93 | `971` before nine characters (length 12) is stripped, leaving those nine |
| UaeMobileValidator.ZeroLocal | EmiratesKit.Core/Validators/UaeMobileValidator.cs:94 | `0` before nine characters not starting `0` (length 10) is stripped, leaving those nine |
| UaeMobileValidator.BareLocal | EmiratesKit.Core/Validators/UaeMobileValidator.cs:95 | nine characters starting with a digit other than `0` are kept whole |
| UaeMobileValidator.PrefixOf | EmiratesKit.Core/Validators/UaeMobileValidator.cs:106 | the carrier prefix is `0` followed by the first two digits of the local part |
| UaeMobileValidator.Validate | EmiratesKit.Core/Validators/UaeMobileValidator.cs:82-113 | `EMPTY_INPUT` exactly for blank input; valid exactly when the local part is nine digits starting `5` with a known prefix; on success the number is `+971` and the local part (13 characters), with its prefix and non-null carrier |
| UaeMobileValidator.ValidateLocal | EmiratesKit.Core/Validators/UaeMobileValidator.cs:97-112 | the guards on the local part: valid exactly for a valid local part, with the success fields as for `Validate` |
| UaeMobileValidator.Check | EmiratesKit.Core/Validators/UaeMobileValidator.cs:80 | holds exactly when the input is not blank and its local part is valid |
| UaeMobileValidator.ErrorCodeOrder | EmiratesKit.Core/Validators/UaeMobileValidator.cs:97-109 | each failure code is characterised exactly: length 9, then digits, then a leading `5`, then a known carrier prefix |
| UaeMobileValidator.SameLocalSameResult | EmiratesKit.Core/Validators/UaeMobileValidator.cs:87-95 | two non-blank inputs with the same local part get the same result |
| UaeMobileValidator.SpellingsAgree | EmiratesKit.Core/Validators/UaeMobileValidator.cs:89-95 | the `+971`, `00971`, `971` and `0` spellings of a subscriber number validate exactly like the bare nine digits |
| UaeMobileValidator.NormalizedIsE164 | EmiratesKit.Core/Validators/UaeMobileValidator.cs:111-112 | a valid number normalises to `+971` and `5` and digits; its prefix is `05` and a digit; its carrier is the table's entry for that prefix |
| UaeMobileValidator.Examples | EmiratesKit.Core.Tests/OtherValidatorTests.cs:48-75 | `0501234567` normalises to `+971501234567`; the `+971` and `00971` spellings are valid; 050 is e& (Etisalat) and 055 is du; `+971401234567` fails on the prefix |
| UaeMobileValidator.WrongLeadingDigit | EmiratesKit.Core/Validators/UaeMobileValidator.cs:103-104 | nine digits not starting `5`, after `+971`, fail with `INVALID_PREFIX` |
| UaeMobileValidator.LocalResult | EmiratesKit.Core/Validators/UaeMobileValidator.cs:97-112 | a valid bare local part yields exactly the success result with `+971` prefixed, its prefix and the table's carrier |
| UaeMobileValidator.Sanitize | EmiratesKit.Core/Validators/UaeMobileValidator.cs:56-79 | blank gives empty text; the four recognised shapes become `+971` and their last nine characters (13 in all); anything else comes back trimmed; no digit or carrier test |
| UaeMobileValidator.CanonicalAccepted | EmiratesKit.Core/Validators/UaeMobileValidator.cs:89-91 | `+971` followed by nine characters is valid exactly when those nine are a valid local part |
| UaeMobileValidator.SanitizedChecked | EmiratesKit.Core/Validators/UaeMobileValidator.cs:56-79 | for a recognised shape, the canonical output is valid exactly when its last nine characters are a valid local part |
| UaeMobileValidator.SanitizeKeepsValid | EmiratesKit.Core/Validators/UaeMobileValidator.cs:56-79 | sanitising a valid number gives a valid number with the same normalised E.164 form |
| UaeMobileValidator.TrimmedNormal | EmiratesKit.Core/Validators/UaeMobileValidator.cs:87-88 | trimming the input first does not change its normal form |
| UaeMobileValidator.Mask | EmiratesKit.Core/Validators/UaeMobileValidator.cs:34-48 | blank gives empty text; an invalid number comes back trimmed; a valid one keeps characters 0..5 and 10..12 of its normalised number with `****` between, 13 characters |
| UaeMobileValidator.MaskExample | EmiratesKit.Core.Tests/MaskingTests.cs:72-80 | `+971501234567` masks to `+97150****567` |
| UaeMobileValidator.MaskOfValidLocal | EmiratesKit.Core/Validators/UaeMobileValidator.cs:43-47 | `+971` and a valid local part masks to its first six and last three characters around `****` |
| UaeMobileValidator.MaskHidesMiddle | EmiratesKit.Core/Validators/UaeMobileValidator.cs:43-47 | the mask reveals nothing of digits 6..9: two valid numbers that agree elsewhere have the same mask |
| UaeMobileValidator.ParseMany | EmiratesKit.Core/Validators/UaeMobileValidator.cs:17-27 | one entry per input, in order, each the input verbatim with its `Validate` result; a null input gives `EMPTY_INPUT` |
| UaeTrnValidator.Validate | EmiratesKit.Core/Validators/UaeTrnValidator.cs:49-66 | a plain result; `EMPTY_INPUT` exactly for blank input; valid exactly when the input without spaces and dashes, trimmed, is 15 digits starting `100` |
| UaeTrnValidator.Check | EmiratesKit.Core/Validators/UaeTrnValidator.cs:47 | holds exactly when the input is not blank and its normal form is 15 digits starting `100` |
| UaeTrnValidator.ErrorCodeOrder | EmiratesKit.Core/Validators/UaeTrnValidator.cs:56-63 | each failure code is characterised exactly: length 15, then digits, then the `100` prefix |
| UaeTrnValidator.SeparatorsIgnored | EmiratesKit.Core/Validators/UaeTrnValidator.cs:54 | a space or dash inserted anywhere into a non-blank input leaves its result unchanged |
| UaeTrnValidator.Mask | EmiratesKit.Core/Validators/UaeTrnValidator.cs:36-46 | blank gives empty text; 15 trimmed digits keep the first and last three with nine `*` between; anything else comes back trimmed; the `100` prefix is not tested |
| UaeTrnValidator.MaskOfPlainValid | EmiratesKit.Core/Validators/UaeTrnValidator.cs:36-46 | a valid TRN written without separators masks to `100`, nine `*` and its last three digits |
| UaeTrnValidator.SeparatedTextUnmasked | EmiratesKit.Core/Validators/UaeTrnValidator.cs:40-43 | trimmed text holding a space or dash is returned unmasked, even when it is a valid TRN |
| UaeTrnValidator.PlainTrn | EmiratesKit.Core/Validators/UaeTrnValidator.cs:42-45 | fifteen digits starting `100` are valid and mask to their first three digits, nine `*` and their last three |
| UaeTrnValidator.Examples | EmiratesKit.Core.Tests/OtherValidatorTests.cs:33-43 | `100123456700003` and `100000000000001` are valid; `200123456700003` fails on the prefix and `10012345670` on length; `100123456700003` masks to `100*********003` |
| UaeTrnValidator.WrongPrefix | EmiratesKit.Core/Validators/UaeTrnValidator.cs:62-63 | fifteen digits not starting `100` fail with `INVALID_PREFIX` |
| UaeTrnValidator.WrongLength | EmiratesKit.Core/Validators/UaeTrnValidator.cs:56-57 | a non-empty run of digits of another length fails with `INVALID_LENGTH` |
| UaeTrnValidator.ParseMany | EmiratesKit.Core/Validators/UaeTrnValidator.cs:19-29 | one entry per input, in order, each the input verbatim with its `Validate` result; a null input gives `EMPTY_INPUT` |
| UaePassportValidator.Validate | EmiratesKit.Core/Validators/UaePassportValidator.cs:52-66 | a plain result; `EMPTY_INPUT` exactly for blank input; valid exactly when the input without spaces, upper-cased and trimmed, is a letter A-Z and seven digits |
| UaePassportValidator.ValidateNormalized | EmiratesKit.Core/Validators/UaePassportValidator.cs:59-65 | on the normal form: valid exactly when it matches `^[A-Z]\d{7}$` |
| UaePassportValidator.Check | EmiratesKit.Core/Validators/UaePassportValidator.cs:50 | holds exactly when the input is not blank and its normal form matches the pattern |
| UaePassportValidator.ErrorCodeOrder | EmiratesKit.Core/Validators/UaePassportValidator.cs:59-63 | each failure code is characterised exactly: length 8 first, then the pattern |
| UaePassportValidator.CaseInsensitive | EmiratesKit.Core/Validators/UaePassportValidator.cs:57 | an input and its upper-case form get the same result, so a lower-case letter is accepted |
| UaePassportValidator.SameInputsAgree | EmiratesKit.Core/Validators/UaePassportValidator.cs:57 | inputs that are both blank or both not, and share a normal form, get the same result |
| UaePassportValidator.Mask | EmiratesKit.Core/Validators/UaePassportValidator.cs:36-49 | blank gives empty text; the output keeps the trimmed, upper-cased text's length; a letter and seven digits keep the letter and last three digits with `****` between; anything else comes back trimmed and upper-cased |
| UaePassportValidator.UpperLetters | EmiratesKit.Core/Validators/UaePassportValidator.cs:43-45 | after upper-casing, the mask's letter test and the pattern's `[A-Z]` agree on every character |
| UaePassportValidator.MaskOfValid | EmiratesKit.Core/Validators/UaePassportValidator.cs:36-49 | a valid passport number without spaces masks to its letter, `****` and its last three digits |
| UaePassportValidator.PatternAccepted | EmiratesKit.Core/Validators/UaePassportValidator.cs:13 | every string matching the pattern is accepted as written |
| UaePassportValidator.PatternOnNormalForm | EmiratesKit.Core/Validators/UaePassportValidator.cs:13 | the .NET `$` also matches before a final newline, but on the trimmed normal form the anchored pattern accepts exactly what `[A-Z]` and seven digits accept |
| UaePassportValidator.PlainRejected | EmiratesKit.Core/Validators/UaePassportValidator.cs:59-63 | upper-case letters and digits that miss the pattern fail on length when not 8 long, otherwise on format |
| UaePassportValidator.Examples | EmiratesKit.Core.Tests/OtherValidatorTests.cs:80-93 | `A1234567`, `Z9999999` and `B0000000` are valid; `12345678` and `AB123456` fail on format; `A123456` and `A123456789` fail on length; `A1234567` masks to `A****567` |
| UaePassportValidator.ParseMany | EmiratesKit.Core/Validators/UaePassportValidator.cs:19-29 | one entry per input, in order, each the input verbatim with its `Validate` result; a null input gives `EMPTY_INPUT` |

## Left out

- Error messages. They are interpolated strings; results carry only `IsValid` and `ErrorCode`.
- The clock. `DateTime.Now.Year` becomes the parameter `currentYear`, in `Validate` and in `ApproximateAge`.
- Unicode. Digits, letters and upper-casing are ASCII only: `char.IsDigit`, regex `\d`, `ToUpperInvariant`, `int.TryParse` and `BigInteger.Parse` on other scripts are not modelled.
- `INVALID_BIRTH_YEAR` cannot occur under the ASCII model, since four ASCII digits always parse. `EmiratesIdValidator.Validate` states that it never occurs.
- UTF-16. A `string` is a sequence of Unicode scalar values, not UTF-16 code units, so lengths differ for characters outside the Basic Multilingual Plane.
- `StartsWith` with a string argument is culture-sensitive in .NET; it is modelled as an ordinal prefix test.
- The Emirates ID `Mask`, `Sanitize`, `MeetsMinimumAge` and `ParseMany` that the tests call are not part of this model. EmiratesKit.Core/Validators/EmiratesIdValidator.cs does not define them.
- The static singletons, `Parse` (a second name for `Validate`), dependency-injection registration, the `DataAnnotations` attributes, the FluentValidation extensions and the sample console program. None holds validation logic of its own.
- `FormattedLength = 19` is unused by the code and disagrees with the 18 characters the formatted pattern admits. It is not carried as a constant.
- `EmiratesIdValidator.ValidateLuhn` does not model 32-bit overflow of `sum`. By `EmiratesIdValidator.LuhnSum` the sum is at most 9 per digit, so it cannot overflow on 15 digits; overflow would take more than 200 million digits.
- `UaeIbanValidator.ValidateMod97` requires at least four characters, all letters or digits. The source calls it only after its guards establish more than that.
- `UaeIbanValidator.Check` is built on the corrected `Validate`, so it answers `false` for the input `A`, where the source's `IsValid` throws. The source's behaviour is `UaeIbanValidator.CheckAsWritten`.
- `UaeIbanValidator.ParseMany` is built on the corrected `Validate`, so one input `A` yields one failed entry, where the source's batch throws and returns nothing. The source's behaviour is `UaeIbanValidator.ParseManyAsWritten`.
- Regular expressions. Only the two Emirates ID patterns and the passport pattern are used, each on trimmed text. The .NET `$` also matches before a final newline; the model states the pattern bodies and proves the difference vanishes on trimmed text. Matching on untrimmed text is not modelled.
- `UaeIbanValidator.CheckDigitsUnique` covers check digits 02..98 only. Check digits 00 and 01 are congruent to 97 and 98 modulo 97, so they pass whenever 97 or 98 does; that is inherent to ISO/IEC 7064.
- `UaeMobileValidator.SpellingsAgree` requires a local part not starting `0`. Otherwise `0` followed by that part starts `00`, and the `00971` rule may take over.
- `UaeMobileValidator.Sanitize` does not recognise the bare `971…` spelling that `Validate` accepts. The model follows the code.
- `UaePassportValidator.Mask` tests `char.IsLetter`, which also accepts non-ASCII letters that the pattern's `[A-Z]` rejects. Under the ASCII model the two tests agree after upper-casing (`UaePassportValidator.UpperLetters`).
- `UaePassportValidator.MaskOfValid` requires an input without spaces. `Validate` removes inner spaces but `Mask` does not, so `A 1234567` is valid yet not masked.
- `UaeTrnValidator.MaskOfPlainValid` requires an input without separators, for the same reason (`UaeTrnValidator.SeparatedTextUnmasked`).
- Two doc comments disagree with their code, and the model follows the code. The IBAN mask doc shows ten `*` where the code writes eleven. The mobile mask doc shows `+9715****567` where the code gives `+97150****567`.

## Findings

| source | as written | input that shows it | evidently intended | confidence | as-written member | corrected member |
|---|---|---|---|---|---|---|
| EmiratesKit.Core/Validators/UaeIbanValidator.cs:67-69 | the `INVALID_COUNTRY_CODE` message slices `n[..2]`, which throws `ArgumentOutOfRangeException` when the normalised input is shorter than two characters | `"A"` | `INVALID_COUNTRY_CODE`, as for every other input not starting `AE` | not executed | UaeIbanValidator.ValidateAsWritten | UaeIbanValidator.Validate |
| EmiratesKit.Core/Validators/UaeIbanValidator.cs:58 | `IsValid` returns `Validate(input).IsValid`, so it inherits the throw | `"A"` | `false` | not executed | UaeIbanValidator.CheckAsWritten | UaeIbanValidator.Check |
| EmiratesKit.Core/Validators/UaeIbanValidator.cs:22-32 | `ParseMany` calls `Validate` on each input, so one short input throws out of the whole batch | `["AE070331234567890123456", "A"]` | one entry per input, the short one failing with `INVALID_COUNTRY_CODE` | not executed | UaeIbanValidator.ParseManyAsWritten | UaeIbanValidator.ParseMany |
