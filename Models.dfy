/** The result model shared by all five validators.

    The source has a base class `ValidationResult` and three subclasses
    (`EmiratesIdInfo`, `IbanInfo`, `MobileInfo`) whose properties are
    init-only; here the hierarchy is one datatype with a variant per class,
    every variant carrying the base fields `isValid` and `errorCode`.
    Nullable reference fields are `Option`s; `int` fields default to 0. */
module Models {
  import opened Wrappers

  /** The closed set of machine-readable failure codes. */
  datatype ErrorCode =
    | EmptyInput
    | InvalidLength
    | InvalidFormat
    | InvalidCharacters
    | InvalidCountryCode
    | InvalidChecksum
    | InvalidPrefix
    | InvalidMobilePrefix
    | InvalidBirthYear
    | InvalidBirthYearRange
  {
    /** The string the source stores in `ErrorCode`. */
    function Token(): string {
      match this
      case EmptyInput => "EMPTY_INPUT"
      case InvalidLength => "INVALID_LENGTH"
      case InvalidFormat => "INVALID_FORMAT"
      case InvalidCharacters => "INVALID_CHARACTERS"
      case InvalidCountryCode => "INVALID_COUNTRY_CODE"
      case InvalidChecksum => "INVALID_CHECKSUM"
      case InvalidPrefix => "INVALID_PREFIX"
      case InvalidMobilePrefix => "INVALID_MOBILE_PREFIX"
      case InvalidBirthYear => "INVALID_BIRTH_YEAR"
      case InvalidBirthYearRange => "INVALID_BIRTH_YEAR_RANGE"
    }
  }

  /** Distinct codes are distinct tokens, so callers may compare tokens. */
  lemma TokensDistinct(a: ErrorCode, b: ErrorCode)
    ensures a.Token() == b.Token() <==> a == b
  {
  }

  /** The exceptions a member of the library can throw, where the model
      returns them as a `Failure`. */
  datatype Exception = ArgumentException | ArgumentOutOfRangeException

  datatype ValidationResult =
    | Plain(isValid: bool, errorCode: Option<ErrorCode>)
    | EmiratesIdInfo(isValid: bool, errorCode: Option<ErrorCode>,
                     rawId: Option<string>, countryCode: Option<string>,
                     birthYear: int, sequenceNumber: Option<string>, checkDigit: int)
    | IbanInfo(isValid: bool, errorCode: Option<ErrorCode>,
               rawIban: Option<string>, countryCode: Option<string>,
               checkDigits: Option<string>, bankCode: Option<string>,
               bankName: Option<string>, accountNumber: Option<string>)
    | MobileInfo(isValid: bool, errorCode: Option<ErrorCode>,
                 normalizedNumber: Option<string>, prefix: Option<string>,
                 carrier: Option<string>)
  {
    /** What every factory below establishes: a result is valid exactly when
        it carries no error code. */
    predicate Consistent() {
      isValid <==> errorCode.None?
    }
  }

  // ---------------------------------------------------------------- ValidationResult

  function Success(): (r: ValidationResult)
    ensures r.Plain? && r.isValid && r.errorCode.None? && r.Consistent()
  {
    Plain(true, None)
  }

  function Fail(code: ErrorCode): (r: ValidationResult)
    ensures r.Plain? && !r.isValid && r.errorCode == Some(code) && r.Consistent()
  {
    Plain(false, Some(code))
  }

  // ---------------------------------------------------------------- EmiratesIdInfo

  function EmiratesIdSuccess(rawId: string, countryCode: string, birthYear: int,
                             sequenceNumber: string, checkDigit: int): (r: ValidationResult)
    ensures r.EmiratesIdInfo? && r.isValid && r.Consistent()
    ensures r.rawId == Some(rawId) && r.countryCode == Some(countryCode)
    ensures r.birthYear == birthYear && r.sequenceNumber == Some(sequenceNumber)
    ensures r.checkDigit == checkDigit
  {
    EmiratesIdInfo(true, None, Some(rawId), Some(countryCode), birthYear, Some(sequenceNumber), checkDigit)
  }

  function EmiratesIdFail(code: ErrorCode): (r: ValidationResult)
    ensures r.EmiratesIdInfo? && !r.isValid && r.errorCode == Some(code) && r.Consistent()
    ensures r.rawId.None? && r.countryCode.None? && r.sequenceNumber.None?
    ensures r.birthYear == 0 && r.checkDigit == 0
  {
    EmiratesIdInfo(false, Some(code), None, None, 0, None, 0)
  }

  /** `ApproximateAge`, with the clock's year passed in: the years elapsed
      from the birth year to `currentYear`, or 0 when no birth year is set. */
  function ApproximateAge(info: ValidationResult, currentYear: int): (age: int)
    requires info.EmiratesIdInfo?
    ensures info.birthYear > 0 ==> info.birthYear + age == currentYear
    ensures info.birthYear <= 0 ==> age == 0
  {
    if info.birthYear > 0 then currentYear - info.birthYear else 0
  }

  // ---------------------------------------------------------------- IbanInfo

  /** The country code is always "AE", whatever the arguments. */
  function IbanSuccess(rawIban: string, checkDigits: string, bankCode: string,
                       bankName: Option<string>, accountNumber: string): (r: ValidationResult)
    ensures r.IbanInfo? && r.isValid && r.Consistent()
    ensures r.countryCode == Some("AE")
    ensures r.rawIban == Some(rawIban) && r.checkDigits == Some(checkDigits)
    ensures r.bankCode == Some(bankCode) && r.bankName == bankName
    ensures r.accountNumber == Some(accountNumber)
  {
    IbanInfo(true, None, Some(rawIban), Some("AE"), Some(checkDigits), Some(bankCode), bankName, Some(accountNumber))
  }

  function IbanFail(code: ErrorCode): (r: ValidationResult)
    ensures r.IbanInfo? && !r.isValid && r.errorCode == Some(code) && r.Consistent()
    ensures r.rawIban.None? && r.countryCode.None? && r.checkDigits.None?
    ensures r.bankCode.None? && r.bankName.None? && r.accountNumber.None?
  {
    IbanInfo(false, Some(code), None, None, None, None, None, None)
  }

  // ---------------------------------------------------------------- MobileInfo

  function MobileSuccess(normalized: string, prefix: string, carrier: string): (r: ValidationResult)
    ensures r.MobileInfo? && r.isValid && r.errorCode.None? && r.Consistent()
    ensures r.normalizedNumber == Some(normalized) && r.prefix == Some(prefix)
    ensures r.carrier == Some(carrier)
  {
    MobileInfo(true, None, Some(normalized), Some(prefix), Some(carrier))
  }

  function MobileFail(code: ErrorCode): (r: ValidationResult)
    ensures r.MobileInfo? && !r.isValid && r.errorCode == Some(code) && r.Consistent()
    ensures r.normalizedNumber.None? && r.prefix.None? && r.carrier.None?
  {
    MobileInfo(false, Some(code), None, None, None)
  }

  // ---------------------------------------------------------------- BatchValidationResult

  /** One entry of a `ParseMany` answer: the caller's input, verbatim (possibly
      null), and the validator's result for it. */
  datatype BatchValidationResult = BatchValidationResult(input: Option<string>, result: ValidationResult)
  {
    function IsValid(): (b: bool)
      ensures b == result.isValid
    {
      result.isValid
    }

    function ErrorCode(): (c: Option<ErrorCode>)
      ensures c == result.errorCode
    {
      result.errorCode
    }
  }

  /** `inputs.Select(input => new BatchValidationResult { Input = input,
      Result = validate(input) }).ToList()`: one entry per input, in order. */
  function RunBatch(inputs: seq<Option<string>>, validate: Option<string> -> ValidationResult)
    : (r: seq<BatchValidationResult>)
    ensures |r| == |inputs|
    ensures forall i :: 0 <= i < |inputs| ==> r[i].input == inputs[i] && r[i].result == validate(inputs[i])
  {
    if inputs == [] then []
    else [BatchValidationResult(inputs[0], validate(inputs[0]))] + RunBatch(inputs[1..], validate)
  }

  /** A batch is never cut short: the answer for a concatenation is the
      concatenation of the answers. */
  lemma {:induction false} RunBatchAppend(a: seq<Option<string>>, b: seq<Option<string>>,
                                          validate: Option<string> -> ValidationResult)
    ensures RunBatch(a + b, validate) == RunBatch(a, validate) + RunBatch(b, validate)
  {
    if a == [] {
      assert a + b == b;
    } else {
      assert (a + b)[1..] == a[1..] + b;
      RunBatchAppend(a[1..], b, validate);
    }
  }
}
