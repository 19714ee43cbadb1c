/** The UAE mobile number validator: any of the spellings `+971 5X XXX XXXX`,
    `00971…`, `971…`, `05X…` or `5X…` is reduced to the 9-digit subscriber
    number, which must start with `5` and carry a carrier prefix from the
    table; the canonical form is the ITU-T E.164 `+971` + 9 digits. */
module UaeMobileValidator {
  import opened Wrappers
  import opened Strings
  import opened Models
  import UaeMobilePrefixes

  const CountryPrefix: string := "+971"

  /** What `Validate` works on: spaces, dashes and parentheses removed, then
      trimmed. */
  function Normalize(s: string): string {
    Trim(Unseparated(s))
  }

  /** Spaces, dashes and parentheses removed. */
  function Unseparated(s: string): string {
    Remove(Remove(Remove(Remove(s, ' '), '-'), '('), ')')
  }

  /** The subscriber part: exactly one leading prefix is stripped, tried in
      the order `+971` (any length), `00971` (any length), `971` (length 12
      only), `0` (length 10 only); otherwise the string is kept whole. */
  function LocalPart(n: string): (local: string)
    ensures |local| <= |n| && local == n[|n| - |local|..]
  {
    if StartsWith(n, "+971") then n[4..]
    else if StartsWith(n, "00971") then n[5..]
    else if StartsWith(n, "971") && |n| == 12 then n[3..]
    else if StartsWith(n, "0") && |n| == 10 then n[1..]
    else n
  }

  /** The carrier prefix of a subscriber number: `0` and its first two digits. */
  function PrefixOf(local: string): (p: string)
    requires |local| >= 2
    ensures |p| == 3 && p[0] == '0' && p[1..] == local[..2]
  {
    "0" + local[..2]
  }

  /** A subscriber number `Validate` accepts: 9 digits, first digit 5, and a
      prefix in the table. */
  predicate ValidLocal(local: string) {
    && |local| == 9 && AllDigits(local) && local[0] == '5'
    && UaeMobilePrefixes.IsValidPrefix(PrefixOf(local))
  }

  // ---------------------------------------------------------------- Validate

  /** `Validate(input)`. */
  function Validate(input: Option<string>): (r: ValidationResult)
    ensures r.MobileInfo? && r.Consistent()
    ensures r.errorCode == Some(EmptyInput) <==> IsNullOrWhiteSpace(input)
    ensures r.isValid <==> !IsNullOrWhiteSpace(input) && ValidLocal(LocalPart(Normalize(input.value)))
    ensures r.isValid ==>
      var local := LocalPart(Normalize(input.value));
      && r.normalizedNumber == Some(CountryPrefix + local)
      && |r.normalizedNumber.value| == 13
      && r.prefix == Some(PrefixOf(local))
      && r.carrier == UaeMobilePrefixes.GetCarrier(PrefixOf(local)) && r.carrier.Some?
  {
    if IsNullOrWhiteSpace(input) then MobileFail(EmptyInput)
    else ValidateLocal(LocalPart(Normalize(input.value)))
  }

  /** The checks after the blank test, on the subscriber part. */
  function ValidateLocal(local: string): (r: ValidationResult)
    ensures r.MobileInfo? && r.Consistent() && r.errorCode != Some(EmptyInput)
    ensures r.isValid <==> ValidLocal(local)
    ensures r.isValid ==>
      && r.normalizedNumber == Some(CountryPrefix + local)
      && |r.normalizedNumber.value| == 13
      && r.prefix == Some(PrefixOf(local))
      && r.carrier == UaeMobilePrefixes.GetCarrier(PrefixOf(local)) && r.carrier.Some?
  {
    if |local| != 9 then MobileFail(InvalidLength)
    else if !AllDigits(local) then MobileFail(InvalidCharacters)
    else if local[0] != '5' then MobileFail(InvalidPrefix)
    else
      var prefix := PrefixOf(local);
      if !UaeMobilePrefixes.IsValidPrefix(prefix) then MobileFail(InvalidMobilePrefix)
      else
        MobileSuccess(CountryPrefix + local, prefix, UaeMobilePrefixes.GetCarrier(prefix).value)
  }

  /** `Check` / `IsValid`. */
  function Check(input: Option<string>): (b: bool)
    ensures b <==> !IsNullOrWhiteSpace(input) && ValidLocal(LocalPart(Normalize(input.value)))
  {
    Validate(input).isValid
  }

  /** The error codes come out in a fixed order: length, then characters,
      then the leading 5, then the carrier prefix. */
  lemma ErrorCodeOrder(s: string)
    requires !IsNullOrWhiteSpace(Some(s))
    ensures var local, code := LocalPart(Normalize(s)), Validate(Some(s)).errorCode;
      && (code == Some(InvalidLength) <==> |local| != 9)
      && (code == Some(InvalidCharacters) <==> |local| == 9 && !AllDigits(local))
      && (code == Some(InvalidPrefix) <==> |local| == 9 && AllDigits(local) && local[0] != '5')
      && (code == Some(InvalidMobilePrefix) <==>
            |local| == 9 && AllDigits(local) && local[0] == '5'
            && !UaeMobilePrefixes.IsValidPrefix(PrefixOf(local)))
  {
  }

  /** A string of digits, possibly led by `+`, is its own normal form. */
  lemma DigitsAreNormal(s: string)
    requires s != [] && IsDigit(s[|s| - 1])
    requires forall i :: 0 <= i < |s| ==> IsDigit(s[i]) || s[i] == '+'
    ensures Normalize(s) == s && !AllWhiteSpace(s)
  {
    assert ' ' !in s && '-' !in s && '(' !in s && ')' !in s;
    assert !IsWhiteSpace(s[0]);
    TrimPadded([], s, []);
    assert [] + s + [] == s;
  }

  /** Inputs with the same subscriber part get the same result. */
  lemma SameLocalSameResult(a: string, b: string)
    requires !IsNullOrWhiteSpace(Some(a)) && !IsNullOrWhiteSpace(Some(b))
    requires LocalPart(Normalize(a)) == LocalPart(Normalize(b))
    ensures Validate(Some(a)) == Validate(Some(b))
  {
  }

  /** A prefix of digits and `+` before a non-empty string of digits gives a
      string that is its own normal form. */
  lemma PrefixedDigitsAreNormal(p: string, local: string)
    requires forall i :: 0 <= i < |p| ==> IsDigit(p[i]) || p[i] == '+'
    requires local != [] && AllDigits(local)
    ensures Normalize(p + local) == p + local && !AllWhiteSpace(p + local)
  {
    var s := p + local;
    assert forall i :: 0 <= i < |s| ==> s[i] == (if i < |p| then p[i] else local[i - |p|]);
    assert s[|s| - 1] == local[|local| - 1];
    DigitsAreNormal(s);
  }

  /** The `+971`, `00971`, `971`, `0` and bare spellings of one subscriber
      number are judged alike, unless the number itself starts with 0 (then
      the `0` and `00971` spellings read it differently). */
  lemma SpellingsAgree(local: string)
    requires |local| == 9 && AllDigits(local) && local[0] != '0'
    ensures Validate(Some(CountryPrefix + local)) == Validate(Some(local))
    ensures Validate(Some("00971" + local)) == Validate(Some(local))
    ensures Validate(Some("971" + local)) == Validate(Some(local))
    ensures Validate(Some("0" + local)) == Validate(Some(local))
  {
    BareSpelling(local);
    PlusSpelling(local);
    SameLocalSameResult(CountryPrefix + local, local);
    ZerosSpelling(local);
    SameLocalSameResult("00971" + local, local);
    CountrySpelling(local);
    SameLocalSameResult("971" + local, local);
    ZeroSpelling(local);
    SameLocalSameResult("0" + local, local);
  }

  lemma BareSpelling(local: string)
    requires |local| == 9 && AllDigits(local) && local[0] != '0'
    ensures !IsNullOrWhiteSpace(Some(local)) && LocalPart(Normalize(local)) == local
  {
    PrefixedDigitsAreNormal([], local);
    assert [] + local == local;
    BareLocal(local);
  }

  lemma BareLocal(local: string)
    requires |local| == 9 && IsDigit(local[0]) && local[0] != '0'
    ensures LocalPart(local) == local
  {
    DifferentStart(local, CountryPrefix);
    DifferentStart(local, "00971");
  }

  /** A string whose first character differs from the prefix's does not
      start with it. */
  lemma DifferentStart(s: string, prefix: string)
    requires s != [] && prefix != [] && s[0] != prefix[0]
    ensures !StartsWith(s, prefix)
  {
  }

  lemma PlusSpelling(local: string)
    requires |local| == 9 && AllDigits(local)
    ensures !IsNullOrWhiteSpace(Some(CountryPrefix + local))
    ensures LocalPart(Normalize(CountryPrefix + local)) == local
  {
    PrefixedDigitsAreNormal(CountryPrefix, local);
    PlusLocal(local);
  }

  lemma PlusLocal(local: string)
    requires |local| == 9
    ensures LocalPart(CountryPrefix + local) == local
  {
    var n := CountryPrefix + local;
    assert n[..4] == CountryPrefix && n[4..] == local;
  }

  lemma ZerosSpelling(local: string)
    requires |local| == 9 && AllDigits(local)
    ensures !IsNullOrWhiteSpace(Some("00971" + local))
    ensures LocalPart(Normalize("00971" + local)) == local
  {
    PrefixedDigitsAreNormal("00971", local);
    ZerosLocal(local);
  }

  lemma ZerosLocal(local: string)
    requires |local| == 9
    ensures LocalPart("00971" + local) == local
  {
    var n := "00971" + local;
    DifferentStart(n, CountryPrefix);
    assert n[..5] == "00971" && n[5..] == local;
  }

  lemma CountrySpelling(local: string)
    requires |local| == 9 && AllDigits(local)
    ensures !IsNullOrWhiteSpace(Some("971" + local))
    ensures LocalPart(Normalize("971" + local)) == local
  {
    PrefixedDigitsAreNormal("971", local);
    CountryLocal(local);
  }

  lemma CountryLocal(local: string)
    requires |local| == 9
    ensures LocalPart("971" + local) == local
  {
    var n := "971" + local;
    DifferentStart(n, CountryPrefix);
    DifferentStart(n, "00971");
    assert n[..3] == "971" && n[3..] == local;
  }

  lemma ZeroSpelling(local: string)
    requires |local| == 9 && AllDigits(local) && local[0] != '0'
    ensures !IsNullOrWhiteSpace(Some("0" + local))
    ensures LocalPart(Normalize("0" + local)) == local
  {
    PrefixedDigitsAreNormal("0", local);
    ZeroLocal(local);
  }

  lemma ZeroLocal(local: string)
    requires |local| == 9 && local[0] != '0'
    ensures LocalPart("0" + local) == local
  {
    var n := "0" + local;
    DifferentStart(n, CountryPrefix);
    assert n[1] != "00971"[1];
    DifferentStart(n, "971");
    assert n[..1] == "0" && n[1..] == local;
  }

  /** A valid result's number is E.164: `+971`, then nine digits starting
      with 5; its prefix is `05` and a digit, with the carrier the table gives. */
  lemma NormalizedIsE164(input: Option<string>)
    requires Check(input)
    ensures var r := Validate(input);
      var n := r.normalizedNumber.value;
      && n[..4] == CountryPrefix && n[4] == '5' && AllDigits(n[1..])
      && |r.prefix.value| == 3 && r.prefix.value[..2] == "05" && IsDigit(r.prefix.value[2])
      && r.carrier.value == UaeMobilePrefixes.Prefixes[r.prefix.value]
  {
    var local := LocalPart(Normalize(input.value));
    NumberShape(local);
    PrefixShape(local);
  }

  lemma NumberShape(local: string)
    requires ValidLocal(local)
    ensures var n := CountryPrefix + local;
      n[..4] == CountryPrefix && n[4] == '5' && AllDigits(n[1..])
  {
    var n := CountryPrefix + local;
    assert n[..4] == CountryPrefix && n[4] == local[0];
    assert n[1..] == "971" + local;
    assert forall i :: 0 <= i < |n| - 1 ==> n[1..][i] == (if i < 3 then "971"[i] else local[i - 3]);
  }

  lemma PrefixShape(local: string)
    requires ValidLocal(local)
    ensures var p := PrefixOf(local);
      |p| == 3 && p[..2] == "05" && IsDigit(p[2])
  {
    UaeMobilePrefixes.PrefixTableShape();
    var p := PrefixOf(local);
    assert p[2] == local[1];
  }

  /** The library's own examples. */
  lemma Examples()
    ensures Validate(Some("0501234567")).normalizedNumber == Some("+971501234567")
    ensures Check(Some("+971501234567")) && Check(Some("00971501234567"))
    ensures Validate(Some("+971501234567")).carrier == Some(UaeMobilePrefixes.Etisalat)
    ensures Validate(Some("+971551234567")).carrier == Some(UaeMobilePrefixes.Du)
    ensures Validate(Some("+971401234567")).errorCode == Some(InvalidPrefix)
  {
    ExampleEtisalat();
    ExampleDu();
    ExampleWrongPrefix();
  }

  lemma ExampleEtisalat()
    ensures Validate(Some("0501234567")).normalizedNumber == Some("+971501234567")
    ensures Check(Some("+971501234567")) && Check(Some("00971501234567"))
    ensures Validate(Some("+971501234567")).carrier == Some(UaeMobilePrefixes.Etisalat)
  {
    var local := "501234567";
    ExampleSpellings();
    LocalResult(local, "050");
    UaeMobilePrefixes.KnownCarriers();
    SpellingsAgree(local);
  }

  lemma ExampleDu()
    ensures Validate(Some("+971551234567")).carrier == Some(UaeMobilePrefixes.Du)
  {
    var local := "551234567";
    ExampleSpellings();
    LocalResult(local, "055");
    UaeMobilePrefixes.KnownCarriers();
    SpellingsAgree(local);
  }

  lemma ExampleWrongPrefix()
    ensures Validate(Some("+971401234567")).errorCode == Some(InvalidPrefix)
  {
    ExampleSpellings();
    WrongLeadingDigit("401234567");
  }

  lemma WrongLeadingDigit(local: string)
    requires |local| == 9 && AllDigits(local) && local[0] != '5'
    ensures Validate(Some(CountryPrefix + local)).errorCode == Some(InvalidPrefix)
  {
    PlusSpelling(local);
  }

  /** The result for a bare 9-digit number with the given prefix. */
  lemma LocalResult(local: string, prefix: string)
    requires |local| == 9 && AllDigits(local) && local[0] == '5'
    requires prefix == "0" + local[..2] && UaeMobilePrefixes.IsValidPrefix(prefix)
    ensures Validate(Some(local)) == MobileSuccess(CountryPrefix + local, prefix, UaeMobilePrefixes.Prefixes[prefix])
  {
    BareSpelling(local);
  }

  lemma ExampleSpellings()
    ensures CountryPrefix + "501234567" == "+971501234567"
    ensures CountryPrefix + "551234567" == "+971551234567"
    ensures CountryPrefix + "401234567" == "+971401234567"
    ensures "0" + "501234567" == "0501234567"
    ensures "00971" + "501234567" == "00971501234567"
    ensures "0" + "501234567"[..2] == "050" && "0" + "551234567"[..2] == "055"
    ensures AllDigits("501234567") && AllDigits("551234567") && AllDigits("401234567")
  {
  }

  // ---------------------------------------------------------------- Sanitize

  /** What `Sanitize` inspects: trimmed, then spaces and dashes removed. */
  function SanitizeText(s: string): string {
    Remove(Remove(Trim(s), ' '), '-')
  }

  const ShapePrefixes: set<string> := {CountryPrefix, "00971", "0", "5"}

  /** The four spellings `Sanitize` recognises; bare `971…` is not one. */
  predicate SanitizeShape(t: string) {
    || (StartsWith(t, "+971") && |t| == 13)
    || (StartsWith(t, "00971") && |t| == 14)
    || (StartsWith(t, "0") && |t| == 10)
    || (StartsWith(t, "5") && |t| == 9)
  }

  /** `Sanitize(input)`: a recognised spelling becomes `+971` followed by its
      last nine characters; anything else is returned trimmed. No digit or
      carrier check is made. */
  function Sanitize(input: Option<string>): (r: string)
    ensures IsNullOrWhiteSpace(input) ==> r == []
    ensures !IsNullOrWhiteSpace(input) ==>
      var t := SanitizeText(input.value);
      if SanitizeShape(t) then |t| >= 9 && r == CountryPrefix + t[|t| - 9..] && |r| == 13
      else r == Trim(input.value)
  {
    if IsNullOrWhiteSpace(input) then []
    else
      var trimmed := SanitizeText(input.value);
      if StartsWith(trimmed, "+971") && |trimmed| == 13 then
        PlusTail(trimmed);
        trimmed
      else if StartsWith(trimmed, "00971") && |trimmed| == 14 then
        ZerosTail(trimmed);
        "+" + trimmed[2..]
      else if StartsWith(trimmed, "0") && |trimmed| == 10 then CountryPrefix + trimmed[1..]
      else if StartsWith(trimmed, "5") && |trimmed| == 9 then
        assert trimmed[|trimmed| - 9..] == trimmed;
        CountryPrefix + trimmed
      else Trim(input.value)
  }

  lemma PlusTail(t: string)
    requires StartsWith(t, "+971") && |t| == 13
    ensures t == CountryPrefix + t[|t| - 9..]
  {
    assert t == t[..4] + t[4..];
  }

  lemma ZerosTail(t: string)
    requires StartsWith(t, "00971") && |t| == 14
    ensures "+" + t[2..] == CountryPrefix + t[|t| - 9..]
  {
    assert t[2..5] == t[..5][2..] == "971";
    assert t[2..] == t[2..5] + t[5..];
  }

  /** A canonical `+971` spelling with a 9-character tail passes `Validate`
      exactly when the tail is a valid subscriber number as it stands: no
      separator inside it is forgiven. */
  lemma CanonicalAccepted(sub: string)
    requires |sub| == 9
    ensures Check(Some(CountryPrefix + sub)) <==> ValidLocal(sub)
  {
    if ValidLocal(sub) {
      PrefixedDigitsAreNormal(CountryPrefix, sub);
      PlusLocal(sub);
    }
    if Check(Some(CountryPrefix + sub)) {
      CanonicalChecked(sub);
    }
  }

  lemma CanonicalChecked(sub: string)
    requires |sub| == 9 && Check(Some(CountryPrefix + sub))
    ensures ValidLocal(sub)
  {
    var r := CountryPrefix + sub;
    var n := NormalStartsPlus(sub);
    assert |LocalPart(n)| == 9;
    assert LocalPart(n) == n[4..];
    NormalFull(r);
    PlusLocal(sub);
  }

  /** The normal form of `+971` + tail still starts `+971`. */
  lemma NormalStartsPlus(sub: string) returns (n: string)
    ensures n == Normalize(CountryPrefix + sub) && |n| >= 4 && n[..4] == CountryPrefix
  {
    StrippedCanonical(sub);
    TrimKeepsStart(Unseparated(CountryPrefix + sub), CountryPrefix);
    n := Normalize(CountryPrefix + sub);
  }

  /** A normal form as long as the input is the input itself. */
  lemma NormalFull(r: string)
    requires |Normalize(r)| == |r|
    ensures Normalize(r) == r
  {
    var s1 := Remove(r, ' ');
    var s2 := Remove(s1, '-');
    var s3 := Remove(s2, '(');
    var s4 := Remove(s3, ')');
    TrimKeepsLength(s4);
    RemoveKeepsLength(s3, ')');
    RemoveKeepsLength(s2, '(');
    RemoveKeepsLength(s1, '-');
    RemoveKeepsLength(r, ' ');
  }

  /** The separators removed from `+971` + tail come from the tail. */
  lemma StrippedCanonical(sub: string)
    ensures var stripped := Unseparated(CountryPrefix + sub);
      |stripped| >= 4 && stripped[..4] == CountryPrefix
  {
    var p := CountryPrefix;
    assert ' ' !in p && '-' !in p && '(' !in p && ')' !in p;
    var s1 := KeepPrefix(p, sub, ' ');
    var s2 := KeepPrefix(p, s1, '-');
    var s3 := KeepPrefix(p, s2, '(');
    var s4 := KeepPrefix(p, s3, ')');
    assert (p + s4)[..4] == p;
  }

  /** Removing a character the prefix lacks leaves the prefix in place. */
  lemma KeepPrefix(p: string, x: string, c: char) returns (rest: string)
    requires c !in p
    ensures Remove(p + x, c) == p + rest && rest == Remove(x, c)
  {
    RemoveAppend(p, x, c);
    rest := Remove(x, c);
  }

  /** A trim that removes nothing returns the string itself. */
  lemma TrimKeepsLength(s: string)
    requires |Trim(s)| == |s|
    ensures Trim(s) == s
  {
    var k, j := TrimBounds(s);
  }

  /** Removing a character and losing no length removes nothing. */
  lemma {:induction false} RemoveKeepsLength(s: string, c: char)
    requires |Remove(s, c)| == |s|
    ensures Remove(s, c) == s
  {
    if s != [] {
      RemoveKeepsLength(s[1..], c);
    }
  }

  /** What `Sanitize` produces for a recognised spelling is accepted by
      `Validate` exactly when its last nine characters are a valid subscriber
      number: `Sanitize` itself checks neither digits nor carrier. */
  lemma SanitizedChecked(s: string)
    requires !IsNullOrWhiteSpace(Some(s)) && SanitizeShape(SanitizeText(s))
    ensures var t := SanitizeText(s);
      Check(Some(Sanitize(Some(s)))) <==> ValidLocal(t[|t| - 9..])
  {
    var t := SanitizeText(s);
    var sub := t[|t| - 9..];
    assert Sanitize(Some(s)) == CountryPrefix + sub;
    CanonicalAccepted(sub);
  }

  /** Sanitizing a valid number keeps it valid, with the same normalised
      number: a recognised spelling of a valid number is already its own
      normal form, and any other input comes back trimmed, which `Validate`
      reads as it reads the input. */
  lemma SanitizeKeepsValid(s: string)
    requires Check(Some(s))
    ensures Check(Some(Sanitize(Some(s))))
    ensures Validate(Some(Sanitize(Some(s)))).normalizedNumber == Validate(Some(s)).normalizedNumber
  {
    SanitizedLocal(s);
  }

  /** The sanitized text of a valid number is not blank and has the same
      subscriber number. */
  lemma SanitizedLocal(s: string)
    requires !AllWhiteSpace(s) && ValidLocal(LocalPart(Normalize(s)))
    ensures var r := Sanitize(Some(s));
      !AllWhiteSpace(r) && LocalPart(Normalize(r)) == LocalPart(Normalize(s))
  {
    var local := LocalPart(Normalize(s));
    if SanitizeShape(SanitizeText(s)) {
      RecognisedSanitized(s);
      PlusSpelling(local);
    } else {
      TrimKeepsNormal(s);
    }
  }

  /** Trimming a non-blank input leaves it non-blank, with the same normal form. */
  lemma TrimKeepsNormal(s: string)
    requires !AllWhiteSpace(s)
    ensures !AllWhiteSpace(Trim(s)) && Normalize(Trim(s)) == Normalize(s)
  {
    TrimmedNormal(s);
    var k, j := TrimBounds(s);
    assert !IsWhiteSpace(Trim(s)[0]);
  }

  /** A recognised spelling of a valid number sanitizes to `+971` and its
      subscriber number. */
  lemma RecognisedSanitized(s: string)
    requires !AllWhiteSpace(s) && ValidLocal(LocalPart(Normalize(s)))
    requires SanitizeShape(SanitizeText(s))
    ensures Sanitize(Some(s)) == CountryPrefix + LocalPart(Normalize(s))
  {
    var t := SanitizeText(s);
    TrimmedNormal(s);
    assert Normalize(s) == Trim(Remove(Remove(t, '('), ')'));
    RecognisedIsNormal(t, Normalize(s));
  }

  /** `Validate` reads an input and its trim alike. */
  lemma TrimmedNormal(s: string)
    ensures Normalize(Trim(s)) == Normalize(s)
  {
    var k, j := TrimBounds(s);
    Split3(s, k, j);
    UnseparatedPadded(s[..k], s[k..j], s[j..]);
  }

  /** White space around a text does not survive `Normalize`. */
  lemma UnseparatedPadded(lead: string, core: string, tail: string)
    requires AllWhiteSpace(lead) && AllWhiteSpace(tail)
    ensures Trim(Unseparated(lead + core + tail)) == Trim(Unseparated(core))
  {
    UnseparatedAppend(lead + core, tail);
    UnseparatedAppend(lead, core);
    UnseparatedWhiteSpace(lead);
    UnseparatedWhiteSpace(tail);
    TrimWhitePadded(Unseparated(lead), Unseparated(core), Unseparated(tail));
  }

  lemma UnseparatedAppend(a: string, b: string)
    ensures Unseparated(a + b) == Unseparated(a) + Unseparated(b)
  {
    var a1, b1 := Remove(a, ' '), Remove(b, ' ');
    var a2, b2 := Remove(a1, '-'), Remove(b1, '-');
    var a3, b3 := Remove(a2, '('), Remove(b2, '(');
    RemoveAppend(a, b, ' ');
    RemoveAppend(a1, b1, '-');
    RemoveAppend(a2, b2, '(');
    RemoveAppend(a3, b3, ')');
  }

  lemma UnseparatedWhiteSpace(w: string)
    requires AllWhiteSpace(w)
    ensures AllWhiteSpace(Unseparated(w))
  {
    RemoveKeepsWhiteSpace(w, ' ');
    RemoveKeepsWhiteSpace(Remove(w, ' '), '-');
    RemoveKeepsWhiteSpace(Remove(Remove(w, ' '), '-'), '(');
    RemoveKeepsWhiteSpace(Remove(Remove(Remove(w, ' '), '-'), '('), ')');
  }

  /** When the sanitized text `t` of a valid number has a recognised shape,
      it is already the number's normal form `n`, and its last nine
      characters are the subscriber number. */
  lemma RecognisedIsNormal(t: string, n: string)
    requires SanitizeShape(t) && n == Trim(Remove(Remove(t, '('), ')'))
    requires ValidLocal(LocalPart(n))
    ensures |t| >= 9 && n == t && LocalPart(t) == t[|t| - 9..]
  {
    ShapeStarts();
    if |t| == 13 {
      ShapeStartSurvives(t, CountryPrefix);
      PlusNormal(n);
    } else if |t| == 14 {
      ShapeStartSurvives(t, "00971");
      ZerosNormal(n);
    } else if |t| == 10 {
      ShapeStartSurvives(t, "0");
      ZeroNormal(n);
    } else {
      ShapeStartSurvives(t, "5");
      BareNormal(n);
    }
    Unbracketed(t, n);
  }

  /** Removing parentheses and trimming, with no loss of length, removes
      nothing. */
  lemma Unbracketed(t: string, n: string)
    requires n == Trim(Remove(Remove(t, '('), ')')) && |n| == |t|
    ensures n == t
  {
    UnbracketedFull(t);
  }

  /** A valid normal form starting `+971` is `+971` and nine characters. */
  lemma PlusNormal(n: string)
    requires |n| >= 4 && n[..4] == CountryPrefix && ValidLocal(LocalPart(n))
    ensures |n| == 13 && LocalPart(n) == n[|n| - 9..]
  {
    assert StartsWith(n, CountryPrefix);
  }

  /** A valid normal form starting `00971` is `00971` and nine characters. */
  lemma ZerosNormal(n: string)
    requires |n| >= 5 && n[..5] == "00971" && ValidLocal(LocalPart(n))
    ensures |n| == 14 && LocalPart(n) == n[|n| - 9..]
  {
    DifferentStart(n, CountryPrefix);
    assert StartsWith(n, "00971");
  }

  /** A valid normal form of at most ten characters starting `0` is `0` and
      nine characters. */
  lemma ZeroNormal(n: string)
    requires |n| <= 10 && |n| >= 1 && n[..1] == "0" && ValidLocal(LocalPart(n))
    ensures |n| == 10 && LocalPart(n) == n[|n| - 9..]
  {
    assert n[0] == '0';
    DifferentStart(n, CountryPrefix);
    DifferentStart(n, "971");
  }

  /** A valid normal form starting `5` is the subscriber number itself. */
  lemma BareNormal(n: string)
    requires |n| >= 1 && n[..1] == "5" && ValidLocal(LocalPart(n))
    ensures |n| == 9 && LocalPart(n) == n[|n| - 9..]
  {
    assert n[0] == '5';
    DifferentStart(n, CountryPrefix);
    DifferentStart(n, "00971");
    DifferentStart(n, "971");
    DifferentStart(n, "0");
  }

  /** The starts `Sanitize` recognises hold no parenthesis and begin and
      end with a character that is not white space. */
  lemma ShapeStarts()
    ensures forall p :: p in ShapePrefixes ==> p != [] && '(' !in p && ')' !in p
    ensures forall p :: p in ShapePrefixes ==> !IsWhiteSpace(p[0]) && !IsWhiteSpace(p[|p| - 1])
  {
    assert CountryPrefix == ['+', '9', '7', '1'];
    assert "00971" == ['0', '0', '9', '7', '1'];
  }

  /** A start without parentheses, white space at neither end, survives
      the removal of parentheses and the trim. */
  lemma ShapeStartSurvives(t: string, p: string)
    requires p != [] && StartsWith(t, p) && '(' !in p && ')' !in p
    requires !IsWhiteSpace(p[0]) && !IsWhiteSpace(p[|p| - 1])
    ensures var n := Trim(Remove(Remove(t, '('), ')'));
      |n| >= |p| && n[..|p|] == p
  {
    var x := t[|p|..];
    assert t == p + x;
    var r1 := KeepPrefix(p, x, '(');
    var r2 := KeepPrefix(p, r1, ')');
    TrimKeepsStart(p + r2, p);
  }

  /** Removing parentheses and trimming, with no loss of length, removes
      nothing. */
  lemma UnbracketedFull(t: string)
    requires |Trim(Remove(Remove(t, '('), ')'))| == |t|
    ensures Trim(Remove(Remove(t, '('), ')')) == t
  {
    var t1 := Remove(t, '(');
    var t2 := Remove(t1, ')');
    assert |t2| <= |t1| <= |t|;
    assert |Trim(t2)| <= |t2|;
    TrimKeepsLength(t2);
    RemoveKeepsLength(t1, ')');
    RemoveKeepsLength(t, '(');
    assert Trim(t2) == t2 == t1 == t;
  }

  // ---------------------------------------------------------------- Mask

  /** `Mask(input)`: a valid number is shown as `+9715` and its next digit,
      four `*`, then its last three digits; an invalid one is returned
      trimmed. */
  function Mask(input: Option<string>): (r: string)
    ensures IsNullOrWhiteSpace(input) ==> r == []
    ensures !IsNullOrWhiteSpace(input) && !Check(input) ==> r == Trim(input.value)
    ensures Check(input) ==>
      var n := Validate(input).normalizedNumber.value;
      && |r| == |n| == 13
      && r[..6] == n[..6] && r[6..10] == "****" && r[10..] == n[10..]
  {
    if IsNullOrWhiteSpace(input) then []
    else
      var result := Validate(input);
      if !result.isValid || result.normalizedNumber.None? then Trim(input.value)
      else
        HideMiddle(result.normalizedNumber.value)
  }

  /** The first six and the last three characters of a 13-character number,
      with `*` at the four places between. */
  function HideMiddle(n: string): (r: string)
    requires |n| == 13
    ensures |r| == 13 && r[..6] == n[..6] && r[6..10] == "****" && r[10..] == n[10..]
  {
    n[..6] + "****" + n[|n| - 3..]
  }

  /** The library's masking example. */
  lemma MaskExample()
    ensures Mask(Some("+971501234567")) == "+97150****567"
  {
    ExampleSpellings();
    ExampleMaskSlices();
    MaskOfValidLocal("501234567", "050");
  }

  lemma ExampleMaskSlices()
    ensures "+971501234567"[..6] + "****" + "+971501234567"[10..] == "+97150****567"
  {
  }

  /** The mask of the `+971` spelling of a valid subscriber number. */
  lemma MaskOfValidLocal(local: string, prefix: string)
    requires |local| == 9 && AllDigits(local) && local[0] == '5'
    requires prefix == "0" + local[..2] && UaeMobilePrefixes.IsValidPrefix(prefix)
    ensures var n := CountryPrefix + local;
      Mask(Some(n)) == n[..6] + "****" + n[10..]
  {
    LocalResult(local, prefix);
    SpellingsAgree(local);
  }

  /** The mask shows nothing but the first six and the last three characters
      of the normalised number: valid numbers that agree there mask alike. */
  lemma MaskHidesMiddle(a: string, b: string)
    requires Check(Some(a)) && Check(Some(b))
    requires var na, nb := Validate(Some(a)).normalizedNumber.value, Validate(Some(b)).normalizedNumber.value;
      na[..6] == nb[..6] && na[10..] == nb[10..]
    ensures Mask(Some(a)) == Mask(Some(b))
  {
    var ma, mb := Mask(Some(a)), Mask(Some(b));
    assert ma == ma[..6] + ma[6..10] + ma[10..];
    assert mb == mb[..6] + mb[6..10] + mb[10..];
  }

  // ---------------------------------------------------------------- ParseMany

  /** `ParseMany(inputs)`: one entry per input, in order, each the input
      verbatim with its `Validate` result. */
  function ParseMany(inputs: seq<Option<string>>): (r: seq<BatchValidationResult>)
    ensures |r| == |inputs|
    ensures forall i :: 0 <= i < |inputs| ==>
      r[i].input == inputs[i] && r[i].result == Validate(inputs[i])
    ensures forall i :: 0 <= i < |inputs| && inputs[i].None? ==> r[i].ErrorCode() == Some(EmptyInput)
  {
    RunBatch(inputs, Validate)
  }
}
