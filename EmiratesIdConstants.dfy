/** Structure of the UAE Emirates ID: 15 digits `784 YYYY NNNNNNN C`, written
    either raw or with dashes `784-YYYY-NNNNNNN-C`. The two regular expressions
    of the source are stated as predicates on strings. */
module EmiratesIdConstants {
  import opened Strings

  const CountryCode: string := "784"
  const TotalDigits: nat := 15
  const MinBirthYear: int := 1900

  /** The body of `^784-\d{4}-\d{7}-\d$`: `784`, a dash, four digits, a
      dash, seven digits, a dash and a digit. */
  predicate MatchesFormatted(s: string): (b: bool)
    ensures b <==>
      && |s| == 18 && s[..3] == CountryCode
      && (forall i :: 3 <= i < |s| && (i == 3 || i == 8 || i == 16) ==> s[i] == '-')
      && (forall i :: 3 <= i < |s| && i != 3 && i != 8 && i != 16 ==> IsDigit(s[i]))
  {
    && |s| == 18
    && s[..3] == CountryCode && s[3] == '-'
    && AllDigits(s[4..8]) && s[8] == '-'
    && AllDigits(s[9..16]) && s[16] == '-'
    && IsDigit(s[17])
  }

  /** The body of `^784\d{12}$`: exactly the 15-digit strings that start
      with the country code. */
  predicate MatchesRaw(s: string): (b: bool)
    ensures b <==> |s| == TotalDigits && AllDigits(s) && s[..3] == CountryCode
  {
    if |s| == TotalDigits && s[..3] == CountryCode && AllDigits(s[3..]) then
      assert forall i :: 0 <= i < 3 ==> s[i] == CountryCode[i];
      true
    else false
  }

  /** The two patterns as the regex engine reads them, `$` included, accept
      the same trimmed texts as their bodies: the validator trims first. */
  lemma PatternsOnTrimmedText(s: string)
    ensures AnchoredMatch(MatchesRaw, Trim(s)) <==> MatchesRaw(Trim(s))
    ensures AnchoredMatch(MatchesFormatted, Trim(s)) <==> MatchesFormatted(Trim(s))
  {
    AnchoredOnTrimmed(MatchesRaw, s);
    AnchoredOnTrimmed(MatchesFormatted, s);
  }

  /** "Dashes optional": removing the dashes from a formatted match gives a raw
      match, made of the same digit groups in the same order. */
  lemma FormattedWithoutDashesIsRaw(s: string)
    requires MatchesFormatted(s)
    ensures Remove(s, '-') == s[..3] + s[4..8] + s[9..16] + s[17..]
    ensures MatchesRaw(Remove(s, '-'))
  {
    DashesRemoved(s);
    var raw := s[..3] + s[4..8] + s[9..16] + s[17..];
    assert raw[..3] == CountryCode;
    assert raw[3..] == s[4..8] + s[9..16] + s[17..];
  }

  lemma DashesRemoved(s: string)
    requires MatchesFormatted(s)
    ensures Remove(s, '-') == s[..3] + s[4..8] + s[9..16] + s[17..]
  {
    var cc, year, sequence, check := s[..3], s[4..8], s[9..16], s[17..];
    assert s == cc + "-" + year + "-" + sequence + "-" + check;
    assert '-' !in year && '-' !in sequence && '-' !in check;
    assert Remove(cc, '-') == cc;
    SkipDash(cc, year);
    SkipDash(cc + "-" + year, sequence);
    SkipDash(cc + "-" + year + "-" + sequence, check);
  }

  /** Removing dashes from `prefix-group` when the group has none. */
  lemma SkipDash(prefix: string, group: string)
    requires '-' !in group
    ensures Remove(prefix + "-" + group, '-') == Remove(prefix, '-') + group
  {
    RemoveAppend(prefix + "-", group, '-');
    RemoveAppend(prefix, "-", '-');
  }
}
