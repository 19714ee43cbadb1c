/** The .NET string and char operations the validators rely on, stated on
    `string` (a sequence of Unicode scalar values).

    - IsWhiteSpace is the exact set of characters `char.IsWhiteSpace` accepts;
      Trim, TrimStart and TrimEnd remove exactly those characters.
    - Remove(s, c) is `s.Replace(c.ToString(), "")`.
    - Digits and letters are the ASCII ones (`'0'..'9'`, `'A'..'Z'`, `'a'..'z'`);
      ToUpperInvariant maps `'a'..'z'` to `'A'..'Z'` and leaves every other
      character alone.
    - DecimalValue is what `int.Parse` / `BigInteger.Parse` give for a string of
      ASCII digits, and NatToString is `int.ToString()` for a non-negative value. */
module Strings {
  import opened Wrappers

  // ---------------------------------------------------------------- characters

  /** `char.IsWhiteSpace`: the Unicode space, line and paragraph separators,
      U+0009..U+000D and U+0085. */
  predicate IsWhiteSpace(c: char) {
    || '\U{9}' <= c <= '\U{D}'
    || c == ' ' || c == '\U{85}' || c == '\U{A0}' || c == '\U{1680}'
    || '\U{2000}' <= c <= '\U{200A}'
    || c == '\U{2028}' || c == '\U{2029}' || c == '\U{202F}' || c == '\U{205F}'
    || c == '\U{3000}'
  }

  predicate IsDigit(c: char) { '0' <= c <= '9' }

  predicate IsUpperLetter(c: char) { 'A' <= c <= 'Z' }

  predicate IsLetter(c: char) { 'A' <= c <= 'Z' || 'a' <= c <= 'z' }

  predicate AllWhiteSpace(s: string) { forall i :: 0 <= i < |s| ==> IsWhiteSpace(s[i]) }

  /** `s.All(char.IsDigit)`: true of the empty string. */
  predicate AllDigits(s: string) { forall i :: 0 <= i < |s| ==> IsDigit(s[i]) }

  /** `string.IsNullOrWhiteSpace`. */
  predicate IsNullOrWhiteSpace(input: Option<string>) {
    input.None? || AllWhiteSpace(input.value)
  }

  /** Ordinal `s.StartsWith(prefix)`. */
  predicate StartsWith(s: string, prefix: string) {
    |prefix| <= |s| && s[..|prefix|] == prefix
  }

  /** `c - '0'` in C#: the digit's value for an ASCII digit. */
  function DigitValue(c: char): int { c as int - '0' as int }

  function DigitChar(d: int): (c: char)
    requires 0 <= d <= 9
    ensures IsDigit(c) && DigitValue(c) == d
  {
    ('0' as int + d) as char
  }

  function ToUpperChar(c: char): (u: char)
    ensures 'a' <= c <= 'z' ==> IsUpperLetter(u) && u as int == c as int - 32
    ensures !('a' <= c <= 'z') ==> u == c
  {
    if 'a' <= c <= 'z' then (c as int - 32) as char else c
  }

  // ---------------------------------------------------------------- trimming

  /** `s.TrimStart()`: drops the longest all-white-space prefix. */
  function TrimStart(s: string): (r: string)
    ensures |r| <= |s| && r == s[|s| - |r|..]
    ensures AllWhiteSpace(s[..|s| - |r|])
    ensures r == [] || !IsWhiteSpace(r[0])
  {
    if s != [] && IsWhiteSpace(s[0]) then
      var r := TrimStart(s[1..]);
      WhiteSpaceCons(s, r);
      r
    else
      s
  }

  /** One more white-space character in front of a trimmed-off prefix. */
  lemma WhiteSpaceCons(s: string, r: string)
    requires s != [] && IsWhiteSpace(s[0])
    requires |r| <= |s| - 1 && r == s[1..][|s| - 1 - |r|..]
    requires AllWhiteSpace(s[1..][..|s| - 1 - |r|])
    ensures r == s[|s| - |r|..] && AllWhiteSpace(s[..|s| - |r|])
  {
    var k := |s| - |r|;
    forall i | 1 <= i < k
      ensures IsWhiteSpace(s[..k][i])
    {
      assert s[..k][i] == s[1..][..k - 1][i - 1];
    }
  }

  /** `s.TrimEnd()`: drops the longest all-white-space suffix. */
  function TrimEnd(s: string): (r: string)
    ensures |r| <= |s| && r == s[..|r|]
    ensures AllWhiteSpace(s[|r|..])
    ensures r == [] || !IsWhiteSpace(r[|r| - 1])
  {
    if s != [] && IsWhiteSpace(s[|s| - 1]) then
      var r := TrimEnd(s[..|s| - 1]);
      WhiteSpaceSnoc(s, r);
      r
    else
      s
  }

  /** One more white-space character after a trimmed-off suffix. */
  lemma WhiteSpaceSnoc(s: string, r: string)
    requires s != [] && IsWhiteSpace(s[|s| - 1])
    requires |r| <= |s| - 1 && r == s[..|s| - 1][..|r|]
    requires AllWhiteSpace(s[..|s| - 1][|r|..])
    ensures r == s[..|r|] && AllWhiteSpace(s[|r|..])
  {
    var k := |r|;
    forall i | 0 <= i < |s| - 1 - k
      ensures IsWhiteSpace(s[k..][i])
    {
      assert s[k..][i] == s[..|s| - 1][k..][i];
    }
  }

  /** How many characters `Trim` drops from the front of `s`. */
  function LeadingWhiteSpace(s: string): nat { |s| - |TrimStart(s)| }

  /** `s.Trim()`: the infix left after dropping white space at both ends. */
  function Trim(s: string): (r: string)
    ensures LeadingWhiteSpace(s) + |r| <= |s|
    ensures r == s[LeadingWhiteSpace(s)..LeadingWhiteSpace(s) + |r|]
    ensures AllWhiteSpace(s[..LeadingWhiteSpace(s)])
    ensures AllWhiteSpace(s[LeadingWhiteSpace(s) + |r|..])
    ensures r == [] || (!IsWhiteSpace(r[0]) && !IsWhiteSpace(r[|r| - 1]))
    ensures r == [] <==> AllWhiteSpace(s)
  {
    var front := TrimStart(s);
    var r := TrimEnd(front);
    TrimBothEnds(s, LeadingWhiteSpace(s), front, r);
    r
  }

  /** Trimming the front and then the end leaves an infix between white space. */
  lemma TrimBothEnds(s: string, k: nat, front: string, r: string)
    requires k <= |s| && front == s[k..] && AllWhiteSpace(s[..k])
    requires front == [] || !IsWhiteSpace(front[0])
    requires |r| <= |front| && r == front[..|r|] && AllWhiteSpace(front[|r|..])
    requires r == [] || !IsWhiteSpace(r[|r| - 1])
    ensures r == s[k..k + |r|] && AllWhiteSpace(s[k + |r|..])
    ensures r == [] || (!IsWhiteSpace(r[0]) && !IsWhiteSpace(r[|r| - 1]))
    ensures r == [] <==> AllWhiteSpace(s)
  {
    assert s[k + |r|..] == front[|r|..];
    assert r == [] ==> front[|r|..] == front;
    if r == [] {
      assert front == [] && k == |s|;
      forall i | 0 <= i < |s|
        ensures IsWhiteSpace(s[i])
      {
        assert s[i] == s[..k][i];
      }
    } else {
      assert r[0] == front[0] == s[k];
    }
  }

  /** Where Trim cuts: white space before index `k`, the result from `k`
      to `j`, white space from `j` on. */
  lemma TrimBounds(s: string) returns (k: nat, j: nat)
    ensures k <= j <= |s| && Trim(s) == s[k..j]
    ensures forall i :: 0 <= i < k ==> IsWhiteSpace(s[i])
    ensures forall i :: j <= i < |s| ==> IsWhiteSpace(s[i])
  {
    k := LeadingWhiteSpace(s);
    j := k + |Trim(s)|;
    assert forall i :: 0 <= i < k ==> s[i] == s[..k][i];
    assert forall i :: j <= i < |s| ==> s[i] == s[j..][i - j];
  }

  /** Trim gives back exactly the core of a string padded with white space. */
  lemma {:induction false} TrimPadded(lead: string, core: string, tail: string)
    requires AllWhiteSpace(lead) && AllWhiteSpace(tail)
    requires core == [] || (!IsWhiteSpace(core[0]) && !IsWhiteSpace(core[|core| - 1]))
    ensures Trim(lead + core + tail) == core
  {
    var s := lead + core + tail;
    if core == [] {
      assert AllWhiteSpace(s);
    } else {
      assert s == lead + (core + tail);
      TrimStartPadded(lead, core + tail);
      TrimEndPadded(core, tail);
    }
  }

  lemma {:induction false} TrimStartPadded(lead: string, rest: string)
    requires AllWhiteSpace(lead)
    requires rest == [] || !IsWhiteSpace(rest[0])
    ensures TrimStart(lead + rest) == rest
  {
    if lead != [] {
      assert (lead + rest)[1..] == lead[1..] + rest;
      TrimStartPadded(lead[1..], rest);
    } else {
      assert lead + rest == rest;
    }
  }

  lemma {:induction false} TrimEndPadded(core: string, tail: string)
    requires core != [] && !IsWhiteSpace(core[|core| - 1])
    requires AllWhiteSpace(tail)
    ensures TrimEnd(core + tail) == core
  {
    if tail != [] {
      var s := core + tail;
      assert s[..|s| - 1] == core + tail[..|tail| - 1];
      TrimEndPadded(core, tail[..|tail| - 1]);
    } else {
      assert core + tail == core;
    }
  }

  /** White space around a string does not change its trim. */
  lemma TrimWhitePadded(lead: string, s: string, tail: string)
    requires AllWhiteSpace(lead) && AllWhiteSpace(tail)
    ensures Trim(lead + s + tail) == Trim(s)
  {
    var k, j := TrimBounds(s);
    var front, back := lead + s[..k], s[j..] + tail;
    WhiteSpaceJoin(lead, s[..k]);
    WhiteSpaceJoin(s[j..], tail);
    Regroup(lead, s, tail, k, j);
    TrimPadded(front, s[k..j], back);
  }

  lemma Regroup(lead: string, s: string, tail: string, k: nat, j: nat)
    requires k <= j <= |s|
    ensures lead + s + tail == (lead + s[..k]) + s[k..j] + (s[j..] + tail)
  {
    Split3(s, k, j);
  }

  lemma Split3(s: string, k: nat, j: nat)
    requires k <= j <= |s|
    ensures s == s[..k] + s[k..j] + s[j..]
  {
  }

  lemma WhiteSpaceJoin(a: string, b: string)
    requires AllWhiteSpace(a) && AllWhiteSpace(b)
    ensures AllWhiteSpace(a + b)
  {
    assert forall i :: 0 <= i < |a + b| ==> (a + b)[i] == if i < |a| then a[i] else b[i - |a|];
  }

  /** A trim whose first `|p|` characters are not white space at either end
      of `p` keeps `p` in front. */
  lemma TrimKeepsStart(s: string, p: string)
    requires p != [] && StartsWith(s, p)
    requires !IsWhiteSpace(p[0]) && !IsWhiteSpace(p[|p| - 1])
    ensures |Trim(s)| >= |p| && Trim(s)[..|p|] == p
  {
    var k, j := TrimBounds(s);
    assert s[0] == p[0] && s[|p| - 1] == p[|p| - 1];
    assert k == 0 && j >= |p|;
    assert Trim(s)[..|p|] == s[..|p|];
  }

  lemma {:induction false} TrimEndAllWhiteSpace(s: string)
    requires AllWhiteSpace(s)
    ensures TrimEnd(s) == []
  {
    if s != [] {
      TrimEndAllWhiteSpace(s[..|s| - 1]);
    }
  }

  // ---------------------------------------------------------------- regular expressions

  /** A .NET pattern `^body$` (no `RegexOptions.Multiline`): `$` matches at
      the end of the text and also before a final line feed, so the pattern
      accepts `s` when its body accepts `s` or `s` less one final `\n`. */
  predicate AnchoredMatch(body: string -> bool, s: string) {
    || body(s)
    || (s != [] && s[|s| - 1] == '\n' && body(s[..|s| - 1]))
  }

  /** On trimmed text the end anchor matches only at the very end: a final
      line feed is white space, and `Trim` leaves none. */
  lemma AnchoredOnTrimmed(body: string -> bool, s: string)
    ensures AnchoredMatch(body, Trim(s)) <==> body(Trim(s))
  {
    var t := Trim(s);
    if t != [] {
      assert IsWhiteSpace('\n');
      assert t[|t| - 1] != '\n';
    }
  }

  // ---------------------------------------------------------------- Replace and ToUpperInvariant

  /** `s.Replace(c.ToString(), "")`: every occurrence of `c` dropped, order kept. */
  function Remove(s: string, c: char): (r: string)
    ensures |r| <= |s|
    ensures c !in r
    ensures c !in s ==> r == s
  {
    if s == [] then []
    else (if s[0] == c then [] else [s[0]]) + Remove(s[1..], c)
  }

  /** Remove keeps exactly the characters other than `c`. */
  lemma {:induction false} RemoveMembers(s: string, c: char, x: char)
    ensures x in Remove(s, c) <==> x in s && x != c
  {
    if s != [] {
      RemoveMembers(s[1..], c, x);
      assert x in s <==> x == s[0] || x in s[1..];
    }
  }

  /** Removing a character from white space leaves white space. */
  lemma RemoveKeepsWhiteSpace(s: string, c: char)
    requires AllWhiteSpace(s)
    ensures AllWhiteSpace(Remove(s, c))
  {
    var r := Remove(s, c);
    forall i | 0 <= i < |r|
      ensures IsWhiteSpace(r[i])
    {
      RemoveMembers(s, c, r[i]);
    }
  }

  lemma {:induction false} RemoveAppend(a: string, b: string, c: char)
    ensures Remove(a + b, c) == Remove(a, c) + Remove(b, c)
  {
    if a == [] {
      assert a + b == b;
    } else {
      assert (a + b)[1..] == a[1..] + b;
      RemoveAppend(a[1..], b, c);
    }
  }

  /** `s.ToUpperInvariant()` on ASCII letters. */
  function ToUpperInvariant(s: string): (r: string)
    ensures |r| == |s|
    ensures forall i :: 0 <= i < |s| ==> r[i] == ToUpperChar(s[i])
  {
    if s == [] then [] else [ToUpperChar(s[0])] + ToUpperInvariant(s[1..])
  }

  /** `new string(c, n)`. */
  function Repeat(c: char, n: nat): (r: string)
    ensures |r| == n && forall i :: 0 <= i < n ==> r[i] == c
  {
    seq(n, _ => c)
  }

  // ---------------------------------------------------------------- integers

  /** C#'s `a % b` for a positive divisor: truncating division, so the
      remainder takes the sign of the dividend (Dafny's `%` is Euclidean). */
  function Rem(a: int, b: int): (r: int)
    requires b > 0
    ensures a >= 0 ==> r == a % b
    ensures a < 0 ==> -b < r <= 0
  {
    if a >= 0 then a % b else -((-a) % b)
  }

  // ---------------------------------------------------------------- decimal numerals

  function Pow10(k: nat): (p: nat)
    ensures p >= 1
  {
    if k == 0 then 1 else 10 * Pow10(k - 1)
  }

  /** The value of a numeral of ASCII digits, most significant first
      (`BigInteger.Parse`, and `int.Parse` where it fits). */
  function DecimalValue(s: string): (v: nat)
    requires AllDigits(s)
    ensures v < Pow10(|s|)
  {
    if s == [] then 0
    else DecimalValue(s[..|s| - 1]) * 10 + DigitValue(s[|s| - 1])
  }

  /** Concatenating numerals shifts the left one by the length of the right one. */
  lemma {:induction false} DecimalValueAppend(a: string, b: string)
    requires AllDigits(a) && AllDigits(b)
    ensures AllDigits(a + b)
    ensures DecimalValue(a + b) == DecimalValue(a) * Pow10(|b|) + DecimalValue(b)
  {
    if b == [] {
      assert a + b == a;
    } else {
      var b', d := b[..|b| - 1], DigitValue(b[|b| - 1]);
      assert (a + b)[..|a + b| - 1] == a + b';
      assert (a + b)[|a + b| - 1] == b[|b| - 1];
      DecimalValueAppend(a, b');
      var x, y, p := DecimalValue(a), DecimalValue(b'), Pow10(|b'|);
      assert DecimalValue(a + b) == DecimalValue(a + b') * 10 + d;
      assert DecimalValue(b) == y * 10 + d;
      assert Pow10(|b|) == p * 10;
      ShiftDistributes(x, y, p, d);
    }
  }

  lemma ShiftDistributes(x: int, y: int, p: int, d: int)
    ensures (x * p + y) * 10 + d == x * (p * 10) + (y * 10 + d)
  {
  }

  /** `n.ToString()` for a non-negative `n`: its shortest decimal numeral. */
  function NatToString(n: nat): (r: string)
    ensures r != [] && AllDigits(r) && DecimalValue(r) == n
    ensures n >= 10 ==> r[0] != '0'
  {
    if n < 10 then [DigitChar(n)]
    else
      var r := NatToString(n / 10) + [DigitChar(n % 10)];
      assert r[..|r| - 1] == NatToString(n / 10);
      r
  }
}
