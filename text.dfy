/**
 * String helpers used by the report pipeline: decimal digits, Python's
 * str.strip(), str.split(", "), the first-digit-run extraction done by
 * str.extract(r"(\d+)") and the integer coercion done by pd.to_numeric.
 * Only ASCII digits are digits here.
 */
module Text {
  import opened Wrappers

  // ---------------------------------------------------------------------------
  // Decimal digits
  // ---------------------------------------------------------------------------

  predicate IsDigit(c: char) { '0' <= c <= '9' }

  predicate AllDigits(s: string) { forall i :: 0 <= i < |s| ==> IsDigit(s[i]) }

  predicate NoDigits(s: string) { forall i :: 0 <= i < |s| ==> !IsDigit(s[i]) }

  function DigitValue(c: char): nat
    requires IsDigit(c)
  {
    c as int - '0' as int
  }

  function DigitChar(d: nat): (c: char)
    requires d < 10
    ensures IsDigit(c) && DigitValue(c) == d
  {
    ('0' as int + d) as char
  }

  /** The value of a decimal numeral, most significant digit first. */
  function DigitsValue(s: string): nat
    requires AllDigits(s)
  {
    if |s| == 0 then 0 else 10 * DigitsValue(s[..|s| - 1]) + DigitValue(s[|s| - 1])
  }

  /** The decimal numeral of n, as Python's str(n) writes it. */
  function NatToDigits(n: nat): (s: string)
    ensures |s| > 0 && AllDigits(s)
  {
    if n < 10 then [DigitChar(n)] else NatToDigits(n / 10) + [DigitChar(n % 10)]
  }

  /** Reading back a numeral gives the number that was written. */
  lemma {:induction false} DigitsRoundTrip(n: nat)
    ensures DigitsValue(NatToDigits(n)) == n
  {
    if n >= 10 {
      var s := NatToDigits(n);
      assert s[..|s| - 1] == NatToDigits(n / 10);
      DigitsRoundTrip(n / 10);
    }
  }

  /** Python's str(n) for an integer. */
  function IntToString(n: int): string
  {
    if n < 0 then "-" + NatToDigits(-n) else NatToDigits(n)
  }

  // ---------------------------------------------------------------------------
  // Integer coercion (pd.to_numeric(..., errors="coerce") on integer literals)
  // ---------------------------------------------------------------------------

  /**
   * An optional sign followed by one or more digits is a number; anything
   * else is missing (coerced to NaN rather than raising).
   */
  function ParseInt(s: string): (r: Option<int>)
    ensures r.Some? ==> |s| > 0 && (IsDigit(s[0]) || s[0] == '-' || s[0] == '+')
                        && forall i :: 0 < i < |s| ==> IsDigit(s[i])
    ensures r.Some? && !IsDigit(s[0]) ==> |s| > 1
    ensures |s| > 0 && AllDigits(s) ==> r == Some(DigitsValue(s) as int)
    ensures |s| > 1 && s[0] == '-' && AllDigits(s[1..]) ==> r == Some(-(DigitsValue(s[1..]) as int))
    ensures |s| > 1 && s[0] == '+' && AllDigits(s[1..]) ==> r == Some(DigitsValue(s[1..]) as int)
  {
    if |s| > 0 && (s[0] == '-' || s[0] == '+') then
      if |s| > 1 && AllDigits(s[1..]) then
        Some(if s[0] == '-' then -(DigitsValue(s[1..]) as int) else DigitsValue(s[1..]) as int)
      else None
    else if |s| > 0 && AllDigits(s) then Some(DigitsValue(s) as int)
    else None
  }

  /** Every integer written by str() coerces back to itself. */
  lemma ParseIntRoundTrip(n: int)
    ensures ParseInt(IntToString(n)) == Some(n)
  {
    if n < 0 {
      var s := IntToString(n);
      assert s[1..] == NatToDigits(-n);
      DigitsRoundTrip(-n);
    } else {
      DigitsRoundTrip(n);
    }
  }

  // ---------------------------------------------------------------------------
  // First run of digits (str.extract(r"(\d+)"))
  // ---------------------------------------------------------------------------

  /** Index of the first digit of s, or |s| when s has none. */
  function FirstDigitIndex(s: string): (i: nat)
    ensures i <= |s| && NoDigits(s[..i]) && (i < |s| ==> IsDigit(s[i]))
  {
    if |s| == 0 || IsDigit(s[0]) then 0
    else
      var j := FirstDigitIndex(s[1..]);
      assert s[..j + 1] == [s[0]] + s[1..][..j];
      j + 1
  }

  /** Length of the longest prefix of s made of digits only. */
  function DigitRunLength(s: string): (n: nat)
    ensures n <= |s| && AllDigits(s[..n]) && (n < |s| ==> !IsDigit(s[n]))
  {
    if |s| == 0 || !IsDigit(s[0]) then 0
    else
      var m := DigitRunLength(s[1..]);
      assert s[..m + 1] == [s[0]] + s[1..][..m];
      m + 1
  }

  /** The value of the leftmost maximal run of digits in s; None when s has no digit. */
  function FirstDigitRun(s: string): (r: Option<nat>)
    ensures r.None? <==> NoDigits(s)
  {
    var i := FirstDigitIndex(s);
    if i == |s| then
      assert s[..i] == s;
      None
    else
      var rest := s[i..];
      Some(DigitsValue(rest[..DigitRunLength(rest)]))
  }

  lemma {:induction false} FirstDigitIndexIs(s: string, k: nat)
    requires k <= |s| && NoDigits(s[..k]) && (k < |s| ==> IsDigit(s[k]))
    ensures FirstDigitIndex(s) == k
  {
    if |s| > 0 && !IsDigit(s[0]) {
      assert k > 0;
      assert s[1..][..k - 1] == s[..k][1..];
      FirstDigitIndexIs(s[1..], k - 1);
    }
  }

  lemma {:induction false} DigitRunLengthIs(s: string, k: nat)
    requires k <= |s| && AllDigits(s[..k]) && (k < |s| ==> !IsDigit(s[k]))
    ensures DigitRunLength(s) == k
  {
    if |s| > 0 && IsDigit(s[0]) {
      assert k > 0;
      assert s[1..][..k - 1] == s[..k][1..];
      DigitRunLengthIs(s[1..], k - 1);
    }
  }

  /**
   * Whatever comes before the first digit and after the run is ignored:
   * a text that is non-digits, then digits d, then a non-digit or the end,
   * extracts to the value of d.
   */
  lemma FirstDigitRunOf(p: string, d: string, q: string)
    requires NoDigits(p) && |d| > 0 && AllDigits(d) && (|q| == 0 || !IsDigit(q[0]))
    ensures FirstDigitRun(p + d + q) == Some(DigitsValue(d))
  {
    var s := p + d + q;
    assert s[..|p|] == p;
    FirstDigitIndexIs(s, |p|);
    var rest := s[|p|..];
    assert rest == d + q;
    assert rest[..|d|] == d;
    DigitRunLengthIs(rest, |d|);
  }

  /** A duration written as "<n> min" or "<n> Seasons" extracts to n. */
  lemma FirstDigitRunOfNumeral(n: nat, unit: string)
    requires |unit| == 0 || !IsDigit(unit[0])
    ensures FirstDigitRun(NatToDigits(n) + unit) == Some(n)
  {
    assert "" + NatToDigits(n) + unit == NatToDigits(n) + unit;
    FirstDigitRunOf("", NatToDigits(n), unit);
    DigitsRoundTrip(n);
  }

  // ---------------------------------------------------------------------------
  // Whitespace stripping (str.strip())
  // ---------------------------------------------------------------------------

  /** The characters for which Python's str.isspace() holds. */
  predicate IsSpace(c: char)
  {
    c == ' ' || '\U{9}' <= c <= '\U{D}' || '\U{1C}' <= c <= '\U{1F}'
    || c == '\U{85}' || c == '\U{A0}' || c == '\U{1680}' || '\U{2000}' <= c <= '\U{200A}'
    || c == '\U{2028}' || c == '\U{2029}' || c == '\U{202F}' || c == '\U{205F}' || c == '\U{3000}'
  }

  predicate AllSpace(s: string) { forall i :: 0 <= i < |s| ==> IsSpace(s[i]) }

  /** The number of whitespace characters s starts with. */
  function LeadingSpaces(s: string): (n: nat)
    ensures n <= |s| && AllSpace(s[..n]) && (n < |s| ==> !IsSpace(s[n]))
  {
    if |s| > 0 && IsSpace(s[0]) then
      var n := LeadingSpaces(s[1..]);
      assert s[..n + 1] == [s[0]] + s[1..][..n];
      n + 1
    else 0
  }

  /** The number of whitespace characters s ends with. */
  function TrailingSpaces(s: string): (n: nat)
    ensures n <= |s| && AllSpace(s[|s| - n..]) && (n < |s| ==> !IsSpace(s[|s| - n - 1]))
  {
    |s| - CoreEnd(s, |s|)
  }

  /** Where the whitespace run that ends at index k of s begins. */
  function CoreEnd(s: string, k: nat): (e: nat)
    requires k <= |s|
    ensures e <= k && AllSpace(s[e..k]) && (e > 0 ==> !IsSpace(s[e - 1]))
  {
    if k > 0 && IsSpace(s[k - 1]) then
      var e := CoreEnd(s, k - 1);
      assert s[e..k] == s[e..k - 1] + [s[k - 1]];
      e
    else k
  }

  /**
   * Python's str.strip(): what is left after cutting the leading and then
   * the trailing whitespace away; it neither starts nor ends with whitespace.
   */
  function Strip(s: string): (r: string)
    ensures |r| <= |s|
    ensures |r| > 0 ==> !IsSpace(r[0]) && !IsSpace(r[|r| - 1])
  {
    var t := s[LeadingSpaces(s)..];
    var r := t[..|t| - TrailingSpaces(t)];
    assert |r| > 0 ==> r[0] == t[0] && r[|r| - 1] == t[|t| - TrailingSpaces(t) - 1];
    r
  }

  /**
   * Stripping cuts a contiguous part out of s with only whitespace on
   * either side of it, starting after the leading whitespace.
   */
  lemma StripCut(s: string)
    ensures var i, r := LeadingSpaces(s), Strip(s);
      i + |r| <= |s| && AllSpace(s[..i]) && r == s[i..i + |r|] && AllSpace(s[i + |r|..])
  {
    var i := LeadingSpaces(s);
    var t := s[i..];
    var j := TrailingSpaces(t);
    var r := Strip(s);
    assert r == t[..|t| - j] == s[i..i + |r|];
    assert s[i + |r|..] == t[|t| - j..];
  }

  /** LeadingSpaces(s) is the only length of a whitespace prefix not followed by whitespace. */
  lemma LeadingSpacesUnique(s: string, m: nat)
    requires m <= |s| && AllSpace(s[..m]) && (m < |s| ==> !IsSpace(s[m]))
    ensures LeadingSpaces(s) == m
  {
    SpacePrefixUnique(s, LeadingSpaces(s), m);
  }

  /** TrailingSpaces(s) is the only length of a whitespace suffix not preceded by whitespace. */
  lemma TrailingSpacesUnique(s: string, m: nat)
    requires m <= |s| && AllSpace(s[|s| - m..]) && (m < |s| ==> !IsSpace(s[|s| - m - 1]))
    ensures TrailingSpaces(s) == m
  {
    SpaceSuffixUnique(s, TrailingSpaces(s), m);
  }

  lemma SpacePrefixUnique(s: string, n: nat, m: nat)
    requires n <= |s| && AllSpace(s[..n]) && (n < |s| ==> !IsSpace(s[n]))
    requires m <= |s| && AllSpace(s[..m]) && (m < |s| ==> !IsSpace(s[m]))
    ensures n == m
  {
  }

  lemma SpaceSuffixUnique(s: string, n: nat, m: nat)
    requires n <= |s| && AllSpace(s[|s| - n..]) && (n < |s| ==> !IsSpace(s[|s| - n - 1]))
    requires m <= |s| && AllSpace(s[|s| - m..]) && (m < |s| ==> !IsSpace(s[|s| - m - 1]))
    ensures n == m
  {
  }

  /** The leading whitespace of pre + rest is pre, when rest does not start with whitespace. */
  lemma LeadingSpacesOf(pre: string, rest: string)
    requires AllSpace(pre) && (|rest| > 0 ==> !IsSpace(rest[0]))
    ensures LeadingSpaces(pre + rest) == |pre|
  {
    var s := pre + rest;
    assert s[..|pre|] == pre;
    LeadingSpacesUnique(s, |pre|);
  }

  /** The trailing whitespace of core + post is post, when core does not end with whitespace. */
  lemma TrailingSpacesOf(core: string, post: string)
    requires AllSpace(post) && (|core| > 0 ==> !IsSpace(core[|core| - 1]))
    ensures TrailingSpaces(core + post) == |post|
  {
    var s := core + post;
    assert s[|s| - |post|..] == post;
    TrailingSpacesUnique(s, |post|);
  }

  /** Strip gives back exactly the core of any whitespace-padded text. */
  lemma StripOf(pre: string, core: string, post: string)
    requires AllSpace(pre) && AllSpace(post)
    requires |core| > 0 ==> !IsSpace(core[0]) && !IsSpace(core[|core| - 1])
    ensures Strip(pre + core + post) == core
  {
    var s := pre + core + post;
    if |core| > 0 {
      assert s == pre + (core + post);
      LeadingSpacesOf(pre, core + post);
      assert s[|pre|..] == core + post;
      TrailingSpacesOf(core, post);
      assert (core + post)[..|core|] == core;
    } else {
      assert s == (pre + post) + "";
      assert AllSpace(pre + post);
      LeadingSpacesOf(pre + post, "");
    }
  }

  /** Stripping twice is stripping once. */
  lemma StripIdempotent(s: string)
    ensures Strip(Strip(s)) == Strip(s)
  {
    var r := Strip(s);
    assert "" + r + "" == r;
    StripOf("", r, "");
  }

  // ---------------------------------------------------------------------------
  // Splitting on the exact separator ", " (str.split(", "))
  // ---------------------------------------------------------------------------

  /** The separator ", " begins at index i of s. */
  predicate SeparatorAt(s: string, i: int)
  {
    0 <= i && i + 1 < |s| && s[i] == ',' && s[i + 1] == ' '
  }

  predicate NoSeparator(s: string) { forall i :: 0 <= i < |s| ==> !SeparatorAt(s, i) }

  /** The leftmost occurrence of ", " in s. */
  function FindSeparator(s: string): (r: Option<nat>)
    ensures r.Some? ==> SeparatorAt(s, r.value) && forall j :: 0 <= j < r.value ==> !SeparatorAt(s, j)
    ensures r.None? ==> NoSeparator(s)
  {
    if |s| < 2 then None
    else if s[0] == ',' && s[1] == ' ' then Some(0)
    else
      assert forall i :: 1 <= i < |s| ==> SeparatorAt(s, i) == SeparatorAt(s[1..], i - 1);
      match FindSeparator(s[1..])
      case None => None
      case Some(k) => Some(k + 1)
  }

  lemma FindSeparatorIs(s: string, k: nat)
    requires SeparatorAt(s, k) && forall j :: 0 <= j < k ==> !SeparatorAt(s, j)
    ensures FindSeparator(s) == Some(k)
  {
  }

  /** Python's s.split(", "): never empty, and no piece holds the separator. */
  function Split(s: string): (pieces: seq<string>)
    ensures |pieces| >= 1
    ensures forall k :: 0 <= k < |pieces| ==> NoSeparator(pieces[k])
    decreases |s|
  {
    match FindSeparator(s)
    case None => [s]
    case Some(i) =>
      assert forall j :: 0 <= j < i ==> SeparatorAt(s[..i], j) == SeparatorAt(s, j) && !SeparatorAt(s, j);
      [s[..i]] + Split(s[i + 2..])
  }

  /** ", ".join(pieces). */
  function Join(pieces: seq<string>): string
  {
    if |pieces| == 0 then "" else if |pieces| == 1 then pieces[0] else pieces[0] + ", " + Join(pieces[1..])
  }

  /** Joining the pieces gives back the text that was split. */
  lemma {:induction false} JoinSplit(s: string)
    ensures Join(Split(s)) == s
    decreases |s|
  {
    match FindSeparator(s)
    case None =>
    case Some(i) =>
      var rest := s[i + 2..];
      JoinSplit(rest);
      var ps := Split(s);
      assert ps[1..] == Split(rest);
      assert s == s[..i] + ", " + rest;
  }

  /** Splitting a join of separator-free pieces gives back the pieces. */
  lemma {:induction false} SplitJoin(pieces: seq<string>)
    requires |pieces| >= 1
    requires forall k :: 0 <= k < |pieces| ==> NoSeparator(pieces[k])
    ensures Split(Join(pieces)) == pieces
  {
    if |pieces| > 1 {
      var p := pieces[0];
      var rest := Join(pieces[1..]);
      var s := p + ", " + rest;
      assert s[|p|] == ',' && s[|p| + 1] == ' ';
      forall j | 0 <= j < |p|
        ensures !SeparatorAt(s, j)
      {
        if j + 1 < |p| {
          assert !SeparatorAt(p, j);
        } else {
          assert s[j + 1] == ',';
        }
      }
      FindSeparatorIs(s, |p|);
      assert s[..|p|] == p;
      assert s[|p| + 2..] == rest;
      SplitJoin(pieces[1..]);
    } else {
      assert FindSeparator(pieces[0]).None?;
    }
  }
}
