/**
 * String helpers standing in for the Rust standard-library calls the game
 * relies on: `str::split`, `slice::join`, `str::lines`, `str::trim`,
 * `to_string` on integers and `str::parse` into an unsigned integer.
 * Strings are `seq<char>`; nothing here is about bytes.
 */
module Text {

  datatype Option<T> = None | Some(value: T)

  // ---------------------------------------------------------------------
  // split / join
  // ---------------------------------------------------------------------

  /** `s.split(sep)`: the pieces between separators, in order; never empty. */
  function Split(s: string, sep: char): (parts: seq<string>)
    ensures |parts| >= 1
    ensures forall k :: 0 <= k < |parts| ==> sep !in parts[k]
    decreases |s|
  {
    if |s| == 0 then [""]
    else
      var rest := Split(s[1..], sep);
      if s[0] == sep then [""] + rest
      else [[s[0]] + rest[0]] + rest[1..]
  }

  /** `parts.join(sep)`: the pieces with one separator between neighbours; "" for no pieces. */
  function Join(parts: seq<string>, sep: char): (s: string)
    ensures forall i :: 0 <= i < |s| && s[i] != sep ==> exists k :: 0 <= k < |parts| && s[i] in parts[k]
    decreases |parts|
  {
    if |parts| == 0 then ""
    else if |parts| == 1 then parts[0]
    else
      var rest := Join(parts[1..], sep);
      assert forall i :: 0 <= i < |rest| && rest[i] != sep ==> exists k :: 0 <= k < |parts| && rest[i] in parts[k] by {
        forall i | 0 <= i < |rest| && rest[i] != sep
          ensures exists k :: 0 <= k < |parts| && rest[i] in parts[k]
        {
          var k :| 0 <= k < |parts[1..]| && rest[i] in parts[1..][k];
          assert rest[i] in parts[k + 1];
        }
      }
      parts[0] + [sep] + rest
  }

  lemma {:induction false} SplitNoSeparator(s: string, sep: char)
    requires sep !in s
    ensures Split(s, sep) == [s]
    decreases |s|
  {
    if |s| > 0 {
      SplitNoSeparator(s[1..], sep);
      assert [s[0]] + s[1..] == s;
    }
  }

  lemma {:induction false} SplitAfterPiece(a: string, t: string, sep: char)
    requires sep !in a
    ensures Split(a + [sep] + t, sep) == [a] + Split(t, sep)
    decreases |a|
  {
    var s := a + [sep] + t;
    if |a| == 0 {
      assert s[1..] == t;
    } else {
      assert s[1..] == a[1..] + [sep] + t;
      SplitAfterPiece(a[1..], t, sep);
      assert [a[0]] + a[1..] == a;
    }
  }

  /** Splitting what `Join` glued together gives the pieces back. */
  lemma {:induction false} SplitJoin(parts: seq<string>, sep: char)
    requires |parts| >= 1
    requires forall k :: 0 <= k < |parts| ==> sep !in parts[k]
    ensures Split(Join(parts, sep), sep) == parts
    decreases |parts|
  {
    if |parts| == 1 {
      SplitNoSeparator(parts[0], sep);
    } else {
      SplitJoin(parts[1..], sep);
      SplitAfterPiece(parts[0], Join(parts[1..], sep), sep);
      assert [parts[0]] + parts[1..] == parts;
    }
  }

  // ---------------------------------------------------------------------
  // lines / trim
  // ---------------------------------------------------------------------

  /**
   * `s.lines()`: the pieces between '\n', where a final '\n' does not open
   * an extra empty line, so "" has no lines at all. `lines()` also drops a
   * '\r' before each '\n'; every caller here trims each line afterwards,
   * and '\r' is white space, so that step is subsumed by `Trim`.
   */
  function Lines(s: string): (lines: seq<string>)
    ensures forall k :: 0 <= k < |lines| ==> '\n' !in lines[k]
  {
    var parts := Split(s, '\n');
    if parts[|parts| - 1] == "" then parts[..|parts| - 1] else parts
  }

  lemma LinesOfEmpty()
    ensures Lines("") == []
  {
  }

  /** Three newline-separated lines, the last one not empty, come back as written. */
  lemma LinesOfThree(a: string, b: string, c: string)
    requires '\n' !in a && '\n' !in b && '\n' !in c && c != ""
    ensures Lines(a + "\n" + b + "\n" + c) == [a, b, c]
  {
    var parts := [a, b, c];
    assert Join(parts, '\n') == a + "\n" + b + "\n" + c by {
      assert Join(parts[1..], '\n') == b + "\n" + c by {
        assert parts[1..][1..] == [c];
      }
    }
    SplitJoin(parts, '\n');
  }

  /** Rust's `char::is_whitespace`: the Unicode White_Space property. */
  predicate IsWhitespace(c: char)
  {
    || ('\t' <= c <= '\r') || c == ' ' || c == '\U{85}' || c == '\U{A0}'
    || c == '\U{1680}' || ('\U{2000}' <= c <= '\U{200A}') || c == '\U{2028}'
    || c == '\U{2029}' || c == '\U{202F}' || c == '\U{205F}' || c == '\U{3000}'
  }

  function TrimStart(s: string): string
    decreases |s|
  {
    if |s| > 0 && IsWhitespace(s[0]) then TrimStart(s[1..]) else s
  }

  function TrimEnd(s: string): string
    decreases |s|
  {
    if |s| > 0 && IsWhitespace(s[|s| - 1]) then TrimEnd(s[..|s| - 1]) else s
  }

  /** `s.trim()`: white space removed from both ends. */
  function Trim(s: string): (t: string)
  {
    TrimEnd(TrimStart(s))
  }

  /** Trimming leaves a string without white space untouched. */
  lemma TrimNoWhitespace(s: string)
    requires forall k :: 0 <= k < |s| ==> !IsWhitespace(s[k])
    ensures Trim(s) == s
  {
  }

  // ---------------------------------------------------------------------
  // decimal digits
  // ---------------------------------------------------------------------

  predicate IsDigit(c: char)
  {
    '0' <= c <= '9'
  }

  /** One or more ASCII digits: what `\d+` matches here. */
  predicate IsDigits(s: string)
  {
    |s| > 0 && forall k :: 0 <= k < |s| ==> IsDigit(s[k])
  }

  function DigitChar(d: nat): char
    requires d < 10
  {
    ['0', '1', '2', '3', '4', '5', '6', '7', '8', '9'][d]
  }

  function DigitValue(c: char): nat
    requires IsDigit(c)
  {
    (c as int - '0' as int) as nat
  }

  /** The value of a string of ASCII digits, most significant first. */
  function DigitsValue(s: string): nat
    requires forall k :: 0 <= k < |s| ==> IsDigit(s[k])
    decreases |s|
  {
    if |s| == 0 then 0 else 10 * DigitsValue(s[..|s| - 1]) + DigitValue(s[|s| - 1])
  }

  /** `n.to_string()`: decimal, no sign, no leading zeros. */
  function NatToString(n: nat): (s: string)
    ensures IsDigits(s)
    ensures s[0] == '0' ==> n == 0
    decreases n
  {
    if n < 10 then [DigitChar(n)] else NatToString(n / 10) + [DigitChar(n % 10)]
  }

  lemma {:induction false} NatToStringValue(n: nat)
    ensures DigitsValue(NatToString(n)) == n
    decreases n
  {
    var s := NatToString(n);
    if n >= 10 {
      NatToStringValue(n / 10);
      assert s[..|s| - 1] == NatToString(n / 10);
    }
  }

  /**
   * `s.parse::<uN>()` where `bound` is 2^N: an optional '+', then one or
   * more ASCII digits whose value is below `bound`; anything else fails.
   */
  function ParseUnsigned(s: string, bound: nat): (r: Option<nat>)
    ensures r.Some? ==> r.value < bound
    ensures r.Some? && IsDigits(s) ==> r.value == DigitsValue(s)
  {
    var digits := if |s| > 0 && s[0] == '+' then s[1..] else s;
    if IsDigits(digits) && DigitsValue(digits) < bound then Some(DigitsValue(digits)) else None
  }

  const U32_BOUND: nat := 0x1_0000_0000
  const USIZE_BOUND: nat := 0x1_0000_0000_0000_0000

  /** Printing a number and parsing it back gives the number, when it fits. */
  lemma ParsePrinted(n: nat, bound: nat)
    requires n < bound
    ensures ParseUnsigned(NatToString(n), bound) == Some(n)
  {
    NatToStringValue(n);
  }

  /** `" ".repeat(n)` */
  function Spaces(n: nat): (s: string)
    ensures |s| == n && forall k :: 0 <= k < n ==> s[k] == ' '
  {
    seq(n, _ => ' ')
  }

  // ---------------------------------------------------------------------
  // rounding
  // ---------------------------------------------------------------------

  /**
   * `((n as f32 / d as f32) * k).round()`, taken exactly: the integer
   * nearest to k*n/d, a half rounded up.
   */
  function RoundedRatio(n: nat, d: nat, k: nat): (r: nat)
    requires d > 0
    ensures (2 * r - 1) * d <= 2 * k * n < (2 * r + 1) * d
  {
    var q := (2 * k * n + d) / (2 * d);
    assert 2 * d * q <= 2 * k * n + d < 2 * d * q + 2 * d;
    q
  }

  /** A positive factor can be cancelled from both sides of a strict inequality. */
  lemma CancelFactor(a: int, b: int, d: nat)
    requires d > 0 && a * d < b * d
    ensures a < b
  {
  }

  lemma MulMono(k: nat, n: nat, d: nat)
    requires n <= d
    ensures k * n <= k * d
  {
    assert k * d - k * n == k * (d - n);
  }

  /** A ratio of at most one rounds to at most the scale. */
  lemma RoundedRatioBound(n: nat, d: nat, k: nat)
    requires 0 < d && n <= d
    ensures RoundedRatio(n, d, k) <= k
  {
    var r: int := RoundedRatio(n, d, k);
    MulMono(2 * k, n, d);
    assert (2 * r - 1) * d <= 2 * k * n;
    assert 2 * k * d < (2 * k + 1) * d;
    CancelFactor(2 * r - 1, 2 * k + 1, d);
  }

  /** The ratio one rounds to the scale itself. */
  lemma RoundedRatioOne(d: nat, k: nat)
    requires 0 < d
    ensures RoundedRatio(d, d, k) == k
  {
    var r: int := RoundedRatio(d, d, k);
    RoundedRatioBound(d, d, k);
    assert (2 * k - 1) * d < 2 * k * d < (2 * r + 1) * d;
    CancelFactor(2 * k - 1, 2 * r + 1, d);
  }

  /** The ratio zero rounds to zero. */
  lemma RoundedRatioZero(d: nat, k: nat)
    requires 0 < d
    ensures RoundedRatio(0, d, k) == 0
  {
    var r: int := RoundedRatio(0, d, k);
    assert (2 * r - 1) * d <= 0 < 1 * d;
    CancelFactor(2 * r - 1, 1, d);
  }
}
