/**
  The string primitives the application relies on: Python's `str.strip()`,
  the first line of a page (`split("\n")[0]`), decimal rendering of integers
  (`str(n)`, `f"{n:02d}"`) and the first run of digits in a label
  (`re.search(r'\d+', s)` followed by `int(...)`).
 */
module Text {
  import opened Wrappers

  // ---------------------------------------------------------------------------
  // Whitespace and stripping
  // ---------------------------------------------------------------------------

  /** The characters for which Python's `str.isspace()` holds. */
  predicate IsSpace(c: char) {
    var k := c as int;
    || k == 0x20
    || 0x09 <= k <= 0x0d
    || 0x1c <= k <= 0x1f
    || k == 0x85
    || k == 0xa0
    || k == 0x1680
    || 0x2000 <= k <= 0x200a
    || k == 0x2028
    || k == 0x2029
    || k == 0x202f
    || k == 0x205f
    || k == 0x3000
  }

  predicate AllSpace(s: string) {
    forall i :: 0 <= i < |s| ==> IsSpace(s[i])
  }

  /** Neither end of `s` is whitespace: what `str.strip()` always returns. */
  predicate IsStripped(s: string) {
    |s| == 0 || (!IsSpace(s[0]) && !IsSpace(s[|s| - 1]))
  }

  /** `r` is `s` with a run of whitespace removed from each end. */
  ghost predicate IsTrimmingOf(s: string, r: string) {
    exists i :: 0 <= i <= |s| - |r| && r == s[i..i + |r|] && AllSpace(s[..i]) && AllSpace(s[i + |r|..])
  }

  /** The index of the first non-whitespace character at or after `k`, or `|s|` when there is none. */
  function SkipSpace(s: string, k: nat): (n: nat)
    requires k <= |s|
    ensures k <= n <= |s|
    ensures n == |s| || !IsSpace(s[n])
    decreases |s| - k
  {
    if k < |s| && IsSpace(s[k]) then SkipSpace(s, k + 1) else k
  }

  /** The index just past the last non-whitespace character before `k`, or 0 when there is none. */
  function SkipSpaceBack(s: string, k: nat): (n: nat)
    requires k <= |s|
    ensures n <= k
    ensures n == 0 || !IsSpace(s[n - 1])
    decreases k
  {
    if k > 0 && IsSpace(s[k - 1]) then SkipSpaceBack(s, k - 1) else k
  }

  /** Everything `SkipSpace` skips is whitespace. */
  lemma {:induction false} SkipSpaceSkipsSpace(s: string, k: nat)
    requires k <= |s|
    ensures AllSpace(s[k..SkipSpace(s, k)])
    decreases |s| - k
  {
    var n := SkipSpace(s, k);
    if k < |s| && IsSpace(s[k]) {
      SkipSpaceSkipsSpace(s, k + 1);
      forall j | 0 <= j < n - k
        ensures IsSpace(s[k..n][j])
      {
        if j > 0 {
          assert s[k..n][j] == s[k + 1..n][j - 1];
        }
      }
    }
  }

  /** Everything `SkipSpaceBack` skips is whitespace. */
  lemma {:induction false} SkipSpaceBackSkipsSpace(s: string, k: nat)
    requires k <= |s|
    ensures AllSpace(s[SkipSpaceBack(s, k)..k])
    decreases k
  {
    var n := SkipSpaceBack(s, k);
    if k > 0 && IsSpace(s[k - 1]) {
      SkipSpaceBackSkipsSpace(s, k - 1);
      forall j | 0 <= j < k - n
        ensures IsSpace(s[n..k][j])
      {
        if j < k - 1 - n {
          assert s[n..k][j] == s[n..k - 1][j];
        }
      }
    }
  }

  /** `str.lstrip()`. */
  function TrimStart(s: string): (r: string)
    ensures |r| == 0 || !IsSpace(r[0])
  {
    s[SkipSpace(s, 0)..]
  }

  /** `str.rstrip()`. */
  function TrimEnd(s: string): (r: string)
    ensures |r| == 0 || !IsSpace(r[|r| - 1])
  {
    s[..SkipSpaceBack(s, |s|)]
  }

  /** `str.strip()`: the whitespace at both ends removed (see `StripTrims`). */
  function Strip(s: string): (r: string)
    ensures IsStripped(r)
  {
    var t := TrimStart(s);
    var r := TrimEnd(t);
    assert |r| > 0 ==> r[0] == t[0];
    r
  }

  /** What `Strip` removes is whitespace at the two ends, and only that. */
  lemma StripTrims(s: string)
    ensures IsTrimmingOf(s, Strip(s))
  {
    var i := SkipSpace(s, 0);
    var r := Strip(s);
    StripSlice(s);
    LeadingSpace(s);
    TrailingSpace(s, i);
    assert 0 <= i <= |s| - |r| && r == s[i..i + |r|] && AllSpace(s[..i]) && AllSpace(s[i + |r|..]);
  }

  lemma LeadingSpace(s: string)
    ensures AllSpace(s[..SkipSpace(s, 0)])
  {
    SkipSpaceSkipsSpace(s, 0);
    assert s[0..SkipSpace(s, 0)] == s[..SkipSpace(s, 0)];
  }

  lemma TrailingSpace(s: string, i: nat)
    requires i <= |s|
    ensures AllSpace(s[i + SkipSpaceBack(s[i..], |s| - i)..])
  {
    var t := s[i..];
    var j := SkipSpaceBack(t, |t|);
    SkipSpaceBackSkipsSpace(t, |t|);
    assert t[j..|t|] == s[i + j..];
  }

  /** `Strip(s)` is the slice of `s` between the leading and the trailing whitespace. */
  lemma StripSlice(s: string)
    ensures var i := SkipSpace(s, 0);
      var j := SkipSpaceBack(s[i..], |s| - i);
      i + j <= |s| && Strip(s) == s[i..i + j] && |Strip(s)| == j
  {
    var i := SkipSpace(s, 0);
    var t := s[i..];
    assert Strip(s) == t[..SkipSpaceBack(t, |t|)];
  }

  /** Stripping only removes characters: one absent from `s` is absent from `Strip(s)`. */
  lemma StripKeepsCharsOut(s: string, c: char)
    requires c !in s
    ensures c !in Strip(s)
  {
    var i := SkipSpace(s, 0);
    var t := s[i..];
    var r := Strip(s);
    assert r == t[..SkipSpaceBack(t, |t|)];
    forall k | 0 <= k < |r|
      ensures r[k] != c
    {
      assert r[k] == s[i + k];
    }
  }

  /** Stripping a string that is already stripped changes nothing. */
  lemma StripStripped(s: string)
    requires IsStripped(s)
    ensures Strip(s) == s
  {
  }

  lemma {:induction false} SkipSpacePadded(a: string, t: string, k: nat)
    requires AllSpace(a) && k <= |a|
    requires |t| == 0 || !IsSpace(t[0])
    ensures SkipSpace(a + t, k) == |a|
    decreases |a| - k
  {
    if k < |a| {
      assert (a + t)[k] == a[k];
      SkipSpacePadded(a, t, k + 1);
    } else if |t| > 0 {
      assert (a + t)[k] == t[0];
    }
  }

  lemma {:induction false} SkipSpaceBackPadded(t: string, b: string, k: nat)
    requires AllSpace(b) && |t| <= k <= |t| + |b|
    requires |t| == 0 || !IsSpace(t[|t| - 1])
    ensures SkipSpaceBack(t + b, k) == |t|
    decreases k
  {
    if k > |t| {
      assert (t + b)[k - 1] == b[k - 1 - |t|];
      SkipSpaceBackPadded(t, b, k - 1);
    } else if |t| > 0 {
      assert (t + b)[k - 1] == t[|t| - 1];
    }
  }

  lemma TrimStartPadded(a: string, t: string)
    requires AllSpace(a)
    requires |t| == 0 || !IsSpace(t[0])
    ensures TrimStart(a + t) == t
  {
    SkipSpacePadded(a, t, 0);
    assert (a + t)[|a|..] == t;
  }

  lemma TrimEndPadded(t: string, b: string)
    requires AllSpace(b)
    requires |t| == 0 || !IsSpace(t[|t| - 1])
    ensures TrimEnd(t + b) == t
  {
    SkipSpaceBackPadded(t, b, |t + b|);
    assert (t + b)[..|t|] == t;
  }

  /**
    `Strip` is exactly "remove surrounding whitespace": a stripped core
    padded with any whitespace on either side strips back to that core.
   */
  lemma StripPadded(a: string, core: string, b: string)
    requires AllSpace(a) && AllSpace(b)
    requires IsStripped(core)
    ensures Strip(a + core + b) == core
  {
    if |core| > 0 {
      assert a + core + b == a + (core + b);
      TrimStartPadded(a, core + b);
      TrimEndPadded(core, b);
    } else {
      assert a + core + b == (a + b) + "";
      assert AllSpace(a + b);
      TrimStartPadded(a + b, "");
    }
  }

  // ---------------------------------------------------------------------------
  // Lines
  // ---------------------------------------------------------------------------

  /** `s.split("\n")[0]`: everything before the first line feed. */
  function FirstLine(s: string): (r: string)
    ensures r <= s
    ensures '\n' !in r
    ensures |r| < |s| ==> s[|r|] == '\n'
  {
    if |s| == 0 || s[0] == '\n' then "" else [s[0]] + FirstLine(s[1..])
  }

  // ---------------------------------------------------------------------------
  // Decimal digits
  // ---------------------------------------------------------------------------

  predicate IsDigit(c: char) {
    '0' <= c <= '9'
  }

  predicate AllDigits(s: string) {
    forall i :: 0 <= i < |s| ==> IsDigit(s[i])
  }

  predicate NoDigits(s: string) {
    forall i :: 0 <= i < |s| ==> !IsDigit(s[i])
  }

  function DigitChar(d: nat): (c: char)
    requires d < 10
    ensures IsDigit(c)
  {
    (48 + d) as char
  }

  function DigitValue(c: char): (d: nat)
    requires IsDigit(c)
    ensures d < 10 && DigitChar(d) == c
  {
    c as int - 48
  }

  /** `str(n)` for a non-negative integer: its decimal digits, no leading zero. */
  function NatToString(n: nat): (s: string)
    ensures 0 < |s| && AllDigits(s)
    ensures |s| > 1 ==> s[0] != '0'
    ensures n < 10 <==> |s| == 1
    decreases n
  {
    if n < 10 then [DigitChar(n)] else NatToString(n / 10) + [DigitChar(n % 10)]
  }

  /** `str(i)` for any integer: a minus sign before the digits of a negative one. */
  function IntToString(i: int): (s: string)
    ensures 0 < |s|
    ensures i >= 0 ==> AllDigits(s)
    ensures i < 0 ==> s[0] == '-' && AllDigits(s[1..])
  {
    if i < 0 then "-" + NatToString(-i) else NatToString(i)
  }

  /** `int(s)` for a non-empty string of decimal digits (leading zeros allowed). */
  function DigitsToNat(s: string): nat
    requires AllDigits(s)
  {
    if |s| == 0 then 0 else DigitsToNat(s[..|s| - 1]) * 10 + DigitValue(s[|s| - 1])
  }

  /** `int(str(n)) == n`. */
  lemma {:induction false} DigitsToNatOfNatToString(n: nat)
    ensures DigitsToNat(NatToString(n)) == n
    decreases n
  {
    var s := NatToString(n);
    if n >= 10 {
      assert s[..|s| - 1] == NatToString(n / 10);
      DigitsToNatOfNatToString(n / 10);
    }
  }

  /** `f"{n:02d}"` for a non-negative integer: at least two digits, zero-padded. */
  function Pad2(n: nat): (s: string)
    ensures AllDigits(s) && 2 <= |s|
    ensures n < 100 ==> |s| == 2
    ensures DigitsToNat(s) == n
  {
    DigitsToNatOfNatToString(n);
    if n < 10 then
      var s := "0" + NatToString(n);
      assert s[..1] == "0";
      s
    else
      NatToString(n)
  }

  lemma Pad2Injective(m: nat, n: nat)
    requires Pad2(m) == Pad2(n)
    ensures m == n
  {
  }

  // ---------------------------------------------------------------------------
  // The first run of digits (`re.search(r'\d+', s)`)
  // ---------------------------------------------------------------------------

  /** Index of the first digit at or after `k`, if any. */
  function FirstDigitFrom(s: string, k: nat): (r: Option<nat>)
    requires k <= |s|
    ensures r.None? <==> forall j :: k <= j < |s| ==> !IsDigit(s[j])
    ensures r.Some? ==> k <= r.value < |s| && IsDigit(s[r.value])
    ensures r.Some? ==> forall j :: k <= j < r.value ==> !IsDigit(s[j])
    decreases |s| - k
  {
    if k == |s| then None
    else if IsDigit(s[k]) then Some(k)
    else FirstDigitFrom(s, k + 1)
  }

  /** The longest prefix of `s` made of digits. */
  function DigitPrefix(s: string): (r: string)
    ensures r <= s && AllDigits(r)
    ensures |r| < |s| ==> !IsDigit(s[|r|])
  {
    if |s| == 0 || !IsDigit(s[0]) then "" else [s[0]] + DigitPrefix(s[1..])
  }

  /**
    `run` is the match of `\d+` in `s`, found at `i`: no digit comes before
    `i`, `run` is a non-empty run of digits there, and the character after it,
    if any, is not a digit.
   */
  predicate IsFirstDigitRun(s: string, i: nat, run: string) {
    && i + |run| <= |s|
    && s[i..i + |run|] == run
    && 0 < |run| && AllDigits(run)
    && NoDigits(s[..i])
    && (i + |run| == |s| || !IsDigit(s[i + |run|]))
  }

  /**
    The leftmost, longest run of digits in `s` (what the regular expression
    `\d+` matches), or `None` when `s` has no digit.
   */
  function FirstDigitRun(s: string): (r: Option<string>)
    ensures r.None? <==> forall j :: 0 <= j < |s| ==> !IsDigit(s[j])
  {
    match FirstDigitFrom(s, 0)
    case None => None
    case Some(i) => Some(DigitPrefix(s[i..]))
  }

  /** What `FirstDigitRun` finds is a first run of digits (unique by `FirstDigitRunUnique`). */
  lemma FirstDigitRunIsFirst(s: string)
    ensures FirstDigitRun(s).Some? ==> exists i :: IsFirstDigitRun(s, i, FirstDigitRun(s).value)
  {
    if FirstDigitFrom(s, 0).Some? {
      var i := FirstDigitFrom(s, 0).value;
      var run := DigitPrefix(s[i..]);
      assert s[i..][0] == s[i];
      assert s[i..i + |run|] == run;
      assert i + |run| < |s| ==> s[i + |run|] == s[i..][|run|];
      assert IsFirstDigitRun(s, i, run);
    }
  }

  /** At most one run of digits in `s` is the match of `\d+`. */
  lemma FirstDigitRunUnique(s: string, i: nat, a: string, j: nat, b: string)
    requires IsFirstDigitRun(s, i, a) && IsFirstDigitRun(s, j, b)
    ensures i == j && a == b
  {
    DigitRunPositions(s, i, a);
    DigitRunPositions(s, j, b);
    assert IsDigit(s[i]) && IsDigit(s[j]);
    assert i == j;
    assert |a| == |b|;
  }

  /** Where a match of `\d+` puts digits and non-digits in `s`. */
  lemma DigitRunPositions(s: string, i: nat, run: string)
    requires IsFirstDigitRun(s, i, run)
    ensures forall k :: 0 <= k < i ==> !IsDigit(s[k])
    ensures forall k :: i <= k < i + |run| ==> IsDigit(s[k])
  {
    forall k | 0 <= k < i
      ensures !IsDigit(s[k])
    {
      assert s[..i][k] == s[k];
    }
    forall k | i <= k < i + |run|
      ensures IsDigit(s[k])
    {
      assert s[i..i + |run|][k - i] == s[k];
    }
  }

  /** A digit-free prefix is skipped and a whole digit string followed by nothing is matched. */
  lemma FirstDigitRunAfterText(prefix: string, digits: string)
    requires NoDigits(prefix)
    requires 0 < |digits| && AllDigits(digits)
    ensures FirstDigitRun(prefix + digits) == Some(digits)
  {
    var s := prefix + digits;
    assert IsDigit(s[|prefix|]);
    var i := FirstDigitFrom(s, 0).value;
    assert i == |prefix|;
    assert s[i..] == digits;
    DigitPrefixOfDigits(digits);
  }

  lemma {:induction false} DigitPrefixOfDigits(digits: string)
    requires AllDigits(digits)
    ensures DigitPrefix(digits) == digits
  {
    if |digits| > 0 {
      DigitPrefixOfDigits(digits[1..]);
      assert [digits[0]] + digits[1..] == digits;
    }
  }
}
