/**
  Names of saved run files (`roteiro_YYYYMMDD_HHMMSS.json`), the year read
  back from a name for the year selector, and the filtering of names by a
  chosen year, month and day (`filtrar_por_data`).
 */
module SavedFiles {
  import opened Text

  // ---------------------------------------------------------------------------
  // File names
  // ---------------------------------------------------------------------------

  /** A clock reading, to the second. */
  datatype Timestamp = Timestamp(year: nat, month: nat, day: nat, hour: nat, minute: nat, second: nat)

  /** A reading the clock can give (four-digit years; no leap seconds). */
  predicate ValidTimestamp(t: Timestamp) {
    && 1000 <= t.year <= 9999
    && 1 <= t.month <= 12
    && 1 <= t.day <= 31
    && t.hour < 24
    && t.minute < 60
    && t.second < 60
  }

  const FilePrefix := "roteiro_"

  /** `%Y`: the year's four digits. */
  function Pad4(y: nat): (s: string)
    requires y < 10000
    ensures |s| == 4 && AllDigits(s)
  {
    [DigitChar(y / 1000), DigitChar(y / 100 % 10), DigitChar(y / 10 % 10), DigitChar(y % 10)]
  }

  /** `%Y%m%d`. */
  function DateText(t: Timestamp): (s: string)
    requires ValidTimestamp(t)
    ensures |s| == 8 && AllDigits(s)
  {
    Pad4(t.year) + Pad2(t.month) + Pad2(t.day)
  }

  /** `%H%M%S`. */
  function TimeText(t: Timestamp): (s: string)
    requires ValidTimestamp(t)
    ensures |s| == 6 && AllDigits(s)
  {
    Pad2(t.hour) + Pad2(t.minute) + Pad2(t.second)
  }

  /** The name a run saved at time `t` is written under. */
  function FileName(t: Timestamp): string
    requires ValidTimestamp(t)
  {
    FilePrefix + DateText(t) + "_" + TimeText(t) + ".json"
  }

  /**
    Where the parts of a saved file's name sit: the prefix, then year, month
    and day at fixed positions; no `r` occurs after the prefix.
   */
  lemma FileNameLayout(t: Timestamp)
    requires ValidTimestamp(t)
    ensures var name := FileName(t);
      && |name| == 28
      && name[..8] == FilePrefix
      && name[8..12] == Pad4(t.year)
      && name[12..14] == Pad2(t.month)
      && name[14..16] == Pad2(t.day)
      && AllDigits(name[8..16])
      && forall i :: 8 <= i < |name| ==> name[i] != 'r'
  {
    var name := FileName(t);
    var date := DateText(t);
    assert name == FilePrefix + date + ("_" + TimeText(t) + ".json");
    assert name[8..16] == date;
    assert date[..4] == Pad4(t.year);
    assert date[4..6] == Pad2(t.month);
    assert date[6..8] == Pad2(t.day);
    forall i | 8 <= i < |name|
      ensures name[i] != 'r'
    {
      if i < 16 {
        assert name[i] == date[i - 8];
      } else if i < 23 {
        assert name[i] in "_" + TimeText(t);
      } else {
        assert name[i] == ".json"[i - 23];
      }
    }
  }

  /** `p.name[8:12]`, with Python's clamping of slice bounds to the string. */
  function YearSlice(name: string): (s: string)
    ensures |name| >= 12 ==> s == name[8..12]
    ensures 8 <= |name| < 12 ==> s == name[8..]
    ensures |name| < 8 ==> s == []
  {
    var lo := if |name| < 8 then |name| else 8;
    var hi := if |name| < 12 then |name| else 12;
    name[lo..hi]
  }

  /** The year selector offers, for a saved file, exactly the year it was saved in. */
  lemma YearSliceOfFileName(t: Timestamp)
    requires ValidTimestamp(t)
    ensures YearSlice(FileName(t)) == Pad4(t.year)
  {
    FileNameLayout(t);
  }

  // ---------------------------------------------------------------------------
  // Searching a name for a pattern (`re.search`)
  // ---------------------------------------------------------------------------

  /** A pattern position: a literal character, or `\d` (any ASCII digit). */
  datatype PatternChar = Lit(c: char) | AnyDigit

  predicate Accepts(p: PatternChar, c: char) {
    match p
    case Lit(x) => x == c
    case AnyDigit => IsDigit(c)
  }

  /** A pattern made only of literal characters. */
  function Literal(s: string): (p: seq<PatternChar>)
    ensures |p| == |s|
    ensures forall i :: 0 <= i < |s| ==> p[i] == Lit(s[i])
  {
    seq(|s|, i requires 0 <= i < |s| => Lit(s[i]))
  }

  /** The pattern matches `name` starting at position `k`. */
  predicate MatchesAt(name: string, pat: seq<PatternChar>, k: nat) {
    k + |pat| <= |name| && forall j :: 0 <= j < |pat| ==> Accepts(pat[j], name[k + j])
  }

  function SearchFrom(name: string, pat: seq<PatternChar>, k: nat): (b: bool)
    ensures b <==> exists j :: k <= j <= |name| && MatchesAt(name, pat, j)
    decreases |name| + 1 - k
  {
    if k > |name| then
      false
    else
      var found := MatchesAt(name, pat, k) || SearchFrom(name, pat, k + 1);
      assert MatchesAt(name, pat, k) ==> exists j :: k <= j <= |name| && MatchesAt(name, pat, j);
      found
  }

  /** `re.search(pat, name) is not None`: the pattern matches somewhere in `name`. */
  predicate Search(name: string, pat: seq<PatternChar>) {
    SearchFrom(name, pat, 0)
  }

  lemma MatchesAtConcat(name: string, a: seq<PatternChar>, b: seq<PatternChar>, k: nat)
    ensures MatchesAt(name, a + b, k) <==> MatchesAt(name, a, k) && MatchesAt(name, b, k + |a|)
  {
    if MatchesAt(name, a, k) && MatchesAt(name, b, k + |a|) {
      forall j | 0 <= j < |a + b|
        ensures Accepts((a + b)[j], name[k + j])
      {
        if j >= |a| {
          assert (a + b)[j] == b[j - |a|];
        }
      }
    }
    if MatchesAt(name, a + b, k) {
      forall j | 0 <= j < |a|
        ensures Accepts(a[j], name[k + j])
      {
        assert (a + b)[j] == a[j];
      }
      forall j | 0 <= j < |b|
        ensures Accepts(b[j], name[k + |a| + j])
      {
        assert (a + b)[|a| + j] == b[j];
      }
    }
  }

  lemma LiteralConcat(a: string, b: string)
    ensures Literal(a + b) == Literal(a) + Literal(b)
  {
  }

  lemma MatchesLiteral(name: string, s: string, k: nat)
    ensures MatchesAt(name, Literal(s), k) <==> k + |s| <= |name| && name[k..k + |s|] == s
  {
    if k + |s| <= |name| && name[k..k + |s|] == s {
      forall j | 0 <= j < |s|
        ensures Accepts(Literal(s)[j], name[k + j])
      {
        assert name[k..k + |s|][j] == name[k + j];
      }
    }
  }

  /**
    A pattern that begins with `rot` can only match a saved file's name at
    its start, so searching the name is matching at position 0.
   */
  lemma SearchFileName(t: Timestamp, pat: seq<PatternChar>)
    requires ValidTimestamp(t)
    requires |pat| >= 3 && pat[0] == Lit('r') && pat[1] == Lit('o') && pat[2] == Lit('t')
    ensures Search(FileName(t), pat) <==> MatchesAt(FileName(t), pat, 0)
  {
    var name := FileName(t);
    FileNameLayout(t);
    forall k | 0 < k <= |name|
      ensures !MatchesAt(name, pat, k)
    {
    }
  }

  // ---------------------------------------------------------------------------
  // Filtering by date
  // ---------------------------------------------------------------------------

  /** `xs` keeps some of the elements of `ys`, in their order. */
  predicate IsSubsequence<T(==)>(xs: seq<T>, ys: seq<T>)
    decreases |ys|
  {
    if |xs| == 0 then true
    else if |ys| == 0 then false
    else if xs[0] == ys[0] then IsSubsequence(xs[1..], ys[1..])
    else IsSubsequence(xs, ys[1..])
  }

  /**
    The names in which `pat` matches somewhere, in their original order, each
    as many times as it occurs in `names`.
   */
  function FilterNames(names: seq<string>, pat: seq<PatternChar>): (r: seq<string>)
    ensures IsSubsequence(r, names)
    ensures forall x :: x in r <==> x in names && Search(x, pat)
    ensures forall x :: multiset(r)[x] == if Search(x, pat) then multiset(names)[x] else 0
  {
    if |names| == 0 then
      []
    else
      var rest := FilterNames(names[1..], pat);
      assert forall x :: x in names <==> x == names[0] || x in names[1..];
      assert names == [names[0]] + names[1..];
      if Search(names[0], pat) then
        [names[0]] + rest
      else
        assert |rest| > 0 ==> rest[0] != names[0];
        rest
  }

  /**
    The date text searched for: year, month and day when a day is chosen,
    year and month when only a month is, the year alone otherwise
    (0 stands for "not chosen").
   */
  function DatePattern(year: string, month: nat, day: nat): string {
    if day != 0 then year + Pad2(month) + Pad2(day)
    else if month != 0 then year + Pad2(month)
    else year
  }

  /** `filtrar_por_data`: the names containing `roteiro_` followed by the date text. */
  function FilterByDate(names: seq<string>, year: string, month: nat, day: nat): (r: seq<string>)
    ensures IsSubsequence(r, names)
    ensures forall x :: x in r <==> x in names && Search(x, Literal(FilePrefix + DatePattern(year, month, day)))
    ensures forall x :: multiset(r)[x] == (if Search(x, Literal(FilePrefix + DatePattern(year, month, day))) then multiset(names)[x] else 0)
  {
    FilterNames(names, Literal(FilePrefix + DatePattern(year, month, day)))
  }

  /**
    The search text without a day is the year-and-month text without its
    last two characters, and without a month it is the year itself: each
    choice narrows the previous one.
   */
  lemma DatePatternNarrows(year: string, month: nat, day: nat)
    requires month != 0 && day != 0
    ensures DatePattern(year, month, day) == DatePattern(year, month, 0) + Pad2(day)
    ensures DatePattern(year, month, 0) == DatePattern(year, 0, 0) + Pad2(month)
  {
  }

  /**
    As written, choosing a day but no month searches for the year followed by
    `00` and the day, which no saved file's name contains.
   */
  lemma DayWithoutMonthSelectsNothing(t: Timestamp, year: string, day: nat)
    requires ValidTimestamp(t)
    requires |year| == 4 && day != 0
    ensures FilterByDate([FileName(t)], year, 0, day) == []
  {
    var name := FileName(t);
    var text := FilePrefix + year + Pad2(0) + Pad2(day);
    assert DatePattern(year, 0, day) == year + Pad2(0) + Pad2(day);
    assert FilePrefix + DatePattern(year, 0, day) == text;
    FileNameLayout(t);
    SearchFileName(t, Literal(text));
    MatchesLiteral(name, text, 0);
  }

  /** The day filter as evidently intended: `\d\d` in place of a month that was not chosen. */
  function IntendedPattern(year: string, month: nat, day: nat): seq<PatternChar> {
    Literal(FilePrefix + year) + MonthPart(month, day) + DayPart(day)
  }

  /** The month's two digits when chosen, `\d\d` when only a day is, nothing otherwise. */
  function MonthPart(month: nat, day: nat): seq<PatternChar> {
    if month != 0 then Literal(Pad2(month)) else if day != 0 then [AnyDigit, AnyDigit] else []
  }

  /** The day's two digits when chosen, nothing otherwise. */
  function DayPart(day: nat): seq<PatternChar> {
    if day != 0 then Literal(Pad2(day)) else []
  }

  function FilterByDateIntended(names: seq<string>, year: string, month: nat, day: nat): (r: seq<string>)
    ensures IsSubsequence(r, names)
    ensures forall x :: x in r <==> x in names && Search(x, IntendedPattern(year, month, day))
    ensures forall x :: multiset(r)[x] == if Search(x, IntendedPattern(year, month, day)) then multiset(names)[x] else 0
  {
    FilterNames(names, IntendedPattern(year, month, day))
  }

  /** Wherever a month is chosen, or no day is, the intended filter is the written one. */
  lemma IntendedAgreesWhenMonthChosen(names: seq<string>, year: string, month: nat, day: nat)
    requires month != 0 || day == 0
    ensures FilterByDateIntended(names, year, month, day) == FilterByDate(names, year, month, day)
  {
    IntendedPatternWhenMonthChosen(year, month, day);
  }

  /** Wherever a month is chosen, or no day is, the intended pattern is the written date text. */
  lemma IntendedPatternWhenMonthChosen(year: string, month: nat, day: nat)
    requires month != 0 || day == 0
    ensures IntendedPattern(year, month, day) == Literal(FilePrefix + DatePattern(year, month, day))
  {
    if day != 0 {
      FullDatePattern(year, month, day);
    } else if month != 0 {
      MonthDatePattern(year, month);
    } else {
      YearDatePattern(year);
    }
  }

  lemma FullDatePattern(year: string, month: nat, day: nat)
    requires month != 0 && day != 0
    ensures IntendedPattern(year, month, day) == Literal(FilePrefix + DatePattern(year, month, day))
  {
    var head := FilePrefix + year;
    assert FilePrefix + DatePattern(year, month, day) == head + Pad2(month) + Pad2(day);
    LiteralConcat(head, Pad2(month));
    LiteralConcat(head + Pad2(month), Pad2(day));
  }

  lemma MonthDatePattern(year: string, month: nat)
    requires month != 0
    ensures IntendedPattern(year, month, 0) == Literal(FilePrefix + DatePattern(year, month, 0))
  {
    var head := FilePrefix + year;
    assert FilePrefix + DatePattern(year, month, 0) == head + Pad2(month);
    LiteralConcat(head, Pad2(month));
    assert IntendedPattern(year, month, 0) == Literal(head) + Literal(Pad2(month)) + [];
  }

  lemma YearDatePattern(year: string)
    ensures IntendedPattern(year, 0, 0) == Literal(FilePrefix + DatePattern(year, 0, 0))
  {
    assert IntendedPattern(year, 0, 0) == Literal(FilePrefix + year) + [] + [];
  }

  /** The fixed part of the pattern matches a saved file's name exactly when the year is the file's. */
  lemma HeadMatches(t: Timestamp, year: string)
    requires ValidTimestamp(t)
    requires |year| == 4
    ensures MatchesAt(FileName(t), Literal(FilePrefix + year), 0) <==> year == Pad4(t.year)
  {
    var name := FileName(t);
    FileNameLayout(t);
    MatchesLiteral(name, FilePrefix + year, 0);
    assert name[..12] == FilePrefix + Pad4(t.year);
    if name[..12] == FilePrefix + year {
      assert year == name[..12][8..];
    }
  }

  /** A two-digit literal at `k` matches exactly the number written there. */
  lemma Pad2Matches(name: string, n: nat, m: nat, k: nat)
    requires k + 2 <= |name| && name[k..k + 2] == Pad2(m)
    requires n < 100 && m < 100
    ensures MatchesAt(name, Literal(Pad2(n)), k) <==> n == m
  {
    MatchesLiteral(name, Pad2(n), k);
    if Pad2(n) == Pad2(m) {
      Pad2Injective(n, m);
    }
  }

  /**
    The intended filter keeps a saved file exactly when its year is the
    chosen year and its month and day are the chosen ones, where chosen.
   */
  lemma IntendedSelectsByDate(t: Timestamp, year: string, month: nat, day: nat)
    requires ValidTimestamp(t)
    requires |year| == 4 && month < 100 && day < 100
    ensures Search(FileName(t), IntendedPattern(year, month, day))
      <==> year == Pad4(t.year) && (month == 0 || month == t.month) && (day == 0 || day == t.day)
  {
    var name := FileName(t);
    var head := Literal(FilePrefix + year);
    var mid := MonthPart(month, day);
    var tail := DayPart(day);
    var pat := head + mid + tail;
    assert |head| == 12 && head[0] == Lit('r') && head[1] == Lit('o') && head[2] == Lit('t');
    assert pat[0] == head[0] && pat[1] == head[1] && pat[2] == head[2];
    SearchFileName(t, pat);
    MatchesAtConcat(name, head + mid, tail, 0);
    MatchesAtConcat(name, head, mid, 0);
    assert Search(name, pat) <==>
      MatchesAt(name, head, 0) && MatchesAt(name, mid, 12) && MatchesAt(name, tail, 12 + |mid|);
    HeadMatches(t, year);
    MonthPartMatches(t, month, day);
    DayPartMatches(t, month, day);
  }

  /** The month part matches right after the year exactly when no month is chosen or it is the file's. */
  lemma MonthPartMatches(t: Timestamp, month: nat, day: nat)
    requires ValidTimestamp(t)
    requires month < 100
    ensures MatchesAt(FileName(t), MonthPart(month, day), 12) <==> month == 0 || month == t.month
  {
    var name := FileName(t);
    FileNameLayout(t);
    if month != 0 {
      Pad2Matches(name, month, t.month, 12);
    } else if day != 0 {
      assert name[12] == name[8..16][4] && name[13] == name[8..16][5];
    }
  }

  /** The day part matches after the month part exactly when no day is chosen or it is the file's. */
  lemma DayPartMatches(t: Timestamp, month: nat, day: nat)
    requires ValidTimestamp(t)
    requires month < 100 && day < 100
    ensures MatchesAt(FileName(t), DayPart(day), 12 + |MonthPart(month, day)|) <==> day == 0 || day == t.day
  {
    var name := FileName(t);
    FileNameLayout(t);
    if day != 0 {
      assert |MonthPart(month, day)| == 2;
      Pad2Matches(name, day, t.day, 14);
    } else {
      assert DayPart(day) == [];
      assert 12 + |MonthPart(month, day)| <= |name|;
    }
  }

  /** A saved file passes the written filter for its own year, month and day. */
  lemma OwnDateSelected(t: Timestamp)
    requires ValidTimestamp(t)
    ensures var name := FileName(t);
      && FilterByDate([name], YearSlice(name), 0, 0) == [name]
      && FilterByDate([name], YearSlice(name), t.month, 0) == [name]
      && FilterByDate([name], YearSlice(name), t.month, t.day) == [name]
  {
    var name := FileName(t);
    YearSliceOfFileName(t);
    var year := YearSlice(name);
    IntendedSelectsByDate(t, year, 0, 0);
    IntendedSelectsByDate(t, year, t.month, 0);
    IntendedSelectsByDate(t, year, t.month, t.day);
    IntendedAgreesWhenMonthChosen([name], year, 0, 0);
    IntendedAgreesWhenMonthChosen([name], year, t.month, 0);
    IntendedAgreesWhenMonthChosen([name], year, t.month, t.day);
  }
}
