/**
 * `parse_nrel_date` (updates.py): the regular expression
 * `(\w+\.?)\s+(\d{1,2}),\s+(\d{4})` applied with `re.match` (anchored at the
 * start only), NREL's month table and the `date(...)` constructor.
 */
module NrelDate {
  import opened Wrappers
  import opened Calendar

  /** `\w` restricted to ASCII: letters, digits and underscore. */
  predicate IsWordChar(c: char) {
    'a' <= c <= 'z' || 'A' <= c <= 'Z' || '0' <= c <= '9' || c == '_'
  }

  /** `\d` restricted to ASCII. */
  predicate IsDigit(c: char) {
    '0' <= c <= '9'
  }

  /** Python's whitespace (`str.isspace`, regex `\s`): the full set. */
  predicate IsSpace(c: char) {
    '\t' <= c <= '\r' || '\U{1C}' <= c <= ' ' || c == '\U{85}' || c == '\U{A0}'
    || c == '\U{1680}' || '\U{2000}' <= c <= '\U{200A}' || c == '\U{2028}'
    || c == '\U{2029}' || c == '\U{202F}' || c == '\U{205F}' || c == '\U{3000}'
  }

  predicate AllDigits(s: string) {
    forall k :: 0 <= k < |s| ==> IsDigit(s[k])
  }

  predicate AllSpaces(s: string) {
    forall k :: 0 <= k < |s| ==> IsSpace(s[k])
  }

  /** What `\w+` matches: one or more word characters. */
  predicate IsWord(w: string) {
    |w| > 0 && WordRun(w) == |w|
  }

  /** What `\w+\.?` matches: a word and an optional period. */
  predicate IsMonthToken(t: string) {
    IsWord(t) || (|t| > 1 && t[|t| - 1] == '.' && IsWord(t[..|t| - 1]))
  }

  /** What `\s+` matches. */
  predicate IsGap(g: string) {
    |g| > 0 && SpaceRun(g) == |g|
  }

  /** What `\d{1,2}` matches. */
  predicate IsDayDigits(s: string) {
    1 <= |s| <= 2 && AllDigits(s)
  }

  /** What `\d{4}` matches. */
  predicate IsYearDigits(s: string) {
    |s| == 4 && AllDigits(s)
  }

  /** `int(s)` for a string of ASCII digits. */
  function DigitsValue(s: string): (n: nat)
    requires AllDigits(s)
  {
    if s == [] then 0
    else 10 * DigitsValue(s[..|s| - 1]) + (s[|s| - 1] as int - '0' as int)
  }

  /** Number of leading characters of `s` satisfying the run's class. */
  function WordRun(s: string): (n: nat)
    ensures n <= |s|
    ensures forall k :: 0 <= k < n ==> IsWordChar(s[k])
    ensures n < |s| ==> !IsWordChar(s[n])
  {
    if s == [] || !IsWordChar(s[0]) then 0 else 1 + WordRun(s[1..])
  }

  function SpaceRun(s: string): (n: nat)
    ensures n <= |s|
    ensures forall k :: 0 <= k < n ==> IsSpace(s[k])
    ensures n < |s| ==> !IsSpace(s[n])
  {
    if s == [] || !IsSpace(s[0]) then 0 else 1 + SpaceRun(s[1..])
  }

  function TrailingSpaces(s: string): (n: nat)
    ensures n <= |s|
    ensures forall k :: |s| - n <= k < |s| ==> IsSpace(s[k])
    ensures n < |s| ==> !IsSpace(s[|s| - 1 - n])
  {
    if s == [] || !IsSpace(s[|s| - 1]) then 0 else 1 + TrailingSpaces(s[..|s| - 1])
  }

  /** `str.strip()`: `s` without its leading and trailing whitespace. */
  function Strip(s: string): (r: string)
    ensures |r| <= |s|
    ensures |r| > 0 ==> !IsSpace(r[0]) && !IsSpace(r[|r| - 1])
  {
    var i := SpaceRun(s);
    var t := s[i..];
    var m := TrailingSpaces(t);
    t[..|t| - m]
  }

  /** What `Strip` removes is whitespace only, and what it keeps is one contiguous piece of `s`. */
  lemma StripIsTrim(s: string)
    ensures var r := Strip(s);
      exists i :: (0 <= i && i + |r| <= |s| && r == s[i..i + |r|]
        && AllSpaces(s[..i]) && AllSpaces(s[i + |r|..]))
  {
    var i := SpaceRun(s);
    var t := s[i..];
    var m := TrailingSpaces(t);
    assert Strip(s) == t[..|t| - m];
    StripPieces(s, i, t, m);
  }

  /** Cutting `i` leading spaces, then `m` trailing ones, leaves a slice flanked by spaces only. */
  lemma StripPieces(s: string, i: nat, t: string, m: nat)
    requires i <= |s| && t == s[i..] && m <= |t|
    requires forall k :: 0 <= k < i ==> IsSpace(s[k])
    requires forall k :: |t| - m <= k < |t| ==> IsSpace(t[k])
    ensures var r := t[..|t| - m];
      exists j :: (0 <= j && j + |r| <= |s| && r == s[j..j + |r|]
        && AllSpaces(s[..j]) && AllSpaces(s[j + |r|..]))
  {
    var r := t[..|t| - m];
    assert r == s[i..i + |r|];
    var u := s[i + |r|..];
    forall k | 0 <= k < |u| ensures IsSpace(u[k]) {
      assert u[k] == t[|t| - m + k];
    }
    assert AllSpaces(s[..i]) && AllSpaces(u);
  }

  /**
   * A successful `re.match`: the three groups, the two whitespace runs
   * between them and the text after the match, which the pattern ignores.
   */
  datatype DateMatch = DateMatch(month: string, gap1: string, day: string, gap2: string, year: string, rest: string)

  lemma SplitAt(s: string, i: nat)
    requires i <= |s|
    ensures s == s[..i] + s[i..]
  {
  }

  lemma SplitAround(s: string, i: nat)
    requires i < |s|
    ensures s == s[..i] + ([s[i]] + s[i + 1..])
  {
    assert s[i..] == [s[i]] + s[i + 1..];
  }

  /** `\d{4}` followed by anything: the year group and the unmatched rest. */
  function MatchYear(s: string): (r: Option<(string, string)>)
    ensures r.Some? ==> s == r.value.0 + r.value.1 && IsYearDigits(r.value.0)
  {
    if |s| >= 4 && AllDigits(s[..4]) then Some((s[..4], s[4..])) else None
  }

  /** `\s+` and then the year. */
  function MatchGapYear(s: string): (r: Option<(string, string, string)>)
    ensures r.Some? ==> s == r.value.0 + (r.value.1 + r.value.2) && IsGap(r.value.0) && IsYearDigits(r.value.1)
  {
    var g := SpaceRun(s);
    if g == 0 then None
    else match MatchYear(s[g..])
      case None => None
      case Some((year, rest)) =>
        assert s == s[..g] + s[g..];
        Some((s[..g], year, rest))
  }

  /** `\d{1,2},`: two digits when a comma follows them, else one; backtracking finds no other split. */
  function MatchDay(s: string): (d: nat)
    ensures d <= 2 && (d > 0 ==> d < |s| && IsDayDigits(s[..d]) && s[d] == ',')
    ensures d == 0 ==> forall k :: 1 <= k <= 2 && k < |s| ==> !(IsDayDigits(s[..k]) && s[k] == ',')
  {
    if |s| >= 3 && IsDigit(s[0]) && IsDigit(s[1]) && s[2] == ',' then 2
    else if |s| >= 2 && IsDigit(s[0]) && s[1] == ',' then 1
    else 0
  }

  /** Everything after the month token: `\s+(\d{1,2}),\s+(\d{4})`. */
  function MatchAfterMonth(s: string): (r: Option<(string, string, string, string, string)>)
    ensures r.Some? ==>
      var (gap1, day, gap2, year, rest) := r.value;
      s == gap1 + (day + ("," + (gap2 + (year + rest))))
      && IsGap(gap1) && IsDayDigits(day) && IsGap(gap2) && IsYearDigits(year)
  {
    var g := SpaceRun(s);
    if g == 0 then None
    else
      var s2 := s[g..];
      var d := MatchDay(s2);
      if d == 0 then None
      else match MatchGapYear(s2[d + 1..])
        case None => None
        case Some((gap2, year, rest)) =>
          SplitAround(s2, d);
          SplitAt(s, g);
          Some((s[..g], s2[..d], gap2, year, rest))
  }

  /**
   * The length of the `\w+\.?` token at the start of `s` (0: no match). The
   * token is maximal: unless it already ends in a period, what follows it is
   * neither a word character nor a period.
   */
  function MatchMonth(s: string): (t: nat)
    ensures t <= |s| && (t > 0 ==> IsMonthToken(s[..t]))
    ensures t == 0 <==> s == [] || !IsWordChar(s[0])
    ensures 0 < t < |s| && s[t - 1] != '.' ==> !IsWordChar(s[t]) && s[t] != '.'
  {
    var w := WordRun(s);
    if w == 0 then 0
    else if w < |s| && s[w] == '.' then w + 1
    else w
  }

  /** The regular expression, applied at position 0 of `s`. */
  function MatchDate(s: string): (r: Option<DateMatch>)
    ensures r.Some? ==>
      var m := r.value;
      s == m.month + (m.gap1 + (m.day + ("," + (m.gap2 + (m.year + m.rest)))))
      && IsMonthToken(m.month) && IsGap(m.gap1) && IsDayDigits(m.day)
      && IsGap(m.gap2) && IsYearDigits(m.year)
  {
    var t := MatchMonth(s);
    if t == 0 then None
    else
      var tail := s[t..];
      SplitAt(s, t);
      var after := MatchAfterMonth(tail);
      if after.None? then None
      else
        var (gap1, day, gap2, year, rest) := after.value;
        assert tail == gap1 + (day + ("," + (gap2 + (year + rest))));
        assert IsGap(gap1) && IsDayDigits(day) && IsGap(gap2) && IsYearDigits(year);
        assert IsMonthToken(s[..t]);
        Some(DateMatch(s[..t], gap1, day, gap2, year, rest))
  }

  /** NREL's month table: May, June and July carry no period, September is "Sept.". */
  const Months: map<string, int> := map[
    "Jan." := 1, "Feb." := 2, "Mar." := 3, "Apr." := 4, "May" := 5, "June" := 6,
    "July" := 7, "Aug." := 8, "Sept." := 9, "Oct." := 10, "Nov." := 11, "Dec." := 12]

  /** The key of the month table for month `m`. */
  function MonthKey(m: int): (k: string)
    requires 1 <= m <= 12
    ensures k in Months && Months[k] == m
  {
    if m == 1 then "Jan." else if m == 2 then "Feb." else if m == 3 then "Mar."
    else if m == 4 then "Apr." else if m == 5 then "May" else if m == 6 then "June"
    else if m == 7 then "July" else if m == 8 then "Aug." else if m == 9 then "Sept."
    else if m == 10 then "Oct." else if m == 11 then "Nov." else "Dec."
  }

  /**
   * The table has one key per month: every entry is a month number, and it
   * is the entry `MonthKey` gives for that month.
   */
  lemma MonthTableEntry(k: string)
    requires k in Months
    ensures 1 <= Months[k] <= 12 && MonthKey(Months[k]) == k
  {
  }

  /**
   * How `parse_nrel_date` fails. `NoMatch` and `InvalidDate` are the two
   * ValueErrors (no regex match; `date()` rejecting year, month or day);
   * `UnknownMonth` is the KeyError of the month-table lookup.
   */
  datatype ParseError = NoMatch | InvalidDate | UnknownMonth(token: string) {
    predicate IsValueError() {
      NoMatch? || InvalidDate?
    }
  }

  /**
   * `parse_nrel_date`. The arguments of `date(int(year), months[month],
   * int(day))` are evaluated left to right, so an unknown month token raises
   * KeyError even when the day or year would also be rejected.
   */
  function ParseNrelDate(s: string): (r: Result<Date, ParseError>)
    ensures r.Success? ==> IsValidDate(r.value)
    ensures r.Success? ==>
      MatchDate(s).Some?
      && var m := MatchDate(s).value;
      m.month in Months && r.value.month == Months[m.month]
      && r.value.day == DigitsValue(m.day) && r.value.year == DigitsValue(m.year)
    ensures r == Failure(NoMatch) <==> MatchDate(s).None?
    ensures r.Failure? && r.error.UnknownMonth? <==> MatchDate(s).Some? && MatchDate(s).value.month !in Months
  {
    match MatchDate(s)
    case None => Failure(NoMatch)
    case Some(m) =>
      var year := DigitsValue(m.year);
      if m.month !in Months then Failure(UnknownMonth(m.month))
      else
        var d := Date(year, Months[m.month], DigitsValue(m.day));
        if IsValidDate(d) then Success(d) else Failure(InvalidDate)
  }

  /**
   * Completeness of the pattern: text made of a month token, whitespace, one
   * or two digits, a comma, whitespace and four digits matches, whatever
   * follows it, and the groups are exactly those parts.
   */
  lemma MatchWellFormed(month: string, gap1: string, day: string, gap2: string, year: string, rest: string)
    requires IsMonthToken(month) && IsGap(gap1) && IsDayDigits(day) && IsGap(gap2) && IsYearDigits(year)
    ensures MatchDate(month + gap1 + day + "," + gap2 + year + rest) == Some(DateMatch(month, gap1, day, gap2, year, rest))
  {
    var tail := gap1 + (day + ("," + (gap2 + (year + rest))));
    var s := month + tail;
    JoinSeven(month, gap1, day, ",", gap2, year, rest);
    var w := if month[|month| - 1] == '.' then |month| - 1 else |month|;
    WordRunOfPrefix(s, w);
    assert MatchMonth(s) == |month|;
    assert s[..|month|] == month && s[|month|..] == tail;
    MatchAfterMonthWellFormed(gap1, day, gap2, year, rest);
  }

  lemma JoinSeven(a: string, b: string, c: string, d: string, e: string, f: string, g: string)
    ensures a + (b + (c + (d + (e + (f + g))))) == a + b + c + d + e + f + g
  {
    assert e + (f + g) == e + f + g;
    assert d + (e + f + g) == d + e + f + g;
    assert c + (d + e + f + g) == c + d + e + f + g;
    assert b + (c + d + e + f + g) == b + c + d + e + f + g;
  }

  lemma MatchAfterMonthWellFormed(gap1: string, day: string, gap2: string, year: string, rest: string)
    requires IsGap(gap1) && IsDayDigits(day) && IsGap(gap2) && IsYearDigits(year)
    ensures MatchAfterMonth(gap1 + (day + ("," + (gap2 + (year + rest))))) == Some((gap1, day, gap2, year, rest))
  {
    var after := gap2 + (year + rest);
    var s2 := day + ("," + after);
    var s := gap1 + s2;
    SpaceRunOfPrefix(s, |gap1|);
    assert s[..|gap1|] == gap1 && s[|gap1|..] == s2;
    assert MatchDay(s2) == |day|;
    assert s2[..|day|] == day && s2[|day| + 1..] == after;
    MatchGapYearWellFormed(gap2, year, rest);
  }

  lemma MatchGapYearWellFormed(gap2: string, year: string, rest: string)
    requires IsGap(gap2) && IsYearDigits(year)
    ensures MatchGapYear(gap2 + (year + rest)) == Some((gap2, year, rest))
  {
    var s := gap2 + (year + rest);
    SpaceRunOfPrefix(s, |gap2|);
    assert s[..|gap2|] == gap2 && s[|gap2|..] == year + rest;
    assert (year + rest)[..4] == year && (year + rest)[4..] == rest;
  }

  lemma {:induction false} WordRunOfPrefix(s: string, n: nat)
    requires n <= |s| && (forall k :: 0 <= k < n ==> IsWordChar(s[k])) && (n < |s| ==> !IsWordChar(s[n]))
    ensures WordRun(s) == n
  {
    if n > 0 {
      WordRunOfPrefix(s[1..], n - 1);
    }
  }

  lemma {:induction false} SpaceRunOfPrefix(s: string, n: nat)
    requires n <= |s| && (forall k :: 0 <= k < n ==> IsSpace(s[k])) && (n < |s| ==> !IsSpace(s[n]))
    ensures SpaceRun(s) == n
  {
    if n > 0 {
      SpaceRunOfPrefix(s[1..], n - 1);
    }
  }

  lemma MonthWordToken(w: string, period: bool)
    requires |w| > 0 && forall i :: 0 <= i < |w| ==> IsWordChar(w[i])
    ensures IsMonthToken(if period then w + "." else w)
  {
    WordRunOfPrefix(w, |w|);
    if period {
      assert (w + ".")[..|w|] == w;
    }
  }

  /** Every key of the month table is something `\w+\.?` matches. */
  lemma MonthKeysAreTokens(k: string)
    requires k in Months
    ensures IsMonthToken(k)
  {
    if Months[k] <= 6 {
      FirstHalfKeysAreTokens(k);
    } else {
      SecondHalfKeysAreTokens(k);
    }
  }

  lemma FirstHalfKeysAreTokens(k: string)
    requires k in Months && Months[k] <= 6
    ensures IsMonthToken(k)
  {
    if k == "Jan." {
      MonthWordToken("Jan", true);
      assert "Jan" + "." == "Jan.";
    } else if k == "Feb." {
      MonthWordToken("Feb", true);
      assert "Feb" + "." == "Feb.";
    } else if k == "Mar." {
      MonthWordToken("Mar", true);
      assert "Mar" + "." == "Mar.";
    } else if k == "Apr." {
      MonthWordToken("Apr", true);
      assert "Apr" + "." == "Apr.";
    } else if k == "May" {
      MonthWordToken("May", false);
    } else {
      assert k == "June";
      MonthWordToken("June", false);
    }
  }

  lemma SecondHalfKeysAreTokens(k: string)
    requires k in Months && Months[k] > 6
    ensures IsMonthToken(k)
  {
    if k == "July" {
      MonthWordToken("July", false);
    } else if k == "Aug." {
      MonthWordToken("Aug", true);
      assert "Aug" + "." == "Aug.";
    } else if k == "Sept." {
      MonthWordToken("Sept", true);
      assert "Sept" + "." == "Sept.";
    } else if k == "Oct." {
      MonthWordToken("Oct", true);
      assert "Oct" + "." == "Oct.";
    } else if k == "Nov." {
      MonthWordToken("Nov", true);
      assert "Nov" + "." == "Nov.";
    } else {
      assert k == "Dec.";
      MonthWordToken("Dec", true);
      assert "Dec" + "." == "Dec.";
    }
  }

  /**
   * `Month D, YYYY` with a month from the table parses to that month, day
   * and year when they form a date, and raises ValueError otherwise.
   */
  lemma ParseWellFormed(month: string, gap1: string, day: string, gap2: string, year: string, rest: string)
    requires month in Months && IsGap(gap1) && IsDayDigits(day) && IsGap(gap2) && IsYearDigits(year)
    ensures var d := Date(DigitsValue(year), Months[month], DigitsValue(day));
      ParseNrelDate(month + gap1 + day + "," + gap2 + year + rest)
        == if IsValidDate(d) then Success(d) else Failure(InvalidDate)
  {
    MonthKeysAreTokens(month);
    MatchWellFormed(month, gap1, day, gap2, year, rest);
  }

  /** A matched token missing from the table is a KeyError, never a ValueError. */
  lemma ParseUnknownMonth(month: string, gap1: string, day: string, gap2: string, year: string, rest: string)
    requires IsMonthToken(month) && month !in Months
    requires IsGap(gap1) && IsDayDigits(day) && IsGap(gap2) && IsYearDigits(year)
    ensures ParseNrelDate(month + gap1 + day + "," + gap2 + year + rest) == Failure(UnknownMonth(month))
  {
    MatchWellFormed(month, gap1, day, gap2, year, rest);
  }

  /** The day as NREL writes it: no leading zero. */
  function DayText(day: int): (s: string)
    requires 1 <= day <= 31
    ensures IsDayDigits(s) && DigitsValue(s) == day
  {
    if day < 10 then
      assert [Digit(day)][..0] == [];
      [Digit(day)]
    else
      var s := [Digit(day / 10), Digit(day % 10)];
      assert s[..1] == [Digit(day / 10)] && s[..1][..0] == [];
      assert DigitsValue(s[..1]) == day / 10;
      assert DigitsValue(s) == 10 * (day / 10) + day % 10;
      s
  }

  /** A four-digit, zero-padded year. */
  function YearText(year: int): (s: string)
    requires 0 <= year <= 9999
    ensures IsYearDigits(s) && DigitsValue(s) == year
  {
    var q1 := year / 10;
    var q2 := q1 / 10;
    var q3 := q2 / 10;
    var s := [Digit(q3), Digit(q2 % 10), Digit(q1 % 10), Digit(year % 10)];
    FourDigitsValue(s);
    s
  }

  /** `int(s)` of four digits, written out positionally. */
  lemma FourDigitsValue(s: string)
    requires |s| == 4 && AllDigits(s)
    ensures DigitsValue(s) == 1000 * (s[0] as int - '0' as int) + 100 * (s[1] as int - '0' as int)
      + 10 * (s[2] as int - '0' as int) + (s[3] as int - '0' as int)
  {
    var d0, d1, d2 := s[0] as int - '0' as int, s[1] as int - '0' as int, s[2] as int - '0' as int;
    assert DigitsValue(s[..1]) == d0 by {
      assert s[..1][..0] == [];
    }
    assert DigitsValue(s[..2]) == 10 * d0 + d1 by {
      assert s[..2][..1] == s[..1];
    }
    assert DigitsValue(s[..3]) == 100 * d0 + 10 * d1 + d2 by {
      assert s[..3][..2] == s[..2];
    }
    assert s[..4] == s;
  }

  function Digit(n: int): (c: char)
    requires 0 <= n <= 9
    ensures IsDigit(c) && c as int - '0' as int == n
  {
    ('0' as int + n) as char
  }

  /** A date written the way NREL lists it, e.g. "Mar. 5, 2024". */
  function FormatNrelDate(d: Date): string
    requires IsValidDate(d)
  {
    MonthKey(d.month) + " " + DayText(d.day) + "," + " " + YearText(d.year)
  }

  /** Every date written in NREL's format parses back to itself. */
  lemma ParseFormatRoundTrip(d: Date)
    requires IsValidDate(d)
    ensures ParseNrelDate(FormatNrelDate(d)) == Success(d)
  {
    ParseWellFormed(MonthKey(d.month), " ", DayText(d.day), " ", YearText(d.year), "");
    assert FormatNrelDate(d) == MonthKey(d.month) + " " + DayText(d.day) + "," + " " + YearText(d.year) + "";
  }
}
