/**
 * Lemmas that prove the model's result on concrete inputs: date strings as
 * NREL prints them, and a small NREL listing whose second page ends the scan
 * with an older article.
 *
 * Each date lemma takes its string as a parameter pinned by
 * `requires s == "<literal>"` rather than writing the literal in the
 * ensures: the verifier then reasons about `s` through the decompositions
 * the body asserts, instead of unfolding the parser on the literal eagerly.
 */
module DateScenarios {
  import opened Wrappers
  import opened Calendar
  import opened NrelDate
  import opened Pagination
  import opened Sources

  /** A string assembled from well-formed pieces parses to the date those pieces name. */
  lemma ParsesAs(s: string, month: string, gap1: string, day: string, gap2: string, year: string, rest: string, d: Date)
    requires s == month + gap1 + day + "," + gap2 + year + rest
    requires month in Months && IsGap(gap1) && IsDayDigits(day) && IsGap(gap2) && IsYearDigits(year)
    requires Months[month] == d.month && DigitsValue(day) == d.day && DigitsValue(year) == d.year
    ensures ParseNrelDate(s) == if IsValidDate(d) then Success(d) else Failure(InvalidDate)
  {
    ParseWellFormed(month, gap1, day, gap2, year, rest);
  }

  lemma DayFive()
    ensures IsDayDigits("5") && DigitsValue("5") == 5
  {
    assert "5"[..0] == [];
  }

  lemma DayThirty()
    ensures IsDayDigits("30") && DigitsValue("30") == 30
  {
    assert "30"[..1] == "3" && "3"[..0] == [];
  }

  lemma Year2023()
    ensures IsYearDigits("2023") && DigitsValue("2023") == 2023
  {
    FourDigitsValue("2023");
  }

  lemma Year2024()
    ensures IsYearDigits("2024") && DigitsValue("2024") == 2024
  {
    FourDigitsValue("2024");
  }

  lemma ParsesMarchFifth(s: string)
    requires s == "Mar. 5, 2024"
    ensures ParseNrelDate(s) == Success(Date(2024, 3, 5))
  {
    assert s == "Mar." + " " + "5" + "," + " " + "2024" + "";
    DayFive();
    Year2024();
    assert IsGap(" ") && Months["Mar."] == 3 && IsValidDate(Date(2024, 3, 5));
    ParsesAs(s, "Mar.", " ", "5", " ", "2024", "", Date(2024, 3, 5));
  }

  /** September is the one four-letter abbreviation; what follows the year is ignored. */
  lemma ParsesSeptemberWithTrailingText(s: string)
    requires s == "Sept. 30, 2023 | News Release"
    ensures ParseNrelDate(s) == Success(Date(2023, 9, 30))
  {
    SeptemberPieces(s);
    DayThirty();
    Year2023();
    assert IsGap(" ") && Months["Sept."] == 9 && IsValidDate(Date(2023, 9, 30));
    ParsesAs(s, "Sept.", " ", "30", " ", "2023", " | News Release", Date(2023, 9, 30));
  }

  lemma SeptemberPieces(s: string)
    requires s == "Sept. 30, 2023 | News Release"
    ensures s == "Sept." + " " + "30" + "," + " " + "2023" + " | News Release"
  {
  }

  /** The pattern matches, the day does not exist: ValueError. */
  lemma RejectsFebruaryThirtieth(s: string)
    requires s == "Feb. 30, 2024"
    ensures ParseNrelDate(s) == Failure(InvalidDate)
  {
    assert s == "Feb." + " " + "30" + "," + " " + "2024" + "";
    DayThirty();
    Year2024();
    assert IsGap(" ") && Months["Feb."] == 2 && !IsValidDate(Date(2024, 2, 30));
    ParsesAs(s, "Feb.", " ", "30", " ", "2024", "", Date(2024, 2, 30));
  }

  /** `Sep.` matches the pattern but is not in the table (which has `Sept.`): KeyError. */
  lemma RejectsSep(s: string)
    requires s == "Sep. 5, 2024"
    ensures ParseNrelDate(s) == Failure(UnknownMonth("Sep."))
  {
    assert s == "Sep." + " " + "5" + "," + " " + "2024" + "";
    DayFive();
    Year2024();
    assert "Sep."[..3] == "Sep";
    WordRunOfPrefix("Sep", 3);
    assert IsGap(" ");
    ParseUnknownMonth("Sep.", " ", "5", " ", "2024", "");
  }

  /** March without its period is not in the table either: KeyError. */
  lemma RejectsMarWithoutPeriod(s: string)
    requires s == "Mar 5, 2024"
    ensures ParseNrelDate(s) == Failure(UnknownMonth("Mar"))
  {
    assert s == "Mar" + " " + "5" + "," + " " + "2024" + "";
    DayFive();
    Year2024();
    WordRunOfPrefix("Mar", 3);
    assert IsGap(" ");
    ParseUnknownMonth("Mar", " ", "5", " ", "2024", "");
  }
}

module NrelScenario {
  import opened Wrappers
  import opened Calendar
  import opened NrelDate
  import opened Pagination
  import opened Sources

  lemma StripUnpadded(s: string)
    requires |s| > 0 && !IsSpace(s[0]) && !IsSpace(s[|s| - 1])
    ensures Strip(s) == s
  {
    assert SpaceRun(s) == 0;
    assert s[0..] == s;
    assert TrailingSpaces(s) == 0;
  }

  lemma StripFormatted(d: Date)
    requires IsValidDate(d)
    ensures Strip(FormatNrelDate(d)) == FormatNrelDate(d)
  {
    var key := MonthKey(d.month);
    var s := FormatNrelDate(d);
    MonthKeysAreTokens(key);
    assert IsWordChar(key[0]) by {
      if !IsWord(key) {
        assert IsWord(key[..|key| - 1]);
        assert WordRun(key[..|key| - 1]) > 0;
      }
    }
    assert s[0] == key[0];
    var year := YearText(d.year);
    assert s == (key + " " + DayText(d.day) + "," + " ") + year;
    assert s[|s| - 1] == year[3];
    StripUnpadded(s);
  }

  /** An NREL container dated `d` (written as NREL writes dates) with a linked title. */
  function Item(d: Date, title: string, path: string): NrelItem
    requires IsValidDate(d)
  {
    NrelItem(Some(FormatNrelDate(d)), Some(Heading(title, Href(path))))
  }

  lemma ItemStep(start: Date, end: Date, d: Date, title: string, path: string)
    requires IsValidDate(d) && |title| > 0 && !IsSpace(title[0]) && !IsSpace(title[|title| - 1])
    ensures NrelStep(start, end)(Item(d, title, path)) ==
      if NotAfter(start, d) && NotAfter(d, end) then Keep(Article(title, NrelDomain + path, NrelLabel))
      else if Before(d, start) then Stop
      else Skip
  {
    StripFormatted(d);
    ParseFormatRoundTrip(d);
    StripUnpadded(title);
  }

  lemma ScanKeepKeep<C>(x: C, y: C, step: C -> Step)
    requires step(x).Keep? && step(y).Keep?
    ensures ScanPage([x, y], step) == PageScan([step(x).article, step(y).article], Continue)
  {
    assert [x, y][1..] == [y] && [y][1..] == [];
    assert ScanPage([y], step) == PageScan([step(y).article], Continue);
  }

  lemma ScanKeepStop<C>(x: C, y: C, z: C, step: C -> Step)
    requires step(x).Keep? && step(y).Stop?
    ensures ScanPage([x, y, z], step) == PageScan([step(x).article], EarlyReturn)
  {
    assert [x, y, z][1..] == [y, z];
  }

  /**
   * Three listing pages: page 1 holds two articles inside the window, page 2
   * one inside and then one that ends the scan (and whatever follows), page 3
   * anything. The run requests pages 1 and 2 only and returns the three
   * articles in listing order; nothing after the ending container is examined.
   */
  lemma EarlyExitExample<C>(c1: C, c2: C, c3: C, c4: C, c5: C, page3: seq<C>, step: C -> Step)
    requires step(c1).Keep? && step(c2).Keep? && step(c3).Keep? && step(c4).Stop?
    ensures var r := RunFrom(map[1 := [c1, c2], 2 := [c3, c4, c5], 3 := page3], 1, step);
      r.fetched == [1, 2]
      && r.outcome == Returned([step(c1).article, step(c2).article, step(c3).article])
  {
    var pages := map[1 := [c1, c2], 2 := [c3, c4, c5], 3 := page3];
    ScanKeepKeep(c1, c2, step);
    ScanKeepStop(c3, c4, c5, step);
    assert pages[1] == [c1, c2] && pages[2] == [c3, c4, c5];
    assert RunFrom(pages, 2, step) == Run(Returned([step(c3).article]), [2]);
    assert [step(c1).article, step(c2).article] + [step(c3).article]
      == [step(c1).article, step(c2).article, step(c3).article];
  }

  lemma SolarKept()
    ensures NrelStep(Date(2024, 3, 1), Date(2024, 3, 31))(Item(Date(2024, 3, 20), "Solar", "/s"))
      == Keep(Article("Solar", NrelDomain + "/s", NrelLabel))
  {
    ItemStep(Date(2024, 3, 1), Date(2024, 3, 31), Date(2024, 3, 20), "Solar", "/s");
  }

  lemma WindKept()
    ensures NrelStep(Date(2024, 3, 1), Date(2024, 3, 31))(Item(Date(2024, 3, 12), "Wind", "/w"))
      == Keep(Article("Wind", NrelDomain + "/w", NrelLabel))
  {
    ItemStep(Date(2024, 3, 1), Date(2024, 3, 31), Date(2024, 3, 12), "Wind", "/w");
  }

  lemma GridKept()
    ensures NrelStep(Date(2024, 3, 1), Date(2024, 3, 31))(Item(Date(2024, 3, 5), "Grid", "/g"))
      == Keep(Article("Grid", NrelDomain + "/g", NrelLabel))
  {
    ItemStep(Date(2024, 3, 1), Date(2024, 3, 31), Date(2024, 3, 5), "Grid", "/g");
  }

  /** A February article is before the March window: the scraper returns. */
  lemma OlderStops()
    ensures NrelStep(Date(2024, 3, 1), Date(2024, 3, 31))(Item(Date(2024, 2, 28), "Older", "/o")) == Stop
  {
    ItemStep(Date(2024, 3, 1), Date(2024, 3, 31), Date(2024, 2, 28), "Older", "/o");
  }

  /** The same with dates written as NREL writes them, for the window of March 2024. */
  lemma MarchListing()
    ensures var r := RunFrom(map[1 := [Item(Date(2024, 3, 20), "Solar", "/s"), Item(Date(2024, 3, 12), "Wind", "/w")],
                                 2 := [Item(Date(2024, 3, 5), "Grid", "/g"), Item(Date(2024, 2, 28), "Older", "/o"),
                                       Item(Date(2024, 3, 2), "Late", "/l")],
                                 3 := [Item(Date(2024, 3, 1), "Third", "/t")]],
                             1, NrelStep(Date(2024, 3, 1), Date(2024, 3, 31)));
      r.fetched == [1, 2]
      && r.outcome == Returned([Article("Solar", NrelDomain + "/s", NrelLabel),
                                Article("Wind", NrelDomain + "/w", NrelLabel),
                                Article("Grid", NrelDomain + "/g", NrelLabel)])
  {
    var start, end := Date(2024, 3, 1), Date(2024, 3, 31);
    SolarKept();
    WindKept();
    GridKept();
    OlderStops();
    EarlyExitExample(Item(Date(2024, 3, 20), "Solar", "/s"), Item(Date(2024, 3, 12), "Wind", "/w"),
                     Item(Date(2024, 3, 5), "Grid", "/g"), Item(Date(2024, 2, 28), "Older", "/o"),
                     Item(Date(2024, 3, 2), "Late", "/l"), [Item(Date(2024, 3, 1), "Third", "/t")],
                     NrelStep(start, end));
  }
}
