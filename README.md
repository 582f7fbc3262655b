# A verified model of the energy-news scraper in updates.py

`updates.py` works out the current calendar month and scrapes four news
sites for that month's articles. The four sites are the Jerusalem Post energy
section, two searches on The Conversation, the NREL news list and the
Department of Energy newsroom. It joins the per-site lists in a fixed order,
drops repeated titles (the first article with a title wins) and prints the
result. This project models the logic of that pipeline and proves what it
does:

- **Calendar** (`calendar.dfy`): the dates of `datetime.date`. This covers
  leap years, months of 28 to 31 days and the upper bound of year 9999.
  `get_date_range` takes `today` as a parameter. It computes day 1, adds 32
  days, goes back to day 1 and subtracts one day, exactly as the source does.
  In December 9999, adding 32 days overflows, and Python raises
  OverflowError.
- **NrelDate** (`nrel_date.dfy`): `parse_nrel_date`.
  - The regular expression `(\w+\.?)\s+(\d{1,2}),\s+(\d{4})` is applied with
    `re.match`: it is anchored at the start, and any text may follow the year.
  - NREL's irregular month table is included.
  - `date(...)` validates the result.
  - `str.strip()` is modelled over Python's whitespace set.
- **Pagination** (`pagination.dfy`): the page loop that all four scrapers
  share.
  - Each page's containers are an abstract record.
  - The fetcher becomes a map from page number to that page's containers. A
    page missing from the map is a failed or empty fetch.
  - For each source, a `Step` says what one container does: yield an
    article, be skipped, end the scraper with `return`, or raise an exception
    the scraper does not catch.
  - `Paginate` is the imperative loop. It is proved equal to the recursive
    specification `RunFrom`, and the lemmas about the loop are stated
    against `RunFrom`.
- **Sources** (`sources.dfy`): the four scrapers and what one container of
  each yields.
  - It pins down the links each source builds and the exceptions that
    escape.
  - It covers NREL's date window and its early `return` at the first article
    dated before the window.
- **Aggregation** (`aggregation.dfy`): the end of `main`. The five lists are
  joined in their fixed order, and the `seen_titles` loop removes repeated
  titles.
- **DateScenarios** and **NrelScenario** (`scenarios.dfy`): lemmas that
  prove the model's result on concrete inputs.
  - Five date strings, covering success, trailing text, an invalid day and
    two unknown month tokens.
  - A three-page NREL listing for March 2024. The scraper requests pages 1
    and 2 only and returns the three in-window articles.

Points about `updates.py` that the model makes explicit:

- `updates.py` has four sources, one date format and no categorisation,
  link repair or e-mail output; the model has exactly what `updates.py` has.
- A scraping failure can end the run. The handler at updates.py:105
  catches only `ValueError`, so these exceptions escape:
  - the `KeyError` of an unknown month token, such as `"Sep."` or
    `"Mar"` with no period;
  - the `TypeError` of a title element without an `a`;
  - the `KeyError` of an `a` without `href`.

  Each of these ends the scraper and `main`. The model returns them as
  `Raised` outcomes.
- Titles are de-duplicated by exact, case-sensitive comparison. There is no
  normalisation of any kind.

## Model

| member | source | states |
|---|---|---|
| Calendar.DaysInMonth | updates.py:9 | month lengths lie in 28..31; February has 29 days exactly in Gregorian leap years |
| Calendar.IsValidDate | updates.py:77 | what `date(year, month, day)` accepts: a valid date has a year in 1..9999, a month in 1..12 and a day in 1..31 (at most the month's length) |
| Calendar.NextDay | updates.py:9 | `+ timedelta(days=1)`: the next day is a calendar date strictly after the given one |
| Calendar.NextDayIsImmediate | updates.py:9 | no calendar date lies strictly between a date and its next day, so `NextDay` is the immediate successor |
| Calendar.PrevDay | updates.py:9 | `- timedelta(days=1)`: the previous day is a calendar date strictly before the given one |
| Calendar.PrevDayIsImmediate | updates.py:9 | no calendar date lies strictly between a date and its previous day, so `PrevDay` is the immediate predecessor |
| Calendar.PrevNextDay | updates.py:9 | going forward one day and back one day returns the same date |
| Calendar.AddDays | updates.py:9 | `+ timedelta(days=n)`: the result is a calendar date, strictly later when `n > 0` |
| Calendar.AddDaysSucc | updates.py:9 | adding `n + 1` days is adding `n` days and then one `NextDay`; with `NextDayIsImmediate`, `AddDays(d, n)` is exactly `n` days after `d` |
| Calendar.AddThirtyTwoDays | updates.py:9 | day 1 plus 32 days always lands in the next month, on day 33 minus this month's length |
| Calendar.GetDateRange | updates.py:6-10 | no result (OverflowError) exactly in December 9999; otherwise the window runs from day 1 to the month's last day, both dates are valid, and the window contains `today` |
| Calendar.LastDayOfMonth | updates.py:9-10 | the day after the window's last day is the first day of the next month |
| NrelDate.Strip | updates.py:96 | the result is no longer than the input and neither starts nor ends with whitespace |
| NrelDate.StripIsTrim | updates.py:96 | the result is one contiguous piece of the input, and everything removed before and after it is whitespace; with `Strip` this determines `str.strip()` |
| NrelDate.MatchDay | updates.py:73 | `\d{1,2},`: a non-zero result is one or two digits followed by a comma, and a zero result means neither one nor two leading digits are followed by a comma |
| NrelDate.MatchMonth | updates.py:73 | `\w+\.?` at the start: a non-zero result is a month token; zero exactly when the text does not start with a word character; the token is maximal (unless it ends in a period, what follows is neither a word character nor a period) |
| NrelDate.MatchDate | updates.py:73-74 | a match splits the text into a month token, a gap, 1-2 digits, a comma, a gap, 4 digits and an unconstrained rest |
| NrelDate.MatchWellFormed | updates.py:73-74 | conversely, any text built from those parts matches, with exactly those groups |
| NrelDate.ParseNrelDate | updates.py:68-78 | success gives a valid date built from the table month and the digit groups; `NoMatch` (ValueError) exactly when the pattern fails; `UnknownMonth` (KeyError) exactly when the token is not in the table |
| NrelDate.MonthKeysAreTokens | updates.py:69-73 | every month table key is something `\w+\.?` matches |
| NrelDate.MonthKey | updates.py:69-72 | every month 1..12 has a key in the month table that maps back to it |
| NrelDate.MonthTableEntry | updates.py:69-72 | every table entry is a month in 1..12 whose `MonthKey` is that entry: the table has exactly one key per month |
| NrelDate.ParseWellFormed | updates.py:69-77 | a well-formed string with a table month parses to that date when the date exists, else raises ValueError (`InvalidDate`) |
| NrelDate.ParseUnknownMonth | updates.py:69-77 | a matched token not in the table raises KeyError even when the day or year is invalid (arguments are evaluated left to right) |
| NrelDate.DayText | updates.py:73 | the unpadded day text is valid `\d{1,2}` and reads back as the day |
| NrelDate.YearText | updates.py:73 | the padded year text is valid `\d{4}` and reads back as the year |
| NrelDate.ParseFormatRoundTrip | updates.py:68-78 | every valid date written as NREL lists it (`Mar. 5, 2024`) parses back to itself |
| Pagination.ScanContainers | updates.py:92-106 | the container loop of one page computes the page scan `ScanPage`: articles kept in order, ending on `return` or an exception |
| Pagination.ScanPage | updates.py:92-106 | reference definition of one page's scan; its properties are stated by `ScanPageExact` and `ScanIgnoresAfterHalt` |
| Pagination.Paginate | updates.py:80-108 | the page loop (counter from `origin`, `break` on a missing or empty page, `return` or an exception from the container loop) computes `RunFrom` |
| Pagination.RunFrom | updates.py:80-108 | reference definition of a scraper's run; its properties are stated by `FetchedPages`, `OutcomeOfRun`, `LastPage` and the lemmas after them |
| Pagination.FirstHalt | updates.py:92-106 | the index of the first container that ends a page's scan: the container there halts, and none before it does; the page length if none halts |
| Pagination.ScanPageExact | updates.py:92-106 | a page's scan keeps exactly the articles before its first halting container, and ends as that container says, or with `Continue` |
| Pagination.ScanIgnoresAfterHalt | updates.py:103-104 | containers after the halting one cannot change the scan |
| Pagination.FetchedPages | updates.py:28-37 | the pages requested are `origin`, `origin + 1`, ... in order; every page before the last lets the loop go on, and the last does not |
| Pagination.OutcomeOfRun | updates.py:27-45 | the run raises exactly when the last page's scan raised, with that exception; otherwise it returns exactly the articles of all fetched pages, in page-then-container order |
| Pagination.LastPage | updates.py:32-37 | the last fetched page is where the loop stops, and the run raised exactly when that page's scan crashed |
| Pagination.OnlyFetchedPagesMatter | updates.py:29-37 | two page sources that agree on every fetched page give the same run |
| Pagination.ReturnedArticleOrigin | updates.py:38-43 | every returned article is the article of a container on a fetched page |
| Pagination.EarlyReturnIsLast | updates.py:103-104 | a fetched page whose scan returns early is the last page fetched, and the run returns everything collected up to that container |
| Pagination.EarlyExitAt | updates.py:103-104 | the same, for a first halting container whose step is `Stop` |
| Pagination.CollectedSplit | updates.py:43-44 | the articles of pages `origin`..`origin+n` are those of the first `n` pages followed by those of the next page |
| Sources.HeadingStep | updates.py:60-64 | a linked title element yields the stripped title, the domain plus `href` and the source name; no `a` raises TypeError, and an `a` without `href` raises KeyError('href') |
| Sources.JPostStep | updates.py:38-43 | a container yields an article exactly when it has an `a` with `href`; the title attribute defaults to "", and the link is unprefixed; it never ends the scan or raises |
| Sources.ScrapeJPost | updates.py:26-45 | computes the page run from page 1; never raises; the last fetched page is missing or empty, every fetched page is scanned to its end and all their articles are returned in order; every article is the article of a fetched container |
| Sources.ConversationStep | updates.py:59-64 | a container without `h1.legacy` is skipped; one whose title has a link is kept as that title element's article under theconversation.com; a broken link raises; it never ends the scan early |
| Sources.ScrapeConversation | updates.py:47-66 | computes the page run from page 1; a run that returns ended on a missing or empty page, scanned every fetched page to its end and returned all their articles in order; every returned article comes from a fetched container's title element, under theconversation.com |
| Sources.DoeStep | updates.py:123-128 | a title anchor with `href` yields an article; an anchor without one raises KeyError('href'); no anchor is skipped; so it never ends a page early |
| Sources.ScrapeDoe | updates.py:110-130 | computes the page run from page 0 (the first page requested is 0); a run that returns ended on a missing or empty page, scanned every fetched page to its end and returned all their articles in order; every returned article comes from a fetched container, under www.energy.gov |
| Sources.NeverStopping | updates.py:29-45 | without early return, a returning run ended on a missing or empty page, scanned every fetched page to its end, and returned all their articles |
| Sources.NeverRaises | updates.py:38-43 | a source whose containers are only kept or skipped never raises |
| Sources.ParsedDate | updates.py:93-96 | nothing exactly when the container has no `p.date` element; otherwise the parse of its stripped text |
| Sources.NrelItemStep | updates.py:92-106 | an NREL container: returns exactly when dated before the window; kept exactly when dated inside and titled with a link; raises exactly on an unknown month token (KeyError with that token) or a broken title link inside the window |
| Sources.ScrapeNrel | updates.py:80-108 | computes the page run from page 1; every returned article comes from a fetched container dated inside the window |
| Sources.NrelEarlyExit | updates.py:103-104 | when the first halting container of fetched page `p` is dated before the window, exactly `p` pages were requested, and the scraper returns what it had collected up to that container |
| Aggregation.FirstIndexOf | updates.py:160-161 | the index of the first article with a given title |
| Aggregation.FirstOccurrences | updates.py:160-163 | reference definition of the de-duplicated list: no longer than the input, and every member is an input article |
| Aggregation.Deduplicate | updates.py:157-163 | the `seen_titles` loop computes `FirstOccurrences` |
| Aggregation.FirstOccurrencesTitles | updates.py:160-163 | every input title survives, and no other |
| Aggregation.FirstOccurrencesDistinct | updates.py:160-163 | no title survives twice |
| Aggregation.FirstOccurrencesAreFirst | updates.py:160-163 | every survivor is the first input article with its title |
| Aggregation.FirstOccurrencesOrdered | updates.py:160-163 | survivors keep the order in which their titles first appear |
| Aggregation.DistinctTitlesBothKept | updates.py:161 | titles are compared exactly: two articles whose titles differ both survive |
| Aggregation.DistinctTitlesAllKept | updates.py:160-163 | a list whose titles are pairwise different passes through unchanged |
| Aggregation.UniqueArticles | updates.py:156-163 | the five lists joined in source order and de-duplicated: same titles, none twice |
| Aggregation.Combine | updates.py:142-156 | the joined outcome raises exactly when one of the scraper calls raised |
| Aggregation.CombineFive | updates.py:142-156 | five calls give the first exception in call order, else their lists joined in that order |
| Aggregation.CollectArticles | updates.py:133-163 | `main` up to printing: OverflowError in December 9999; otherwise the first exception of the five scrapers in call order, else the de-duplicated joined list |
| DateScenarios.ParsesMarchFifth | updates.py:68-78 | "Mar. 5, 2024" parses to 2024-03-05 |
| DateScenarios.ParsesSeptemberWithTrailingText | updates.py:68-78 | "Sept. 30, 2023" followed by a news-release label parses to 2023-09-30; text after the year is ignored |
| DateScenarios.RejectsFebruaryThirtieth | updates.py:77 | "Feb. 30, 2024" matches but raises ValueError |
| DateScenarios.RejectsSep | updates.py:69-77 | "Sep. 5, 2024" raises KeyError('Sep.'), since the table has "Sept." |
| DateScenarios.RejectsMarWithoutPeriod | updates.py:69-77 | "Mar 5, 2024" raises KeyError('Mar') |
| NrelScenario.StripFormatted | updates.py:96 | stripping a date written in NREL's format leaves it unchanged |
| NrelScenario.ItemStep | updates.py:92-104 | a dated, titled NREL container is kept inside the window, returns before it and is skipped after it |
| NrelScenario.EarlyExitExample | updates.py:80-108 | two pages in the window, then an ending container on page 2: pages 1 and 2 are requested, page 3 never is, and exactly three articles are returned in listing order |
| NrelScenario.MarchListing | updates.py:80-108 | the same with concrete NREL dates for the window of March 2024 |

## Left out

- `fetch_webpage` (updates.py:12-24) is not modelled. HTTP, headers and
  error logging are I/O. A failed fetch and empty markup both appear as a
  page number missing from the page map. Both end pagination, because
  `not html` is true for `None` and for "".
- BeautifulSoup parsing and the `find_all`/`find` queries are markup
  queries. Each container is modelled as a record of what those queries
  return.
  - The record holds an optional anchor, title attribute, date text or
    heading.
  - For `find('a')['href']`, the record tells apart no `a` (TypeError on
    `None`) and an `a` without `href` (KeyError).
- Element `.text` is taken as given. How BeautifulSoup joins nested text is
  not modelled.
- `date.today()` is a parameter of `GetDateRange` and `CollectArticles`.
- The search URLs and the page-URL formatting (updates.py:30, 51, 84, 114,
  135-139) are left out. The model identifies pages by number. The date
  window that the Conversation and DOE URLs embed is filtered by the sites,
  not by the code.
- All `print` output is left out: the progress lines, the error message at
  updates.py:106, and the report at updates.py:165-173 with its `strftime`
  month name.
- NrelDate.IsWordChar and NrelDate.IsDigit cover ASCII only. Python's `\w`
  also matches non-ASCII letters and digits, and `\d` and `int()` accept
  non-ASCII decimal digits. On such input the model's result differs from
  Python's. For `"Mär. 5, 2024"` Python matches the token `Mär.` and the
  month lookup raises a KeyError that escapes `scrape_nrel_articles` and
  `main` (updates.py:73-77, 105), while the model gives `NoMatch`, a
  ValueError, and the container is skipped. A day or year written with
  non-ASCII digits likewise gives `NoMatch` where Python may parse it.
- There is no concurrency, retry or timing in the source, so none is
  modelled.
- Pagination.RunFrom: the page map is finite, so every modelled run ends.
  The `while True` loops at updates.py:29, 50, 83 and 113 have no page
  limit. A site that returns containers for every page number (one that
  ignores the page parameter, say) makes the JPost, Conversation and DOE
  scrapers fetch forever, and NREL too unless an article dated before the
  window turns up. Such listings are not modelled, and the properties about
  the last fetched page (`FetchedPages`, `LastPage`, `NeverStopping`) are
  about listings that eventually fail, come back empty, return early or
  raise.
