/**
 * The four scrapers of updates.py over abstract listing pages: what one
 * container of each source yields, and the loops that walk the pages.
 */
module Sources {
  import opened Wrappers
  import opened Calendar
  import opened NrelDate
  import opened Pagination

  const JPostLabel := "Jerusalem Post"
  const ConversationLabel := "The Conversation"
  const NrelLabel := "NREL"
  const DoeLabel := "Department of Energy"

  const ConversationDomain := "https://theconversation.com"
  const NrelDomain := "https://www.nrel.gov"
  const DoeDomain := "https://www.energy.gov"

  /** The first `a` element that has an `href`, and its optional `title` attribute. */
  datatype JPostAnchor = JPostAnchor(title: Option<string>, href: string)

  /** A Jerusalem Post container: it may lack such an anchor. */
  datatype JPostItem = JPostItem(anchor: Option<JPostAnchor>)

  /**
   * `title_element.find('a')['href']`: the link, or how the lookup fails
   * (no `a` inside is a TypeError on None, an `a` without `href` a KeyError).
   */
  datatype LinkLookup = Href(url: string) | NoAnchor | NoHref

  /** A title element: its text and the lookup of its link. */
  datatype Heading = Heading(text: string, link: LinkLookup)

  /** A Conversation container (`article.result`) and its optional `h1.legacy`. */
  datatype ConversationItem = ConversationItem(heading: Option<Heading>)

  /** An NREL container (`div.media-block`): optional `p.date` text and optional `h3.header`. */
  datatype NrelItem = NrelItem(date: Option<string>, heading: Option<Heading>)

  /** The DOE title anchor (`a.search-result-title`): its text and optional `href`. */
  datatype DoeAnchor = DoeAnchor(text: string, href: Option<string>)

  /** A DOE container (`div.search-result`). */
  datatype DoeItem = DoeItem(anchor: Option<DoeAnchor>)

  /** The article built from a title element under a fixed domain, or the exception its link lookup raises. */
  function HeadingStep(h: Heading, domain: string, source: string): (r: Step)
    ensures r.Keep? <==> h.link.Href?
    ensures r.Keep? ==> r.article == Article(Strip(h.text), domain + h.link.url, source)
    ensures r.Fail? <==> !h.link.Href?
    ensures h.link.NoAnchor? ==> r == Fail(TypeError)
    ensures h.link.NoHref? ==> r == Fail(KeyError("href"))
  {
    match h.link
    case Href(url) => Keep(Article(Strip(h.text), domain + url, source))
    case NoAnchor => Fail(TypeError)
    case NoHref => Fail(KeyError("href"))
  }

  // ---------------------------------------------------------------------
  // Jerusalem Post
  // ---------------------------------------------------------------------

  function TitleOrEmpty(title: Option<string>): string {
    match title
    case Some(t) => t
    case None => ""
  }

  /** A JPost container: the raw `href`, unprefixed, and the `title` attribute or "". */
  function JPostStep(c: JPostItem): (r: Step)
    ensures r.Keep? <==> c.anchor.Some?
    ensures r.Keep? ==> r.article == Article(TitleOrEmpty(c.anchor.value.title), c.anchor.value.href, JPostLabel)
    ensures r.Keep? || r.Skip?
  {
    match c.anchor
    case None => Skip
    case Some(a) => Keep(Article(TitleOrEmpty(a.title), a.href, JPostLabel))
  }

  /** Whether `a` is the article of the JPost container `c`. */
  predicate IsJPostArticle(c: JPostItem, a: Article) {
    c.anchor.Some? && a == Article(TitleOrEmpty(c.anchor.value.title), c.anchor.value.href, JPostLabel)
  }

  /** `scrape_jpost_articles`: pages from 1; it never raises. */
  method ScrapeJPost(pages: Pages<JPostItem>) returns (run: Run)
    ensures run == RunFrom(pages, 1, JPostStep)
    ensures run.outcome.Returned?
    ensures run.outcome.Returned? ==>
      (var last := 1 + |run.fetched| - 1; last !in pages || pages[last] == [])
      && (forall p :: p in run.fetched && p in pages ==> FirstHalt(pages[p], JPostStep) == |pages[p]|)
      && run.outcome.articles == Collected(pages, 1, |run.fetched|, JPostStep)
    ensures forall a :: a in run.outcome.articles ==>
      exists p, c :: p in run.fetched && p in pages && c in pages[p] && IsJPostArticle(c, a)
  {
    run := Paginate(pages, 1, JPostStep);
    NeverRaises(pages, 1, JPostStep);
    NeverStopping(pages, 1, JPostStep);
    forall a | a in run.outcome.articles
      ensures exists p, c :: p in run.fetched && p in pages && c in pages[p] && IsJPostArticle(c, a)
    {
      ReturnedArticleOrigin(pages, 1, JPostStep, a);
      var p, c :| p in run.fetched && p in pages && c in pages[p] && JPostStep(c) == Keep(a);
      assert IsJPostArticle(c, a);
    }
  }

  // ---------------------------------------------------------------------
  // The Conversation
  // ---------------------------------------------------------------------

  /** A Conversation container: kept when its `h1.legacy` has a link, skipped without one. */
  function ConversationStep(c: ConversationItem): (r: Step)
    ensures !r.Stop?
    ensures r.Skip? <==> c.heading.None?
    ensures r.Keep? <==> c.heading.Some? && c.heading.value.link.Href?
    ensures r.Keep? ==> IsHeadingArticle(c.heading, ConversationDomain, ConversationLabel, r.article)
    ensures r.Fail? <==> c.heading.Some? && !c.heading.value.link.Href?
  {
    match c.heading
    case None => Skip
    case Some(h) => HeadingStep(h, ConversationDomain, ConversationLabel)
  }

  /** Whether `a` is the article of a container whose title element has the link `url`. */
  predicate IsHeadingArticle(heading: Option<Heading>, domain: string, source: string, a: Article) {
    heading.Some? && heading.value.link.Href?
    && a == Article(Strip(heading.value.text), domain + heading.value.link.url, source)
  }

  /** `scrape_conversation_articles`: pages from 1, links under theconversation.com. */
  method ScrapeConversation(pages: Pages<ConversationItem>) returns (run: Run)
    ensures run == RunFrom(pages, 1, ConversationStep)
    ensures run.outcome.Returned? ==>
      (var last := 1 + |run.fetched| - 1; last !in pages || pages[last] == [])
      && (forall p :: p in run.fetched && p in pages ==> FirstHalt(pages[p], ConversationStep) == |pages[p]|)
      && run.outcome.articles == Collected(pages, 1, |run.fetched|, ConversationStep)
    ensures run.outcome.Returned? ==> forall a :: a in run.outcome.articles ==>
      exists p, c :: p in run.fetched && p in pages && c in pages[p]
        && IsHeadingArticle(c.heading, ConversationDomain, ConversationLabel, a)
  {
    run := Paginate(pages, 1, ConversationStep);
    NeverStopping(pages, 1, ConversationStep);
    if run.outcome.Returned? {
      forall a | a in run.outcome.articles
        ensures exists p, c ::
          p in run.fetched && p in pages && c in pages[p]
          && IsHeadingArticle(c.heading, ConversationDomain, ConversationLabel, a)
      {
        ReturnedArticleOrigin(pages, 1, ConversationStep, a);
      }
    }
  }

  // ---------------------------------------------------------------------
  // Department of Energy
  // ---------------------------------------------------------------------

  function DoeStep(c: DoeItem): (r: Step)
    ensures r.Skip? <==> c.anchor.None?
    ensures r.Keep? <==> c.anchor.Some? && c.anchor.value.href.Some?
    ensures r.Keep? ==> IsDoeArticle(c, r.article)
    ensures r.Fail? <==> c.anchor.Some? && c.anchor.value.href.None?
    ensures r.Fail? ==> r.error == KeyError("href")
  {
    match c.anchor
    case None => Skip
    case Some(a) =>
      match a.href
      case Some(url) => Keep(Article(Strip(a.text), DoeDomain + url, DoeLabel))
      case None => Fail(KeyError("href"))
  }

  predicate IsDoeArticle(c: DoeItem, a: Article) {
    c.anchor.Some? && c.anchor.value.href.Some?
    && a == Article(Strip(c.anchor.value.text), DoeDomain + c.anchor.value.href.value, DoeLabel)
  }

  /** `scrape_doe_articles`: the page counter starts at 0; links under www.energy.gov. */
  method ScrapeDoe(pages: Pages<DoeItem>) returns (run: Run)
    ensures run == RunFrom(pages, 0, DoeStep)
    ensures run.fetched[0] == 0
    ensures run.outcome.Returned? ==>
      (var last := 0 + |run.fetched| - 1; last !in pages || pages[last] == [])
      && (forall p :: p in run.fetched && p in pages ==> FirstHalt(pages[p], DoeStep) == |pages[p]|)
      && run.outcome.articles == Collected(pages, 0, |run.fetched|, DoeStep)
    ensures run.outcome.Returned? ==> forall a :: a in run.outcome.articles ==>
      exists p, c :: p in run.fetched && p in pages && c in pages[p] && IsDoeArticle(c, a)
  {
    run := Paginate(pages, 0, DoeStep);
    NeverStopping(pages, 0, DoeStep);
    assert |run.fetched| >= 1 && run.fetched[0] == 0 by {
      FetchedPages(pages, 0, DoeStep);
    }
    if run.outcome.Returned? {
      forall a | a in run.outcome.articles
        ensures exists p, c :: p in run.fetched && p in pages && c in pages[p] && IsDoeArticle(c, a)
      {
        ReturnedArticleOrigin(pages, 0, DoeStep, a);
        var p, c :| p in run.fetched && p in pages && c in pages[p] && DoeStep(c) == Keep(a);
        assert IsDoeArticle(c, a);
      }
    }
  }

  /**
   * For the three sources without a date window, no container ends a page
   * early: a run that returns has examined every container of every fetched
   * page, stopped at a missing or empty page, and returned the articles of
   * all those containers in page-then-container order.
   */
  lemma NeverStopping<C>(pages: Pages<C>, origin: nat, step: C -> Step)
    requires forall c :: !step(c).Stop?
    ensures var r := RunFrom(pages, origin, step);
      var last := origin + |r.fetched| - 1;
      r.outcome.Returned? ==>
        (last !in pages || pages[last] == [])
        && (forall p :: p in r.fetched && p in pages ==> FirstHalt(pages[p], step) == |pages[p]|)
        && r.outcome.articles == Collected(pages, origin, |r.fetched|, step)
  {
    var r := RunFrom(pages, origin, step);
    if r.outcome.Returned? {
      ReturnedCollected(pages, origin, step);
      LastPageEmpty(pages, origin, step);
      forall p | p in r.fetched && p in pages
        ensures FirstHalt(pages[p], step) == |pages[p]|
      {
        FetchedPageScanned(pages, origin, step, p);
      }
    }
  }

  lemma FetchedPageScanned<C>(pages: Pages<C>, origin: nat, step: C -> Step, p: nat)
    requires forall c :: !step(c).Stop?
    requires RunFrom(pages, origin, step).outcome.Returned?
    requires p in RunFrom(pages, origin, step).fetched && p in pages
    ensures FirstHalt(pages[p], step) == |pages[p]|
  {
    var fetched := RunFrom(pages, origin, step).fetched;
    var i :| 0 <= i < |fetched| && fetched[i] == p;
    FetchedAt(pages, origin, step, i);
    FullyScanned(pages, origin, step, i);
  }

  /** A source whose containers are only ever kept or skipped never raises. */
  lemma NeverRaises<C>(pages: Pages<C>, origin: nat, step: C -> Step)
    requires forall c :: step(c).Keep? || step(c).Skip?
    ensures RunFrom(pages, origin, step).outcome.Returned?
  {
    var last := origin + |RunFrom(pages, origin, step).fetched| - 1;
    LastPage(pages, origin, step);
    if last in pages {
      ScanPageExact(pages[last], step);
    }
  }

  /** Without `Stop`, a run that returns ended on a missing or empty page. */
  lemma LastPageEmpty<C>(pages: Pages<C>, origin: nat, step: C -> Step)
    requires forall c :: !step(c).Stop?
    requires RunFrom(pages, origin, step).outcome.Returned?
    ensures var last := origin + |RunFrom(pages, origin, step).fetched| - 1;
      last !in pages || pages[last] == []
  {
    var n := |RunFrom(pages, origin, step).fetched|;
    LastPage(pages, origin, step);
    var last := origin + n - 1;
    if last in pages {
      assert origin + (n - 1) == last;
      FullyScanned(pages, origin, step, n - 1);
      ScanPageExact(pages[last], step);
    }
  }

  /** Without `Stop`, a run that returns has scanned each fetched page to its end. */
  lemma FullyScanned<C>(pages: Pages<C>, origin: nat, step: C -> Step, i: nat)
    requires forall c :: !step(c).Stop?
    requires RunFrom(pages, origin, step).outcome.Returned?
    requires i < |RunFrom(pages, origin, step).fetched| && origin + i in pages
    ensures FirstHalt(pages[origin + i], step) == |pages[origin + i]|
  {
    ScanPageExact(pages[origin + i], step);
    if i + 1 < |RunFrom(pages, origin, step).fetched| {
      ContinuesBefore(pages, origin, step, i);
    } else {
      LastPage(pages, origin, step);
    }
  }

  // ---------------------------------------------------------------------
  // NREL
  // ---------------------------------------------------------------------

  /**
   * The date of an NREL container: nothing without a `p.date` element, else
   * its stripped text parsed (a valid date, or how the parse failed).
   */
  function ParsedDate(c: NrelItem): (r: Option<Result<Date, ParseError>>)
    ensures r.None? <==> c.date.None?
  {
    match c.date
    case None => None
    case Some(text) => Some(ParseNrelDate(Strip(text)))
  }

  /** The container has a date element whose text parses to a day in `[start, end]`. */
  predicate InWindow(c: NrelItem, start: Date, end: Date) {
    var p := ParsedDate(c);
    p.Some? && p.value.Success? && NotAfter(start, p.value.value) && NotAfter(p.value.value, end)
  }

  /** The container has a date element whose text parses to a day before `start`. */
  predicate DatedBefore(c: NrelItem, start: Date) {
    var p := ParsedDate(c);
    p.Some? && p.value.Success? && Before(p.value.value, start)
  }

  /** The container's date text matches the pattern but its month token is not in the table. */
  predicate UnknownMonthToken(c: NrelItem) {
    var p := ParsedDate(c);
    p.Some? && p.value.Failure? && p.value.error.UnknownMonth?
  }

  /**
   * One NREL container: kept when dated inside the window and titled;
   * `return` at the first date before the window; the KeyError of an unknown
   * month and a broken title link escape; everything else (no date element,
   * a ValueError, a date after the window, no title element) is skipped.
   */
  function NrelItemStep(start: Date, end: Date, c: NrelItem): (r: Step)
    ensures r.Stop? <==> DatedBefore(c, start)
    ensures r.Keep? <==> InWindow(c, start, end) && c.heading.Some? && c.heading.value.link.Href?
    ensures r.Keep? ==> IsHeadingArticle(c.heading, NrelDomain, NrelLabel, r.article)
    ensures r.Fail? <==>
      UnknownMonthToken(c) || (InWindow(c, start, end) && c.heading.Some? && !c.heading.value.link.Href?)
    ensures UnknownMonthToken(c) ==> r == Fail(KeyError(ParsedDate(c).value.error.token))
  {
    match c.date
    case None => Skip
    case Some(text) =>
      match ParseNrelDate(Strip(text))
      case Failure(UnknownMonth(token)) => Fail(KeyError(token))
      case Failure(_) => Skip
      case Success(d) =>
        if NotAfter(start, d) && NotAfter(d, end) then
          match c.heading
          case None => Skip
          case Some(h) => HeadingStep(h, NrelDomain, NrelLabel)
        else if Before(d, start) then Stop
        else Skip
  }

  function NrelStep(start: Date, end: Date): NrelItem -> Step {
    c => NrelItemStep(start, end, c)
  }

  /** `scrape_nrel_articles`: pages from 1, window `[start, end]`, links under www.nrel.gov. */
  method ScrapeNrel(pages: Pages<NrelItem>, start: Date, end: Date) returns (run: Run)
    ensures run == RunFrom(pages, 1, NrelStep(start, end))
    ensures run.outcome.Returned? ==> forall a :: a in run.outcome.articles ==>
      exists p, c :: p in run.fetched && p in pages && c in pages[p]
        && InWindow(c, start, end) && IsHeadingArticle(c.heading, NrelDomain, NrelLabel, a)
  {
    run := Paginate(pages, 1, NrelStep(start, end));
    if run.outcome.Returned? {
      forall a | a in run.outcome.articles
        ensures exists p, c ::
          p in run.fetched && p in pages && c in pages[p]
          && InWindow(c, start, end) && IsHeadingArticle(c.heading, NrelDomain, NrelLabel, a)
      {
        ReturnedArticleOrigin(pages, 1, NrelStep(start, end), a);
      }
    }
  }

  /**
   * Early exit: when the first container on fetched page `p` that ends the
   * scan is dated before the window, that page is the last one fetched and
   * the scraper returns what it collected up to that container.
   */
  lemma NrelEarlyExit(pages: Pages<NrelItem>, start: Date, end: Date, p: nat, k: nat)
    requires p in RunFrom(pages, 1, NrelStep(start, end)).fetched
    requires p in pages && k < |pages[p]| && k == FirstHalt(pages[p], NrelStep(start, end))
    requires DatedBefore(pages[p][k], start)
    ensures |RunFrom(pages, 1, NrelStep(start, end)).fetched| == p
    ensures RunFrom(pages, 1, NrelStep(start, end)).fetched[p - 1] == p
    ensures RunFrom(pages, 1, NrelStep(start, end)).outcome
      == Returned(Collected(pages, 1, p - 1, NrelStep(start, end)) + KeptItems(pages[p][..k], NrelStep(start, end)))
  {
    var step, c := NrelStep(start, end), pages[p][k];
    assert step(c).Stop? by {
      assert step(c) == NrelItemStep(start, end, c);
    }
    EarlyExitAt(pages, 1, step, p, k);
  }

}
