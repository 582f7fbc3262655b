/**
 * The page loop shared by the four scrapers of updates.py: fetch page
 * `origin`, `origin + 1`, ... until a page is missing (fetch failed) or has no
 * containers; scan each page's containers in order. A per-source `Step` says
 * what one container contributes: an article, nothing, an early `return` of
 * the articles so far, or an exception that escapes the scraper.
 */
module Pagination {

  datatype Article = Article(title: string, link: string, source: string)

  /** Exceptions the scrapers do not catch. */
  datatype Exception = KeyError(key: string) | TypeError | OverflowError

  /** What one container does to the scan. */
  datatype Step = Keep(article: Article) | Skip | Stop | Fail(error: Exception)

  /** How the scan of one page ended. */
  datatype PageExit = Continue | EarlyReturn | Crash(error: Exception)

  datatype PageScan = PageScan(kept: seq<Article>, exit: PageExit)

  /** What a scraper call ends with: its returned list, or a raised exception. */
  datatype Outcome = Returned(articles: seq<Article>) | Raised(error: Exception)

  /** The outcome, and the page numbers requested from the fetcher, in order. */
  datatype Run = Run(outcome: Outcome, fetched: seq<nat>)

  /**
   * The fetcher and the markup query together: the containers of each page
   * number that fetches successfully. A missing key is a failed or empty fetch.
   */
  type Pages<C> = map<nat, seq<C>>

  /** The scan of one page's containers, in order. */
  function ScanPage<C>(items: seq<C>, step: C -> Step): PageScan {
    if items == [] then PageScan([], Continue)
    else match step(items[0])
      case Keep(a) =>
        var rest := ScanPage(items[1..], step);
        PageScan([a] + rest.kept, rest.exit)
      case Skip => ScanPage(items[1..], step)
      case Stop => PageScan([], EarlyReturn)
      case Fail(e) => PageScan([], Crash(e))
  }

  function PrependScan(prefix: seq<Article>, scan: PageScan): PageScan {
    PageScan(prefix + scan.kept, scan.exit)
  }

  function Prepend(prefix: seq<Article>, outcome: Outcome): Outcome {
    match outcome
    case Returned(articles) => Returned(prefix + articles)
    case Raised(e) => Raised(e)
  }

  /** A scraper that has collected `articles` after fetching `fetched`, then goes on as `run`. */
  function Resume(articles: seq<Article>, fetched: seq<nat>, run: Run): Run {
    Run(Prepend(articles, run.outcome), fetched + run.fetched)
  }

  ghost function Remaining<C>(pages: Pages<C>, page: nat): set<nat> {
    set p | p in pages && p >= page
  }

  lemma RemainingShrinks<C>(pages: Pages<C>, page: nat)
    requires page in pages
    ensures |Remaining(pages, page + 1)| < |Remaining(pages, page)|
  {
    assert Remaining(pages, page) == Remaining(pages, page + 1) + {page};
  }

  /** Whether the loop goes on past `page`: it fetched, had containers and no container ended the scan. */
  predicate Continues<C>(pages: Pages<C>, page: nat, step: C -> Step) {
    page in pages && pages[page] != [] && ScanPage(pages[page], step).exit == Continue
  }

  /** The scraper's loop, from page number `page` on. */
  function RunFrom<C>(pages: Pages<C>, page: nat, step: C -> Step): Run
    decreases |Remaining(pages, page)|
  {
    if page !in pages || pages[page] == [] then Run(Returned([]), [page])
    else
      var scan := ScanPage(pages[page], step);
      match scan.exit
      case Crash(e) => Run(Raised(e), [page])
      case EarlyReturn => Run(Returned(scan.kept), [page])
      case Continue =>
        RemainingShrinks(pages, page);
        var rest := RunFrom(pages, page + 1, step);
        Run(Prepend(scan.kept, rest.outcome), [page] + rest.fetched)
  }

  lemma PrependTwice(a: seq<Article>, b: seq<Article>, outcome: Outcome)
    ensures Prepend(a, Prepend(b, outcome)) == Prepend(a + b, outcome)
  {
    if outcome.Returned? {
      assert a + (b + outcome.articles) == (a + b) + outcome.articles;
    }
  }

  /**
   * The `for container in article_containers` loop of one page: appends in
   * order, and leaves early on a `return` or an exception.
   */
  method ScanContainers<C>(containers: seq<C>, step: C -> Step) returns (scan: PageScan)
    ensures scan == ScanPage(containers, step)
  {
    var kept: seq<Article> := [];
    var i := 0;
    while i < |containers|
      invariant 0 <= i <= |containers|
      invariant ScanPage(containers, step) == PrependScan(kept, ScanPage(containers[i..], step))
    {
      assert containers[i..][1..] == containers[i + 1..];
      match step(containers[i]) {
        case Keep(a) =>
          assert kept + ([a] + ScanPage(containers[i + 1..], step).kept)
            == (kept + [a]) + ScanPage(containers[i + 1..], step).kept;
          kept := kept + [a];
        case Skip =>
        case Stop =>
          return PageScan(kept, EarlyReturn);
        case Fail(e) =>
          return PageScan(kept, Crash(e));
      }
      i := i + 1;
    }
    assert containers[i..] == [];
    scan := PageScan(kept, Continue);
  }

  /**
   * The `while True` loop of a scraper starting at page `origin`: a `page`
   * counter, an `articles` list grown by appending, `break` on a missing or
   * empty page, `return` or an exception from inside the container loop.
   * `run.fetched` records the page numbers passed to the fetcher.
   */
  method Paginate<C>(pages: Pages<C>, origin: nat, step: C -> Step) returns (run: Run)
    ensures run == RunFrom(pages, origin, step)
  {
    var articles: seq<Article> := [];
    var fetched: seq<nat> := [];
    var page := origin;
    while true
      invariant RunFrom(pages, origin, step) == Resume(articles, fetched, RunFrom(pages, page, step))
      decreases |Remaining(pages, page)|
    {
      if page !in pages || pages[page] == [] {
        return Run(Returned(articles), fetched + [page]);
      }
      var scan := ScanContainers(pages[page], step);
      match scan.exit {
        case EarlyReturn =>
          return Run(Returned(articles + scan.kept), fetched + [page]);
        case Crash(e) =>
          return Run(Raised(e), fetched + [page]);
        case Continue =>
      }
      ghost var rest := RunFrom(pages, page + 1, step);
      PrependTwice(articles, scan.kept, rest.outcome);
      assert fetched + ([page] + rest.fetched) == (fetched + [page]) + rest.fetched;
      RemainingShrinks(pages, page);
      articles := articles + scan.kept;
      fetched := fetched + [page];
      page := page + 1;
    }
  }

  // ---------------------------------------------------------------------
  // Reference definitions: which containers a scan examines and keeps
  // ---------------------------------------------------------------------

  predicate Halts(step: Step) {
    step.Stop? || step.Fail?
  }

  /**
   * Index of the first container that ends the scan of a page, or `|items|`
   * if none does: no container before it halts.
   */
  function FirstHalt<C>(items: seq<C>, step: C -> Step): (j: nat)
    ensures j <= |items|
    ensures j < |items| ==> Halts(step(items[j]))
    ensures forall k :: 0 <= k < j ==> !Halts(step(items[k]))
  {
    if items == [] || Halts(step(items[0])) then 0
    else
      var rest := FirstHalt(items[1..], step);
      assert forall k :: 1 <= k < 1 + rest ==> items[k] == items[1..][k - 1];
      1 + rest
  }

  /** The articles of the containers that yield one, in order. */
  function KeptItems<C>(items: seq<C>, step: C -> Step): seq<Article> {
    if items == [] then []
    else (if step(items[0]).Keep? then [step(items[0]).article] else []) + KeptItems(items[1..], step)
  }

  /** The articles a page contributes: those of its containers before the first halting one. */
  function KeptOn<C>(pages: Pages<C>, p: nat, step: C -> Step): seq<Article> {
    if p in pages then KeptItems(pages[p][..FirstHalt(pages[p], step)], step) else []
  }

  /** The articles of pages `page` .. `page + n - 1`, in page-then-container order. */
  function Collected<C>(pages: Pages<C>, page: nat, n: nat, step: C -> Step): seq<Article>
    decreases n
  {
    if n == 0 then [] else KeptOn(pages, page, step) + Collected(pages, page + 1, n - 1, step)
  }

  /** A page's scan ends at its first halting container, having kept exactly the articles before it. */
  lemma {:induction false} ScanPageExact<C>(items: seq<C>, step: C -> Step)
    ensures var j := FirstHalt(items, step); var scan := ScanPage(items, step);
      scan.kept == KeptItems(items[..j], step)
      && scan.exit == if j == |items| then Continue
                      else if step(items[j]).Stop? then EarlyReturn
                      else Crash(step(items[j]).error)
  {
    if items != [] {
      ScanPageExact(items[1..], step);
      if !Halts(step(items[0])) {
        assert items[..FirstHalt(items, step)][1..] == items[1..][..FirstHalt(items[1..], step)];
      }
    }
  }

  /** Containers after the first halting one are never examined. */
  lemma {:induction false} ScanIgnoresAfterHalt<C>(items: seq<C>, tail: seq<C>, step: C -> Step)
    requires FirstHalt(items, step) < |items|
    ensures ScanPage(items[..FirstHalt(items, step) + 1] + tail, step) == ScanPage(items, step)
  {
    if !Halts(step(items[0])) {
      assert (items[..FirstHalt(items, step) + 1] + tail)[1..]
        == items[1..][..FirstHalt(items[1..], step) + 1] + tail;
      ScanIgnoresAfterHalt(items[1..], tail, step);
    }
  }

  lemma {:induction false} KeptItemsFrom<C>(items: seq<C>, step: C -> Step, a: Article)
    requires a in KeptItems(items, step)
    ensures exists k :: 0 <= k < |items| && step(items[k]) == Keep(a)
  {
    if a !in (if step(items[0]).Keep? then [step(items[0]).article] else []) {
      KeptItemsFrom(items[1..], step, a);
      var k :| 0 <= k < |items[1..]| && step(items[1..][k]) == Keep(a);
      assert step(items[k + 1]) == Keep(a);
    }
  }

  // ---------------------------------------------------------------------
  // Properties of the page loop
  // ---------------------------------------------------------------------

  /**
   * The loop requests the page numbers `page`, `page + 1`, ... one after the
   * other, and stops at the first page that is missing, empty, or whose scan
   * did not run to its end.
   */
  lemma {:induction false} FetchedPages<C>(pages: Pages<C>, page: nat, step: C -> Step)
    ensures var r := RunFrom(pages, page, step);
      |r.fetched| >= 1
      && (forall i :: 0 <= i < |r.fetched| ==> r.fetched[i] == page + i)
      && (forall p :: page <= p < page + |r.fetched| - 1 ==> Continues(pages, p, step))
      && !Continues(pages, page + |r.fetched| - 1, step)
    decreases |Remaining(pages, page)|
  {
    if Continues(pages, page, step) {
      RemainingShrinks(pages, page);
      FetchedPages(pages, page + 1, step);
      var rest := RunFrom(pages, page + 1, step);
      assert RunFrom(pages, page, step).fetched == [page] + rest.fetched;
    }
  }

  lemma FetchedAt<C>(pages: Pages<C>, page: nat, step: C -> Step, i: nat)
    requires i < |RunFrom(pages, page, step).fetched|
    ensures RunFrom(pages, page, step).fetched[i] == page + i
  {
    FetchedPages(pages, page, step);
  }

  /** The fetched pages are exactly the consecutive numbers from the first. */
  lemma FetchedBetween<C>(pages: Pages<C>, page: nat, step: C -> Step, q: nat)
    requires page <= q < page + |RunFrom(pages, page, step).fetched|
    ensures q in RunFrom(pages, page, step).fetched
  {
    FetchedAt(pages, page, step, q - page);
  }

  /**
   * What the loop ends with: the exception of the last page's scan, if it
   * crashed, and otherwise exactly the articles of the fetched pages, in
   * page-then-container order.
   */
  lemma {:induction false} OutcomeOfRun<C>(pages: Pages<C>, page: nat, step: C -> Step)
    ensures var r := RunFrom(pages, page, step);
      var last := page + |r.fetched| - 1;
      |r.fetched| >= 1
      && (r.outcome.Raised? <==> last in pages && ScanPage(pages[last], step).exit.Crash?)
      && (r.outcome.Raised? ==> r.outcome.error == ScanPage(pages[last], step).exit.error)
      && (r.outcome.Returned? ==> r.outcome.articles == Collected(pages, page, |r.fetched|, step))
    decreases |Remaining(pages, page)|
  {
    FetchedPages(pages, page, step);
    if page in pages {
      ScanPageExact(pages[page], step);
    }
    if Continues(pages, page, step) {
      RemainingShrinks(pages, page);
      OutcomeOfRun(pages, page + 1, step);
    } else if page in pages && pages[page] == [] {
      assert KeptOn(pages, page, step) == [];
    }
  }

  lemma ReturnedCollected<C>(pages: Pages<C>, page: nat, step: C -> Step)
    requires RunFrom(pages, page, step).outcome.Returned?
    ensures var r := RunFrom(pages, page, step);
      r.outcome.articles == Collected(pages, page, |r.fetched|, step)
  {
    OutcomeOfRun(pages, page, step);
  }

  /** The last fetched page is where the loop does not go on, and it raised exactly when that page's scan crashed. */
  lemma LastPage<C>(pages: Pages<C>, page: nat, step: C -> Step)
    ensures var r := RunFrom(pages, page, step);
      var last := page + |r.fetched| - 1;
      |r.fetched| >= 1 && !Continues(pages, last, step)
      && (r.outcome.Raised? <==> last in pages && ScanPage(pages[last], step).exit.Crash?)
  {
    FetchedPages(pages, page, step);
    OutcomeOfRun(pages, page, step);
  }

  /** Every fetched page but the last lets the loop go on. */
  lemma ContinuesBefore<C>(pages: Pages<C>, page: nat, step: C -> Step, i: nat)
    requires i + 1 < |RunFrom(pages, page, step).fetched|
    ensures Continues(pages, page + i, step)
  {
    FetchedPages(pages, page, step);
  }

  lemma RaisedOnlyByCrash<C>(pages: Pages<C>, page: nat, step: C -> Step)
    ensures var r := RunFrom(pages, page, step);
      var last := page + |r.fetched| - 1;
      r.outcome.Raised? ==> last in pages && ScanPage(pages[last], step).exit.Crash?
  {
    OutcomeOfRun(pages, page, step);
  }

  /** Two page sources that agree on every page the loop fetched give the same run. */
  ghost predicate SamePage<C>(pages: Pages<C>, other: Pages<C>, p: nat) {
    (p in pages <==> p in other) && (p in pages ==> pages[p] == other[p])
  }

  lemma {:induction false} OnlyFetchedPagesMatter<C>(pages: Pages<C>, other: Pages<C>, page: nat, step: C -> Step)
    requires forall p :: p in RunFrom(pages, page, step).fetched ==> SamePage(pages, other, p)
    ensures RunFrom(other, page, step) == RunFrom(pages, page, step)
    decreases |Remaining(pages, page)|
  {
    assert RunFrom(pages, page, step).fetched[0] == page;
    assert SamePage(pages, other, page);
    if Continues(pages, page, step) {
      RemainingShrinks(pages, page);
      var rest := RunFrom(pages, page + 1, step);
      assert RunFrom(pages, page, step).fetched == [page] + rest.fetched;
      OnlyFetchedPagesMatter(pages, other, page + 1, step);
    }
  }

  /** Every returned article is the article of a container on a fetched page. */
  lemma ReturnedArticleOrigin<C>(pages: Pages<C>, page: nat, step: C -> Step, a: Article)
    requires RunFrom(pages, page, step).outcome.Returned?
    requires a in RunFrom(pages, page, step).outcome.articles
    ensures exists p, c ::
      p in RunFrom(pages, page, step).fetched && p in pages && c in pages[p] && step(c) == Keep(a)
  {
    var r := RunFrom(pages, page, step);
    var n := |r.fetched|;
    assert a in Collected(pages, page, n, step) by {
      ReturnedCollected(pages, page, step);
    }
    var q, c := CollectedOrigin(pages, page, n, step, a);
    assert q in r.fetched by {
      FetchedBetween(pages, page, step, q);
    }
    OriginWitness(r.fetched, pages, step, a, q, c);
  }

  lemma OriginWitness<C>(fetched: seq<nat>, pages: Pages<C>, step: C -> Step, a: Article, q: nat, c: C)
    requires q in fetched && q in pages && c in pages[q] && step(c) == Keep(a)
    ensures exists p, c' :: p in fetched && p in pages && c' in pages[p] && step(c') == Keep(a)
  {
  }

  /** An article collected from pages `page` .. `page + n - 1` comes from a container on one of them. */
  lemma CollectedOrigin<C>(pages: Pages<C>, page: nat, n: nat, step: C -> Step, a: Article)
    returns (q: nat, c: C)
    requires a in Collected(pages, page, n, step)
    ensures page <= q < page + n && q in pages && c in pages[q] && step(c) == Keep(a)
  {
    q := CollectedFrom(pages, page, n, step, a);
    var items := pages[q];
    var prefix := items[..FirstHalt(items, step)];
    assert a in KeptItems(prefix, step);
    KeptItemsFrom(prefix, step, a);
    var k :| 0 <= k < |prefix| && step(prefix[k]) == Keep(a);
    c := items[k];
  }

  lemma {:induction false} CollectedFrom<C>(pages: Pages<C>, page: nat, n: nat, step: C -> Step, a: Article)
    returns (q: nat)
    requires a in Collected(pages, page, n, step)
    ensures page <= q < page + n && q in pages && a in KeptOn(pages, q, step)
    decreases n
  {
    CollectedHereOrLater(pages, page, n, step, a);
    if a in KeptOn(pages, page, step) {
      KeptOnlyOnPresentPages(pages, page, step, a);
      q := page;
    } else {
      q := CollectedFrom(pages, page + 1, n - 1, step, a);
    }
  }

  lemma CollectedHereOrLater<C>(pages: Pages<C>, page: nat, n: nat, step: C -> Step, a: Article)
    requires a in Collected(pages, page, n, step)
    ensures n > 0 && (a in KeptOn(pages, page, step) || a in Collected(pages, page + 1, n - 1, step))
  {
    assert n > 0;
    var here, later := KeptOn(pages, page, step), Collected(pages, page + 1, n - 1, step);
    assert Collected(pages, page, n, step) == here + later;
    assert a in here + later;
  }

  lemma KeptOnlyOnPresentPages<C>(pages: Pages<C>, p: nat, step: C -> Step, a: Article)
    requires a in KeptOn(pages, p, step)
    ensures p in pages
  {
  }

  /** A fetched page where the loop does not go on is the last one fetched. */
  lemma LastFetched<C>(pages: Pages<C>, origin: nat, step: C -> Step, p: nat)
    requires p in RunFrom(pages, origin, step).fetched && !Continues(pages, p, step)
    ensures p == origin + |RunFrom(pages, origin, step).fetched| - 1
  {
    var r := RunFrom(pages, origin, step);
    FetchedPages(pages, origin, step);
    var i :| 0 <= i < |r.fetched| && r.fetched[i] == p;
    assert i == |r.fetched| - 1;
  }

  /** A fetched page whose scan returns early is the last one fetched, and the run returns everything collected. */
  lemma EarlyReturnIsLast<C>(pages: Pages<C>, origin: nat, step: C -> Step, p: nat, k: nat)
    requires p in RunFrom(pages, origin, step).fetched
    requires p in pages && ScanPage(pages[p], step).exit == EarlyReturn && k == FirstHalt(pages[p], step)
    ensures origin + |RunFrom(pages, origin, step).fetched| - 1 == p
    ensures RunFrom(pages, origin, step).fetched[p - origin] == p
    ensures RunFrom(pages, origin, step).outcome
      == Returned(Collected(pages, origin, p - origin, step) + KeptItems(pages[p][..k], step))
  {
    var r := RunFrom(pages, origin, step);
    var n := |r.fetched| - 1;
    assert origin + n == p by {
      LastFetched(pages, origin, step, p);
    }
    assert r.fetched[n] == p by {
      FetchedAt(pages, origin, step, n);
    }
    assert r.outcome.Returned? by {
      RaisedOnlyByCrash(pages, origin, step);
    }
    assert r.outcome.articles == Collected(pages, origin, n + 1, step) by {
      ReturnedCollected(pages, origin, step);
    }
    CollectedThrough(pages, origin, n, step, p, k);
  }

  /**
   * Early exit: when the first container of fetched page `p` that ends the
   * scan is a `Stop`, that page is the last one fetched and the run returns
   * the articles of the earlier pages and of the containers before it.
   */
  lemma EarlyExitAt<C>(pages: Pages<C>, origin: nat, step: C -> Step, p: nat, k: nat)
    requires p in RunFrom(pages, origin, step).fetched
    requires p in pages && k < |pages[p]| && k == FirstHalt(pages[p], step)
    requires step(pages[p][k]).Stop?
    ensures origin + |RunFrom(pages, origin, step).fetched| - 1 == p
    ensures RunFrom(pages, origin, step).fetched[p - origin] == p
    ensures RunFrom(pages, origin, step).outcome
      == Returned(Collected(pages, origin, p - origin, step) + KeptItems(pages[p][..k], step))
  {
    assert ScanPage(pages[p], step).exit == EarlyReturn by {
      ScanPageExact(pages[p], step);
    }
    EarlyReturnIsLast(pages, origin, step, p, k);
  }

  /** Pages `origin` .. `p`, the last one split off. */
  lemma CollectedThrough<C>(pages: Pages<C>, origin: nat, n: nat, step: C -> Step, p: nat, k: nat)
    requires origin + n == p && p in pages && k == FirstHalt(pages[p], step)
    ensures Collected(pages, origin, n + 1, step) == Collected(pages, origin, n, step) + KeptItems(pages[p][..k], step)
  {
    CollectedSplit(pages, origin, n, step);
  }

  lemma ConcatAssoc(a: seq<Article>, b: seq<Article>, c: seq<Article>)
    ensures a + (b + c) == (a + b) + c
  {
  }

  lemma {:induction false} CollectedSplit<C>(pages: Pages<C>, page: nat, n: nat, step: C -> Step)
    ensures Collected(pages, page, n + 1, step) == Collected(pages, page, n, step) + KeptOn(pages, page + n, step)
    decreases n
  {
    if n > 0 {
      CollectedSplit(pages, page + 1, n - 1, step);
      assert page + 1 + (n - 1) == page + n;
      ConcatAssoc(KeptOn(pages, page, step), Collected(pages, page + 1, n - 1, step), KeptOn(pages, page + n, step));
    }
  }
}
