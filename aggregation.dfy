/**
 * The end of `main` (updates.py): the per-source lists concatenated in a
 * fixed order, then de-duplicated by exact title, first occurrence wins.
 */
module Aggregation {
  import opened Wrappers
  import opened Calendar
  import opened Pagination
  import opened Sources

  function Titles(s: seq<Article>): set<string> {
    set a | a in s :: a.title
  }

  /** Index of the first article of `s` titled `t`. */
  function FirstIndexOf(s: seq<Article>, t: string): (i: nat)
    requires t in Titles(s)
    ensures i < |s| && s[i].title == t
    ensures forall j :: 0 <= j < i ==> s[j].title != t
  {
    var init := s[..|s| - 1];
    assert s == init + [s[|s| - 1]];
    if t in Titles(init) then FirstIndexOf(init, t) else |s| - 1
  }

  /** Each title's first article, in the order the titles first appear. */
  function FirstOccurrences(s: seq<Article>): (r: seq<Article>)
    ensures |r| <= |s|
    ensures forall a :: a in r ==> a in s
  {
    if s == [] then []
    else
      var init := s[..|s| - 1];
      if s[|s| - 1].title in Titles(init) then FirstOccurrences(init)
      else FirstOccurrences(init) + [s[|s| - 1]]
  }

  /**
   * The `for article in all_articles` loop with its `seen_titles` set: an
   * article is appended when its title has not been seen yet.
   */
  method Deduplicate(all: seq<Article>) returns (unique: seq<Article>)
    ensures unique == FirstOccurrences(all)
  {
    unique := [];
    var seen: set<string> := {};
    for i := 0 to |all|
      invariant unique == FirstOccurrences(all[..i])
      invariant seen == Titles(all[..i])
    {
      assert all[..i + 1][..i] == all[..i];
      assert Titles(all[..i + 1]) == Titles(all[..i]) + {all[i].title};
      if all[i].title !in seen {
        unique := unique + [all[i]];
        seen := seen + {all[i].title};
      }
    }
    assert all[..|all|] == all;
  }

  lemma TitlesOfSnoc(s: seq<Article>, a: Article)
    ensures Titles(s + [a]) == Titles(s) + {a.title}
  {
    assert forall x :: x in s + [a] <==> x in s || x == a;
  }

  lemma FirstIndexOfSnoc(s: seq<Article>, a: Article, t: string)
    requires t in Titles(s)
    ensures t in Titles(s + [a]) && FirstIndexOf(s + [a], t) == FirstIndexOf(s, t)
  {
    TitlesOfSnoc(s, a);
    assert (s + [a])[..|s|] == s;
  }

  /** Every input title survives, and no other. */
  lemma {:induction false} FirstOccurrencesTitles(s: seq<Article>)
    ensures Titles(FirstOccurrences(s)) == Titles(s)
  {
    if s != [] {
      var init := s[..|s| - 1];
      var last := s[|s| - 1];
      assert s == init + [last];
      FirstOccurrencesTitles(init);
      TitlesOfSnoc(init, last);
      TitlesOfSnoc(FirstOccurrences(init), last);
    }
  }

  /** No title survives twice. */
  lemma {:induction false} FirstOccurrencesDistinct(s: seq<Article>)
    ensures var r := FirstOccurrences(s);
      forall k, l :: 0 <= k < l < |r| ==> r[k].title != r[l].title
  {
    if s != [] {
      var init := s[..|s| - 1];
      FirstOccurrencesDistinct(init);
      FirstOccurrencesTitles(init);
      var r0 := FirstOccurrences(init);
      assert forall k :: 0 <= k < |r0| ==> r0[k].title in Titles(r0);
    }
  }

  /** Each survivor is the first input article with its title. */
  lemma {:induction false} FirstOccurrencesAreFirst(s: seq<Article>)
    ensures forall k :: 0 <= k < |FirstOccurrences(s)| ==>
      FirstOccurrences(s)[k].title in Titles(s)
      && FirstOccurrences(s)[k] == s[FirstIndexOf(s, FirstOccurrences(s)[k].title)]
  {
    if s != [] {
      var init := s[..|s| - 1];
      var last := s[|s| - 1];
      assert s == init + [last];
      FirstOccurrencesAreFirst(init);
      var r0 := FirstOccurrences(init);
      forall k | 0 <= k < |r0| ensures r0[k].title in Titles(s) && r0[k] == s[FirstIndexOf(s, r0[k].title)] {
        assert r0[k].title in Titles(init);
        FirstIndexOfSnoc(init, last, r0[k].title);
      }
      TitlesOfSnoc(init, last);
    }
  }

  /** Survivors appear in the order their titles first appear in the input. */
  lemma {:induction false} FirstOccurrencesOrdered(s: seq<Article>)
    ensures var r := FirstOccurrences(s);
      forall k, l :: 0 <= k < l < |r| ==>
        r[k].title in Titles(s) && r[l].title in Titles(s)
        && FirstIndexOf(s, r[k].title) < FirstIndexOf(s, r[l].title)
  {
    if s != [] {
      var init := s[..|s| - 1];
      var last := s[|s| - 1];
      assert s == init + [last];
      FirstOccurrencesOrdered(init);
      FirstOccurrencesTitles(init);
      TitlesOfSnoc(init, last);
      var r0 := FirstOccurrences(init);
      forall k | 0 <= k < |r0| ensures r0[k].title in Titles(init) && FirstIndexOf(s, r0[k].title) == FirstIndexOf(init, r0[k].title) {
        assert r0[k].title in Titles(r0);
        FirstIndexOfSnoc(init, last, r0[k].title);
      }
    }
  }

  /** A list whose titles are pairwise different passes through unchanged. */
  lemma {:induction false} DistinctTitlesAllKept(s: seq<Article>)
    requires forall k, l :: 0 <= k < l < |s| ==> s[k].title != s[l].title
    ensures FirstOccurrences(s) == s
  {
    if s != [] {
      var init := s[..|s| - 1];
      var last := s[|s| - 1];
      assert s == init + [last];
      DistinctTitlesAllKept(init);
      assert last.title !in Titles(init) by {
        forall a | a in init ensures a.title != last.title {
          var k :| 0 <= k < |init| && init[k] == a;
        }
      }
    }
  }

  /** Titles are compared exactly: articles whose titles differ in any character both survive. */
  lemma DistinctTitlesBothKept(a: Article, b: Article)
    requires a.title != b.title
    ensures FirstOccurrences([a, b]) == [a, b]
  {
    DistinctTitlesAllKept([a, b]);
  }

  /** The concatenation of `main`, in its fixed source order, then de-duplicated. */
  method UniqueArticles(jpost: seq<Article>, convEnergy: seq<Article>, convClimate: seq<Article>,
                        nrel: seq<Article>, doe: seq<Article>) returns (unique: seq<Article>)
    ensures unique == FirstOccurrences(jpost + convEnergy + convClimate + nrel + doe)
    ensures Titles(unique) == Titles(jpost + convEnergy + convClimate + nrel + doe)
    ensures forall k, l :: 0 <= k < l < |unique| ==> unique[k].title != unique[l].title
  {
    var all := jpost + convEnergy + convClimate + nrel + doe;
    unique := Deduplicate(all);
    FirstOccurrencesTitles(all);
    FirstOccurrencesDistinct(all);
  }

  /** The first outcome in source order that raised, else all returned lists. */
  function Combine(outcomes: seq<Outcome>): (r: Outcome)
    ensures r.Raised? <==> exists i :: 0 <= i < |outcomes| && outcomes[i].Raised?
  {
    if outcomes == [] then Returned([])
    else match outcomes[0]
      case Raised(e) => Raised(e)
      case Returned(a) =>
        var rest := Combine(outcomes[1..]);
        assert forall i :: 1 <= i < |outcomes| ==> outcomes[i] == outcomes[1..][i - 1];
        Prepend(a, rest)
  }

  lemma CombineCons(o: Outcome, rest: seq<Outcome>)
    ensures Combine([o] + rest) == if o.Raised? then o else Prepend(o.articles, Combine(rest))
  {
    assert ([o] + rest)[1..] == rest;
  }

  lemma JoinFive(a1: seq<Article>, a2: seq<Article>, a3: seq<Article>, a4: seq<Article>, a5: seq<Article>)
    ensures a1 + (a2 + (a3 + (a4 + a5))) == a1 + a2 + a3 + a4 + a5
  {
    assert a3 + (a4 + a5) == a3 + a4 + a5;
    assert a2 + (a3 + a4 + a5) == a2 + a3 + a4 + a5;
  }

  /** Five outcomes combine to the first that raised, else to their lists joined in order. */
  lemma CombineFive(o1: Outcome, o2: Outcome, o3: Outcome, o4: Outcome, o5: Outcome)
    ensures Combine([o1, o2, o3, o4, o5]) ==
      if o1.Raised? then o1 else if o2.Raised? then o2 else if o3.Raised? then o3
      else if o4.Raised? then o4 else if o5.Raised? then o5
      else Returned(o1.articles + (o2.articles + (o3.articles + (o4.articles + o5.articles))))
  {
    CombineCons(o5, []);
    assert [o5] + [] == [o5];
    assert o5.Returned? ==> o5.articles + [] == o5.articles;
    CombineCons(o4, [o5]);
    assert [o4] + [o5] == [o4, o5];
    CombineCons(o3, [o4, o5]);
    assert [o3] + [o4, o5] == [o3, o4, o5];
    CombineCons(o2, [o3, o4, o5]);
    assert [o2] + [o3, o4, o5] == [o2, o3, o4, o5];
    CombineCons(o1, [o2, o3, o4, o5]);
    assert [o1] + [o2, o3, o4, o5] == [o1, o2, o3, o4, o5];
  }

  /**
   * `main` up to printing: the date window from `today`, the five scraper
   * calls in their fixed order (an exception from any of them ends `main`),
   * and the de-duplicated list.
   */
  method CollectArticles(today: Date, jpost: Pages<JPostItem>, convEnergy: Pages<ConversationItem>,
                         convClimate: Pages<ConversationItem>, nrel: Pages<NrelItem>, doe: Pages<DoeItem>)
    returns (result: Outcome)
    requires IsValidDate(today)
    ensures GetDateRange(today).None? ==> result == Raised(OverflowError)
    ensures GetDateRange(today).Some? ==>
      var (start, end) := GetDateRange(today).value;
      var outcomes := [RunFrom(jpost, 1, JPostStep).outcome, RunFrom(convEnergy, 1, ConversationStep).outcome,
                       RunFrom(convClimate, 1, ConversationStep).outcome,
                       RunFrom(nrel, 1, NrelStep(start, end)).outcome, RunFrom(doe, 0, DoeStep).outcome];
      match Combine(outcomes)
      case Raised(e) => result == Raised(e)
      case Returned(all) => result == Returned(FirstOccurrences(all))
  {
    var range := GetDateRange(today);
    if range.None? {
      return Raised(OverflowError);
    }
    var (start, end) := range.value;
    CombineFive(RunFrom(jpost, 1, JPostStep).outcome, RunFrom(convEnergy, 1, ConversationStep).outcome,
                RunFrom(convClimate, 1, ConversationStep).outcome,
                RunFrom(nrel, 1, NrelStep(start, end)).outcome, RunFrom(doe, 0, DoeStep).outcome);
    var j := ScrapeJPost(jpost);
    var ce := ScrapeConversation(convEnergy);
    if ce.outcome.Raised? {
      return ce.outcome;
    }
    var cc := ScrapeConversation(convClimate);
    if cc.outcome.Raised? {
      return cc.outcome;
    }
    var n := ScrapeNrel(nrel, start, end);
    if n.outcome.Raised? {
      return n.outcome;
    }
    var d := ScrapeDoe(doe);
    if d.outcome.Raised? {
      return d.outcome;
    }
    var a1, a2, a3, a4, a5 := j.outcome.articles, ce.outcome.articles, cc.outcome.articles,
      n.outcome.articles, d.outcome.articles;
    JoinFive(a1, a2, a3, a4, a5);
    var unique := UniqueArticles(a1, a2, a3, a4, a5);
    return Returned(unique);
  }
}
