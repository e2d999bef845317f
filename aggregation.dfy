/**
 * The aggregation loop as a specification: the state of one run, the effect
 * of examining one entry, and the two nested loops as left folds over the
 * entries of a feed and over the list of feeds. The lemmas state what the run
 * guarantees: the cap, distinct URLs, relevance, at most one extraction per
 * URL, and that nothing happens once the cap is reached.
 */
module Aggregation {
  import opened Options
  import opened Feeds
  import opened Relevance

  /** The global cap on the number of returned articles. */
  const MaxArticles: nat := 10

  /**
   * The state of one run: the output list, the set of seen URLs, and two logs
   * of the foreign calls made so far: the URLs handed to the extractor and the
   * feed URLs handed to the parser, in call order; and the warnings shown.
   */
  datatype Run = Run(
    articles: seq<Article>,
    seen: set<Url>,
    attempts: seq<Url>,
    fetched: seq<Url>,
    warnings: seq<Warning>)

  const Start: Run := Run([], {}, [], [], [])

  predicate Capped(r: Run) {
    |r.articles| >= MaxArticles
  }

  /** `r2` only adds to `r1`: every list grows at its end and the seen set grows. */
  predicate Extends(r1: Run, r2: Run) {
    && r1.articles <= r2.articles
    && r1.seen <= r2.seen
    && r1.attempts <= r2.attempts
    && r1.warnings <= r2.warnings
  }

  /**
   * One entry examined below the cap: a seen link is skipped without
   * extraction; otherwise the link is marked seen before extraction, a failure
   * adds a warning, and a relevant extraction adds an article.
   */
  function Visit(r: Run, source: string, e: Entry, extract: Url -> Extraction): Run {
    if e.link in r.seen then r
    else
      var marked := r.(seen := r.seen + {e.link}, attempts := r.attempts + [e.link]);
      match extract(e.link)
      case Failed(cause) =>
        marked.(warnings := marked.warnings + [Warning(e.link, cause)])
      case Extracted(title, summary, image) =>
        if IsRelevant(title, summary)
        then marked.(articles := marked.articles + [Publish(source, e, title, summary, image)])
        else marked
  }

  /** One iteration of the inner loop: stop at the cap, otherwise visit the entry. */
  function Step(r: Run, source: string, e: Entry, extract: Url -> Extraction): Run {
    if Capped(r) then r else Visit(r, source, e, extract)
  }

  /** The inner loop over a feed's entries, in feed order. */
  function VisitEntries(r: Run, source: string, es: seq<Entry>, extract: Url -> Extraction): (r': Run)
    ensures Extends(r, r')
    ensures r'.fetched == r.fetched
    decreases |es|
  {
    if es == [] then r
    else Step(VisitEntries(r, source, es[..|es| - 1], extract), source, es[|es| - 1], extract)
  }

  /**
   * The outer loop over the feed URLs: a feed is parsed and walked only while
   * the cap has not been reached after the previous feed.
   */
  function VisitFeeds(r: Run, urls: seq<Url>, parse: Url -> ParsedFeed, extract: Url -> Extraction): (r': Run)
    ensures Extends(r, r')
    ensures r.fetched <= r'.fetched
    decreases |urls|
  {
    if urls == [] then r
    else
      var prev := VisitFeeds(r, urls[..|urls| - 1], parse, extract);
      if Capped(prev) then prev
      else
        var u := urls[|urls| - 1];
        var feed := parse(u);
        VisitEntries(prev.(fetched := prev.fetched + [u]), SourceName(feed), feed.entries, extract)
  }

  /** One more entry of the inner loop is one more Step. */
  lemma EntriesSnoc(r: Run, source: string, es: seq<Entry>, j: nat, extract: Url -> Extraction)
    requires j < |es|
    ensures VisitEntries(r, source, es[..j + 1], extract)
      == Step(VisitEntries(r, source, es[..j], extract), source, es[j], extract)
  {
    assert es[..j + 1][..j] == es[..j];
  }

  /** One more feed of the outer loop: parsed and walked unless the cap was reached. */
  lemma FeedsSnoc(r: Run, urls: seq<Url>, i: nat, parse: Url -> ParsedFeed, extract: Url -> Extraction)
    requires i < |urls|
    ensures var prev := VisitFeeds(r, urls[..i], parse, extract);
      VisitFeeds(r, urls[..i + 1], parse, extract)
      == if Capped(prev) then prev
         else VisitEntries(prev.(fetched := prev.fetched + [urls[i]]), SourceName(parse(urls[i])), parse(urls[i]).entries, extract)
  {
    assert urls[..i + 1][..i] == urls[..i];
  }

  /** One whole run over the given feeds, before the final truncation. */
  function Aggregate(urls: seq<Url>, parse: Url -> ParsedFeed, extract: Url -> Extraction): Run {
    VisitFeeds(Start, urls, parse, extract)
  }

  /** Python's `s[:n]`: the first `n` elements, or all of them if there are fewer. */
  function Take<T>(s: seq<T>, n: nat): (r: seq<T>)
    ensures r <= s
    ensures |r| == if |s| <= n then |s| else n
  {
    if |s| <= n then s else s[..n]
  }

  predicate AllDistinct(s: seq<Url>) {
    forall i, j :: 0 <= i < j < |s| ==> s[i] != s[j]
  }

  predicate UrlsDistinct(articles: seq<Article>) {
    forall i, j :: 0 <= i < j < |articles| ==> articles[i].url != articles[j].url
  }

  /**
   * The warnings a sequence of extraction attempts produces, in attempt order:
   * one per URL whose extraction failed, carrying the exception text, and none
   * for a URL that extracted.
   */
  function Failures(us: seq<Url>, extract: Url -> Extraction): (ws: seq<Warning>)
    ensures |ws| <= |us|
    ensures forall w :: w in ws <==> w.url in us && extract(w.url) == Failed(w.cause)
    decreases |us|
  {
    if us == [] then []
    else
      var init := us[..|us| - 1];
      var u := us[|us| - 1];
      assert us == init + [u];
      Failures(init, extract) + match extract(u) {
        case Failed(cause) => [Warning(u, cause)]
        case Extracted(_, _, _) => []
      }
  }

  lemma FailuresSnoc(us: seq<Url>, u: Url, extract: Url -> Extraction)
    ensures Failures(us + [u], extract) == Failures(us, extract) + match extract(u) {
      case Failed(cause) => [Warning(u, cause)]
      case Extracted(_, _, _) => []
    }
  {
    assert (us + [u])[..|us|] == us;
  }

  /** Distinct attempts give warnings with distinct URLs: no URL is warned about twice. */
  lemma {:induction false} FailuresDistinct(us: seq<Url>, extract: Url -> Extraction)
    requires AllDistinct(us)
    ensures var ws := Failures(us, extract);
      forall i, j :: 0 <= i < j < |ws| ==> ws[i].url != ws[j].url
    decreases |us|
  {
    if us != [] {
      var init := us[..|us| - 1];
      var u := us[|us| - 1];
      FailuresDistinct(init, extract);
      var ws0 := Failures(init, extract);
      var ws := Failures(us, extract);
      FailuresSnoc(init, u, extract);
      assert us == init + [u];
      assert |ws| <= |ws0| + 1 && ws[..|ws0|] == ws0;
      forall i, j | 0 <= i < j < |ws| ensures ws[i].url != ws[j].url {
        if j < |ws0| {
          assert ws[i] == ws0[i] && ws[j] == ws0[j];
        } else {
          assert ws[i] == ws0[i] && ws0[i] in ws0;
          assert ws[j].url == u;
        }
      }
    }
  }

  /** What every reachable state of a run satisfies. */
  ghost predicate Inv(r: Run, extract: Url -> Extraction) {
    && |r.articles| <= MaxArticles
    && (forall u :: u in r.seen <==> u in r.attempts)
    && AllDistinct(r.attempts)
    && UrlsDistinct(r.articles)
    && (forall a :: a in r.articles ==>
          && a.url in r.seen
          && IsRelevant(a.title, a.summary)
          && extract(a.url) == Extracted(a.title, a.summary, a.image))
    && r.warnings == Failures(r.attempts, extract)
  }

  /**
   * The outcome of examining one entry below the cap: an article is added
   * exactly when the link is new and its extraction succeeds and is relevant;
   * a warning exactly when the link is new and extraction fails; the link is
   * extracted exactly when it is new. Anything else leaves the output alone.
   */
  lemma VisitOutcome(r: Run, source: string, e: Entry, extract: Url -> Extraction)
    ensures var r' := Visit(r, source, e, extract);
      && r'.fetched == r.fetched
      && (e.link in r.seen ==> r' == r)
      && (e.link !in r.seen ==>
            r'.seen == r.seen + {e.link} && r'.attempts == r.attempts + [e.link])
      && (|r'.articles| > |r.articles| <==>
            e.link !in r.seen && extract(e.link).Extracted?
            && IsRelevant(extract(e.link).title, extract(e.link).summary))
      && (|r'.articles| > |r.articles| ==>
            var x := extract(e.link);
            r'.articles == r.articles + [Publish(source, e, x.title, x.summary, x.topImage)])
      && (|r'.articles| <= |r.articles| ==> r'.articles == r.articles)
      && (|r'.warnings| > |r.warnings| <==> e.link !in r.seen && extract(e.link).Failed?)
      && (|r'.warnings| > |r.warnings| ==> r'.warnings == r.warnings + [Warning(e.link, extract(e.link).cause)])
      && (|r'.warnings| <= |r.warnings| ==> r'.warnings == r.warnings)
  {
  }

  lemma DistinctSnoc(s: seq<Url>, x: Url)
    requires AllDistinct(s) && x !in s
    ensures AllDistinct(s + [x])
  {
    forall i, j | 0 <= i < j < |s| + 1 ensures (s + [x])[i] != (s + [x])[j] {
      if j == |s| {
        assert s[i] in s;
      }
    }
  }

  lemma UrlsDistinctSnoc(articles: seq<Article>, a: Article)
    requires UrlsDistinct(articles) && forall b :: b in articles ==> b.url != a.url
    ensures UrlsDistinct(articles + [a])
  {
    forall i, j | 0 <= i < j < |articles| + 1 ensures (articles + [a])[i].url != (articles + [a])[j].url {
      if j == |articles| {
        assert articles[i] in articles;
      }
    }
  }

  lemma InvStep(r: Run, source: string, e: Entry, extract: Url -> Extraction)
    requires Inv(r, extract)
    ensures Inv(Step(r, source, e, extract), extract)
  {
    if !Capped(r) && e.link !in r.seen {
      DistinctSnoc(r.attempts, e.link);
      FailuresSnoc(r.attempts, e.link, extract);
      match extract(e.link)
      case Failed(_) =>
      case Extracted(title, summary, image) =>
        if IsRelevant(title, summary) {
          UrlsDistinctSnoc(r.articles, Publish(source, e, title, summary, image));
        }
    }
  }

  lemma {:induction false} InvEntries(r: Run, source: string, es: seq<Entry>, extract: Url -> Extraction)
    requires Inv(r, extract)
    ensures Inv(VisitEntries(r, source, es, extract), extract)
    decreases |es|
  {
    if es != [] {
      InvEntries(r, source, es[..|es| - 1], extract);
      InvStep(VisitEntries(r, source, es[..|es| - 1], extract), source, es[|es| - 1], extract);
    }
  }

  lemma {:induction false} InvFeeds(r: Run, urls: seq<Url>, parse: Url -> ParsedFeed, extract: Url -> Extraction)
    requires Inv(r, extract)
    ensures Inv(VisitFeeds(r, urls, parse, extract), extract)
    decreases |urls|
  {
    if urls != [] {
      var prev := VisitFeeds(r, urls[..|urls| - 1], parse, extract);
      InvFeeds(r, urls[..|urls| - 1], parse, extract);
      if !Capped(prev) {
        var u := urls[|urls| - 1];
        InvEntries(prev.(fetched := prev.fetched + [u]), SourceName(parse(u)), parse(u).entries, extract);
      }
    }
  }

  /**
   * What one run guarantees: at most MaxArticles articles, pairwise distinct
   * URLs, every article relevant and built from a successful extraction of its
   * URL, every URL extracted at most once (so a URL that failed is never
   * extracted again), the warnings exactly the failed extractions in attempt
   * order (so no URL is warned about twice), and no URL that failed ever
   * published.
   */
  lemma AggregateGuarantees(urls: seq<Url>, parse: Url -> ParsedFeed, extract: Url -> Extraction)
    ensures var r := Aggregate(urls, parse, extract);
      && |r.articles| <= MaxArticles
      && Take(r.articles, MaxArticles) == r.articles
      && UrlsDistinct(r.articles)
      && (forall a :: a in r.articles ==>
            IsRelevant(a.title, a.summary) && extract(a.url) == Extracted(a.title, a.summary, a.image))
      && AllDistinct(r.attempts)
      && (forall u :: u in r.seen <==> u in r.attempts)
      && r.warnings == Failures(r.attempts, extract)
      && (forall w :: w in r.warnings ==> w.url in r.attempts && extract(w.url) == Failed(w.cause))
      && (forall u :: u in r.attempts && extract(u).Failed? ==> Warning(u, extract(u).cause) in r.warnings)
      && (forall i, j :: 0 <= i < j < |r.warnings| ==> r.warnings[i].url != r.warnings[j].url)
      && (forall w, a :: w in r.warnings && a in r.articles ==> w.url != a.url)
  {
    InvFeeds(Start, urls, parse, extract);
    FailuresDistinct(Aggregate(urls, parse, extract).attempts, extract);
  }

  /** At the cap nothing more is examined: the inner loop leaves a capped state unchanged. */
  lemma {:induction false} EntriesWhenCapped(r: Run, source: string, es: seq<Entry>, extract: Url -> Extraction)
    requires Capped(r)
    ensures VisitEntries(r, source, es, extract) == r
    decreases |es|
  {
    if es != [] {
      EntriesWhenCapped(r, source, es[..|es| - 1], extract);
    }
  }

  /**
   * Once the output of a feed's first `k` entries reaches the cap, the
   * remaining entries are neither examined nor extracted: the whole state,
   * logs included, is that of the first `k`.
   */
  lemma {:induction false} EntriesStopAtCap(r: Run, source: string, es: seq<Entry>, k: nat, extract: Url -> Extraction)
    requires k <= |es|
    requires Capped(VisitEntries(r, source, es[..k], extract))
    ensures VisitEntries(r, source, es, extract) == VisitEntries(r, source, es[..k], extract)
    decreases |es|
  {
    if k == |es| {
      assert es[..k] == es;
    } else {
      var init := es[..|es| - 1];
      assert init[..k] == es[..k];
      EntriesStopAtCap(r, source, init, k, extract);
    }
  }

  /**
   * Once the output after the first `k` feeds reaches the cap, no later feed is
   * parsed and none of its entries is examined or extracted.
   */
  lemma {:induction false} FeedsStopAtCap(r: Run, urls: seq<Url>, k: nat, parse: Url -> ParsedFeed, extract: Url -> Extraction)
    requires k <= |urls|
    requires Capped(VisitFeeds(r, urls[..k], parse, extract))
    ensures VisitFeeds(r, urls, parse, extract) == VisitFeeds(r, urls[..k], parse, extract)
    decreases |urls|
  {
    if k == |urls| {
      assert urls[..k] == urls;
    } else {
      var init := urls[..|urls| - 1];
      assert init[..k] == urls[..k];
      FeedsStopAtCap(r, init, k, parse, extract);
    }
  }

  /**
   * The feeds parsed in one run are a prefix of the configured list, in order,
   * and the run stops short of the end only when the cap has been reached:
   * every feed is examined unless the cap is reached first.
   */
  lemma {:induction false} FetchedIsPrefix(urls: seq<Url>, parse: Url -> ParsedFeed, extract: Url -> Extraction)
    ensures var r := Aggregate(urls, parse, extract);
      && r.fetched <= urls
      && (|r.fetched| < |urls| ==> Capped(r))
    decreases |urls|
  {
    if urls != [] {
      var n := |urls| - 1;
      var init := urls[..n];
      FetchedIsPrefix(init, parse, extract);
      var prev := Aggregate(init, parse, extract);
      if Capped(prev) {
        assert Aggregate(urls, parse, extract) == prev;
      } else {
        assert prev.fetched == init;
        var feed := parse(urls[n]);
        var r := VisitEntries(prev.(fetched := init + [urls[n]]), SourceName(feed), feed.entries, extract);
        assert Aggregate(urls, parse, extract) == r;
        assert init + [urls[n]] == urls;
      }
    }
  }

  /** A run over the single feed `u` is the inner loop over its entries. */
  lemma SingleFeed(u: Url, parse: Url -> ParsedFeed, extract: Url -> Extraction)
    ensures Aggregate([u], parse, extract)
      == VisitEntries(Start.(fetched := [u]), SourceName(parse(u)), parse(u).entries, extract)
  {
    var urls := [u];
    assert urls[..|urls| - 1] == [] && urls[|urls| - 1] == u;
    assert VisitFeeds(Start, [], parse, extract) == Start;
    assert !Capped(Start) && Start.fetched + [u] == [u];
  }

  /**
   * In one feed of entries X, Y with different links, a failed extraction of
   * X is reported and skipped, and processing goes on to Y, which is published
   * when its extraction succeeds and is relevant.
   */
  lemma FailureIsSkipped(u: Url, x: Entry, y: Entry, parse: Url -> ParsedFeed, extract: Url -> Extraction)
    requires parse(u).entries == [x, y] && x.link != y.link
    requires extract(x.link).Failed?
    requires extract(y.link).Extracted? && IsRelevant(extract(y.link).title, extract(y.link).summary)
    ensures var r := Aggregate([u], parse, extract);
      var ey := extract(y.link);
      && r.articles == [Publish(SourceName(parse(u)), y, ey.title, ey.summary, ey.topImage)]
      && r.warnings == [Warning(x.link, extract(x.link).cause)]
      && r.attempts == [x.link, y.link]
  {
    var src := SourceName(parse(u));
    var r0 := Start.(fetched := [u]);
    var es := [x, y];
    assert es[..1] == [x] && [x][..0] == [];
    var r1 := Step(r0, src, x, extract);
    assert VisitEntries(r0, src, [x], extract) == r1;
    assert r1.articles == [] && r1.seen == {x.link} && r1.attempts == [x.link];
    SingleFeed(u, parse, extract);
  }

  /**
   * A link repeated within a feed is extracted once, and the repeat adds
   * nothing: of entries A, B sharing a link and C with another link, at most
   * one article carries the shared link.
   */
  lemma DuplicateLinkExtractedOnce(u: Url, a: Entry, b: Entry, c: Entry, parse: Url -> ParsedFeed, extract: Url -> Extraction)
    requires parse(u).entries == [a, b, c] && a.link == b.link != c.link
    ensures var r := Aggregate([u], parse, extract);
      && r.attempts == [a.link, c.link]
      && forall i, j ::
           (0 <= i < |r.articles| && 0 <= j < |r.articles| && r.articles[i].url == a.link && r.articles[j].url == a.link)
           ==> i == j
  {
    var src := SourceName(parse(u));
    var r0 := Start.(fetched := [u]);
    var es := [a, b, c];
    var r1 := Step(r0, src, a, extract);
    var r3 := Step(r1, src, c, extract);
    assert VisitEntries(r0, src, es, extract) == r3 by {
      assert es[..2] == [a, b] && [a, b][..1] == [a] && [a][..0] == [];
      assert VisitEntries(r0, src, [a], extract) == r1;
      assert Step(r1, src, b, extract) == r1;
    }
    VisitAddsOwnLink(r0, src, a, extract);
    assert |r1.articles| <= 1 && !Capped(r1) && r1.seen == {a.link};
    VisitAddsOwnLink(r1, src, c, extract);
    SingleFeed(u, parse, extract);
    var arts := r3.articles;
    forall i, j | 0 <= i < |arts| && 0 <= j < |arts| && arts[i].url == a.link && arts[j].url == a.link
      ensures i == j
    {
      assert i < |r1.articles| && j < |r1.articles|;
    }
  }

  /** Visiting an entry adds at most one article, and that article carries the entry's link. */
  lemma VisitAddsOwnLink(r: Run, source: string, e: Entry, extract: Url -> Extraction)
    ensures var r' := Visit(r, source, e, extract);
      && r.articles <= r'.articles
      && |r'.articles| <= |r.articles| + 1
      && (forall i :: |r.articles| <= i < |r'.articles| ==> r'.articles[i].url == e.link)
      && (e.link !in r.seen ==> r'.seen == r.seen + {e.link} && r'.attempts == r.attempts + [e.link])
  {
  }
}
