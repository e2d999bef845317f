/**
 * The aggregation loop itself: two nested loops over the feeds and their
 * entries that append to an output list and add to a set of seen URLs, with
 * the cap tested before every entry and after every feed, and a final
 * truncation to the cap. Feed parsing and article extraction are passed in
 * as functions.
 */
module Fetch {
  import opened Options
  import opened Feeds
  import opened Relevance
  import opened Aggregation
  import opened Reference

  /**
   * Aggregates the articles of `feedUrls` (the application passes TechFeeds).
   * Besides the articles it returns the warnings shown for skipped articles,
   * and, as ghost logs, the URLs handed to the extractor and the feed URLs
   * handed to the parser, in call order.
   */
  method FetchTechArticles(feedUrls: seq<Url>, parse: Url -> ParsedFeed, extract: Url -> Extraction)
    returns (articles: seq<Article>, warnings: seq<Warning>, ghost attempts: seq<Url>, ghost fetched: seq<Url>)
    ensures var r := Aggregate(feedUrls, parse, extract);
      articles == r.articles && warnings == r.warnings && attempts == r.attempts && fetched == r.fetched
    ensures articles == Expected(feedUrls, parse, extract)
    ensures |articles| <= MaxArticles
    ensures UrlsDistinct(articles)
    ensures forall a :: a in articles ==> IsRelevant(a.title, a.summary)
    ensures AllDistinct(attempts)
    ensures warnings == Failures(attempts, extract)
    ensures forall w, a :: w in warnings && a in articles ==> w.url != a.url
  {
    articles, warnings, attempts, fetched := [], [], [], [];
    var seenUrls: set<Url> := {};

    for i := 0 to |feedUrls|
      invariant Run(articles, seenUrls, attempts, fetched, warnings) == VisitFeeds(Start, feedUrls[..i], parse, extract)
      invariant !Capped(Run(articles, seenUrls, attempts, fetched, warnings))
    {
      var feedUrl := feedUrls[i];
      var parsed := parse(feedUrl);
      FeedsSnoc(Start, feedUrls, i, parse, extract);
      fetched := fetched + [feedUrl];
      var source := SourceName(parsed);
      ghost var before := Run(articles, seenUrls, attempts, fetched, warnings);

      for j := 0 to |parsed.entries|
        invariant Run(articles, seenUrls, attempts, fetched, warnings) == VisitEntries(before, source, parsed.entries[..j], extract)
      {
        if |articles| >= MaxArticles {
          EntriesStopAtCap(before, source, parsed.entries, j, extract);
          break;
        }
        var entry := parsed.entries[j];
        var url := entry.link;
        EntriesSnoc(before, source, parsed.entries, j, extract);
        if url in seenUrls {
          continue;
        }
        seenUrls := seenUrls + {url};
        attempts := attempts + [url];
        match extract(url)
        case Failed(cause) =>
          warnings := warnings + [Warning(url, cause)];
          continue;
        case Extracted(title, summary, image) =>
          if !IsRelevant(title, summary) {
            continue;
          }
          articles := articles + [Publish(source, entry, title, summary, image)];
      }
      assert parsed.entries[..|parsed.entries|] == parsed.entries;

      if |articles| >= MaxArticles {
        FeedsStopAtCap(Start, feedUrls, i + 1, parse, extract);
        break;
      }
    }
    assert feedUrls[..|feedUrls|] == feedUrls;
    assert Run(articles, seenUrls, attempts, fetched, warnings) == Aggregate(feedUrls, parse, extract);

    AggregateGuarantees(feedUrls, parse, extract);
    AggregateMatchesReference(feedUrls, parse, extract);
    articles := Take(articles, MaxArticles);
  }
}
