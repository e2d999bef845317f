/**
 * An independent description of what a run returns, without nested loops or
 * state: flatten the feeds into one stream of entries (feeds in list order,
 * then entries in feed order), keep each entry whose link occurs for the
 * first time in the stream and whose extraction succeeds and is relevant,
 * and take the first MaxArticles of those.
 */
module Reference {
  import opened Options
  import opened Feeds
  import opened Relevance
  import opened Aggregation

  /** An entry together with the display name of the feed it came from. */
  datatype Item = Item(source: string, entry: Entry)

  function FeedItems(source: string, es: seq<Entry>): (items: seq<Item>)
    ensures |items| == |es|
    ensures forall i :: 0 <= i < |es| ==> items[i] == Item(source, es[i])
    decreases |es|
  {
    if es == [] then [] else FeedItems(source, es[..|es| - 1]) + [Item(source, es[|es| - 1])]
  }

  /** Every entry of every feed, feeds in list order, then entries in feed order. */
  function Stream(urls: seq<Url>, parse: Url -> ParsedFeed): seq<Item>
    decreases |urls|
  {
    if urls == [] then []
    else
      var feed := parse(urls[|urls| - 1]);
      Stream(urls[..|urls| - 1], parse) + FeedItems(SourceName(feed), feed.entries)
  }

  /** The item is an entry of one of the feeds, labelled with that feed's display name. */
  ghost predicate FromSomeFeed(it: Item, urls: seq<Url>, parse: Url -> ParsedFeed) {
    exists i :: 0 <= i < |urls| && it.source == SourceName(parse(urls[i])) && it.entry in parse(urls[i]).entries
  }

  /**
   * Every item of the stream is an entry of one of the configured feeds,
   * labelled with that feed's display name.
   */
  lemma {:induction false} StreamOrigin(urls: seq<Url>, parse: Url -> ParsedFeed)
    ensures forall k :: 0 <= k < |Stream(urls, parse)| ==> FromSomeFeed(Stream(urls, parse)[k], urls, parse)
    decreases |urls|
  {
    if urls != [] {
      var n := |urls| - 1;
      var init := urls[..n];
      var feed := parse(urls[n]);
      StreamOrigin(init, parse);
      var head := Stream(init, parse);
      var tail := FeedItems(SourceName(feed), feed.entries);
      assert Stream(urls, parse) == head + tail;
      forall k | 0 <= k < |Stream(urls, parse)| ensures FromSomeFeed(Stream(urls, parse)[k], urls, parse) {
        if k < |head| {
          assert FromSomeFeed(head[k], init, parse);
          var i :| 0 <= i < |init| && head[k].source == SourceName(parse(init[i])) && head[k].entry in parse(init[i]).entries;
          assert init[i] == urls[i] && Stream(urls, parse)[k] == head[k];
          assert Stream(urls, parse)[k].source == SourceName(parse(urls[i])) && Stream(urls, parse)[k].entry in parse(urls[i]).entries;
        } else {
          assert Stream(urls, parse)[k] == tail[k - |head|] == Item(SourceName(feed), feed.entries[k - |head|]);
          assert feed.entries[k - |head|] in feed.entries;
          assert Stream(urls, parse)[k].source == SourceName(parse(urls[n])) && Stream(urls, parse)[k].entry in parse(urls[n]).entries;
        }
      }
    }
  }

  /** The links of a stream. */
  function Links(items: seq<Item>): (s: set<Url>)
    ensures forall u :: u in s <==> exists i :: 0 <= i < |items| && items[i].entry.link == u
    decreases |items|
  {
    if items == [] then {}
    else
      var init := items[..|items| - 1];
      var last := items[|items| - 1];
      assert forall i :: 0 <= i < |init| ==> init[i] == items[i];
      Links(init) + {last.entry.link}
  }

  /** The article an item contributes, given the items before it: none for a repeated link. */
  function Pick(earlier: seq<Item>, it: Item, extract: Url -> Extraction): seq<Article> {
    if it.entry.link in Links(earlier) then []
    else
      match extract(it.entry.link)
      case Failed(_) => []
      case Extracted(title, summary, image) =>
        if IsRelevant(title, summary) then [Publish(it.source, it.entry, title, summary, image)] else []
  }

  /** All articles the stream yields, in stream order, with no cap. */
  function Accepted(items: seq<Item>, extract: Url -> Extraction): seq<Article>
    decreases |items|
  {
    if items == [] then []
    else
      var init := items[..|items| - 1];
      Accepted(init, extract) + Pick(init, items[|items| - 1], extract)
  }

  /** The articles a run returns, by the flat description. */
  function Expected(urls: seq<Url>, parse: Url -> ParsedFeed, extract: Url -> Extraction): seq<Article> {
    Take(Accepted(Stream(urls, parse), extract), MaxArticles)
  }

  lemma AppendAssoc<T>(a: seq<T>, b: seq<T>, c: seq<T>)
    ensures a + (b + c) == (a + b) + c
  {
  }

  /** A run state agrees with the flat description after the items of `items`. */
  ghost predicate Tracks(r: Run, items: seq<Item>, extract: Url -> Extraction) {
    && r.articles == Take(Accepted(items, extract), MaxArticles)
    && (!Capped(r) ==> r.seen == Links(items))
  }

  lemma AcceptedSnoc(items: seq<Item>, it: Item, extract: Url -> Extraction)
    ensures Accepted(items + [it], extract) == Accepted(items, extract) + Pick(items, it, extract)
    ensures Links(items + [it]) == Links(items) + {it.entry.link}
  {
    assert (items + [it])[..|items|] == items;
  }

  /** Below the cap, visiting an item adds exactly the article the flat description picks. */
  lemma VisitPicks(r: Run, items: seq<Item>, it: Item, extract: Url -> Extraction)
    requires r.seen == Links(items)
    ensures Visit(r, it.source, it.entry, extract).articles == r.articles + Pick(items, it, extract)
    ensures Visit(r, it.source, it.entry, extract).seen == r.seen + {it.entry.link}
    ensures |Pick(items, it, extract)| <= 1
  {
  }

  lemma TakeLongPrefix(a: seq<Article>, p: seq<Article>, n: nat)
    requires |a| >= n
    ensures Take(a + p, n) == Take(a, n)
  {
    assert (a + p)[..n] == a[..n];
  }

  lemma TrackStep(r: Run, items: seq<Item>, it: Item, extract: Url -> Extraction)
    requires Tracks(r, items, extract)
    ensures Tracks(Step(r, it.source, it.entry, extract), items + [it], extract)
  {
    var a := Accepted(items, extract);
    var p := Pick(items, it, extract);
    AcceptedSnoc(items, it, extract);
    if Capped(r) {
      TakeLongPrefix(a, p, MaxArticles);
    } else {
      assert r.articles == a;
      VisitPicks(r, items, it, extract);
    }
  }

  lemma {:induction false} TrackEntries(r: Run, items: seq<Item>, source: string, es: seq<Entry>, extract: Url -> Extraction)
    requires Tracks(r, items, extract)
    ensures Tracks(VisitEntries(r, source, es, extract), items + FeedItems(source, es), extract)
    decreases |es|
  {
    if es == [] {
      assert items + FeedItems(source, es) == items;
    } else {
      var init := es[..|es| - 1];
      var it := Item(source, es[|es| - 1]);
      TrackEntries(r, items, source, init, extract);
      TrackStep(VisitEntries(r, source, init, extract), items + FeedItems(source, init), it, extract);
      AppendAssoc(items, FeedItems(source, init), [it]);
    }
  }

  /** One iteration of the outer loop keeps the agreement. */
  lemma TrackFeed(prev: Run, before: seq<Item>, u: Url, parse: Url -> ParsedFeed, extract: Url -> Extraction)
    requires Tracks(prev, before, extract)
    ensures var feed := parse(u);
      Tracks(if Capped(prev) then prev
             else VisitEntries(prev.(fetched := prev.fetched + [u]), SourceName(feed), feed.entries, extract),
             before + FeedItems(SourceName(feed), feed.entries), extract)
  {
    var feed := parse(u);
    if Capped(prev) {
      TrackEntries(prev, before, SourceName(feed), feed.entries, extract);
      EntriesWhenCapped(prev, SourceName(feed), feed.entries, extract);
    } else {
      var marked := prev.(fetched := prev.fetched + [u]);
      assert Tracks(marked, before, extract);
      TrackEntries(marked, before, SourceName(feed), feed.entries, extract);
    }
  }

  lemma {:induction false} TrackFeeds(r: Run, items: seq<Item>, urls: seq<Url>, parse: Url -> ParsedFeed, extract: Url -> Extraction)
    requires Tracks(r, items, extract)
    ensures Tracks(VisitFeeds(r, urls, parse, extract), items + Stream(urls, parse), extract)
    decreases |urls|
  {
    if urls == [] {
      assert items + Stream(urls, parse) == items;
    } else {
      var init := urls[..|urls| - 1];
      var u := urls[|urls| - 1];
      var feed := parse(u);
      TrackFeeds(r, items, init, parse, extract);
      var before := items + Stream(init, parse);
      var prev := VisitFeeds(r, init, parse, extract);
      assert Stream(urls, parse) == Stream(init, parse) + FeedItems(SourceName(feed), feed.entries);
      AppendAssoc(items, Stream(init, parse), FeedItems(SourceName(feed), feed.entries));
      assert VisitFeeds(r, urls, parse, extract) == if Capped(prev) then prev
        else VisitEntries(prev.(fetched := prev.fetched + [u]), SourceName(feed), feed.entries, extract);
      TrackFeed(prev, before, u, parse, extract);
    }
  }

  /**
   * The nested loops with their seen set and their two cap tests return
   * exactly the first MaxArticles first-occurrence, successfully extracted,
   * relevant entries of the flattened stream, in stream order.
   */
  lemma AggregateMatchesReference(urls: seq<Url>, parse: Url -> ParsedFeed, extract: Url -> Extraction)
    ensures Aggregate(urls, parse, extract).articles == Expected(urls, parse, extract)
  {
    TrackFeeds(Start, [], urls, parse, extract);
    assert [] + Stream(urls, parse) == Stream(urls, parse);
  }

  /**
   * Item `i` of the stream yields article `a`: its link occurs there for the
   * first time, its extraction succeeded and was relevant, and `a` carries the
   * item's link as url, the item's feed name as source and the entry's
   * published string.
   */
  ghost predicate Yields(items: seq<Item>, i: int, extract: Url -> Extraction, a: Article) {
    && 0 <= i < |items|
    && items[i].entry.link !in Links(items[..i])
    && var x := extract(items[i].entry.link);
    && x.Extracted? && IsRelevant(x.title, x.summary)
    && a == Publish(items[i].source, items[i].entry, x.title, x.summary, x.topImage)
  }

  /** The stream positions whose items contribute an article, in increasing order. */
  function Positions(items: seq<Item>, extract: Url -> Extraction): seq<nat>
    decreases |items|
  {
    if items == [] then []
    else
      var n := |items| - 1;
      Positions(items[..n], extract) + (if Pick(items[..n], items[n], extract) == [] then [] else [n])
  }

  /** A yield by a prefix of the stream is a yield by the stream. */
  lemma YieldsExtend(items: seq<Item>, n: nat, i: int, extract: Url -> Extraction, a: Article)
    requires n <= |items|
    requires Yields(items[..n], i, extract, a)
    ensures Yields(items, i, extract, a)
  {
    assert items[..n][..i] == items[..i];
  }

  /**
   * The output order: the k-th accepted article is yielded by the item at the
   * k-th of a strictly increasing list of stream positions, so the accepted
   * articles are a subsequence of the stream, each built from its own entry.
   */
  lemma {:induction false} AcceptedIsSubsequence(items: seq<Item>, extract: Url -> Extraction)
    ensures var pos := Positions(items, extract);
      var acc := Accepted(items, extract);
      && |pos| == |acc|
      && (forall k :: 0 <= k < |pos| ==> Yields(items, pos[k], extract, acc[k]))
      && (forall k, l :: 0 <= k < l < |pos| ==> pos[k] < pos[l])
    decreases |items|
  {
    if items != [] {
      var n := |items| - 1;
      var init := items[..n];
      AcceptedIsSubsequence(init, extract);
      var pos0 := Positions(init, extract);
      var acc0 := Accepted(init, extract);
      var p := Pick(init, items[n], extract);
      forall k | 0 <= k < |pos0| ensures Yields(items, pos0[k], extract, acc0[k]) && pos0[k] < n {
        YieldsExtend(items, n, pos0[k], extract, acc0[k]);
      }
      if p != [] {
        assert Yields(items, n, extract, p[0]);
      }
    }
  }

  /** Every accepted article's URL is a link of the stream, and no two share a URL. */
  lemma {:induction false} AcceptedLinksFresh(items: seq<Item>, extract: Url -> Extraction)
    ensures forall a :: a in Accepted(items, extract) ==> a.url in Links(items)
    ensures UrlsDistinct(Accepted(items, extract))
    decreases |items|
  {
    if items != [] {
      var n := |items| - 1;
      var init := items[..n];
      AcceptedLinksFresh(init, extract);
      var a: seq<Article> := Accepted(init, extract);
      var p: seq<Article> := Pick(init, items[n], extract);
      assert Links(items) == Links(init) + {items[n].entry.link} by {
        assert items[..n] == init;
      }
      forall i, j | 0 <= i < j < |a + p| ensures (a + p)[i].url != (a + p)[j].url {
        if j >= |a| {
          assert (a + p)[i] in a;
        }
      }
    }
  }
}
