/**
 * The records the aggregator reads and produces. Feed parsing and article
 * extraction are library calls over the network; the model sees only their
 * results, as the values below.
 */
module Feeds {
  import opened Options

  type Url = string

  /** One feed entry: its link and, when the feed gives one, its published string. */
  datatype Entry = Entry(link: Url, published: Option<string>)

  /** What parsing one feed URL yields: the feed's title, if any, and its entries in feed order. */
  datatype ParsedFeed = ParsedFeed(title: Option<string>, entries: seq<Entry>)

  /**
   * The outcome of downloading, parsing and summarising one article page:
   * either the exception it raised, or the title (possibly absent), the
   * summary and the top image URL (empty when there is none).
   */
  datatype Extraction =
    | Failed(cause: string)
    | Extracted(title: Option<string>, summary: string, topImage: Url)

  /** One published article, as handed to the display. */
  datatype Article = Article(
    title: Option<string>,
    url: Url,
    summary: string,
    image: Url,
    source: string,
    published: string)

  /** A skipped article reported to the user: the URL and the exception text. */
  datatype Warning = Warning(url: Url, cause: string)

  /** The fallback the aggregator uses for a missing feed title or published date. */
  const Unknown: string := "Unknown"

  /** The feeds the application reads, in order. */
  const TechFeeds: seq<Url> := [
    "https://techcrunch.com/feed/",
    "https://www.wired.com/feed/rss",
    "https://www.theverge.com/rss/index.xml",
    "http://feeds.arstechnica.com/arstechnica/index",
    "https://www.cnet.com/rss/all/",
    "https://www.engadget.com/rss.xml",
    "https://gizmodo.com/rss",
    "https://www.digitaltrends.com/feed/",
    "https://www.zdnet.com/news/rss.xml",
    "https://www.slashgear.com/feed/"
  ]

  /** The configured list names ten feeds, no feed twice. */
  lemma TechFeedsDistinct()
    ensures |TechFeeds| == 10
    ensures forall i, j :: 0 <= i < j < |TechFeeds| ==> TechFeeds[i] != TechFeeds[j]
  {
  }

  /** The display name of a feed: its title, or "Unknown". */
  function SourceName(feed: ParsedFeed): string {
    feed.title.GetOr(Unknown)
  }

  /** The published string of an entry, or "Unknown". */
  function PublishedOf(e: Entry): string {
    e.published.GetOr(Unknown)
  }

  /** The article built from a feed entry and a successful extraction of its link. */
  function Publish(source: string, e: Entry, title: Option<string>, summary: string, image: Url): Article {
    Article(title, e.link, summary, image, source, PublishedOf(e))
  }
}
