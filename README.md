# Tech news aggregation, modelled in Dafny

This project models the aggregation core of a small Streamlit tech-news
reader (`main.py`). The function `fetch_tech_articles` reads a fixed list of
RSS feeds in order and walks each feed's entries in order. For each entry it
does four things:

- It stops once `MAX_ARTICLES = 10` articles have been collected, both before
  every entry and after every feed.
- It skips a link it has already seen. A new link is marked seen *before* the
  article is extracted.
- It extracts the article with newspaper (download, parse, summarise). A failed
  extraction shows a warning and moves on to the next entry.
- It keeps the article only when `title + " " + summary`, lower-cased,
  contains one of 33 keywords, lower-cased, as a substring.

The result is sliced to the cap.

The model has seven modules:

- `Options` (`options.dfy`): the optional title and published date.
- `Text` (`text.dfy`): ASCII lower-casing, and substring search as Python's
  `in` does it.
- `Relevance` (`relevance.dfy`): the keyword list and the relevance test.
- `Feeds` (`feeds.dfy`): entries, parsed feeds, extraction outcomes, published
  articles and warnings. It also holds the configured feed list and the
  `"Unknown"` fallbacks.
- `Aggregation` (`aggregation.dfy`): the loop as a specification.
  - A `Run` is the state of one run: the output list, the seen set, the
    warnings, and two ghost logs of the foreign calls. One log holds the links
    handed to the extractor, the other the feed URLs handed to the parser.
  - `Visit` is one entry, and `Step` adds the cap test to it.
  - `VisitEntries` and `VisitFeeds` are the two nested loops, written as left
    folds.
  - The lemmas state the guarantees of a run.
- `Reference` (`reference.dfy`): a second description of the output, with no
  nested loops and no state. It flattens the feeds into one stream of entries.
  It keeps every entry whose link appears there for the first time and whose
  extraction succeeds and is relevant. Then it takes the first 10. The
  lemma `AggregateMatchesReference` proves that the nested loops return exactly
  this.
- `Fetch` (`fetch.dfy`): `FetchTechArticles`, the imperative loop. It has two
  `for` loops with `break` and `continue`, a `seq` output and a `set` of seen
  URLs. It is proved equal to the specification and to the reference, and its
  postcondition restates the main guarantees.

Feed parsing (`feedparser.parse`) and article extraction (newspaper's
`Article` download/parse/nlp) are function parameters. Real extraction reads
the network and need not be deterministic. The model still loses nothing by
using a function, because each URL is extracted at most once per run. The
invariant `AllDistinct(attempts)` proves this. The feed list is a parameter
too; the application passes `Feeds.TechFeeds`, the ten URLs of
`main.py:25-36`.

The relevance test is a substring test: `kw.lower() in content.lower()` at
`main.py:78`. So short keywords such as `"AI"`, `"AR"`, `"IT"`, `"VR"`, `"5G"`
and `"app"` also match inside ordinary words: "with" contains "it", and
"Paris" contains "ar". The lemma `Relevance.ShortKeywordMatchesInsideWords`
states this for "it". The source asks for exactly this test, so it is recorded
as behaviour, not as a defect.

## Model

| member | source | states |
|---|---|---|
| `Text.Lower` | main.py:78 | `.lower()` on keyword and content, for ASCII: the result has the same length, each character is lower-cased, and no upper-case ASCII letter remains |
| `Text.Contains` | main.py:78 | definition, no contract: Python's `needle in hay` on strings. Its meaning is carried by `Text.ContainsIff` (a match at some position) and `Text.ContainsLower` |
| `Text.ContainsIff` | main.py:78 | `needle in hay` holds exactly when the needle is a prefix of some suffix of the hay; the empty needle is always found |
| `Text.ContainsLower` | main.py:78 | a substring match survives lower-casing both strings |
| `Relevance.Content` | main.py:77 | definition, no contract: `(art.title or "") + " " + art.summary`. The lemmas `Relevance.MentionInTitle` and `Relevance.MentionInSummary` state what it exposes to the test |
| `Relevance.IsRelevant` | main.py:78 | definition, no contract: some keyword, lower-cased, occurs in the lower-cased content. Its meaning is carried by `MentionInTitle`, `MentionInSummary`, `RelevanceIgnoresCase`, `ShortKeywordMatchesInsideWords` and `BlankArticleIsIrrelevant` |
| `Relevance.BlankArticleIsIrrelevant` | main.py:38-44 | the keyword list `TechKeywords` has 33 entries, the last being "IT"; each has at least two characters, so an article with no title and an empty summary (content " ") matches none and is dropped |
| `Relevance.MentionInTitle` | main.py:77-78 | a keyword in the title, in any ASCII casing, makes the article relevant |
| `Relevance.MentionInSummary` | main.py:77-78 | a keyword in the summary makes the article relevant, whether the title is present or `None` |
| `Relevance.RelevanceIgnoresCase` | main.py:77-78 | two articles whose titles (None read as "") and summaries agree after lower-casing are both relevant or both not |
| `Relevance.ShortKeywordMatchesInsideWords` | main.py:78 | any content containing "it" anywhere, even inside a word, is relevant, through the keyword "IT" |
| `Feeds.TechFeedsDistinct` | main.py:25-36 | the configured feed list `TechFeeds` has ten entries and no feed appears twice in it |
| `Feeds.SourceName` | main.py:86 | definition, no contract: `parsed.feed.get("title", "Unknown")`. `Reference.StreamOrigin` and `Reference.AcceptedIsSubsequence` state where it appears in the output |
| `Feeds.PublishedOf` | main.py:87 | definition, no contract: `entry.get("published", "Unknown")`. `Reference.AcceptedIsSubsequence` states that each article carries it for its own entry |
| `Feeds.Publish` | main.py:81-88 | definition, no contract: the dictionary appended for one kept article. `Aggregation.VisitOutcome` states when it is built and from which entry and extraction |
| `Aggregation.Capped` | main.py:61-62 | definition, no contract: `len(articles) >= MAX_ARTICLES`, with the constant `MaxArticles = 10` of `main.py:46`. `EntriesWhenCapped`, `EntriesStopAtCap`, `FeedsStopAtCap` and `AggregateGuarantees` state its effect |
| `Aggregation.Visit` | main.py:63-88 | definition, no contract: one entry below the cap. Its meaning is carried by `Aggregation.VisitOutcome` |
| `Aggregation.Step` | main.py:61-88 | definition, no contract: one iteration of the inner loop, the cap test then `Visit`. `EntriesWhenCapped` and `EntriesStopAtCap` state the cap's effect |
| `Aggregation.Aggregate` | main.py:54-91 | definition, no contract: the whole run before the final slice. Its meaning is carried by `AggregateGuarantees`, `FetchedIsPrefix` and `Reference.AggregateMatchesReference` |
| `Aggregation.Failures` | main.py:73-75 | the warnings a list of extraction attempts produces, in attempt order: a warning (URL, exception text) is in it exactly when its URL was attempted and its extraction failed with that exception |
| `Aggregation.FailuresDistinct` | main.py:63-75 | when no URL is attempted twice, no two warnings carry the same URL |
| `Aggregation.Take` | main.py:93 | `s[:n]` is a prefix of `s` of length min(len(s), n) |
| `Aggregation.VisitEntries` | main.py:60-88 | the inner loop only appends: output, extraction log and warnings grow at their ends, the seen set only grows, the parsed-feed log is unchanged |
| `Aggregation.VisitFeeds` | main.py:58-91 | the outer loop only appends to every list and log, and only grows the seen set |
| `Aggregation.VisitOutcome` | main.py:63-88 | one entry below the cap: a seen link changes nothing and is not extracted; a new link is marked seen and extracted; an article is added iff the link is new and extraction succeeded and is relevant, and it is built from that entry; a warning with the link and cause is added iff the link is new and extraction failed; otherwise output and warnings are unchanged |
| `Aggregation.AggregateGuarantees` | main.py:54-93 | a run returns at most 10 articles, so the final slice is a no-op; URLs are pairwise distinct; each article is relevant and is its URL's successful extraction; every URL is extracted at most once; seen set equals the set of extracted URLs; the warnings are exactly `Failures` of the extracted URLs, so every failed extraction is warned about once, in extraction order, and every warning is a failed extraction; no failed URL is ever published |
| `Aggregation.EntriesWhenCapped` | main.py:61-62 | at the cap, the inner loop examines nothing: the state is unchanged |
| `Aggregation.EntriesStopAtCap` | main.py:60-62 | once the first k entries of a feed bring the output to the cap, the remaining entries are neither examined nor extracted: the whole state, logs included, is that after k entries |
| `Aggregation.FeedsStopAtCap` | main.py:90-91 | once the first k feeds bring the output to the cap, no later feed is parsed and none of its entries is examined |
| `Aggregation.FetchedIsPrefix` | main.py:58-91 | the feeds parsed are a prefix of the configured list, in order, and the run stops short of the end only when the cap is reached |
| `Aggregation.FailureIsSkipped` | main.py:68-75 | in a feed X, Y with distinct links, a failing X yields one warning for X and no article, and a relevant Y that extracts is still published; both are extracted once |
| `Aggregation.DuplicateLinkExtractedOnce` | main.py:63-66 | in a feed A, B, C where A and B share a link, that link is extracted once, C's link once, and at most one article carries the shared link |
| `Reference.AggregateMatchesReference` | main.py:54-93 | the nested loops return exactly the first 10 of the stream's first-occurrence, successfully extracted, relevant entries, in stream order (feeds in list order, then entries in feed order) |
| `Reference.AcceptedIsSubsequence` | main.py:58-88 | the k-th accepted article comes from the entry at the k-th of a strictly increasing list of stream positions. That entry's link appears there for the first time and its extraction succeeded and was relevant. The article's url is that link, its source is the item's feed name, and its published value is the entry's or "Unknown" |
| `Reference.StreamOrigin` | main.py:58-60 | every item of the flattened stream is an entry of one of the configured feeds, labelled with that feed's title or "Unknown" |
| `Reference.AcceptedLinksFresh` | main.py:63-66 | every accepted URL is a link of the stream, and no two accepted articles share a URL |
| `Fetch.FetchTechArticles` | main.py:54-93 | the loop with its list, seen set, two cap tests and final slice returns exactly the specification's articles, warnings and call logs, and the reference's articles. It returns at most 10 articles, with distinct URLs, all relevant. It extracts no URL twice, its warnings are exactly the failed extractions in extraction order, and it publishes no URL whose extraction failed |

## Left out

- Streamlit page setup, the rendering of each article, the four layouts and the advisory for an empty result (`main.py:19-22`, `main.py:95-151`): display only.
- Image download with `requests` (3-second timeout) and decoding with PIL (`main.py:97-101`): network and foreign-library calls in the display layer.
- The random choice of layout (`main.py:148-150`): ambient randomness, display only.
- The NLTK tokenizer bootstrap (`main.py:10-17`): process setup and downloads.
- The internals of `feedparser.parse` and of newspaper's download, parse, nlp and summary (`main.py:59`, `main.py:69-72`). They become the `parse` and `extract` parameters. A feed that cannot be read is just a `ParsedFeed` with no entries. Any exception raised during extraction is `Failed(cause)`, where `cause` is its text.
- The browser user-agent `Config` (`main.py:49-50`): library configuration with no effect on the logic.
- The `@st.cache_data(ttl=600)` memoisation (`main.py:53`): it is a Streamlit decorator whose behaviour is not in this code. Each call of the model is one uncached run.
- The warning text: a warning is modelled as the pair (URL, exception text), not as the formatted message with its emoji.
- An entry without a `link` attribute: `entry.link` then raises AttributeError outside the `try` and aborts the whole run. The model assumes every entry carries a link.
- Text.Lower: ASCII lower-casing only, because Python's `str.lower` does full Unicode case mapping, which has no counterpart here. All keywords are ASCII, and only two non-ASCII code points lower-case to an ASCII letter in Python: U+212A KELVIN SIGN becomes "k", and U+0130 (capital I with dot above) becomes "i" followed by U+0307. So `Relevance.IsRelevant` differs from the source only on text containing one of these two. For example, the summary `"Aİ"` with no title is relevant in the source, because `" ai̇"` contains `"ai"`, but not in the model.
