/**
 * The relevance gate of the aggregator: an article is kept when its title and
 * summary, joined by a space and lower-cased, contain some topic keyword,
 * itself lower-cased, as a substring.
 */
module Relevance {
  import opened Options
  import opened Text

  /** The topic vocabulary, in the order the aggregator scans it. */
  const TechKeywords: seq<string> := [
    "technology", "AI", "artificial intelligence", "machine learning", "deep learning",
    "neural network", "NLP", "computer vision", "robotics", "blockchain", "cybersecurity",
    "cloud", "quantum", "software", "hardware", "semiconductor", "startup", "big data",
    "programming", "data science", "computing", "gadgets", "mobile", "5G", "wearable",
    "internet of things", "IoT", "AR", "VR", "tech", "developer", "app", "IT"
  ]

  /** The text the gate reads: a missing title counts as the empty string. */
  function Content(title: Option<string>, summary: string): string {
    title.GetOr("") + " " + summary
  }

  /** Some keyword, lower-cased, occurs in the lower-cased content. */
  predicate IsRelevant(title: Option<string>, summary: string) {
    exists k :: 0 <= k < |TechKeywords| && Contains(Lower(Content(title, summary)), Lower(TechKeywords[k]))
  }

  /**
   * The list has 33 keywords, the last being "IT", and every keyword has at
   * least two characters, so none matches the content of an article with no
   * title and an empty summary, which is the single space: such an article
   * is dropped.
   */
  lemma BlankArticleIsIrrelevant()
    ensures |TechKeywords| == 33 && TechKeywords[32] == "IT"
    ensures forall k :: 0 <= k < |TechKeywords| ==> |TechKeywords[k]| >= 2
    ensures !IsRelevant(None, "")
  {
    var hay := Lower(Content(None, ""));
    assert |hay| == 1;
    forall k | 0 <= k < |TechKeywords| ensures !Contains(hay, Lower(TechKeywords[k])) {
      ContainsIff(hay, Lower(TechKeywords[k]));
    }
  }

  /** A keyword in the title, in any ASCII casing, makes the article relevant. */
  lemma MentionInTitle(title: string, summary: string, k: nat)
    requires k < |TechKeywords|
    requires Contains(Lower(title), Lower(TechKeywords[k]))
    ensures IsRelevant(Some(title), summary)
  {
    LowerAppend(title, " " + summary);
    assert Content(Some(title), summary) == title + (" " + summary);
    ContainsAppendLeft(Lower(title), Lower(" " + summary), Lower(TechKeywords[k]));
  }

  /** A keyword in the summary makes the article relevant, whatever the title. */
  lemma MentionInSummary(title: Option<string>, summary: string, k: nat)
    requires k < |TechKeywords|
    requires Contains(Lower(summary), Lower(TechKeywords[k]))
    ensures IsRelevant(title, summary)
  {
    var head := title.GetOr("") + " ";
    assert Content(title, summary) == head + summary;
    LowerAppend(head, summary);
    ContainsAppendRight(Lower(head), Lower(summary), Lower(TechKeywords[k]));
  }

  /** The gate cannot tell apart two articles that differ only in ASCII letter case. */
  lemma RelevanceIgnoresCase(t1: Option<string>, s1: string, t2: Option<string>, s2: string)
    requires Lower(t1.GetOr("")) == Lower(t2.GetOr(""))
    requires Lower(s1) == Lower(s2)
    ensures IsRelevant(t1, s1) <==> IsRelevant(t2, s2)
  {
    LowerAppend(t1.GetOr(""), " ");
    LowerAppend(t1.GetOr("") + " ", s1);
    LowerAppend(t2.GetOr(""), " ");
    LowerAppend(t2.GetOr("") + " ", s2);
    assert Lower(Content(t1, s1)) == Lower(Content(t2, s2));
  }

  /**
   * Matching is by substring, not by word: the two-letter keyword "IT"
   * accepts any content with "it" inside a word, such as "with".
   */
  lemma ShortKeywordMatchesInsideWords(title: Option<string>, summary: string)
    requires Contains(Lower(Content(title, summary)), "it")
    ensures IsRelevant(title, summary)
  {
    assert TechKeywords[32] == "IT";
    assert Lower("IT") == "it" by {
      assert Lower("IT")[0] == LowerChar('I') == 'i';
      assert Lower("IT")[1] == LowerChar('T') == 't';
    }
  }
}
