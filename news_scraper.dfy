/**
 * The news scraper: candidate articles from the Google News and Bing News listings scored
 * by how well their title matches the name, de-duplicated by URL and sorted by score, and
 * the per-person aggregation of article bodies. Scores are integer tenths.
 */
module NewsScraper {
  import opened Wrappers
  import opened Text
  import Dedup
  import Sorting
  import BaseScraper

  /** `Config.MAX_ARTICLES`. */
  const MaxArticles: nat := 50
  /** `find_all(..., limit=20)` on each listing page. */
  const ListingLimit: nat := 20

  const InterviewKeywords: seq<string> := ["interview", "profile", "exclusive", "speaks", "talks"]

  // ---------------------------------------------------------------- _calculate_confidence

  predicate HasInterviewKeyword(titleLower: string)
  {
    exists i :: 0 <= i < |InterviewKeywords| && Contains(titleLower, InterviewKeywords[i])
  }

  /** Every string contains itself. */
  lemma ContainsSelf(s: string)
    ensures Contains(s, s)
  {
    assert s[0..|s|] == s;
    assert OccursAt(s, s, 0);
  }

  /** The score of a title: 6 for containing the name, 4 more for equalling it, 1 for an interview keyword, at most 10. */
  function Confidence(searchName: string, title: string): (c: nat)
    ensures c <= 10
    ensures Lower(searchName) == Lower(title) ==> c == 10
    ensures c == 10 ==> Lower(searchName) == Lower(title)
    ensures c >= 6 ==> Contains(Lower(title), Lower(searchName))
    ensures Contains(Lower(title), Lower(searchName)) ==> c >= 6
    ensures c < 10 ==> (c % 2 == 1 <==> HasInterviewKeyword(Lower(title)))
  {
    var t, n := Lower(title), Lower(searchName);
    ContainsSelf(t);
    var raw := (if Contains(t, n) then 6 else 0) + (if n == t then 4 else 0) + (if HasInterviewKeyword(t) then 1 else 0);
    if raw > 10 then 10 else raw
  }

  /** `_calculate_confidence`: the accumulator, with the keyword loop left at its first hit. */
  method CalculateConfidence(searchName: string, title: string) returns (c: nat)
    ensures c == Confidence(searchName, title)
  {
    var titleLower := Lower(title);
    var nameLower := Lower(searchName);
    c := 0;
    if Contains(titleLower, nameLower) {
      c := c + 6;
    }
    if nameLower == titleLower {
      c := c + 4;
    }
    ghost var before := c;
    var i := 0;
    while i < |InterviewKeywords|
      invariant 0 <= i <= |InterviewKeywords|
      invariant c == before
      invariant forall j :: 0 <= j < i ==> !Contains(titleLower, InterviewKeywords[j])
    {
      if Contains(titleLower, InterviewKeywords[i]) {
        c := c + 1;
        break;
      }
      i := i + 1;
    }
    if c > 10 {
      c := 10;
    }
  }

  // ---------------------------------------------------------------- listings

  /** One search hit, with `confidence_score` in tenths. */
  datatype Candidate = Candidate(title: string, url: string, source: string, publishedTime: string, confidence: nat)

  /**
   * One article element of a listing page as the HTML parser extracts it: the title
   * element's text when there is one, the link, the source and the time (each '' when absent).
   */
  datatype Card = Card(title: Option<string>, url: string, source: string, publishedTime: string)

  /** The candidate a titled card yields: its title stripped and scored. */
  function CandidateOf(name: string, card: Card): Candidate
    requires card.title.Some?
  {
    var title := Strip(card.title.value);
    Candidate(title, card.url, card.source, card.publishedTime, Confidence(name, title))
  }

  /** How many cards have a title element. */
  function Titled(cards: seq<Card>): nat
  {
    if cards == [] then 0 else (if cards[0].title.Some? then 1 else 0) + Titled(cards[1..])
  }

  /** The candidates of the cards that have a title element, in page order: one per such card, each scored by its title. */
  function CardCandidates(name: string, cards: seq<Card>): (r: seq<Candidate>)
    ensures |r| == Titled(cards) <= |cards|
    ensures forall i :: 0 <= i < |r| ==> r[i].confidence == Confidence(name, r[i].title)
  {
    if cards == [] then []
    else
      var rest := CardCandidates(name, cards[1..]);
      if cards[0].title.None? then rest else [CandidateOf(name, cards[0])] + rest
  }

  /**
   * `_search_google_news` / `_search_bing_news`: no page (the request failed) gives no
   * candidates; otherwise the first twenty article elements are read.
   */
  function SearchListing(name: string, page: Option<seq<Card>>): (r: seq<Candidate>)
    ensures page.None? ==> r == []
    ensures |r| <= ListingLimit
  {
    if page.None? then [] else CardCandidates(name, Take(page.value, ListingLimit))
  }

  /** `_search_newsapi`: no key is configured, so it finds nothing. */
  function SearchNewsApi(name: string): seq<Candidate>
  {
    []
  }

  // ---------------------------------------------------------------- de-duplication and ranking

  function UrlOf(c: Candidate): string { c.url }

  function Score(c: Candidate): int { c.confidence }

  /** `_deduplicate_candidates`: the seen-set loop keeps the first candidate of each non-empty URL. */
  method DeduplicateCandidates(candidates: seq<Candidate>) returns (unique: seq<Candidate>)
    ensures unique == Dedup.FirstPerKey(candidates, UrlOf)
  {
    var seenUrls: set<string> := {};
    unique := [];
    var k := 0;
    while k < |candidates|
      invariant 0 <= k <= |candidates|
      invariant unique == Dedup.FirstPerKey(candidates[..k], UrlOf)
      invariant seenUrls == Dedup.KeySet(unique, UrlOf)
    {
      var candidate := candidates[k];
      var url := candidate.url;
      Dedup.DedupSnoc(candidates[..k], candidate, UrlOf, {});
      assert candidates[..k] + [candidate] == candidates[..k + 1];
      if url != "" && url !in seenUrls {
        seenUrls := seenUrls + {url};
        Dedup.KeySetCons(candidate, [], UrlOf);
        KeySetSnoc(unique, candidate);
        unique := unique + [candidate];
      }
      k := k + 1;
    }
    assert candidates[..|candidates|] == candidates;
  }

  lemma KeySetSnoc(xs: seq<Candidate>, x: Candidate)
    ensures Dedup.KeySet(xs + [x], UrlOf) == Dedup.KeySet(xs, UrlOf) + {x.url}
  {
    var l := xs + [x];
    forall u | u in Dedup.KeySet(l, UrlOf) ensures u in Dedup.KeySet(xs, UrlOf) + {x.url} {
      var i :| 0 <= i < |l| && UrlOf(l[i]) == u;
      if i < |xs| { assert l[i] == xs[i]; }
    }
    forall u | u in Dedup.KeySet(xs, UrlOf) ensures u in Dedup.KeySet(l, UrlOf) {
      var i :| 0 <= i < |xs| && UrlOf(xs[i]) == u;
      assert l[i] == xs[i];
    }
    assert UrlOf(l[|xs|]) == x.url;
  }

  /** `search_person`: the three searches concatenated, de-duplicated, then sorted by score, highest first. */
  function SearchPerson(name: string, google: Option<seq<Card>>, bing: Option<seq<Card>>): seq<Candidate>
  {
    var all := SearchListing(name, google) + SearchListing(name, bing) + SearchNewsApi(name);
    Sorting.SortDesc(Dedup.FirstPerKey(all, UrlOf), Score)
  }

  /**
   * The results are the de-duplicated hits sorted by score, highest first, and candidates
   * of equal score keep their listing order.
   */
  lemma SearchPersonRanked(name: string, google: Option<seq<Card>>, bing: Option<seq<Card>>, score: int)
    ensures var unique := Dedup.FirstPerKey(SearchListing(name, google) + SearchListing(name, bing), UrlOf);
      var r := SearchPerson(name, google, bing);
      && Sorting.SortedDesc(r, Score)
      && multiset(r) == multiset(unique)
      && Sorting.WithKey(r, Score, score) == Sorting.WithKey(unique, Score, score)
  {
    var all := SearchListing(name, google) + SearchListing(name, bing);
    assert all + SearchNewsApi(name) == all;
    Sorting.SortDescStable(Dedup.FirstPerKey(all, UrlOf), Score, score);
  }

  /** The results' URLs are non-empty and pairwise distinct, and there are at most forty results. */
  lemma SearchPersonUrls(name: string, google: Option<seq<Card>>, bing: Option<seq<Card>>)
    ensures var r := SearchPerson(name, google, bing);
      && (forall i :: 0 <= i < |r| ==> r[i].url != "")
      && (forall i, j :: 0 <= i < j < |r| ==> r[i].url != r[j].url)
      && |r| <= 2 * ListingLimit
  {
    var all := SearchListing(name, google) + SearchListing(name, bing);
    assert all + SearchNewsApi(name) == all;
    UniqueUrls(all);
    PermutedUrls(Dedup.FirstPerKey(all, UrlOf), SearchPerson(name, google, bing));
  }

  /** De-duplication by URL leaves non-empty, distinct URLs and no more candidates than it was given. */
  lemma UniqueUrls(all: seq<Candidate>)
    ensures var u := Dedup.FirstPerKey(all, UrlOf);
      && |u| <= |all|
      && (forall i :: 0 <= i < |u| ==> u[i].url != "")
      && (forall a, b :: 0 <= a < b < |u| ==> u[a].url != u[b].url)
  {
    Dedup.FirstPerKeyFacts(all, UrlOf);
    SubsequenceLength(Dedup.FirstPerKey(all, UrlOf), all);
  }

  lemma {:induction false} SubsequenceLength<T>(ys: seq<T>, xs: seq<T>)
    requires Dedup.IsSubsequence(ys, xs)
    ensures |ys| <= |xs|
  {
    if ys != [] {
      if ys[0] == xs[0] && Dedup.IsSubsequence(ys[1..], xs[1..]) {
        SubsequenceLength(ys[1..], xs[1..]);
      } else {
        SubsequenceLength(ys, xs[1..]);
      }
    }
  }

  /** A permutation of a list with non-empty, distinct URLs has non-empty, distinct URLs. */
  lemma PermutedUrls(u: seq<Candidate>, r: seq<Candidate>)
    requires multiset(r) == multiset(u)
    requires forall i :: 0 <= i < |u| ==> u[i].url != ""
    requires forall a, b :: 0 <= a < b < |u| ==> u[a].url != u[b].url
    ensures forall i :: 0 <= i < |r| ==> r[i].url != ""
    ensures forall i, j :: 0 <= i < j < |r| ==> r[i].url != r[j].url
  {
    forall i | 0 <= i < |r| ensures r[i].url != "" {
      assert r[i] in multiset(u);
    }
    forall i, j | 0 <= i < j < |r| ensures r[i].url != r[j].url {
      assert r[i] in multiset(u) && r[j] in multiset(u);
      var a :| 0 <= a < |u| && u[a] == r[i];
      var b :| 0 <= b < |u| && u[b] == r[j];
      if a == b {
        TwoPositions(r, i, j);
        OnceInDistinct(u, a);
      }
    }
  }

  /** An element at two positions occurs at least twice. */
  lemma TwoPositions<T>(r: seq<T>, i: int, j: int)
    requires 0 <= i < j < |r| && r[i] == r[j]
    ensures multiset(r)[r[i]] >= 2
  {
    assert r == r[..j] + r[j..];
    assert r[..j][i] == r[i] && r[j..][0] == r[i];
    assert multiset(r) == multiset(r[..j]) + multiset(r[j..]);
  }

  /** A URL-distinct list holds each of its candidates once. */
  lemma OnceInDistinct(u: seq<Candidate>, a: int)
    requires forall p, q :: 0 <= p < q < |u| ==> u[p].url != u[q].url
    requires 0 <= a < |u|
    ensures multiset(u)[u[a]] == 1
  {
    var x := u[a];
    assert u == u[..a] + [x] + u[a + 1..];
    assert x !in u[..a];
    assert x !in u[a + 1..];
    assert multiset(u) == multiset(u[..a]) + multiset{x} + multiset(u[a + 1..]);
  }

  // ---------------------------------------------------------------- article bodies

  /**
   * A fetched article page as the HTML parser sees it once scripts and styles are gone: the
   * text of the first element each content selector finds (None when it finds none), in
   * selector order, and the text of the body when there is one.
   */
  datatype ArticlePage = ArticlePage(selectorTexts: seq<Option<string>>, body: Option<string>)

  /** The text of the first selector that found an element. */
  function FirstFound(texts: seq<Option<string>>): (r: Option<string>)
    ensures r.None? <==> forall i :: 0 <= i < |texts| ==> texts[i].None?
    ensures r.Some? ==> exists i :: 0 <= i < |texts| && texts[i] == r && forall j :: 0 <= j < i ==> texts[j].None?
  {
    if texts == [] then None
    else if texts[0].Some? then texts[0]
    else
      var r := FirstFound(texts[1..]);
      assert r.Some? ==> exists i :: 0 <= i < |texts| && texts[i] == r && forall j :: 0 <= j < i ==> texts[j].None? by {
        if r.Some? {
          var i :| 0 <= i < |texts[1..]| && texts[1..][i] == r && forall j :: 0 <= j < i ==> texts[1..][j].None?;
          assert texts[i + 1] == r;
          forall j | 0 <= j < i + 1 ensures texts[j].None? {
            if j > 0 { assert texts[j] == texts[1..][j - 1]; }
          }
        }
      }
      r
  }

  /** Content past the length limit is cut to the limit and marked with "...". */
  function Truncated(content: string): (r: string)
    ensures |content| <= BaseScraper.MaxContentLength ==> r == content
    ensures |content| > BaseScraper.MaxContentLength ==>
      |r| == BaseScraper.MaxContentLength + 3 && r[..BaseScraper.MaxContentLength] == content[..BaseScraper.MaxContentLength]
      && r[BaseScraper.MaxContentLength..] == "..."
  {
    if |content| > BaseScraper.MaxContentLength then content[..BaseScraper.MaxContentLength] + "..." else content
  }

  /**
   * `_scrape_article_content`: no URL or no response gives None; the text is that of the
   * first content selector, or of the body when that text is missing or empty; empty text
   * gives None; otherwise the cleaned text, truncated.
   */
  function ArticleContent(url: string, page: Option<ArticlePage>): (r: Option<string>)
    ensures url == "" || page.None? ==> r.None?
    ensures r.Some? ==> |r.value| <= BaseScraper.MaxContentLength + 3
    ensures url != "" && page.Some? && FirstFound(page.value.selectorTexts).Some? && FirstFound(page.value.selectorTexts).value != "" ==>
      r == Some(Truncated(BaseScraper.Cleaned(FirstFound(page.value.selectorTexts).value)))
  {
    if url == "" || page.None? then None
    else
      var found := FirstFound(page.value.selectorTexts);
      var content := if found.None? || found.value == "" then page.value.body else found;
      if content.None? || content.value == "" then None
      else Some(Truncated(BaseScraper.Cleaned(content.value)))
  }

  // ---------------------------------------------------------------- scrape_person

  /** One entry of `articles`. */
  datatype Article = Article(title: string, url: string, source: string, publishedTime: string, content: string, confidence: nat)

  /** The dict `scrape_person` returns; `sources` is built through a set, so its order is not modelled. */
  datatype NewsProfile = NewsProfile(articles: seq<Article>, totalArticles: nat, sources: set<string>)

  /** The articles of the results whose content came back non-empty, in result order. */
  function ArticlesOf(results: seq<Candidate>, content: string -> Option<string>): (r: seq<Article>)
    ensures |r| <= |results|
    ensures forall i :: 0 <= i < |r| ==> r[i].content != "" && content(r[i].url) == Some(r[i].content)
  {
    if results == [] then []
    else
      var c := results[0];
      var rest := ArticlesOf(results[1..], content);
      match content(c.url)
      case Some(body) =>
        if body == "" then rest else [Article(c.title, c.url, c.source, c.publishedTime, body, c.confidence)] + rest
      case None => rest
  }

  function SourcesOf(articles: seq<Article>): set<string>
  {
    set i | 0 <= i < |articles| && articles[i].source != "" :: articles[i].source
  }

  lemma {:induction false} ArticlesOfSnoc(results: seq<Candidate>, c: Candidate, content: string -> Option<string>)
    ensures ArticlesOf(results + [c], content) == ArticlesOf(results, content) +
      (if content(c.url).Some? && content(c.url).value != ""
       then [Article(c.title, c.url, c.source, c.publishedTime, content(c.url).value, c.confidence)] else [])
  {
    if results == [] {
      assert ([] + [c])[1..] == [];
    } else {
      assert (results + [c])[0] == results[0] && (results + [c])[1..] == results[1..] + [c];
      ArticlesOfSnoc(results[1..], c, content);
    }
  }

  /**
   * `scrape_person`: the first `MAX_ARTICLES` results are fetched through `content` (the URL to
   * what `_scrape_article_content` returns), and each non-empty body becomes an article.
   */
  method ScrapePerson(searchResults: seq<Candidate>, content: string -> Option<string>) returns (r: NewsProfile)
    ensures r.articles == ArticlesOf(Take(searchResults, MaxArticles), content)
    ensures r.totalArticles == |r.articles| <= MaxArticles
    ensures r.sources == SourcesOf(r.articles) && "" !in r.sources
  {
    var top := Take(searchResults, MaxArticles);
    var articles: seq<Article> := [];
    var k := 0;
    while k < |top|
      invariant 0 <= k <= |top|
      invariant articles == ArticlesOf(top[..k], content)
    {
      var result := top[k];
      var articleContent := content(result.url);
      ArticlesOfSnoc(top[..k], result, content);
      assert top[..k] + [result] == top[..k + 1];
      if articleContent.Some? && articleContent.value != "" {
        articles := articles + [Article(result.title, result.url, result.source, result.publishedTime, articleContent.value, result.confidence)];
      }
      k := k + 1;
    }
    assert top[..|top|] == top;
    r := NewsProfile(articles, |articles|, SourcesOf(articles));
  }
}
