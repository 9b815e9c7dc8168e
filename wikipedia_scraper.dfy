/**
 * The Wikipedia scraper: search hits scored against the name (integer tenths), the page
 * query that prefers the page id to the title, and the structured biography read from the
 * page extract. The birth, occupation and education regexes are not interpreted: what each
 * of them matches is given as an input; the quotation `findall` is the Quotes scanner.
 */
module WikipediaScraper {
  import opened Wrappers
  import opened Text
  import Quotes

  // ---------------------------------------------------------------- search_person

  /** One entry of the search API's `query.search` list, with the `.get` defaults applied. */
  datatype SearchResult = SearchResult(title: string, snippet: string, size: int, wordcount: int, pageid: Option<int>)

  /** One candidate, with `confidence_score` in tenths. */
  datatype Candidate = Candidate(title: string, snippet: string, size: int, wordcount: int, pageid: Option<int>, confidence: nat)

  /** 4 for the name in the title, 3 more for the exact title, 2 for the name in the snippet, 1 for a page over 1000 words. */
  function Confidence(searchName: string, result: SearchResult): (c: nat)
    ensures c <= 10
    ensures Lower(result.title) == Lower(searchName) ==> c >= 7
    ensures c >= 7 ==> Contains(Lower(result.title), Lower(searchName))
    ensures Contains(Lower(result.title), Lower(searchName)) ==> c >= 4
    ensures !Contains(Lower(result.title), Lower(searchName)) ==> c <= 3
    ensures c == 10 ==> result.wordcount > 1000
  {
    var title, snippet, n := Lower(result.title), Lower(result.snippet), Lower(searchName);
    ContainsSelf(title);
    var raw := (if Contains(title, n) then 4 else 0) + (if title == n then 3 else 0)
      + (if Contains(snippet, n) then 2 else 0) + (if result.wordcount > 1000 then 1 else 0);
    Min(raw, 10)
  }

  function Min(a: nat, b: nat): nat { if a < b then a else b }

  /** Every string contains itself. */
  lemma ContainsSelf(s: string)
    ensures Contains(s, s)
  {
    assert s[0..|s|] == s;
    assert OccursAt(s, s, 0);
  }

  /** The four increments add up to exactly 10, so the cap at 1.0 never changes a score. */
  lemma CapNeverBinds(searchName: string, result: SearchResult)
    ensures Confidence(searchName, result) ==
      (if Contains(Lower(result.title), Lower(searchName)) then 4 else 0)
      + (if Lower(result.title) == Lower(searchName) then 3 else 0)
      + (if Contains(Lower(result.snippet), Lower(searchName)) then 2 else 0)
      + (if result.wordcount > 1000 then 1 else 0)
  {
  }

  /** `_calculate_confidence`: the accumulator and the cap. */
  method CalculateConfidence(searchName: string, result: SearchResult) returns (c: nat)
    ensures c == Confidence(searchName, result)
  {
    c := 0;
    var title := Lower(result.title);
    var snippet := Lower(result.snippet);
    var nameLower := Lower(searchName);
    if Contains(title, nameLower) {
      c := c + 4;
    }
    if title == nameLower {
      c := c + 3;
    }
    if Contains(snippet, nameLower) {
      c := c + 2;
    }
    if result.wordcount > 1000 {
      c := c + 1;
    }
    c := Min(c, 10);
  }

  /**
   * `search_person`: a failed request gives no candidates; otherwise one candidate per
   * search result, in order, carrying its fields and its score.
   */
  function SearchPerson(name: string, response: Option<seq<SearchResult>>): (r: seq<Candidate>)
    ensures response.None? ==> r == []
    ensures response.Some? ==> |r| == |response.value|
    ensures response.Some? ==> forall i :: 0 <= i < |r| ==>
      var s := response.value[i];
      r[i] == Candidate(s.title, s.snippet, s.size, s.wordcount, s.pageid, Confidence(name, s))
  {
    match response
    case None => []
    case Some(results) =>
      seq(|results|, i requires 0 <= i < |results| =>
        Candidate(results[i].title, results[i].snippet, results[i].size, results[i].wordcount, results[i].pageid,
                  Confidence(name, results[i])))
  }

  // ---------------------------------------------------------------- scrape_person

  /** The page the content request asks for. */
  datatype Query = ByPageId(pageid: int) | ByTitle(title: string)

  /** A page id is falsy when missing or 0, a title when missing or empty. */
  predicate TruthyId(pageid: Option<int>) { pageid.Some? && pageid.value != 0 }
  predicate TruthyTitle(title: Option<string>) { title.Some? && title.value != "" }

  /** Which page to ask for: by page id when there is one, by title otherwise, none without either. */
  function PageQuery(pageid: Option<int>, title: Option<string>): (q: Option<Query>)
    ensures q.None? <==> !TruthyId(pageid) && !TruthyTitle(title)
    ensures TruthyId(pageid) ==> q == Some(ByPageId(pageid.value))
    ensures !TruthyId(pageid) && TruthyTitle(title) ==> q == Some(ByTitle(title.value))
  {
    if TruthyId(pageid) then Some(ByPageId(pageid.value))
    else if TruthyTitle(title) then Some(ByTitle(title.value))
    else None
  }

  /** One page of the content response, with the `.get` defaults applied. */
  datatype Page = Page(title: string, extract: string, fullurl: string, pageid: Option<int>,
                       length: int, touched: string, images: seq<string>)

  /**
   * What one birth, education or occupation pattern captured: group 1 alone, or groups 1 and
   * 2 for the patterns with two groups.
   */
  datatype Groups = One(g1: string) | Two(g1: string, g2: string)

  /**
   * The uninterpreted case-insensitive regex searches over a text: `birth(k, text)` is the
   * match of birth pattern `k` (0 to 2), and likewise for the three occupation
   * patterns and the four education patterns; None when the pattern does not match.
   */
  datatype Regexes = Regexes(birth: (nat, string) -> Option<Groups>,
                             occupation: (nat, string) -> Option<Groups>,
                             education: (nat, string) -> Option<Groups>)

  const BirthPatterns: nat := 3
  const OccupationPatterns: nat := 3
  const EducationPatterns: nat := 4
  /** `r'"([^"]{20,200})"'` and `quotes[:5]`. */
  const QuoteMin: nat := 20
  const QuoteMax: nat := 200
  const MaxQuotes: nat := 5

  datatype StructuredInfo = StructuredInfo(birthDate: Option<string>, birthPlace: Option<string>,
                                           occupation: Option<string>, education: Option<string>,
                                           awards: seq<string>, notableWorks: seq<string>, quotes: seq<string>)

  /** The record `scrape_person` returns. */
  datatype WikiProfile = WikiProfile(page: Page, structuredInfo: StructuredInfo)

  /** The first of patterns `from` to `n - 1` of `m` that matches `text`. */
  function FirstMatching(m: (nat, string) -> Option<Groups>, text: string, n: nat, from: nat): (k: Option<nat>)
    ensures k.Some? ==> from <= k.value < n && m(k.value, text).Some? && forall j :: from <= j < k.value ==> m(j, text).None?
    ensures k.None? ==> forall j :: from <= j < n ==> m(j, text).None?
    decreases n - from
  {
    if from >= n then None else if m(from, text).Some? then Some(from) else FirstMatching(m, text, n, from + 1)
  }

  /** An occupation candidate is kept when its stripped length is strictly between 10 and 100. */
  predicate Plausible(occupation: string) { 10 < |occupation| < 100 }

  function Occupation(g: Groups): string { Strip(g.g1) }

  /** Pattern `k` of the occupation patterns matches and yields a plausible occupation. */
  predicate Qualifies(rx: Regexes, text: string, k: nat)
  {
    rx.occupation(k, text).Some? && Plausible(Occupation(rx.occupation(k, text).value))
  }

  /** The first occupation pattern, from `from` on, whose match qualifies. */
  function FirstQualifying(rx: Regexes, text: string, from: nat): (k: Option<nat>)
    ensures k.Some? ==> from <= k.value < OccupationPatterns && Qualifies(rx, text, k.value)
    ensures k.Some? ==> forall j :: from <= j < k.value ==> !Qualifies(rx, text, j)
    ensures k.None? ==> forall j :: from <= j < OccupationPatterns ==> !Qualifies(rx, text, j)
    decreases OccupationPatterns - from
  {
    if from >= OccupationPatterns then None
    else if Qualifies(rx, text, from) then Some(from)
    else FirstQualifying(rx, text, from + 1)
  }

  /** Birth date and place from the first birth pattern that matches. */
  function Birth(rx: Regexes, text: string): (Option<string>, Option<string>)
  {
    match FirstMatching(rx.birth, text, BirthPatterns, 0)
    case None => (None, None)
    case Some(k) =>
      match rx.birth(k, text).value
      case Two(d, p) => (Some(Strip(d)), Some(Strip(p)))
      case One(d) => (Some(Strip(d)), None)
  }

  /** Education from the first education pattern that matches; two groups are joined by " from " unstripped. */
  function Education(rx: Regexes, text: string): Option<string>
  {
    match FirstMatching(rx.education, text, EducationPatterns, 0)
    case None => None
    case Some(k) =>
      match rx.education(k, text).value
      case Two(a, b) => Some(a + " from " + b)
      case One(a) => Some(Strip(a))
  }

  /** `_extract_structured_info` as a value. */
  function StructuredInfoOf(rx: Regexes, text: string): StructuredInfo
  {
    var (date, place) := Birth(rx, text);
    var occupation := match FirstQualifying(rx, text, 0)
      case None => None
      case Some(k) => Some(Occupation(rx.occupation(k, text).value));
    StructuredInfo(date, place, occupation, Education(rx, text), [], [], Take(Quotes.Quoted(text, QuoteMin, QuoteMax), MaxQuotes))
  }

  /** The birth-pattern loop: date and place from the first pattern that matches. */
  method FindBirth(rx: Regexes, text: string) returns (date: Option<string>, place: Option<string>)
    ensures (date, place) == Birth(rx, text)
  {
    date, place := None, None;
    var k := 0;
    while k < BirthPatterns
      invariant k <= BirthPatterns
      invariant FirstMatching(rx.birth, text, BirthPatterns, 0) == FirstMatching(rx.birth, text, BirthPatterns, k)
    {
      var m := rx.birth(k, text);
      if m.Some? {
        match m.value {
          case Two(d, p) =>
            date, place := Some(Strip(d)), Some(Strip(p));
          case One(d) =>
            date := Some(Strip(d));
        }
        return;
      }
      k := k + 1;
    }
  }

  /** The occupation-pattern loop: the first plausible stripped group. */
  method FindOccupation(rx: Regexes, text: string) returns (occupation: Option<string>)
    ensures occupation == match FirstQualifying(rx, text, 0)
      case None => None
      case Some(k) => Some(Occupation(rx.occupation(k, text).value))
  {
    occupation := None;
    var k := 0;
    while k < OccupationPatterns
      invariant k <= OccupationPatterns
      invariant FirstQualifying(rx, text, 0) == FirstQualifying(rx, text, k)
    {
      var m := rx.occupation(k, text);
      if m.Some? {
        var o := Strip(m.value.g1);
        if |o| > 10 && |o| < 100 {
          return Some(o);
        }
      }
      k := k + 1;
    }
  }

  /** The education-pattern loop: the first pattern that matches. */
  method FindEducation(rx: Regexes, text: string) returns (education: Option<string>)
    ensures education == Education(rx, text)
  {
    education := None;
    var k := 0;
    while k < EducationPatterns
      invariant k <= EducationPatterns
      invariant FirstMatching(rx.education, text, EducationPatterns, 0) == FirstMatching(rx.education, text, EducationPatterns, k)
    {
      var m := rx.education(k, text);
      if m.Some? {
        match m.value {
          case Two(a, b) =>
            education := Some(a + " from " + b);
          case One(a) =>
            education := Some(Strip(a));
        }
        return;
      }
      k := k + 1;
    }
  }

  /**
   * `_extract_structured_info`: the `info` dict starts with None scalars and empty lists and
   * is filled by the three pattern loops, each left at its first accepted match, then the quotes.
   */
  method ExtractStructuredInfo(rx: Regexes, text: string) returns (info: StructuredInfo)
    ensures info == StructuredInfoOf(rx, text)
  {
    info := StructuredInfo(None, None, None, None, [], [], []);
    var date, place := FindBirth(rx, text);
    info := info.(birthDate := date, birthPlace := place);
    var occupation := FindOccupation(rx, text);
    info := info.(occupation := occupation);
    var education := FindEducation(rx, text);
    info := info.(education := education);
    var quotes := Quotes.Quoted(text, QuoteMin, QuoteMax);
    info := info.(quotes := Take(quotes, MaxQuotes));
  }

  /**
   * The occupation, when found, is the stripped group of the first pattern whose match is
   * plausible, and then has between 11 and 99 characters; it is missing exactly when no
   * pattern yields a plausible one.
   */
  lemma OccupationFacts(rx: Regexes, text: string)
    ensures var o := StructuredInfoOf(rx, text).occupation;
      && (o.Some? ==> 10 < |o.value| < 100)
      && (o.Some? ==>
            exists k :: 0 <= k < OccupationPatterns && Qualifies(rx, text, k) && o.value == Occupation(rx.occupation(k, text).value)
              && forall j :: 0 <= j < k ==> !Qualifies(rx, text, j))
      && (o.None? ==> forall k :: 0 <= k < OccupationPatterns ==> !Qualifies(rx, text, k))
  {
    var q := FirstQualifying(rx, text, 0);
    if q.Some? {
      assert Qualifies(rx, text, q.value);
    }
  }

  /**
   * Birth information comes from the first birth pattern that matches: both groups when it
   * has two, the date alone otherwise; with no match both stay None.
   */
  lemma BirthFacts(rx: Regexes, text: string, k: nat)
    requires k < BirthPatterns && rx.birth(k, text).Some? && forall j :: 0 <= j < k ==> rx.birth(j, text).None?
    ensures var info := StructuredInfoOf(rx, text);
      && info.birthDate == Some(Strip(rx.birth(k, text).value.g1))
      && (rx.birth(k, text).value.Two? ==> info.birthPlace == Some(Strip(rx.birth(k, text).value.g2)))
      && (rx.birth(k, text).value.One? ==> info.birthPlace.None?)
  {
    FirstMatchingIs(rx.birth, text, BirthPatterns, 0, k);
  }

  /** The first match is found at `k` when `k` matches and nothing before it does. */
  lemma {:induction false} FirstMatchingIs(m: (nat, string) -> Option<Groups>, text: string, n: nat, from: nat, k: nat)
    requires from <= k < n && m(k, text).Some? && forall j :: from <= j < k ==> m(j, text).None?
    ensures FirstMatching(m, text, n, from) == Some(k)
    decreases k - from
  {
    if from < k {
      FirstMatchingIs(m, text, n, from + 1, k);
    }
  }

  /**
   * Awards and notable works are never filled, no match leaves the scalars None, and the
   * quotes are at most five quote-free runs of 20 to 200 characters found between quotes.
   */
  lemma StructuredInfoDefaults(rx: Regexes, text: string)
    ensures var info := StructuredInfoOf(rx, text);
      && info.awards == [] && info.notableWorks == []
      && |info.quotes| <= MaxQuotes
      && (forall i :: 0 <= i < |info.quotes| ==> QuoteMin <= |info.quotes[i]| <= QuoteMax && Quotes.QuoteFree(info.quotes[i]))
      && ((forall j :: 0 <= j < BirthPatterns ==> rx.birth(j, text).None?) ==> info.birthDate.None? && info.birthPlace.None?)
      && ((forall j :: 0 <= j < EducationPatterns ==> rx.education(j, text).None?) ==> info.education.None?)
  {
    var info := StructuredInfoOf(rx, text);
    var all := Quotes.Quoted(text, QuoteMin, QuoteMax);
    forall i | 0 <= i < |info.quotes| ensures QuoteMin <= |info.quotes[i]| <= QuoteMax && Quotes.QuoteFree(info.quotes[i]) {
      assert info.quotes[i] == all[i];
    }
  }

  /**
   * `scrape_person`: no id and no title, a failed request and an empty page list each give
   * the empty result (None); otherwise the first page with its structured information.
   * `fetch` is the content request for a query: the pages of the response, or None.
   */
  function ScrapePerson(rx: Regexes, pageid: Option<int>, title: Option<string>,
                        fetch: Query -> Option<seq<Page>>): (r: Option<WikiProfile>)
    ensures !TruthyId(pageid) && !TruthyTitle(title) ==> r.None?
    ensures r.Some? ==> var q := PageQuery(pageid, title).value;
      fetch(q).Some? && |fetch(q).value| > 0 && r.value.page == fetch(q).value[0]
      && r.value.structuredInfo == StructuredInfoOf(rx, r.value.page.extract)
    ensures (TruthyId(pageid) || TruthyTitle(title)) ==> var q := PageQuery(pageid, title).value;
      (fetch(q).Some? && |fetch(q).value| > 0 ==> r.Some?)
  {
    match PageQuery(pageid, title)
    case None => None
    case Some(q) =>
      match fetch(q)
      case None => None
      case Some(pages) =>
        if pages == [] then None
        else Some(WikiProfile(pages[0], StructuredInfoOf(rx, pages[0].extract)))
  }
}
