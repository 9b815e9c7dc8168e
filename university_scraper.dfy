/**
 * The university scraper: per-domain DuckDuckGo search with a Bing fallback, scored
 * candidates (integer tenths), and the profile page reader. The HTML parser, `urllib`
 * and the two contact regexes are not interpreted: what they yield is given as input.
 */
module UniversityScraper {
  import opened Wrappers
  import opened Text

  const UniversityDomains: seq<string> :=
    ["dartmouth.edu", "tuck.dartmouth.edu", "mit.edu", "harvard.edu", "berkeley.edu", "princeton.edu", "yale.edu"]
  const AcademicKeywords: seq<string> := ["professor", "prof", "faculty", "researcher", "lecturer", "instructor"]
  const DeptKeywords: seq<string> := ["department", "school", "college", "institute", "center"]
  /** `items[:5]` on both result pages. */
  const ResultsPerEngine: nat := 5
  const SnippetLimit: nat := 240

  // ---------------------------------------------------------------- _calculate_confidence

  predicate AnyKeyword(keywords: seq<string>, titleLower: string, snippetLower: string)
  {
    exists i :: 0 <= i < |keywords| && (Contains(titleLower, keywords[i]) || Contains(snippetLower, keywords[i]))
  }

  /**
   * 4 for the name in the title, 2 for the name in the snippet, 2 for an academic keyword,
   * 1 for a department keyword; the increments add up to 9, so the cap at 10 never binds.
   */
  function Confidence(searchName: string, title: string, snippet: string): (c: nat)
    ensures c <= 9
    ensures Contains(Lower(title), Lower(searchName)) ==> c >= 4
    ensures c >= 6 ==> Contains(Lower(title), Lower(searchName))
    ensures c % 2 == 1 <==> AnyKeyword(DeptKeywords, Lower(title), Lower(snippet))
  {
    var n, t, s := Lower(searchName), Lower(title), Lower(snippet);
    Tenths(Contains(t, n), Contains(s, n), AnyKeyword(AcademicKeywords, t, s), AnyKeyword(DeptKeywords, t, s))
  }

  /** The sum of the four increments, in tenths. */
  function Tenths(nameInTitle: bool, nameInSnippet: bool, academic: bool, dept: bool): (c: nat)
    ensures c <= 9
    ensures nameInTitle ==> c >= 4
    ensures c >= 6 ==> nameInTitle
    ensures c % 2 == 1 <==> dept
  {
    (if nameInTitle then 4 else 0) + (if nameInSnippet then 2 else 0) + (if academic then 2 else 0) + (if dept then 1 else 0)
  }

  /** One keyword loop: true at the first keyword found in the title or the snippet. */
  method FindKeyword(keywords: seq<string>, titleLower: string, snippetLower: string) returns (found: bool)
    ensures found == AnyKeyword(keywords, titleLower, snippetLower)
  {
    found := false;
    var i := 0;
    while i < |keywords|
      invariant 0 <= i <= |keywords|
      invariant forall j :: 0 <= j < i ==> !(Contains(titleLower, keywords[j]) || Contains(snippetLower, keywords[j]))
    {
      if Contains(titleLower, keywords[i]) || Contains(snippetLower, keywords[i]) {
        found := true;
        break;
      }
      i := i + 1;
    }
  }

  /** `_calculate_confidence`: the accumulator, the two keyword loops and the cap. */
  method CalculateConfidence(searchName: string, title: string, snippet: string) returns (c: nat)
    ensures c == Confidence(searchName, title, snippet)
  {
    c := 0;
    var nameLower := Lower(searchName);
    var titleLower := Lower(title);
    var snippetLower := Lower(snippet);
    if Contains(titleLower, nameLower) {
      c := c + 4;
    }
    if Contains(snippetLower, nameLower) {
      c := c + 2;
    }
    var academic := FindKeyword(AcademicKeywords, titleLower, snippetLower);
    if academic {
      c := c + 2;
    }
    var dept := FindKeyword(DeptKeywords, titleLower, snippetLower);
    if dept {
      c := c + 1;
    }
    c := Min(c, 10);
  }

  function Min(a: nat, b: nat): nat { if a < b then a else b }

  // ---------------------------------------------------------------- the two engines

  datatype Candidate = Candidate(title: string, url: string, snippet: string, university: string, confidence: nat)

  /**
   * One `a.result__a` link of the DuckDuckGo page: its text, its `href` ('' when absent), and
   * the text of its `result__body` parent when there is one.
   */
  datatype DdgLink = DdgLink(text: string, href: string, body: Option<string>)

  /** One `li.b_algo` item of the Bing page: its first link's text and `href`, if it has a link, and its paragraph's text. */
  datatype BingItem = BingItem(link: Option<(string, string)>, paragraph: Option<string>)

  /** A DuckDuckGo redirect link, by prefix or by the redirect path anywhere in it. */
  predicate IsRedirect(href: string)
  {
    StartsWith(href, "/l/?uddg=") || Contains(href, "duckduckgo.com/l/?uddg=")
  }

  /**
   * The link a DuckDuckGo result points to. `uddg(href)` is the decoded first `uddg` query
   * value of `href` ('' when it has none), as `urllib` computes it.
   */
  function DdgTarget(href: string, uddg: string -> string): (r: string)
    ensures !IsRedirect(href) || uddg(href) == "" ==> r == href
    ensures IsRedirect(href) && uddg(href) != "" ==> r == uddg(href)
  {
    if IsRedirect(href) && uddg(href) != "" then uddg(href) else href
  }

  function DdgCandidate(domain: string, name: string, link: DdgLink, uddg: string -> string): Candidate
  {
    var title := Strip(link.text);
    var snippet := if link.body.Some? then Take(link.body.value, SnippetLimit) else "";
    Candidate(title, DdgTarget(link.href, uddg), snippet, domain, Confidence(name, title, snippet))
  }

  /** `_search_domain_duckduckgo`: no page gives nothing; otherwise the first five links. */
  function SearchDuckDuckGo(domain: string, name: string, page: Option<seq<DdgLink>>, uddg: string -> string): (r: seq<Candidate>)
    ensures page.None? ==> r == []
    ensures page.Some? ==> |r| == |Take(page.value, ResultsPerEngine)|
    ensures |r| <= ResultsPerEngine
    ensures forall i :: 0 <= i < |r| ==> |r[i].snippet| <= SnippetLimit && r[i].university == domain
  {
    if page.None? then []
    else
      var links := Take(page.value, ResultsPerEngine);
      seq(|links|, i requires 0 <= i < |links| => DdgCandidate(domain, name, links[i], uddg))
  }

  /** A protocol-relative Bing link gets the https scheme. */
  function Absolute(href: string): (r: string)
    ensures StartsWith(href, "//") ==> r == "https:" + href
    ensures !StartsWith(href, "//") ==> r == href
  {
    if StartsWith(href, "//") then "https:" + href else href
  }

  function BingCandidates(domain: string, name: string, items: seq<BingItem>): (r: seq<Candidate>)
    ensures |r| <= |items|
    ensures forall i :: 0 <= i < |r| ==> r[i].university == domain
  {
    if items == [] then []
    else
      var rest := BingCandidates(domain, name, items[1..]);
      match items[0].link
      case None => rest
      case Some((text, href)) =>
        var title := Strip(text);
        var snippet := if items[0].paragraph.Some? then items[0].paragraph.value else "";
        [Candidate(title, Absolute(href), snippet, domain, Confidence(name, title, snippet))] + rest
  }

  /** `_search_domain_bing`: no page gives nothing; otherwise the first five items, skipping those without a link. */
  function SearchBing(domain: string, name: string, page: Option<seq<BingItem>>): (r: seq<Candidate>)
    ensures page.None? ==> r == []
    ensures |r| <= ResultsPerEngine
    ensures forall i :: 0 <= i < |r| ==> r[i].university == domain
  {
    if page.None? then [] else BingCandidates(domain, name, Take(page.value, ResultsPerEngine))
  }

  // ---------------------------------------------------------------- search_person

  /** The result pages of the two engines for a domain (None when the request failed) and the `uddg` decoder. */
  datatype Web = Web(ddg: string -> Option<seq<DdgLink>>, bing: string -> Option<seq<BingItem>>, uddg: string -> string)

  function DomainResults(w: Web, domain: string, name: string): seq<Candidate>
  {
    var d := SearchDuckDuckGo(domain, name, w.ddg(domain), w.uddg);
    if d == [] then SearchBing(domain, name, w.bing(domain)) else d
  }

  function AllResults(w: Web, domains: seq<string>, name: string): seq<Candidate>
  {
    if domains == [] then [] else AllResults(w, domains[..|domains| - 1], name) + DomainResults(w, domains[|domains| - 1], name)
  }

  /** The domains, in order, whose DuckDuckGo search came back empty. */
  function BingFallbacks(w: Web, domains: seq<string>, name: string): seq<string>
  {
    if domains == [] then []
    else
      var last := domains[|domains| - 1];
      BingFallbacks(w, domains[..|domains| - 1], name)
        + (if SearchDuckDuckGo(last, name, w.ddg(last), w.uddg) == [] then [last] else [])
  }

  /**
   * `search_person`: for each domain in turn, its DuckDuckGo results, and Bing's only when
   * DuckDuckGo found nothing. `bingQueried` lists the domains Bing was asked about.
   */
  method SearchPerson(w: Web, name: string) returns (candidates: seq<Candidate>, bingQueried: seq<string>)
    ensures candidates == AllResults(w, UniversityDomains, name)
    ensures bingQueried == BingFallbacks(w, UniversityDomains, name)
  {
    candidates, bingQueried := SearchDomains(w, UniversityDomains, name);
  }

  /** The domain loop of `search_person`, over any list of domains. */
  method SearchDomains(w: Web, domains: seq<string>, name: string) returns (candidates: seq<Candidate>, bingQueried: seq<string>)
    ensures candidates == AllResults(w, domains, name)
    ensures bingQueried == BingFallbacks(w, domains, name)
  {
    candidates, bingQueried := [], [];
    var k := 0;
    while k < |domains|
      invariant 0 <= k <= |domains|
      invariant candidates == AllResults(w, domains[..k], name)
      invariant bingQueried == BingFallbacks(w, domains[..k], name)
    {
      var domain := domains[k];
      PrefixStep(w, domains, k, name);
      var ddgResults := SearchDuckDuckGo(domain, name, w.ddg(domain), w.uddg);
      candidates := candidates + ddgResults;
      if ddgResults == [] {
        var bingResults := SearchBing(domain, name, w.bing(domain));
        bingQueried := bingQueried + [domain];
        assert candidates == AllResults(w, domains[..k], name);
        candidates := candidates + bingResults;
      }
      k := k + 1;
    }
    assert domains[..k] == domains;
  }

  /** One more domain adds its results and, when DuckDuckGo found nothing, its Bing entry. */
  lemma PrefixStep(w: Web, domains: seq<string>, k: nat, name: string)
    requires k < |domains|
    ensures AllResults(w, domains[..k + 1], name) == AllResults(w, domains[..k], name) + DomainResults(w, domains[k], name)
    ensures BingFallbacks(w, domains[..k + 1], name) == BingFallbacks(w, domains[..k], name)
      + (if SearchDuckDuckGo(domains[k], name, w.ddg(domains[k]), w.uddg) == [] then [domains[k]] else [])
  {
    assert domains[..k + 1][..k] == domains[..k];
  }

  /** Bing is asked about a domain exactly when DuckDuckGo found nothing there. */
  lemma {:induction false} BingOnlyAfterEmpty(w: Web, domains: seq<string>, name: string)
    ensures forall d :: d in BingFallbacks(w, domains, name) ==> d in domains && SearchDuckDuckGo(d, name, w.ddg(d), w.uddg) == []
    ensures forall d :: d in domains && SearchDuckDuckGo(d, name, w.ddg(d), w.uddg) == [] ==> d in BingFallbacks(w, domains, name)
  {
    if domains != [] {
      var init := domains[..|domains| - 1];
      BingOnlyAfterEmpty(w, init, name);
      assert domains == init + [domains[|domains| - 1]];
    }
  }

  /** Each domain contributes at most five candidates, all tagged with that domain. */
  lemma {:induction false} ResultsBounded(w: Web, domains: seq<string>, name: string)
    ensures |AllResults(w, domains, name)| <= ResultsPerEngine * |domains|
    ensures forall i :: 0 <= i < |AllResults(w, domains, name)| ==> AllResults(w, domains, name)[i].university in domains
  {
    if domains != [] {
      var init := domains[..|domains| - 1];
      var last := domains[|domains| - 1];
      ResultsBounded(w, init, name);
      var a: seq<Candidate>, b: seq<Candidate> := AllResults(w, init, name), DomainResults(w, last, name);
      forall i | 0 <= i < |a + b| ensures (a + b)[i].university in domains {
        if i < |a| {
          assert (a + b)[i] == a[i];
          assert a[i].university in init;
        } else {
          assert (a + b)[i] == b[i - |a|];
        }
      }
    }
  }

  // ---------------------------------------------------------------- scrape_person

  /** An element a CSS selector found: its text and the texts of its `li` and `p` descendants. */
  datatype Element = Element(text: string, items: seq<string>)

  /**
   * A fetched profile page: `select(css)` is the first element the selector finds, and
   * `email` / `phone` are the first matches of the two contact regexes over the page text.
   */
  datatype ProfilePage = ProfilePage(select: string -> Option<Element>, email: Option<string>, phone: Option<string>)

  datatype Profile = Profile(name: string, url: string, university: string, title: string, department: string,
                             email: string, phone: string, office: string, researchInterests: seq<string>,
                             education: seq<string>, publications: seq<string>, courses: seq<string>, biography: string)

  const TitleSelectors: seq<string> := ["h1", "h2", ".title", ".position", ".job-title"]
  const DeptSelectors: seq<string> := [".department", ".school", ".college", ".institute"]
  const ResearchSelectors: seq<string> := [".research-interests", ".research", ".interests", ".expertise"]
  const EducationSelectors: seq<string> := [".education", ".degrees", ".academic-background"]
  const PubSelectors: seq<string> := [".publications", ".papers", ".research-output"]
  const CourseSelectors: seq<string> := [".courses", ".teaching", ".classes"]
  const BioSelectors: seq<string> := [".biography", ".bio", ".about", ".profile"]
  const MaxInterests: nat := 10
  const MaxEducation: nat := 5
  const MaxPublications: nat := 10
  const MaxCourses: nat := 10

  /** The element of the first selector that finds one. */
  function FirstSelected(page: ProfilePage, selectors: seq<string>): (r: Option<Element>)
    ensures r.None? <==> forall i :: 0 <= i < |selectors| ==> page.select(selectors[i]).None?
  {
    if selectors == [] then None
    else if page.select(selectors[0]).Some? then page.select(selectors[0])
    else
      var r := FirstSelected(page, selectors[1..]);
      assert forall i :: 1 <= i < |selectors| ==> selectors[i] == selectors[1..][i - 1];
      r
  }

  /** What the first selector that finds an element finds, no earlier selector finding one. */
  lemma {:induction false} FirstSelectedIs(page: ProfilePage, selectors: seq<string>)
    requires FirstSelected(page, selectors).Some?
    ensures exists i :: 0 <= i < |selectors| && page.select(selectors[i]) == FirstSelected(page, selectors) && forall j :: 0 <= j < i ==> page.select(selectors[j]).None?
  {
    if page.select(selectors[0]).None? {
      FirstSelectedIs(page, selectors[1..]);
      var i :| 0 <= i < |selectors[1..]| && page.select(selectors[1..][i]) == FirstSelected(page, selectors[1..])
        && forall j :: 0 <= j < i ==> page.select(selectors[1..][j]).None?;
      assert forall j :: 0 <= j < i + 1 ==> page.select(selectors[j]).None? by {
        forall j | 0 <= j < i + 1 ensures page.select(selectors[j]).None? {
          if j > 0 {
            assert selectors[j] == selectors[1..][j - 1];
          }
        }
      }
      assert page.select(selectors[i + 1]) == FirstSelected(page, selectors);
    } else {
      assert page.select(selectors[0]) == FirstSelected(page, selectors);
    }
  }

  /** A selector loop with `break`: the element of the first selector that finds one. */
  method SelectFirst(page: ProfilePage, selectors: seq<string>) returns (e: Option<Element>)
    ensures e == FirstSelected(page, selectors)
  {
    var k := 0;
    while k < |selectors|
      invariant 0 <= k <= |selectors|
      invariant FirstSelected(page, selectors) == FirstSelected(page, selectors[k..])
    {
      assert selectors[k..][1..] == selectors[k + 1..];
      var found := page.select(selectors[k]);
      if found.Some? {
        return found;
      }
      k := k + 1;
    }
    return None;
  }

  predicate IsSep(c: char) { c == ',' || c == ';' }

  /** `re.split(r'[,;]', s)`: the pieces between the commas and semicolons. */
  function SplitSeps(s: string): (r: seq<string>)
    ensures |r| >= 1
    ensures forall i :: 0 <= i < |r| ==> forall k :: 0 <= k < |r[i]| ==> !IsSep(r[i][k])
    decreases |s|
  {
    var k := SepIndex(s, 0);
    if k == |s| then [s]
    else
      var rest := SplitSeps(s[k + 1..]);
      assert forall j :: 0 <= j < k ==> !IsSep(s[..k][j]);
      [s[..k]] + rest
  }

  /** Index of the first separator at or after `i`, or `|s|`. */
  function SepIndex(s: string, i: nat): (k: nat)
    requires i <= |s|
    ensures i <= k <= |s| && (k < |s| ==> IsSep(s[k])) && forall j :: i <= j < k ==> !IsSep(s[j])
    decreases |s| - i
  {
    if i == |s| || IsSep(s[i]) then i else SepIndex(s, i + 1)
  }

  /** The stripped pieces longer than three characters, in order. */
  function LongPieces(pieces: seq<string>): (r: seq<string>)
    ensures forall i :: 0 <= i < |r| ==> |r[i]| > 3
    ensures (forall i :: 0 <= i < |pieces| ==> forall k :: 0 <= k < |pieces[i]| ==> !IsSep(pieces[i][k])) ==>
      forall i :: 0 <= i < |r| ==> forall k :: 0 <= k < |r[i]| ==> !IsSep(r[i][k])
  {
    if pieces == [] then []
    else
      var p := Strip(pieces[0]);
      assert forall k :: 0 <= k < |p| ==> p[k] == pieces[0][LeadingSpace(pieces[0]) + k];
      (if |p| > 3 then [p] else []) + LongPieces(pieces[1..])
  }

  /** The research interests of an element: at most ten stripped pieces of more than three characters, none with a separator. */
  function Interests(text: string): (r: seq<string>)
    ensures |r| <= MaxInterests
    ensures forall i :: 0 <= i < |r| ==> |r[i]| > 3 && forall k :: 0 <= k < |r[i]| ==> !IsSep(r[i][k])
  {
    var all := LongPieces(SplitSeps(text));
    var r := Take(all, MaxInterests);
    assert forall i :: 0 <= i < |r| ==> r[i] == all[i];
    r
  }

  /** The stripped, non-empty texts among the items. */
  function NonEmptyTexts(items: seq<string>): (r: seq<string>)
    ensures |r| <= |items|
    ensures forall i :: 0 <= i < |r| ==> r[i] != ""
  {
    if items == [] then [] else Kept(items[0]) + NonEmptyTexts(items[1..])
  }

  /** An item's stripped text, when it is not empty. */
  function Kept(item: string): (r: seq<string>)
    ensures |r| <= 1 && forall i :: 0 <= i < |r| ==> r[i] != ""
  {
    if Strip(item) != "" then [Strip(item)] else []
  }

  lemma {:induction false} NonEmptyTextsSnoc(items: seq<string>, x: string)
    ensures NonEmptyTexts(items + [x]) == NonEmptyTexts(items) + Kept(x)
  {
    if items == [] {
      assert ([] + [x])[1..] == [];
    } else {
      assert (items + [x])[0] == items[0] && (items + [x])[1..] == items[1..] + [x];
      NonEmptyTextsSnoc(items[1..], x);
    }
  }

  lemma NonEmptyTextsStep(items: seq<string>, i: nat)
    requires i < |items|
    ensures NonEmptyTexts(items[..i + 1]) == NonEmptyTexts(items[..i]) + Kept(items[i])
  {
    PrefixSnoc(items, i);
    NonEmptyTextsSnoc(items[..i], items[i]);
  }

  lemma PrefixSnoc<T>(s: seq<T>, i: nat)
    requires i < |s|
    ensures s[..i + 1] == s[..i] + [s[i]]
  {
  }

  /** An item loop: the non-empty stripped texts of the first `limit` items. */
  method CollectItems(e: Element, limit: nat) returns (r: seq<string>)
    ensures r == NonEmptyTexts(Take(e.items, limit))
  {
    r := [];
    var i := 0;
    while i < |e.items| && i < limit
      invariant 0 <= i <= |e.items| && i <= limit
      invariant r == NonEmptyTexts(e.items[..i])
    {
      NonEmptyTextsStep(e.items, i);
      r := r + Kept(e.items[i]);
      i := i + 1;
    }
    assert e.items[..i] == Take(e.items, limit) by { assert |Take(e.items, limit)| == i; }
  }

  /** A list field of a profile: the non-empty stripped item texts of the first element the selectors find, up to the limit. */
  function ListOf(page: ProfilePage, selectors: seq<string>, limit: nat): (r: seq<string>)
    ensures FirstSelected(page, selectors).None? ==> r == []
    ensures |r| <= limit && forall i :: 0 <= i < |r| ==> r[i] != ""
  {
    match FirstSelected(page, selectors)
    case None => []
    case Some(e) => NonEmptyTexts(Take(e.items, limit))
  }

  /** A text field of a profile: the stripped text of the first element the selectors find, or ''. */
  function TextOf(page: ProfilePage, selectors: seq<string>): (r: string)
    ensures FirstSelected(page, selectors).None? ==> r == ""
    ensures r == "" || (!IsSpace(r[0]) && !IsSpace(r[|r| - 1]))
  {
    match FirstSelected(page, selectors)
    case None => ""
    case Some(e) => Strip(e.text)
  }

  /** The research interests of a page, from the first research element found. */
  function InterestsOf(page: ProfilePage): seq<string>
  {
    match FirstSelected(page, ResearchSelectors)
    case None => []
    case Some(e) => Interests(e.text)
  }

  /**
   * The intended profile of a fetched page: the identity fields from the search candidate,
   * the contact fields from the two regex matches, the office left empty, and the rest
   * selector by selector within their limits.
   */
  function ProfileOf(url: string, title: string, university: string, page: ProfilePage): (r: Profile)
    ensures r.url == url && r.name == title && r.university == university && r.office == ""
    ensures r.email == (if page.email.Some? then page.email.value else "")
    ensures r.phone == (if page.phone.Some? then page.phone.value else "")
    ensures |r.researchInterests| <= MaxInterests && forall i :: 0 <= i < |r.researchInterests| ==> |r.researchInterests[i]| > 3
    ensures |r.education| <= MaxEducation && forall i :: 0 <= i < |r.education| ==> r.education[i] != ""
    ensures |r.publications| <= MaxPublications && |r.courses| <= MaxCourses
  {
    Profile(title, url, university, TextOf(page, TitleSelectors), TextOf(page, DeptSelectors),
            if page.email.Some? then page.email.value else "", if page.phone.Some? then page.phone.value else "", "",
            InterestsOf(page), ListOf(page, EducationSelectors, MaxEducation), ListOf(page, PubSelectors, MaxPublications),
            ListOf(page, CourseSelectors, MaxCourses), TextOf(page, BioSelectors))
  }

  /** One list-field loop of `scrape_person`. */
  method ListSection(page: ProfilePage, selectors: seq<string>, limit: nat) returns (r: seq<string>)
    ensures r == ListOf(page, selectors, limit)
  {
    var e := SelectFirst(page, selectors);
    r := [];
    if e.Some? {
      r := CollectItems(e.value, limit);
    }
  }

  /** One text-field loop of `scrape_person`. */
  method TextSection(page: ProfilePage, selectors: seq<string>) returns (r: string)
    ensures r == TextOf(page, selectors)
  {
    var e := SelectFirst(page, selectors);
    r := "";
    if e.Some? {
      r := Strip(e.value.text);
    }
  }

  /** `scrape_person` as intended: no URL or no page gives the empty result (None); otherwise the profile of the page. */
  method ScrapePerson(url: Option<string>, title: string, university: string, page: Option<ProfilePage>)
    returns (r: Option<Profile>)
    ensures r.Some? <==> url.Some? && url.value != "" && page.Some?
    ensures r.Some? ==> r.value == ProfileOf(url.value, title, university, page.value)
  {
    if url.None? || url.value == "" || page.None? {
      return None;
    }
    var p := page.value;
    var position := TextSection(p, TitleSelectors);
    var department := TextSection(p, DeptSelectors);
    var email := if p.email.Some? then p.email.value else "";
    var phone := if p.phone.Some? then p.phone.value else "";
    var research := SelectFirst(p, ResearchSelectors);
    var interests := if research.Some? then Interests(research.value.text) else [];
    var education := ListSection(p, EducationSelectors, MaxEducation);
    var pubs := ListSection(p, PubSelectors, MaxPublications);
    var courses := ListSection(p, CourseSelectors, MaxCourses);
    var bio := TextSection(p, BioSelectors);
    return Some(Profile(title, url.value, university, position, department, email, phone, "", interests,
                        education, pubs, courses, bio));
  }

  /**
   * `scrape_person` as written: the module never imports `re`, so the email search raises a
   * NameError once a page is fetched, and the handler turns it into the empty result.
   */
  function ScrapePersonAsWritten(url: Option<string>, title: string, university: string, page: Option<ProfilePage>): (r: Option<Profile>)
    ensures r.None?
  {
    None
  }

  /** Every fetched page with a URL loses its profile: the intended result and the one as written differ. */
  lemma MissingImportFinding(url: Option<string>, title: string, university: string, page: Option<ProfilePage>)
    requires url.Some? && url.value != "" && page.Some?
    ensures ScrapePersonAsWritten(url, title, university, page) != Some(ProfileOf(url.value, title, university, page.value))
  {
  }
}
