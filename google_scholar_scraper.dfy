/**
 * The Google Scholar scraper: author search hits scored against the name (integer tenths),
 * the filled author profile with its publications and coauthors cut to their limits, the
 * flattening of one publication record, and the topic search with an optional author
 * filter. The `scholarly` client is not modelled: what it yields is given as input.
 */
module GoogleScholarScraper {
  import opened Wrappers
  import opened Text

  /** `Config.MAX_PAPERS`. */
  const MaxPapers: nat := 100
  const MaxCandidates: nat := 10
  const MaxCoauthors: nat := 20
  const MaxTopicResults: nat := 50

  // ---------------------------------------------------------------- search_person

  /** An author record from the client, with the `.get` defaults applied. */
  datatype Author = Author(name: string, affiliation: string, email: string, interests: seq<string>,
                           citedby: int, hindex: int, i10index: int, urlPicture: string, scholarId: string)

  /** One candidate: the author's fields and `confidence_score` in tenths. */
  datatype Candidate = Candidate(author: Author, confidence: nat)

  function Min(a: nat, b: nat): nat { if a < b then a else b }

  /** Every string contains itself. */
  lemma ContainsSelf(s: string)
    ensures Contains(s, s)
  {
    assert s[0..|s|] == s;
    assert OccursAt(s, s, 0);
  }

  /**
   * 4 for the name in the author's name, 3 more for the exact name, 1 for an affiliation,
   * and 2 for over 1000 citations or else 1 for over 100.
   */
  function Confidence(searchName: string, author: Author): (c: nat)
    ensures c <= 10
    ensures Lower(author.name) == Lower(searchName) ==> c >= 7
    ensures !Contains(Lower(author.name), Lower(searchName)) ==> c <= 3
    ensures c == 10 ==> Lower(author.name) == Lower(searchName) && author.affiliation != "" && author.citedby > 1000
    ensures author.citedby <= 100 ==> c <= 8
  {
    var n, s := Lower(author.name), Lower(searchName);
    ContainsSelf(n);
    var raw := (if Contains(n, s) then 4 else 0) + (if n == s then 3 else 0) + (if author.affiliation != "" then 1 else 0)
      + (if author.citedby > 1000 then 2 else if author.citedby > 100 then 1 else 0);
    Min(raw, 10)
  }

  /** `_calculate_confidence`: the accumulator and the cap. */
  method CalculateConfidence(searchName: string, author: Author) returns (c: nat)
    ensures c == Confidence(searchName, author)
  {
    c := 0;
    var authorName := Lower(author.name);
    var nameLower := Lower(searchName);
    if Contains(authorName, nameLower) {
      c := c + 4;
    }
    if authorName == nameLower {
      c := c + 3;
    }
    if author.affiliation != "" {
      c := c + 1;
    }
    if author.citedby > 1000 {
      c := c + 2;
    } else if author.citedby > 100 {
      c := c + 1;
    }
    c := Min(c, 10);
  }

  /** The candidates of the first ten authors the search yields. */
  function Candidates(name: string, authors: seq<Author>): (r: seq<Candidate>)
    ensures |r| == |authors|
    ensures forall i :: 0 <= i < |r| ==> r[i] == Candidate(authors[i], Confidence(name, authors[i]))
  {
    seq(|authors|, i requires 0 <= i < |authors| => Candidate(authors[i], Confidence(name, authors[i])))
  }

  /** `search_person`: the enumeration loop stops at the eleventh author. */
  method SearchPerson(name: string, authors: seq<Author>) returns (candidates: seq<Candidate>)
    ensures candidates == Candidates(name, Take(authors, MaxCandidates))
    ensures |candidates| <= MaxCandidates
  {
    candidates := [];
    var i := 0;
    while i < |authors|
      invariant 0 <= i <= |authors| && i <= MaxCandidates
      invariant candidates == Candidates(name, authors[..i])
    {
      if i >= MaxCandidates {
        break;
      }
      var author := authors[i];
      var score := CalculateConfidence(name, author);
      candidates := candidates + [Candidate(author, score)];
      i := i + 1;
    }
    assert authors[..i] == Take(authors, MaxCandidates);
  }

  // ---------------------------------------------------------------- publications

  /** A publication record from the client: its `bib` fields, `num_citations`, `pub_url` and `eprint_url`. */
  datatype Pub = Pub(bib: map<string, string>, numCitations: Option<int>, pubUrl: Option<string>, eprintUrl: Option<string>)

  /** The flattened publication `_extract_publication_info` returns. */
  datatype PubInfo = PubInfo(title: string, authors: string, year: string, venue: string, abstractText: string,
                             citations: int, url: string, pdfUrl: string, doi: string, keywords: string, publisher: string)

  function BibField(bib: map<string, string>, key: string): string
  {
    if key in bib then bib[key] else ""
  }

  function OrEmpty(s: Option<string>): string { if s.Some? then s.value else "" }

  /** `_extract_publication_info`: every missing text field is '', missing citations are 0. */
  function ExtractPublicationInfo(pub: Pub): PubInfo
  {
    PubInfo(BibField(pub.bib, "title"), BibField(pub.bib, "author"), BibField(pub.bib, "pub_year"),
            BibField(pub.bib, "venue"), BibField(pub.bib, "abstract"),
            if pub.numCitations.Some? then pub.numCitations.value else 0,
            OrEmpty(pub.pubUrl), OrEmpty(pub.eprintUrl),
            BibField(pub.bib, "doi"), BibField(pub.bib, "keywords"), BibField(pub.bib, "publisher"))
  }

  /** The client record that carries exactly the fields of `info`. */
  function AsClientRecord(info: PubInfo): Pub
  {
    Pub(map["title" := info.title, "author" := info.authors, "pub_year" := info.year, "venue" := info.venue,
            "abstract" := info.abstractText, "doi" := info.doi, "keywords" := info.keywords,
            "publisher" := info.publisher],
        Some(info.citations), Some(info.url), Some(info.pdfUrl))
  }

  /** Flattening reads every field from where the client keeps it: a record built from `info` flattens back to `info`. */
  lemma ExtractRoundTrip(info: PubInfo)
    ensures ExtractPublicationInfo(AsClientRecord(info)) == info
  {
    var bib := AsClientRecord(info).bib;
    assert BibField(bib, "title") == info.title;
    assert BibField(bib, "author") == info.authors;
    assert BibField(bib, "pub_year") == info.year;
    assert BibField(bib, "venue") == info.venue;
    assert BibField(bib, "abstract") == info.abstractText;
    assert BibField(bib, "doi") == info.doi;
    assert BibField(bib, "keywords") == info.keywords;
    assert BibField(bib, "publisher") == info.publisher;
  }

  /** A record with no fields flattens to the defaults. */
  lemma ExtractDefaults()
    ensures ExtractPublicationInfo(Pub(map[], None, None, None)) == PubInfo("", "", "", "", "", 0, "", "", "", "", "")
  {
  }

  // ---------------------------------------------------------------- scrape_person

  datatype Coauthor = Coauthor(name: string, affiliation: string, scholarId: string)

  /** The filled author profile from the client, with the `.get` defaults applied. */
  datatype FilledAuthor = FilledAuthor(author: Author, citesPerYear: map<int, int>, publications: seq<Pub>, coauthors: seq<Coauthor>)

  datatype ScholarProfile = ScholarProfile(basicInfo: Author, citesPerYear: map<int, int>,
                                           publications: seq<PubInfo>, coauthors: seq<Coauthor>)

  /** The publications loop: the first `MAX_PAPERS` records, flattened, in order. */
  method CollectPublications(pubs: seq<Pub>) returns (r: seq<PubInfo>)
    ensures |r| == |Take(pubs, MaxPapers)| <= MaxPapers
    ensures forall i :: 0 <= i < |r| ==> r[i] == ExtractPublicationInfo(pubs[i])
  {
    var top := Take(pubs, MaxPapers);
    r := [];
    var i := 0;
    while i < |top|
      invariant 0 <= i <= |top|
      invariant |r| == i && forall j :: 0 <= j < i ==> r[j] == ExtractPublicationInfo(pubs[j])
    {
      r := r + [ExtractPublicationInfo(top[i])];
      i := i + 1;
    }
  }

  /** The coauthors loop: the first twenty, in order. */
  method CollectCoauthors(coauthors: seq<Coauthor>) returns (r: seq<Coauthor>)
    ensures r == Take(coauthors, MaxCoauthors)
  {
    var top := Take(coauthors, MaxCoauthors);
    r := [];
    var i := 0;
    while i < |top|
      invariant 0 <= i <= |top|
      invariant r == top[..i]
    {
      r := r + [top[i]];
      i := i + 1;
    }
    assert top[..|top|] == top;
  }

  /**
   * `scrape_person`: no scholar id, or a failing lookup (`fetch` gives None), gives the empty
   * result; otherwise the profile under the requested id, with capped publications and coauthors.
   */
  method ScrapePerson(scholarId: Option<string>, fetch: string -> Option<FilledAuthor>) returns (r: Option<ScholarProfile>)
    ensures (scholarId.None? || scholarId.value == "") ==> r.None?
    ensures r.Some? <==> scholarId.Some? && scholarId.value != "" && fetch(scholarId.value).Some?
    ensures r.Some? ==> var a := fetch(scholarId.value).value;
      && r.value.basicInfo == a.author.(scholarId := scholarId.value)
      && r.value.citesPerYear == a.citesPerYear
      && |r.value.publications| == |Take(a.publications, MaxPapers)| <= MaxPapers
      && (forall i :: 0 <= i < |r.value.publications| ==> r.value.publications[i] == ExtractPublicationInfo(a.publications[i]))
      && r.value.coauthors == Take(a.coauthors, MaxCoauthors)
  {
    if scholarId.None? || scholarId.value == "" {
      return None;
    }
    var filled := fetch(scholarId.value);
    if filled.None? {
      return None;
    }
    var a := filled.value;
    var pubs := CollectPublications(a.publications);
    var coauthors := CollectCoauthors(a.coauthors);
    r := Some(ScholarProfile(a.author.(scholarId := scholarId.value), a.citesPerYear, pubs, coauthors));
  }

  // ---------------------------------------------------------------- paper content and topic search

  datatype Response = Response(statusCode: int, text: string)

  /** `get_paper_content`: the page text when the request for a non-empty URL came back 200. */
  function GetPaperContent(paperUrl: string, response: Option<Response>): (r: Option<string>)
    ensures paperUrl == "" ==> r.None?
    ensures r.Some? <==> paperUrl != "" && response.Some? && response.value.statusCode == 200
    ensures r.Some? ==> r.value == response.value.text
  {
    if paperUrl == "" then None
    else if response.Some? && response.value.statusCode == 200 then Some(response.value.text)
    else None
  }

  /** The author filter: no filter (or an empty one) keeps everything, otherwise the name must occur in the author string. */
  predicate Keeps(authorName: Option<string>, pub: Pub)
  {
    authorName.None? || authorName.value == "" || Contains(Lower(BibField(pub.bib, "author")), Lower(authorName.value))
  }

  /** `f` of the elements of `xs` that `keep` accepts, in order. */
  function KeepMap<T, U>(xs: seq<T>, keep: T -> bool, f: T -> U): (r: seq<U>)
    ensures |r| <= |xs|
  {
    if xs == [] then []
    else (if keep(xs[0]) then [f(xs[0])] else []) + KeepMap(xs[1..], keep, f)
  }

  lemma {:induction false} KeepMapSnoc<T, U>(xs: seq<T>, x: T, keep: T -> bool, f: T -> U)
    ensures KeepMap(xs + [x], keep, f) == KeepMap(xs, keep, f) + (if keep(x) then [f(x)] else [])
  {
    if xs == [] {
      assert ([] + [x])[1..] == [];
    } else {
      assert (xs + [x])[0] == xs[0] && (xs + [x])[1..] == xs[1..] + [x];
      KeepMapSnoc(xs[1..], x, keep, f);
      var head := if keep(xs[0]) then [f(xs[0])] else [];
      Associative(head, KeepMap(xs[1..], keep, f), if keep(x) then [f(x)] else []);
    }
  }

  lemma KeepMapPrefix<T, U>(xs: seq<T>, i: nat, keep: T -> bool, f: T -> U)
    requires i < |xs|
    ensures KeepMap(xs[..i + 1], keep, f) == KeepMap(xs[..i], keep, f) + (if keep(xs[i]) then [f(xs[i])] else [])
  {
    assert xs[..i] + [xs[i]] == xs[..i + 1];
    KeepMapSnoc(xs[..i], xs[i], keep, f);
  }

  /** When `keep` accepts everything, every element is mapped, in order. */
  lemma {:induction false} KeepMapAll<T, U>(xs: seq<T>, keep: T -> bool, f: T -> U)
    requires forall i :: 0 <= i < |xs| ==> keep(xs[i])
    ensures |KeepMap(xs, keep, f)| == |xs|
    ensures forall i :: 0 <= i < |xs| ==> KeepMap(xs, keep, f)[i] == f(xs[i])
  {
    if xs != [] {
      KeepMapAll(xs[1..], keep, f);
      assert |KeepMap(xs, keep, f)| == |xs|;
      forall i | 0 <= i < |xs| ensures KeepMap(xs, keep, f)[i] == f(xs[i]) {
        if i > 0 { assert xs[1..][i - 1] == xs[i]; }
      }
    }
  }

  /** Every output is `f` of an accepted element. */
  lemma {:induction false} KeepMapKept<T, U>(xs: seq<T>, keep: T -> bool, f: T -> U, p: U -> bool)
    requires forall i :: 0 <= i < |xs| && keep(xs[i]) ==> p(f(xs[i]))
    ensures forall i :: 0 <= i < |KeepMap(xs, keep, f)| ==> p(KeepMap(xs, keep, f)[i])
  {
    if xs != [] {
      KeepMapKept(xs[1..], keep, f, p);
      var head: seq<U> := if keep(xs[0]) then [f(xs[0])] else [];
      var rest := KeepMap(xs[1..], keep, f);
      forall i | 0 <= i < |head + rest| ensures p((head + rest)[i]) {
        if i < |head| { assert (head + rest)[i] == f(xs[0]); }
        else { assert (head + rest)[i] == rest[i - |head|]; }
      }
    }
  }

  /** The flattened records of the publications the filter keeps, in order. */
  function TopicPapers(pubs: seq<Pub>, authorName: Option<string>): seq<PubInfo>
  {
    KeepMap(pubs, (p: Pub) => Keeps(authorName, p), ExtractPublicationInfo)
  }

  /** Without a filter every record is kept, flattened, in order. */
  lemma TopicPapersUnfiltered(pubs: seq<Pub>, authorName: Option<string>)
    requires authorName.None? || authorName.value == ""
    ensures |TopicPapers(pubs, authorName)| == |pubs|
    ensures forall i :: 0 <= i < |pubs| ==> TopicPapers(pubs, authorName)[i] == ExtractPublicationInfo(pubs[i])
  {
    KeepMapAll(pubs, (p: Pub) => Keeps(authorName, p), ExtractPublicationInfo);
  }

  /** With a filter, every kept record's author string contains the name. */
  lemma TopicPapersFiltered(pubs: seq<Pub>, authorName: Option<string>)
    requires authorName.Some? && authorName.value != ""
    ensures forall i :: 0 <= i < |TopicPapers(pubs, authorName)| ==>
      Contains(Lower(TopicPapers(pubs, authorName)[i].authors), Lower(authorName.value))
  {
    KeepMapKept(pubs, (p: Pub) => Keeps(authorName, p), ExtractPublicationInfo,
                (info: PubInfo) => Contains(Lower(info.authors), Lower(authorName.value)));
  }

  /** The author check inside the topic loop. */
  method AuthorMatches(pub: Pub, authorName: Option<string>) returns (matches: bool)
    ensures matches == Keeps(authorName, pub)
  {
    matches := true;
    if authorName.Some? && authorName.value != "" {
      var authors := Lower(BibField(pub.bib, "author"));
      matches := Contains(authors, Lower(authorName.value));
    }
  }

  /** `search_papers_by_topic`: the enumeration loop examines at most fifty results and skips those the filter rejects. */
  method SearchPapersByTopic(pubs: seq<Pub>, authorName: Option<string>) returns (papers: seq<PubInfo>)
    ensures papers == TopicPapers(Take(pubs, MaxTopicResults), authorName)
    ensures |papers| <= MaxTopicResults
  {
    var keep := (p: Pub) => Keeps(authorName, p);
    var examined := Take(pubs, MaxTopicResults);
    papers := [];
    var i := 0;
    while i < |examined|
      invariant 0 <= i <= |examined|
      invariant papers == KeepMap(examined[..i], keep, ExtractPublicationInfo)
    {
      var pub := examined[i];
      var matches := AuthorMatches(pub, authorName);
      KeepMapPrefix(examined, i, keep, ExtractPublicationInfo);
      if matches {
        papers := papers + [ExtractPublicationInfo(pub)];
      }
      i := i + 1;
    }
    assert examined[..i] == examined;
  }
}
