/**
 * The person searcher: strategy dispatch, author-position detection, the per-paper URL
 * list, and the conversion of Google Scholar and fallback records into paper metadata.
 * Scholar, Wikipedia and the enrichment APIs are inputs: their answers are parameters.
 */
module PersonSearcher {
  import opened Wrappers
  import opened Text
  import opened Json
  import Dedup
  import Sorting
  import PublicationsEnricher

  /** `PaperMetadata` after `__post_init__`: `urls` is always a list. */
  datatype PaperMetadata = PaperMetadata(
    title: string, authors: string, year: string, venue: string, citations: int,
    doi: Option<string>, pdfUrl: Option<string>, abstractText: Option<string>, url: Option<string>,
    scholarId: Option<string>, pubUrl: Option<string>, authorPosition: int, urls: seq<string>)

  /** Building a `PaperMetadata`; `urls=None` (the default) becomes `[]`. */
  function NewPaperMetadata(
    title: string, authors: string, year: string, venue: string, citations: int,
    doi: Option<string>, pdfUrl: Option<string>, abstractText: Option<string>, url: Option<string>,
    scholarId: Option<string>, pubUrl: Option<string>, authorPosition: int, urls: Option<seq<string>>): (m: PaperMetadata)
    ensures urls.None? ==> m.urls == []
    ensures urls.Some? ==> m.urls == urls.value
    ensures m.title == title && m.authorPosition == authorPosition && m.citations == citations
  {
    PaperMetadata(title, authors, year, venue, citations, doi, pdfUrl, abstractText, url, scholarId, pubUrl,
                  authorPosition, if urls.None? then [] else urls.value)
  }

  // ---------------------------------------------------------------- dispatch

  datatype Strategy = ByScholarId(scholarId: string, personName: Option<string>) | ByName(name: string)

  predicate Given(s: Option<string>) { s.Some? && s.value != "" }

  /** `search_person`: a ValueError without name and id; the Scholar id wins when both are given. */
  function SearchPerson(personName: Option<string>, scholarId: Option<string>): (r: Result<Strategy, string>)
    ensures r.Err? <==> !Given(personName) && !Given(scholarId)
    ensures Given(scholarId) ==> r == Ok(ByScholarId(scholarId.value, personName))
    ensures !Given(scholarId) && Given(personName) ==> r == Ok(ByName(personName.value))
  {
    if !Given(personName) && !Given(scholarId) then Err("ValueError: Must provide either person_name or scholar_id")
    else if Given(scholarId) then Ok(ByScholarId(scholarId.value, personName))
    else Ok(ByName(personName.value))
  }

  // ---------------------------------------------------------------- author position

  /** An author string, or a list of them joined by ", "; anything else raises. */
  function AuthorsString(v: Value): Result<string, string>
  {
    match v
    case Str(s) => Ok(s)
    case List(items) => if forall i :: 0 <= i < |items| ==> items[i].Str? then Ok(Join(Strings(items), ", ")) else Err("TypeError")
    case _ => Err("AttributeError")
  }

  function Strings(items: seq<Value>): (r: seq<string>)
    requires forall i :: 0 <= i < |items| ==> items[i].Str?
    ensures |r| == |items| && forall i :: 0 <= i < |r| ==> r[i] == items[i].s
  {
    if items == [] then [] else [items[0].s] + Strings(items[1..])
  }

  /** `[a.strip() for a in authors_str.split(',')]`. */
  function AuthorList(s: string): (r: seq<string>)
    ensures |r| == |Split(s, ",")| && forall i :: 0 <= i < |r| ==> r[i] == Strip(Split(s, ",")[i])
  {
    StripAll(Split(s, ","))
  }

  function StripAll(xs: seq<string>): (r: seq<string>)
    ensures |r| == |xs| && forall i :: 0 <= i < |r| ==> r[i] == Strip(xs[i])
  {
    if xs == [] then [] else [Strip(xs[0])] + StripAll(xs[1..])
  }

  /** Some name part longer than two characters occurs in the lowercased author. */
  predicate NameMatches(author: string, nameParts: seq<string>)
  {
    exists q :: q in nameParts && |q| > 2 && Contains(Lower(author), q)
  }

  /** The first matching author, 1-based, as `_detect_author_position` computes it. */
  function PositionSpec(authorsStr: Value, authorNameClean: string): Result<int, string>
  {
    if !Truthy(authorsStr) then Ok(-1)
    else match AuthorsString(authorsStr)
      case Err(e) => Err(e)
      case Ok(s) => Ok(FirstMatch(AuthorList(s), Words(authorNameClean), 0))
  }

  function FirstMatch(list: seq<string>, parts: seq<string>, from: nat): int
  {
    FirstWhere(list, (a: string) => NameMatches(a, parts), from)
  }

  /** The 1-based position of the first element from `from` on that satisfies `p`, or -1. */
  function FirstWhere<T>(xs: seq<T>, p: T -> bool, from: nat): int
    decreases |xs| - from
  {
    if from >= |xs| then -1 else if p(xs[from]) then from + 1 else FirstWhere(xs, p, from + 1)
  }

  lemma {:induction false} FirstWhereFacts<T>(xs: seq<T>, p: T -> bool, from: nat)
    requires from <= |xs|
    ensures FirstWhere(xs, p, from) == -1 ==> forall i :: from <= i < |xs| ==> !p(xs[i])
    ensures var r := FirstWhere(xs, p, from);
      r != -1 ==> from + 1 <= r <= |xs| && p(xs[r - 1]) && forall i :: from <= i < r - 1 ==> !p(xs[i])
    decreases |xs| - from
  {
    if from < |xs| && !p(xs[from]) {
      FirstWhereFacts(xs, p, from + 1);
    }
  }

  /** -1 exactly when no author from `from` on matches; otherwise the first match after `from`, 1-based. */
  lemma FirstMatchFacts(list: seq<string>, parts: seq<string>, from: nat)
    requires from <= |list|
    ensures FirstMatch(list, parts, from) == -1 ==> forall i :: from <= i < |list| ==> !NameMatches(list[i], parts)
    ensures var r := FirstMatch(list, parts, from);
      r != -1 ==> from + 1 <= r <= |list| && NameMatches(list[r - 1], parts)
                  && forall i :: from <= i < r - 1 ==> !NameMatches(list[i], parts)
  {
    FirstWhereFacts(list, (a: string) => NameMatches(a, parts), from);
  }

  /**
   * `_detect_author_position`: -1 for a falsy input or when no author matches, otherwise
   * the 1-based index of the first author some part of the cleaned name occurs in.
   */
  lemma DetectAuthorPositionFacts(authorsStr: Value, authorNameClean: string)
    ensures !Truthy(authorsStr) ==> PositionSpec(authorsStr, authorNameClean) == Ok(-1)
    ensures Truthy(authorsStr) && AuthorsString(authorsStr).Err? ==> PositionSpec(authorsStr, authorNameClean).Err?
    ensures Truthy(authorsStr) && AuthorsString(authorsStr).Ok? ==>
      var list := AuthorList(AuthorsString(authorsStr).value);
      var parts := Words(authorNameClean);
      var r := PositionSpec(authorsStr, authorNameClean);
      && r.Ok?
      && (r.value == -1 ==> forall i :: 0 <= i < |list| ==> !NameMatches(list[i], parts))
      && (r.value != -1 ==> 1 <= r.value <= |list| && NameMatches(list[r.value - 1], parts)
                             && forall i :: 0 <= i < r.value - 1 ==> !NameMatches(list[i], parts))
  {
    if Truthy(authorsStr) && AuthorsString(authorsStr).Ok? {
      FirstMatchFacts(AuthorList(AuthorsString(authorsStr).value), Words(authorNameClean), 0);
    }
  }

  /** The early-return loop of `_detect_author_position`. */
  method DetectAuthorPosition(authorsStr: Value, authorNameClean: string) returns (r: Result<int, string>)
    ensures r == PositionSpec(authorsStr, authorNameClean)
  {
    if !Truthy(authorsStr) {
      return Ok(-1);
    }
    var s := AuthorsString(authorsStr);
    if s.Err? {
      return Err(s.error);
    }
    var authorList := AuthorList(s.value);
    var idx := 0;
    while idx < |authorList|
      invariant 0 <= idx <= |authorList|
      invariant FirstMatch(authorList, Words(authorNameClean), 0) == FirstMatch(authorList, Words(authorNameClean), idx)
    {
      var authorLower := Lower(authorList[idx]);
      var nameParts := Words(authorNameClean);
      var found := AnyPartIn(nameParts, authorLower);
      FirstMatchStep(authorList, nameParts, idx);
      if found {
        return Ok(idx + 1);
      }
      idx := idx + 1;
    }
    FirstMatchStep(authorList, Words(authorNameClean), idx);
    return Ok(-1);
  }

  /** One step of the scan. */
  lemma FirstMatchStep(list: seq<string>, parts: seq<string>, idx: nat)
    requires idx <= |list|
    ensures idx == |list| ==> FirstMatch(list, parts, idx) == -1
    ensures idx < |list| ==>
      FirstMatch(list, parts, idx) == if exists q :: q in parts && |q| > 2 && Contains(Lower(list[idx]), q) then idx + 1 else FirstMatch(list, parts, idx + 1)
  {
  }

  /** `any(part in author_lower for part in name_parts if len(part) > 2)`. */
  method AnyPartIn(nameParts: seq<string>, authorLower: string) returns (found: bool)
    ensures found <==> exists q :: q in nameParts && |q| > 2 && Contains(authorLower, q)
  {
    var k := 0;
    while k < |nameParts|
      invariant 0 <= k <= |nameParts|
      invariant forall j :: 0 <= j < k ==> !(|nameParts[j]| > 2 && Contains(authorLower, nameParts[j]))
    {
      if |nameParts[k]| > 2 && Contains(authorLower, nameParts[k]) {
        return true;
      }
      k := k + 1;
    }
    return false;
  }

  // ---------------------------------------------------------------- Scholar-id papers

  /** A Scholar publication record: its URL fields, the `link` of each `epubs_src_bib_info` entry ("" when absent), and its bib. */
  datatype ScholarPub = ScholarPub(
    eprintUrl: Option<string>, pubUrl: Option<string>, epubLinks: seq<string>, bibUrl: Option<string>,
    title: string, authors: Value, pubYear: Option<string>, venue: string, numCitations: int,
    doi: string, abstractText: string)

  function OrEmpty(o: Option<string>): string { if o.Some? then o.value else "" }

  /** The candidate URLs in the order they are tried: eprint, pub, the epubs links, the bib url. */
  function UrlCandidates(p: ScholarPub): seq<string>
  {
    [OrEmpty(p.eprintUrl), OrEmpty(p.pubUrl)] + p.epubLinks + [OrEmpty(p.bibUrl)]
  }

  /**
   * The URL list built by guarded appends: the non-empty candidates, each once, in
   * candidate order.
   */
  method CollectUrls(p: ScholarPub) returns (urls: seq<string>)
    ensures urls == Dedup.FirstPerKey(UrlCandidates(p), Dedup.Id)
  {
    var c := UrlCandidates(p);
    urls := [];
    Dedup.IdKeySet([]);
    if p.eprintUrl.Some? && p.eprintUrl.value != "" {
      urls := urls + [p.eprintUrl.value];
    }
    Dedup.DedupSnoc([], c[0], Dedup.Id, {});
    assert [] + [c[0]] == c[..1];
    assert urls == Dedup.FirstPerKey(c[..1], Dedup.Id);
    Dedup.IdKeySet(urls);
    if p.pubUrl.Some? && p.pubUrl.value != "" && p.pubUrl != p.eprintUrl {
      urls := urls + [p.pubUrl.value];
    }
    Dedup.DedupSnoc(c[..1], c[1], Dedup.Id, {});
    assert c[..1] + [c[1]] == c[..2];
    var j := 0;
    while j < |p.epubLinks|
      invariant 0 <= j <= |p.epubLinks|
      invariant urls == Dedup.FirstPerKey(c[..2 + j], Dedup.Id)
    {
      var link := p.epubLinks[j];
      Dedup.IdKeySet(urls);
      Dedup.DedupSnoc(c[..2 + j], c[2 + j], Dedup.Id, {});
      assert c[..2 + j] + [c[2 + j]] == c[..2 + j + 1];
      if link != "" && link !in urls {
        urls := urls + [link];
      }
      j := j + 1;
    }
    Dedup.IdKeySet(urls);
    Dedup.DedupSnoc(c[..|c| - 1], c[|c| - 1], Dedup.Id, {});
    assert c[..|c| - 1] + [c[|c| - 1]] == c;
    if p.bibUrl.Some? && p.bibUrl.value != "" && p.bibUrl.value !in urls {
      urls := urls + [p.bibUrl.value];
    }
  }

  /** The URL list has no duplicates and no empty entry, and every non-empty candidate is in it. */
  lemma UrlsDuplicateFree(p: ScholarPub)
    ensures var urls := Dedup.FirstPerKey(UrlCandidates(p), Dedup.Id);
      && NoDup(urls) && (forall u :: u in urls ==> u != "")
      && (forall u :: u in UrlCandidates(p) && u != "" ==> u in urls)
  {
    var c := UrlCandidates(p);
    var urls := Dedup.FirstPerKey(c, Dedup.Id);
    Dedup.FirstPerKeyFacts(c, Dedup.Id);
    forall u | u in urls ensures u != "" {
      var i :| 0 <= i < |urls| && urls[i] == u;
      assert Dedup.Id(urls[i]) != "";
    }
    forall u | u in c && u != "" ensures u in urls {
      var i :| 0 <= i < |c| && c[i] == u;
      assert Dedup.Id(c[i]) != "";
      var j :| 0 <= j < |urls| && Dedup.Id(urls[j]) == Dedup.Id(c[i]);
    }
    forall i, j | 0 <= i < j < |urls| ensures urls[i] != urls[j] {
      assert Dedup.Id(urls[i]) != Dedup.Id(urls[j]);
    }
  }

  function OptFirst(urls: seq<string>): Option<string> { if urls == [] then None else Some(urls[0]) }

  /**
   * The metadata of one Scholar publication, or the error that makes the loop skip it.
   * `pdf_url` and `url` are the first collected URL.
   */
  function ScholarPaper(p: ScholarPub, urls: seq<string>, position: int): Result<PaperMetadata, string>
  {
    var authors := if !Truthy(p.authors) then Ok("") else AuthorsString(p.authors);
    if authors.Err? then Err(authors.error)
    else
      Ok(NewPaperMetadata(
        p.title, if authors.value != "" then authors.value else "Unknown",
        if p.pubYear.Some? then p.pubYear.value else "Unknown", p.venue, p.numCitations,
        Some(p.doi), OptFirst(urls), Some(if p.abstractText != "" then Take(p.abstractText, 1000) else ""),
        OptFirst(urls), None, p.pubUrl, position, Some(urls)))
  }

  /**
   * One entry of the author's publication list: the record as listed, and what
   * `scholarly.fill` answers for it, None when the fill raises. The list is sorted on
   * the listed `num_citations`; the paper is built from the filled record.
   */
  datatype ListedPub = ListedPub(listed: ScholarPub, filled: Option<ScholarPub>)

  /** The sort key `p.get('num_citations', 0)` of a listed, not yet filled, publication. */
  function ListedCitations(p: ListedPub): int { p.listed.numCitations }

  /** The record the loop body reads: the filled one, or the listed one when the fill raised. */
  function Visited(p: ListedPub): ScholarPub { if p.filled.Some? then p.filled.value else p.listed }

  function VisitedAll(ps: seq<ListedPub>): (r: seq<ScholarPub>)
    ensures |r| == |ps| && forall i :: 0 <= i < |ps| ==> r[i] == Visited(ps[i])
  {
    seq(|ps|, i requires 0 <= i < |ps| => Visited(ps[i]))
  }

  /** A fill that reports the same citation count as the listing. */
  predicate FillKeepsCount(p: ListedPub)
  {
    Visited(p).numCitations == p.listed.numCitations
  }

  /** The publications the loop visits: the `max_papers` most cited by their listed count, stable among equals. */
  function TopPubs(pubs: seq<ListedPub>, maxPapers: nat): (r: seq<ListedPub>)
    ensures |r| <= maxPapers && |r| <= |pubs|
    ensures Sorting.SortedDesc(r, ListedCitations)
    ensures forall i :: 0 <= i < |r| ==> r[i] in pubs
  {
    var sorted := Sorting.SortDesc(pubs, ListedCitations);
    var r := Take(sorted, maxPapers);
    assert forall i :: 0 <= i < |r| ==> r[i] == sorted[i];
    assert forall i :: 0 <= i < |r| ==> r[i] in multiset(sorted);
    r
  }

  /** What one visited publication contributes: its paper when it has a title and no step raised. */
  function PaperOf(p: ScholarPub, authorNameClean: string): (r: seq<PaperMetadata>)
    ensures |r| <= 1 && (r != [] ==> r[0].title != "" && r[0].citations == p.numCitations)
  {
    var pos := PositionSpec(p.authors, authorNameClean);
    if pos.Err? then []
    else
      match ScholarPaper(p, Dedup.FirstPerKey(UrlCandidates(p), Dedup.Id), pos.value)
      case Err(_) => []
      case Ok(paper) => if paper.title != "" then [paper] else []
  }

  /** The papers the loop collects from `ps`, in order. */
  function PapersOf(ps: seq<ScholarPub>, authorNameClean: string): (r: seq<PaperMetadata>)
    ensures |r| <= |ps|
  {
    CollectOk(ps, p => PaperOf(p, authorNameClean))
  }

  /** What a per-publication step contributes: at most one titled paper carrying the publication's citations. */
  ghost predicate Contributes(f: ScholarPub -> seq<PaperMetadata>)
  {
    forall p :: |f(p)| <= 1 && (f(p) != [] ==> f(p)[0].title != "" && f(p)[0].citations == p.numCitations)
  }

  /** The contributions of `f` for `ps`, concatenated. */
  function CollectOk(ps: seq<ScholarPub>, f: ScholarPub -> seq<PaperMetadata>): (r: seq<PaperMetadata>)
    requires Contributes(f)
    ensures |r| <= |ps|
  {
    if ps == [] then [] else f(ps[0]) + CollectOk(ps[1..], f)
  }

  lemma PaperOfContributes(authorNameClean: string)
    ensures Contributes(p => PaperOf(p, authorNameClean))
  {
  }

  /** The processing loop of `_fetch_by_scholar_id` over the most cited publications. */
  method ScholarIdPapers(pubs: seq<ListedPub>, authorNameClean: string, maxPapers: nat) returns (papers: seq<PaperMetadata>)
    ensures papers == PapersOf(VisitedAll(TopPubs(pubs, maxPapers)), authorNameClean)
  {
    var top := TopPubs(pubs, maxPapers);
    ghost var visited := VisitedAll(top);
    papers := [];
    var i := 0;
    while i < |top|
      invariant 0 <= i <= |top|
      invariant PapersOf(visited, authorNameClean) == papers + PapersOf(visited[i..], authorNameClean)
    {
      var p := top[i].listed;
      if top[i].filled.Some? {
        p := top[i].filled.value;
      }
      assert visited[i..][0] == p && visited[i..][1..] == visited[i + 1..];
      var contribution := ProcessPublication(p, authorNameClean);
      assert papers + PapersOf(visited[i..], authorNameClean) == papers + contribution + PapersOf(visited[i + 1..], authorNameClean);
      papers := papers + contribution;
      i := i + 1;
    }
    assert visited[i..] == [];
  }

  /** The body of that loop for one publication: URLs, author position, then the titled paper. */
  method ProcessPublication(p: ScholarPub, authorNameClean: string) returns (contribution: seq<PaperMetadata>)
    ensures contribution == PaperOf(p, authorNameClean)
  {
    contribution := [];
    var urls := CollectUrls(p);
    var position := DetectAuthorPosition(p.authors, authorNameClean);
    if position.Err? {
      return;
    }
    var paper := ScholarPaper(p, urls, position.value);
    if paper.Ok? && paper.value.title != "" {
      contribution := [paper.value];
    }
  }

  /** What `_fetch_by_scholar_id` promises: at most `max_papers` papers, all titled. */
  lemma ScholarIdPapersBounded(pubs: seq<ListedPub>, authorNameClean: string, maxPapers: nat)
    ensures var r := PapersOf(VisitedAll(TopPubs(pubs, maxPapers)), authorNameClean);
      |r| <= maxPapers && forall i :: 0 <= i < |r| ==> r[i].title != ""
  {
    PapersOfTitled(VisitedAll(TopPubs(pubs, maxPapers)), authorNameClean);
  }

  lemma PapersOfTitled(ps: seq<ScholarPub>, authorNameClean: string)
    ensures forall i :: 0 <= i < |PapersOf(ps, authorNameClean)| ==> PapersOf(ps, authorNameClean)[i].title != ""
  {
    CollectTitled(ps, p => PaperOf(p, authorNameClean));
  }

  lemma {:induction false} CollectTitled(ps: seq<ScholarPub>, f: ScholarPub -> seq<PaperMetadata>)
    requires Contributes(f)
    ensures forall i :: 0 <= i < |CollectOk(ps, f)| ==> CollectOk(ps, f)[i].title != ""
  {
    if ps != [] {
      CollectTitled(ps[1..], f);
      var head := f(ps[0]);
      var r := CollectOk(ps, f);
      forall i | 0 <= i < |r| ensures r[i].title != "" {
        if i >= |head| { assert r[i] == CollectOk(ps[1..], f)[i - |head|]; }
      }
    }
  }

  /** No collected paper has more citations than `bound` when no publication does. */
  lemma {:induction false} CollectBounded(ps: seq<ScholarPub>, f: ScholarPub -> seq<PaperMetadata>, bound: int)
    requires Contributes(f)
    requires forall i :: 0 <= i < |ps| ==> ps[i].numCitations <= bound
    ensures forall i :: 0 <= i < |CollectOk(ps, f)| ==> CollectOk(ps, f)[i].citations <= bound
  {
    if ps != [] {
      CollectBounded(ps[1..], f, bound);
      var head := f(ps[0]);
      var r := CollectOk(ps, f);
      forall i | 0 <= i < |r| ensures r[i].citations <= bound {
        if i >= |head| { assert r[i] == CollectOk(ps[1..], f)[i - |head|]; }
      }
    }
  }

  predicate Descending(r: seq<PaperMetadata>)
  {
    forall i, j :: 0 <= i < j < |r| ==> r[i].citations >= r[j].citations
  }

  function Citations(p: ScholarPub): int { p.numCitations }

  /** Filtering a descending list keeps it descending: the kept papers are in citation order. */
  lemma {:induction false} CollectDescending(ps: seq<ScholarPub>, f: ScholarPub -> seq<PaperMetadata>)
    requires Contributes(f)
    requires Sorting.SortedDesc(ps, Citations)
    ensures Descending(CollectOk(ps, f))
  {
    if ps != [] {
      var tail := ps[1..];
      assert Sorting.SortedDesc(tail, Citations) by {
        forall i, j | 0 <= i < j < |tail| ensures Citations(tail[i]) >= Citations(tail[j]) {
          assert tail[i] == ps[i + 1] && tail[j] == ps[j + 1];
        }
      }
      CollectDescending(tail, f);
      assert forall i :: 0 <= i < |tail| ==> tail[i].numCitations <= ps[0].numCitations by {
        forall i | 0 <= i < |tail| ensures tail[i].numCitations <= ps[0].numCitations {
          assert tail[i] == ps[i + 1] && Citations(ps[0]) >= Citations(ps[i + 1]);
        }
      }
      CollectBounded(tail, f, ps[0].numCitations);
      ConsDescending(f(ps[0]), CollectOk(tail, f));
    }
  }

  lemma ConsDescending(head: seq<PaperMetadata>, rest: seq<PaperMetadata>)
    requires |head| <= 1
    requires Descending(rest)
    requires head != [] ==> forall i :: 0 <= i < |rest| ==> rest[i].citations <= head[0].citations
    ensures Descending(head + rest)
  {
    var r := head + rest;
    forall i, j | 0 <= i < j < |r| ensures r[i].citations >= r[j].citations {
      if head == [] {
        assert r[i] == rest[i] && r[j] == rest[j];
      } else if i == 0 {
        assert r[j] == rest[j - 1];
      } else {
        assert r[i] == rest[i - 1] && r[j] == rest[j - 1];
      }
    }
  }

  /**
   * The Scholar-id papers come in descending citation order when every fill reports the
   * count the listing was sorted on; a fill that reports another count can break the order.
   */
  lemma ScholarIdPapersByCitations(pubs: seq<ListedPub>, authorNameClean: string, maxPapers: nat)
    requires forall i :: 0 <= i < |pubs| ==> FillKeepsCount(pubs[i])
    ensures Descending(PapersOf(VisitedAll(TopPubs(pubs, maxPapers)), authorNameClean))
  {
    var top := TopPubs(pubs, maxPapers);
    var visited := VisitedAll(top);
    assert Sorting.SortedDesc(visited, Citations) by {
      forall i, j | 0 <= i < j < |visited| ensures Citations(visited[i]) >= Citations(visited[j]) {
        assert FillKeepsCount(top[i]) && FillKeepsCount(top[j]);
        assert ListedCitations(top[i]) >= ListedCitations(top[j]);
      }
    }
    CollectDescending(visited, p => PaperOf(p, authorNameClean));
  }

  /** Without that condition the order is not kept: a fill that raises a listed count's paper above the first one. */
  lemma FillCanReorder(a: ScholarPub, authorNameClean: string)
    requires PaperOf(a, authorNameClean) != []
    ensures var pubs := [ListedPub(a, None), ListedPub(a, Some(a.(numCitations := a.numCitations + 1)))];
      !Descending(PapersOf(VisitedAll(TopPubs(pubs, 2)), authorNameClean))
  {
    var b := a.(numCitations := a.numCitations + 1);
    var pubs := [ListedPub(a, None), ListedPub(a, Some(b))];
    assert Sorting.SortDesc(pubs[1..], ListedCitations) == pubs[1..];
    assert Sorting.SortDesc(pubs, ListedCitations) == pubs;
    assert VisitedAll(TopPubs(pubs, 2)) == [a, b];
    PaperOfContributes(authorNameClean);
    PaperOfUnchanged(a, b, authorNameClean);
    CollectTwoAscending(a, b, p => PaperOf(p, authorNameClean));
  }

  /** Changing only the citation count keeps whether a publication contributes a paper. */
  lemma PaperOfUnchanged(a: ScholarPub, b: ScholarPub, authorNameClean: string)
    requires b == a.(numCitations := b.numCitations)
    requires PaperOf(a, authorNameClean) != []
    ensures PaperOf(b, authorNameClean) != []
  {
    assert UrlCandidates(b) == UrlCandidates(a);
  }

  /** Two contributing publications whose counts ascend give papers out of descending order. */
  lemma CollectTwoAscending(a: ScholarPub, b: ScholarPub, f: ScholarPub -> seq<PaperMetadata>)
    requires Contributes(f)
    requires f(a) != [] && f(b) != [] && a.numCitations < b.numCitations
    ensures !Descending(CollectOk([a, b], f))
  {
    assert [a, b][1..] == [b] && [b][1..] == [];
    assert CollectOk([b], f) == f(b) + CollectOk([], f);
    var r := CollectOk([a, b], f);
    assert r == f(a) + CollectOk([b], f);
    assert r[0] == f(a)[0] && r[1] == f(b)[0];
  }

  // ---------------------------------------------------------------- _parse_publication

  /** A record from the Scholar client: `title`, `authors`, `year`, `venue`, `citations` and `urls`. */
  datatype ClientPub = ClientPub(title: Value, authors: Value, year: Value, venue: Value, citations: int, urls: seq<string>)

  /** Python's `str()`: a string is itself, a list shows the `repr` of its elements. */
  function PyStr(v: Value): string
  {
    match v
    case Str(s) => s
    case _ => PyRepr(v)
  }

  /** Python's `repr()`, a string quoted with single quotes (see README for the quoting it leaves out). */
  function PyRepr(v: Value): string
    decreases v, 1, 0
  {
    match v
    case Null => "None"
    case Bool(b) => if b then "True" else "False"
    case Int(i) => IntToString(i)
    case Str(s) => "'" + s + "'"
    case List(items) => "[" + ReprItems(v, 0) + "]"
  }

  /** The `repr` of the elements of the list `v` from index `from` on, separated by ", ". */
  function ReprItems(v: Value, from: nat): string
    requires v.List? && from <= |v.items|
    decreases v, 0, |v.items| - from
  {
    if from == |v.items| then ""
    else PyRepr(v.items[from]) + (if from + 1 < |v.items| then ", " else "") + ReprItems(v, from + 1)
  }

  /**
   * `_parse_publication`: None for an untitled record (or one whose fields raise);
   * list authors are joined by ", ", and missing authors or year read "Unknown".
   */
  function ParsePublication(pub: ClientPub): (r: Option<PaperMetadata>)
    ensures !pub.title.Str? || Strip(pub.title.s) == "" ==> r.None?
    ensures r.Some? ==> pub.title.Str? && r.value.title == Strip(pub.title.s) && r.value.title != ""
    ensures r.Some? && !Truthy(pub.authors) ==> r.value.authors == "Unknown"
    ensures r.Some? && !Truthy(pub.year) ==> r.value.year == "Unknown"
    ensures r.Some? ==> r.value.urls == pub.urls && r.value.pdfUrl == OptFirst(pub.urls) && r.value.authorPosition == -1
    ensures pub.title.Str? && Strip(pub.title.s) != "" && (!Truthy(pub.authors) || AuthorsString(pub.authors).Ok?) ==> r.Some?
    ensures r.Some? && pub.authors.Str? ==> r.value.authors == if pub.authors.s == "" then "Unknown" else pub.authors.s
    ensures r.Some? && pub.authors.List? ==>
      && (forall i :: 0 <= i < |pub.authors.items| ==> pub.authors.items[i].Str?)
      && var joined := Join(Strings(pub.authors.items), ", ");
         r.value.authors == if joined == "" then "Unknown" else joined
    ensures r.Some? && Truthy(pub.year) ==> r.value.year == PyStr(pub.year)
    ensures r.Some? ==> r.value.venue == (if Truthy(pub.venue) then PyStr(pub.venue) else "") && r.value.citations == pub.citations
  {
    if !pub.title.Str? then None
    else
      var title := Strip(pub.title.s);
      if title == "" then None
      else
        var authors := if pub.authors.List? || pub.authors.Str? then AuthorsString(pub.authors)
                       else if !Truthy(pub.authors) then Ok("") else Ok(PyStr(pub.authors));
        if authors.Err? then None
        else
          var pdfUrl := OptFirst(pub.urls);
          Some(NewPaperMetadata(
            title, if authors.value != "" then authors.value else "Unknown",
            if Truthy(pub.year) then PyStr(pub.year) else "Unknown",
            if Truthy(pub.venue) then PyStr(pub.venue) else "", pub.citations,
            None, pdfUrl, Some(""), pdfUrl, None, pdfUrl, -1, Some(pub.urls)))
  }

  /**
   * The ", "-joined author list reads back: cutting the parsed authors at commas and stripping
   * each piece, as the author-position scan does, gives the names again when they are
   * non-empty, stripped and free of commas.
   */
  lemma ParsedAuthorsSplitBack(pub: ClientPub, names: seq<string>)
    requires pub.title.Str? && Strip(pub.title.s) != ""
    requires pub.authors.List? && |pub.authors.items| == |names| > 0
    requires forall i :: 0 <= i < |names| ==> pub.authors.items[i] == Str(names[i])
    requires forall i :: 0 <= i < |names| ==> names[i] != "" && Strip(names[i]) == names[i] && ',' !in names[i]
    ensures ParsePublication(pub).Some? && AuthorList(ParsePublication(pub).value.authors) == names
  {
    assert forall i :: 0 <= i < |pub.authors.items| ==> pub.authors.items[i].Str?;
    assert Strings(pub.authors.items) == names;
    JoinedAuthorsSplitBack(names);
    assert AuthorsString(pub.authors) == Ok(Join(names, ", "));
    var r := ParsePublication(pub);
    assert r.Some? && r.value.authors == Join(names, ", ");
  }

  /** Names that are non-empty, stripped and comma-free, joined by ", ", split and strip back to themselves. */
  lemma JoinedAuthorsSplitBack(names: seq<string>)
    requires |names| > 0
    requires forall i :: 0 <= i < |names| ==> names[i] != "" && Strip(names[i]) == names[i] && ',' !in names[i]
    ensures Join(names, ", ") != "" && AuthorList(Join(names, ", ")) == names
  {
    var pieces := [names[0]] + PrefixEach(" ", names[1..]);
    JoinedAuthorsPieces(names);
    JoinFirst(names, ", ");
    StripPieces(names, pieces);
    assert AuthorList(Join(names, ", ")) == StripAll(pieces);
  }

  /** Splitting the joined names at ',' gives the first name, then each other name after its space. */
  lemma JoinedAuthorsPieces(names: seq<string>)
    requires |names| > 0
    requires forall i :: 0 <= i < |names| ==> ',' !in names[i]
    ensures Split(Join(names, ", "), ",") == [names[0]] + PrefixEach(" ", names[1..])
  {
    var pieces := [names[0]] + PrefixEach(" ", names[1..]);
    assert "," + " " == ", ";
    JoinSplitSep(names, ",", " ");
    forall i | 0 <= i < |pieces| ensures ',' !in pieces[i] {
      if i > 0 { assert pieces[i] == " " + names[i]; }
    }
    SplitJoin(pieces, ',');
  }

  /** Stripping the pieces undoes the spaces put in front of all but the first name. */
  lemma StripPieces(names: seq<string>, pieces: seq<string>)
    requires |names| > 0 && pieces == [names[0]] + PrefixEach(" ", names[1..])
    requires forall i :: 0 <= i < |names| ==> names[i] != "" && Strip(names[i]) == names[i]
    ensures StripAll(pieces) == names
  {
    var r := StripAll(pieces);
    forall i | 0 <= i < |names| ensures r[i] == names[i] {
      StripPiece(names, pieces, i);
    }
  }

  lemma StripPiece(names: seq<string>, pieces: seq<string>, i: nat)
    requires i < |names| && pieces == [names[0]] + PrefixEach(" ", names[1..])
    requires names[i] != "" && Strip(names[i]) == names[i]
    ensures Strip(pieces[i]) == names[i]
  {
    if i > 0 {
      assert pieces[i] == " " + names[i];
      StripAfterSpace(names[i]);
    }
  }

  // ---------------------------------------------------------------- fallback

  /** The sort key `p.get('citations', 0)` when it is an integer. */
  function CitationKey(p: PublicationsEnricher.Record): int
  {
    match PublicationsEnricher.Field(p, "citations")
    case Int(i) => i
    case Bool(b) => if b then 1 else 0
    case _ => 0
  }

  predicate IntKeyed(p: PublicationsEnricher.Record)
  {
    "citations" !in p || p["citations"].Int? || p["citations"].Bool?
  }

  function TextOf(v: Value): string { if v.Str? then v.s else "" }

  function FallbackPaper(p: PublicationsEnricher.Record): PaperMetadata
  {
    var url := Some(if "url" in p then TextOf(p["url"]) else "");
    NewPaperMetadata(
      if "title" in p then TextOf(p["title"]) else "",
      if "authors" in p then TextOf(p["authors"]) else "Unknown",
      if "year" in p then PyStr(p["year"]) else "Unknown",
      if "venue" in p then TextOf(p["venue"]) else "",
      CitationKey(p), Some(if "doi" in p then TextOf(p["doi"]) else ""),
      url, Some(""), url, None, url, -1, None)
  }

  function FallbackPapers(ps: seq<PublicationsEnricher.Record>): (r: seq<PaperMetadata>)
    ensures |r| == |ps| && forall i :: 0 <= i < |r| ==> r[i].citations == CitationKey(ps[i])
  {
    if ps == [] then [] else [FallbackPaper(ps[0])] + FallbackPapers(ps[1..])
  }

  /**
   * `_fetch_with_fallback` on the enriched records: sorted by citations descending and
   * cut to `max_papers`. With two records or more, a citation value that is not an
   * integer or a boolean makes the sort raise, and then the result is [].
   */
  function FetchWithFallback(enriched: seq<PublicationsEnricher.Record>, maxPapers: nat): (r: seq<PaperMetadata>)
    ensures |r| <= maxPapers && |r| <= |enriched|
    ensures Descending(r)
    ensures (forall i :: 0 <= i < |enriched| ==> IntKeyed(enriched[i])) ==> |r| == if |enriched| < maxPapers then |enriched| else maxPapers
  {
    if enriched == [] then []
    else if |enriched| >= 2 && !(forall i :: 0 <= i < |enriched| ==> IntKeyed(enriched[i])) then []
    else
      var sorted := Sorting.SortDesc(enriched, CitationKey);
      FallbackDescending(sorted, maxPapers);
      FallbackPapers(Take(sorted, maxPapers))
  }

  /** The fallback papers of the first `n` records of a list sorted by citations are in citation order. */
  lemma FallbackDescending(sorted: seq<PublicationsEnricher.Record>, n: nat)
    requires Sorting.SortedDesc(sorted, CitationKey)
    ensures Descending(FallbackPapers(Take(sorted, n)))
  {
    var top := Take(sorted, n);
    assert forall i :: 0 <= i < |top| ==> top[i] == sorted[i];
  }
}
