/**
 * The paper checklist: one row per (paper, download result) pair, enriched with the
 * sections of the citation ledger that cite the paper, the JSON summary counts and the
 * download prompt listing every paper that was not downloaded. The HTML and CSV renderings
 * and the file writes are not modelled.
 */
module Checklist {
  import opened Wrappers
  import opened Text
  import opened Citations
  import PersonSearcher

  type Paper = PersonSearcher.PaperMetadata

  /** A download result dict: its truthy `success` flag and its `file_path`. */
  datatype DownloadResult = DownloadResult(success: bool, filePath: Option<string>)

  const Downloaded := "✓ Downloaded"
  const NotAvailable := "✗ Not Available"
  const LibraryAdvice := "Consider: institutional library access, interlibrary loan, or author contact"

  /** `ChecklistEntry`. */
  datatype Entry = Entry(
    index: nat, title: string, authors: string, year: string, venue: string, citations: int,
    doi: Option<string>, downloadStatus: string, filePath: Option<string>,
    sectionsUsed: seq<string>, accessSuggestions: seq<string>)

  function Min(a: nat, b: nat): nat { if a <= b then a else b }

  /** Python truthiness of an optional string field. */
  predicate Given(s: Option<string>) { PersonSearcher.Given(s) }

  /**
   * The access suggestions for a paper that was not downloaded: a DOI line, a publisher
   * line and a Scholar line for the fields that are set, in that order, then the library advice.
   */
  function Suggestions(p: Paper): (r: seq<string>)
    ensures |r| == 1 + (if Given(p.doi) then 1 else 0) + (if Given(p.url) then 1 else 0) + (if Given(p.pubUrl) then 1 else 0)
    ensures r[|r| - 1] == LibraryAdvice
    ensures Given(p.doi) ==> r[0] == "DOI: https://doi.org/" + p.doi.value
    ensures Given(p.url) ==> r[if Given(p.doi) then 1 else 0] == "Publisher: " + p.url.value
    ensures Given(p.pubUrl) ==> r[|r| - 2] == "Scholar: " + p.pubUrl.value
  {
    (if Given(p.doi) then ["DOI: https://doi.org/" + p.doi.value] else [])
    + (if Given(p.url) then ["Publisher: " + p.url.value] else [])
    + (if Given(p.pubUrl) then ["Scholar: " + p.pubUrl.value] else [])
    + [LibraryAdvice]
  }

  /** The row for the `idx`-th pair: status and file path from the result, sections from the ledger. */
  function EntryFor(l: Ledger, idx: nat, p: Paper, res: DownloadResult): (e: Entry)
    ensures e.index == idx && e.title == p.title && e.authors == p.authors && e.year == p.year
    ensures e.venue == p.venue && e.citations == p.citations && e.doi == p.doi
    ensures e.downloadStatus == (if res.success then Downloaded else NotAvailable)
    ensures e.filePath == (if res.success then res.filePath else None)
    ensures res.success ==> e.accessSuggestions == []
    ensures !res.success ==> e.accessSuggestions == Suggestions(p) && LibraryAdvice in e.accessSuggestions
    ensures SortedStrs(e.sectionsUsed) && NoDup(e.sectionsUsed)
    ensures forall s :: s in e.sectionsUsed <==> s in SectionSet(l, p.title)
  {
    Entry(idx, p.title, p.authors, p.year, p.venue, p.citations, p.doi,
          if res.success then Downloaded else NotAvailable,
          if res.success then res.filePath else None,
          PaperSections(l, p.title),
          if res.success then [] else Suggestions(p))
  }

  /** `entries` is the checklist of the zipped pairs, numbered from 1. */
  predicate IsChecklist(l: Ledger, papers: seq<Paper>, results: seq<DownloadResult>, entries: seq<Entry>)
  {
    |entries| == Min(|papers|, |results|)
    && forall i :: 0 <= i < |entries| ==> entries[i] == EntryFor(l, i + 1, papers[i], results[i])
  }

  // ---------------------------------------------------------------- the generator

  /** `ChecklistGenerator`: it reads the citation tracker it was built with and never changes it. */
  class ChecklistGenerator {
    const citationTracker: CitationTracker

    constructor (tracker: CitationTracker)
      ensures citationTracker == tracker
    {
      citationTracker := tracker;
    }

    /** One pass of the `_create_entries` loop: the guarded appends that build one row. */
    method CreateEntry(idx: nat, paper: Paper, result: DownloadResult) returns (e: Entry)
      ensures e == EntryFor(citationTracker.State(), idx, paper, result)
    {
      var downloadStatus, filePath;
      if result.success {
        downloadStatus := Downloaded;
        filePath := result.filePath;
      } else {
        downloadStatus := NotAvailable;
        filePath := None;
      }
      var sections := PaperSections(citationTracker.State(), paper.title);
      var accessSuggestions := [];
      if !result.success {
        if Given(paper.doi) {
          accessSuggestions := accessSuggestions + ["DOI: https://doi.org/" + paper.doi.value];
        }
        if Given(paper.url) {
          accessSuggestions := accessSuggestions + ["Publisher: " + paper.url.value];
        }
        if Given(paper.pubUrl) {
          accessSuggestions := accessSuggestions + ["Scholar: " + paper.pubUrl.value];
        }
        accessSuggestions := accessSuggestions + [LibraryAdvice];
        assert accessSuggestions == Suggestions(paper);
      }
      e := Entry(idx, paper.title, paper.authors, paper.year, paper.venue, paper.citations, paper.doi,
                 downloadStatus, filePath, sections, accessSuggestions);
    }

    /** `_create_entries`: one row per zipped pair, the shorter list deciding the count. */
    method CreateEntries(papers: seq<Paper>, results: seq<DownloadResult>) returns (entries: seq<Entry>)
      ensures IsChecklist(citationTracker.State(), papers, results, entries)
    {
      entries := [];
      var n := Min(|papers|, |results|);
      var k := 0;
      while k < n
        invariant k <= n && |entries| == k
        invariant forall i :: 0 <= i < k ==> entries[i] == EntryFor(citationTracker.State(), i + 1, papers[i], results[i])
      {
        var e := CreateEntry(k + 1, papers[k], results[k]);
        entries := entries + [e];
        k := k + 1;
      }
    }

    /**
     * `generate_download_prompt_file`: nothing when every paper was downloaded, otherwise the
     * prompt listing the papers that were not, in their original order, numbered from 1.
     */
    method DownloadPrompt(papers: seq<Paper>, results: seq<DownloadResult>) returns (text: Option<string>)
      ensures var n := Min(|papers|, |results|);
        (text.None? <==> forall i :: 0 <= i < n ==> results[i].success) &&
        (text.Some? ==> text.value == PromptHeader + Numbered(Failing(papers, results, n), 1))
    {
      var undownloaded := Undownloaded(papers, results);
      FailingEmpty(papers, results, Min(|papers|, |results|));
      if undownloaded == [] {
        return None;
      }
      var promptText := PromptHeader;
      var k := 0;
      while k < |undownloaded|
        invariant k <= |undownloaded|
        invariant promptText == PromptHeader + Numbered(undownloaded[..k], 1)
      {
        PromptStep(undownloaded, k);
        promptText := promptText + Line(k + 1, undownloaded[k].title);
        k := k + 1;
      }
      assert undownloaded[..k] == undownloaded;
      return Some(promptText);
    }
  }

  /** The first loop of `generate_download_prompt_file`: the papers whose result is not a success. */
  method Undownloaded(papers: seq<Paper>, results: seq<DownloadResult>) returns (u: seq<Paper>)
    ensures u == Failing(papers, results, Min(|papers|, |results|))
  {
    u := [];
    var n := Min(|papers|, |results|);
    var k := 0;
    while k < n
      invariant k <= n
      invariant u == Failing(papers, results, k)
    {
      u := u + (if results[k].success then [] else [papers[k]]);
      k := k + 1;
    }
  }

  // ---------------------------------------------------------------- the JSON summary

  /** The `summary` object of the JSON checklist. */
  datatype Summary = Summary(totalPapers: nat, downloaded: nat, notAvailable: nat, citedPapers: nat)

  /** How many elements satisfy `p`. */
  function CountWhere<T>(s: seq<T>, p: T -> bool): (n: nat)
    ensures n <= |s|
  {
    if s == [] then 0 else CountWhere(s[..|s| - 1], p) + (if p(s[|s| - 1]) then 1 else 0)
  }

  function Summarize(entries: seq<Entry>): (s: Summary)
    ensures s.totalPapers == |entries|
    ensures s.downloaded <= |entries| && s.notAvailable <= |entries| && s.citedPapers <= |entries|
  {
    Summary(|entries|,
            CountWhere(entries, (e: Entry) => e.downloadStatus == Downloaded),
            CountWhere(entries, (e: Entry) => e.downloadStatus == NotAvailable),
            CountWhere(entries, (e: Entry) => e.sectionsUsed != []))
  }

  /** Two sequences that agree pointwise on their predicates have the same count. */
  lemma {:induction false} CountWhereAgree<A, B>(a: seq<A>, p: A -> bool, b: seq<B>, q: B -> bool)
    requires |a| == |b|
    requires forall i :: 0 <= i < |a| ==> p(a[i]) == q(b[i])
    ensures CountWhere(a, p) == CountWhere(b, q)
  {
    if a != [] {
      CountWhereAgree(a[..|a| - 1], p, b[..|b| - 1], q);
    }
  }

  /** Complementary predicates split the count. */
  lemma {:induction false} CountWhereSplit<T>(s: seq<T>, p: T -> bool, q: T -> bool)
    requires forall i :: 0 <= i < |s| ==> p(s[i]) != q(s[i])
    ensures CountWhere(s, p) + CountWhere(s, q) == |s|
  {
    if s != [] {
      CountWhereSplit(s[..|s| - 1], p, q);
    }
  }

  /**
   * The summary of a checklist: downloaded and not-available partition the entries; the
   * downloaded count is the number of successful results and the cited count the number
   * of papers the ledger has a section for.
   */
  lemma SummaryCounts(l: Ledger, papers: seq<Paper>, results: seq<DownloadResult>, entries: seq<Entry>)
    requires IsChecklist(l, papers, results, entries)
    ensures var s := Summarize(entries); var n := |entries|;
      s.downloaded + s.notAvailable == s.totalPapers == n
      && s.downloaded == CountWhere(results[..n], (r: DownloadResult) => r.success)
      && s.citedPapers == CountWhere(papers[..n], (p: Paper) => SectionSet(l, p.title) != {})
  {
    var n := |entries|;
    var isD := (e: Entry) => e.downloadStatus == Downloaded;
    var isN := (e: Entry) => e.downloadStatus == NotAvailable;
    var cited := (e: Entry) => e.sectionsUsed != [];
    assert Downloaded != NotAvailable by { assert Downloaded[0] != NotAvailable[0]; }
    CountWhereSplit(entries, isD, isN);
    CountWhereAgree(entries, isD, results[..n], (r: DownloadResult) => r.success);
    forall i | 0 <= i < n
      ensures cited(entries[i]) == (SectionSet(l, papers[i].title) != {})
    {
      var e := entries[i];
      if SectionSet(l, papers[i].title) != {} {
        var s :| s in SectionSet(l, papers[i].title);
        assert s in e.sectionsUsed;
      }
    }
    CountWhereAgree(entries, cited, papers[..n], (p: Paper) => SectionSet(l, p.title) != {});
  }

  // ---------------------------------------------------------------- the download prompt

  const PromptHeader := "Show me how to download the research papers from here by actually downloading the following research papers:\n\n"

  /** The indices below `n` whose result is not a success, ascending. */
  function FailedIndices(results: seq<DownloadResult>, n: nat): (ix: seq<nat>)
    requires n <= |results|
    ensures forall j :: 0 <= j < |ix| ==> ix[j] < n && !results[ix[j]].success
    ensures forall j, k :: 0 <= j < k < |ix| ==> ix[j] < ix[k]
  {
    if n == 0 then [] else FailedIndices(results, n - 1) + (if results[n - 1].success then [] else [n - 1])
  }

  /** No failed index is missing. */
  lemma {:induction false} FailedIndicesComplete(results: seq<DownloadResult>, n: nat, i: nat)
    requires i < n <= |results| && !results[i].success
    ensures i in FailedIndices(results, n)
  {
    if i < n - 1 {
      FailedIndicesComplete(results, n - 1, i);
    }
  }

  /** There are no failed indices exactly when every result is a success. */
  lemma FailedIndicesEmpty(results: seq<DownloadResult>, n: nat)
    requires n <= |results|
    ensures FailedIndices(results, n) == [] <==> forall i :: 0 <= i < n ==> results[i].success
  {
    var ix := FailedIndices(results, n);
    if ix != [] {
      assert !results[ix[0]].success;
    } else {
      forall i | 0 <= i < n ensures results[i].success {
        if !results[i].success {
          FailedIndicesComplete(results, n, i);
        }
      }
    }
  }

  /** The elements of `s` at the positions `ix`. */
  function Pick<T>(s: seq<T>, ix: seq<nat>): (r: seq<T>)
    requires forall j :: 0 <= j < |ix| ==> ix[j] < |s|
    ensures |r| == |ix| && forall j :: 0 <= j < |ix| ==> r[j] == s[ix[j]]
  {
    if ix == [] then [] else Pick(s, ix[..|ix| - 1]) + [s[ix[|ix| - 1]]]
  }

  lemma PickSnoc(papers: seq<Paper>, ix: seq<nat>, k: nat)
    requires forall j :: 0 <= j < |ix| ==> ix[j] < |papers|
    requires k < |papers|
    ensures Pick(papers, ix + [k]) == Pick(papers, ix) + [papers[k]]
  {
    assert (ix + [k])[..|ix|] == ix;
  }

  /** The papers of the first `n` pairs whose result is not a success. */
  function Failing(papers: seq<Paper>, results: seq<DownloadResult>, n: nat): seq<Paper>
    requires n <= |papers| && n <= |results|
  {
    if n == 0 then [] else Failing(papers, results, n - 1) + (if results[n - 1].success then [] else [papers[n - 1]])
  }

  /**
   * The filtered list is exactly the papers at the failed indices, in their original order;
   * it is empty exactly when every result is a success.
   */
  lemma {:induction false} FailingIsPick(papers: seq<Paper>, results: seq<DownloadResult>, n: nat)
    requires n <= |papers| && n <= |results|
    ensures Failing(papers, results, n) == Pick(papers, FailedIndices(results, n))
  {
    if n > 0 {
      FailingIsPick(papers, results, n - 1);
      var ix := FailedIndices(results, n - 1);
      if !results[n - 1].success {
        PickSnoc(papers, ix, n - 1);
      } else {
        assert FailedIndices(results, n) == ix;
      }
    }
  }

  lemma FailingEmpty(papers: seq<Paper>, results: seq<DownloadResult>, n: nat)
    requires n <= |papers| && n <= |results|
    ensures Failing(papers, results, n) == [] <==> forall i :: 0 <= i < n ==> results[i].success
  {
    FailingIsPick(papers, results, n);
    FailedIndicesEmpty(results, n);
    assert |Failing(papers, results, n)| == |FailedIndices(results, n)|;
  }

  /** One line of the numbered list. */
  function Line(idx: nat, title: string): string { NatToString(idx) + ". " + title + "\n" }

  /** The numbered list of the papers' titles, counting from `start`. */
  function Numbered(u: seq<Paper>, start: nat): (t: string)
    ensures u == [] <==> t == []
  {
    if u == [] then "" else Line(start, u[0].title) + Numbered(u[1..], start + 1)
  }

  /** Numbering a concatenation continues the count of the first part into the second. */
  lemma {:induction false} NumberedAppend(u: seq<Paper>, v: seq<Paper>, start: nat)
    ensures Numbered(u + v, start) == Numbered(u, start) + Numbered(v, start + |u|)
  {
    if u == [] {
      assert u + v == v;
    } else {
      assert (u + v)[1..] == u[1..] + v;
      NumberedAppend(u[1..], v, start + 1);
      Associative(Line(start, u[0].title), Numbered(u[1..], start + 1), Numbered(v, start + |u|));
    }
  }

  /** One more numbered line at the end of the prompt. */
  lemma PromptStep(u: seq<Paper>, k: nat)
    requires k < |u|
    ensures PromptHeader + Numbered(u[..k + 1], 1) == PromptHeader + Numbered(u[..k], 1) + Line(k + 1, u[k].title)
  {
    NumberedAppend(u[..k], [u[k]], 1);
    assert u[..k + 1] == u[..k] + [u[k]];
    Associative(PromptHeader, Numbered(u[..k], 1), Line(k + 1, u[k].title));
  }

  /** The list numbers the papers consecutively: the `j`-th listed paper carries number `start + j`. */
  lemma {:induction false} NumberedLines(u: seq<Paper>, start: nat, j: nat)
    requires j < |u|
    ensures Numbered(u, start) == Numbered(u[..j], start) + Line(start + j, u[j].title) + Numbered(u[j + 1..], start + j + 1)
  {
    assert u == u[..j] + ([u[j]] + u[j + 1..]);
    NumberedAppend(u[..j], [u[j]] + u[j + 1..], start);
    assert ([u[j]] + u[j + 1..])[1..] == u[j + 1..];
    Associative(Numbered(u[..j], start), Line(start + j, u[j].title), Numbered(u[j + 1..], start + j + 1));
  }
}
