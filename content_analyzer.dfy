/**
 * The content analyzer: for each (paper, download result) pair it either analyses the
 * downloaded PDF or keeps a metadata-only record, in a dict keyed by title; and
 * the helpers that pull an abstract, key points, methodologies and quotations
 * out of a paper's text.
 *
 * The PDF text extraction and the regular expressions whose matching is not
 * written out here (the abstract heading, the section headings, the bullets and
 * the methodology keywords) are parameters; so is the iteration order of a
 * Python set.
 */
module ContentAnalyzer {
  import opened Wrappers
  import opened Text
  import opened OrderedMaps
  import Quotes
  import PersonSearcher

  type PaperMetadata = PersonSearcher.PaperMetadata

  /** The analysed content of one paper. */
  datatype PaperContent = PaperContent(
    paperId: string, title: string, authors: string, year: string, abstractText: string,
    keyPoints: seq<string>, methodologies: seq<string>, notableQuotes: seq<string>,
    fullText: string, citations: int)

  /** One download result: its `success` flag and its `file_path` entry, `None` when the key is absent. */
  datatype DownloadResult = DownloadResult(success: bool, filePath: Option<string>)

  /**
   * What the unmodelled regular expressions return on a text:
   * `abstractHeading` is group 1 of the first of the three heading patterns that matches,
   * `sectionHeadings` and `bullets` are the `findall` results of the two key-point patterns,
   * `methodMatches(k, t)` are the whole matches of methodology pattern `k` (0 to 8, in the
   * source's order) in `t`, and `setOrder` is the order in which `list` enumerates a set.
   */
  datatype Regexes = Regexes(
    abstractHeading: string -> Option<string>,
    sectionHeadings: string -> seq<string>,
    bullets: string -> seq<string>,
    methodMatches: (nat, string) -> seq<string>,
    setOrder: set<string> -> seq<string>)

  /** `e` lists the elements of `s`, each once. */
  ghost predicate Enumerates(e: seq<string>, s: set<string>) { NoDup(e) && forall x :: x in e <==> x in s }

  /** `list(s)` enumerates every set. */
  ghost predicate ValidRegexes(rx: Regexes) { forall s: set<string> :: Enumerates(rx.setOrder(s), s) }

  function SetOf(xs: seq<string>): (r: set<string>)
    ensures forall x :: x in r <==> x in xs
  {
    set x | x in xs
  }

  // ---------------------------------------------------------------- abstract

  predicate SentenceEnd(c: char) { c == '.' || c == '!' || c == '?' }

  /** A match of `[.!?]\s+` starts at index `i` of `s`. */
  predicate SeparatorAt(s: string, i: int) { 0 <= i && i + 1 < |s| && SentenceEnd(s[i]) && IsSpace(s[i + 1]) }

  predicate SeparatorFree(s: string) { forall i :: 0 <= i < |s| ==> !SeparatorAt(s, i) }

  /** The first index at or after `from` where a sentence separator starts, or -1. */
  function FirstSeparator(s: string, from: nat): (r: int)
    ensures r == -1 || (from <= r && SeparatorAt(s, r))
    ensures r >= 0 ==> forall j :: from <= j < r ==> !SeparatorAt(s, j)
    ensures r == -1 ==> forall j :: from <= j ==> !SeparatorAt(s, j)
    decreases |s| - from
  {
    if from + 1 >= |s| then -1
    else if SeparatorAt(s, from) then from
    else FirstSeparator(s, from + 1)
  }

  /**
   * `re.split(r'[.!?]\s+', s)`: the pieces between the separators, each separator being an
   * end-of-sentence mark followed by the whole whitespace run after it.
   */
  function Sentences(s: string): (r: seq<string>)
    ensures |r| >= 1 && r[0] <= s
    ensures forall k :: 0 <= k < |r| ==> SeparatorFree(r[k])
    ensures forall k :: 1 <= k < |r| ==> r[k] == [] || !IsSpace(r[k][0])
    decreases |s|
  {
    var i := FirstSeparator(s, 0);
    if i < 0 then [s]
    else
      var j := i + 1 + LeadingSpace(s[i + 1..]);
      var piece := s[..i];
      assert forall m :: SeparatorAt(piece, m) ==> SeparatorAt(s, m);
      var rest := Sentences(s[j..]);
      assert rest[0] == [] || rest[0][0] == s[j];
      [piece] + rest
  }

  /** The start of `Join(ps, ". ")` when its first piece does not start with whitespace. */
  lemma JoinSentencesHead(ps: seq<string>)
    requires |ps| >= 1 && (ps[0] == [] || !IsSpace(ps[0][0]))
    ensures Join(ps, ". ") == [] || !IsSpace(Join(ps, ". ")[0])
  {
    if |ps| > 1 {
      assert Join(ps, ". ") == ps[0] + ". " + Join(ps[1..], ". ");
    }
  }

  /** After a separator-free first sentence, the first separator is the ". " that follows it. */
  lemma FirstSeparatorAfter(a: string, j: string)
    requires SeparatorFree(a)
    ensures FirstSeparator(a + ". " + j, 0) == |a|
  {
    var s := a + ". " + j;
    assert SeparatorAt(s, |a|);
    forall m | 0 <= m < |a| ensures !SeparatorAt(s, m) {
      if m + 1 < |a| {
        assert !SeparatorAt(a, m);
      } else {
        assert s[m + 1] == '.';
      }
    }
  }

  /** Splitting `a + ". " + j` cuts `a` off and goes on with `j`. */
  lemma SentencesCons(a: string, j: string)
    requires SeparatorFree(a) && (j == [] || !IsSpace(j[0]))
    ensures Sentences(a + ". " + j) == [a] + Sentences(j)
  {
    var s := a + ". " + j;
    FirstSeparatorAfter(a, j);
    var t := s[|a| + 1..];
    assert t == " " + j && t[1..] == j;
    assert LeadingSpace(t) == 1;
    assert s[..|a|] == a && s[|a| + 2..] == j;
  }

  /**
   * Joining separator-free sentences with ". " and splitting the result again gives the
   * sentences back, provided none but the first starts with whitespace.
   */
  lemma {:induction false} SentencesOfJoin(ps: seq<string>)
    requires |ps| >= 1
    requires forall k :: 0 <= k < |ps| ==> SeparatorFree(ps[k])
    requires forall k :: 1 <= k < |ps| ==> ps[k] == [] || !IsSpace(ps[k][0])
    ensures Sentences(Join(ps, ". ")) == ps
  {
    if |ps| > 1 {
      assert Join(ps, ". ") == ps[0] + ". " + Join(ps[1..], ". ");
      SentencesOfJoin(ps[1..]);
      JoinSentencesHead(ps[1..]);
      SentencesCons(ps[0], Join(ps[1..], ". "));
    }
  }

  /** The heading match, stripped, its whitespace runs made single spaces, cut to 1000 characters. */
  function AbstractFromHeading(g: string): (a: string)
    ensures |a| <= 1000 && PlainSpaces(a) && SingleSpaced(a) && (a == [] || !IsSpace(a[0]))
  {
    // On a stripped text, `re.sub(r'\s+', ' ', _)` is `Collapse`.
    var c := Collapse(Strip(g));
    CollapseShape(Strip(g));
    var a := Take(c, 1000);
    assert forall k :: 0 <= k < |a| ==> a[k] == c[k];
    a
  }

  /**
   * Without a heading match: when the first 2000 characters split into more than three
   * sentences, the first three joined by ". " with a final ".", which splits back into them.
   */
  function AbstractFallback(text: string): (r: Option<string>)
    ensures r.Some? <==> |Sentences(Take(text, 2000))| > 3
    ensures r.Some? ==>
      EndsWith(r.value, ".") && Sentences(r.value[..|r.value| - 1]) == Sentences(Take(text, 2000))[..3]
  {
    var ss := Sentences(Take(text, 2000));
    if |ss| > 3 then
      var a := Join(ss[..3], ". ");
      SentencesOfJoin(ss[..3]);
      assert (a + ".")[..|a + "."| - 1] == a;
      Some(a + ".")
    else None
  }

  /**
   * `_extract_abstract`: the cleaned group 1 of the first heading pattern that matches,
   * otherwise the three-sentence fallback, otherwise nothing.
   */
  function ExtractAbstract(text: string, rx: Regexes): (r: Option<string>)
    ensures rx.abstractHeading(text).Some? ==>
      r.Some? && |r.value| <= 1000 && PlainSpaces(r.value) && SingleSpaced(r.value) &&
      (r.value == [] || !IsSpace(r.value[0]))
    ensures rx.abstractHeading(text).None? ==> (r.Some? <==> |Sentences(Take(text, 2000))| > 3)
    ensures rx.abstractHeading(text).None? && r.Some? ==>
      EndsWith(r.value, ".") && Sentences(r.value[..|r.value| - 1]) == Sentences(Take(text, 2000))[..3]
  {
    match rx.abstractHeading(text)
    case Some(g) => Some(AbstractFromHeading(g))
    case None => AbstractFallback(text)
  }

  // ---------------------------------------------------------------- key points

  /** No whitespace at either end. */
  predicate Stripped(y: string) { y == [] || (!IsSpace(y[0]) && !IsSpace(y[|y| - 1])) }

  lemma StripAllStripped(xs: seq<string>)
    ensures forall y :: y in PersonSearcher.StripAll(xs) ==> Stripped(y)
  {
    var stripped := PersonSearcher.StripAll(xs);
    forall y | y in stripped ensures Stripped(y) {
      var i :| 0 <= i < |stripped| && stripped[i] == y;
      assert y == Strip(xs[i]);
    }
  }

  /** `[kp.strip() for kp in xs if len(kp.strip()) > 20]`. */
  function StrippedLong(xs: seq<string>): (r: seq<string>)
    ensures |r| <= |xs|
    ensures forall y :: y in r <==> y in PersonSearcher.StripAll(xs) && |y| > 20
    ensures forall k :: 0 <= k < |r| ==> |r[k]| > 20 && Stripped(r[k])
  {
    StripAllStripped(xs);
    LongerThan(PersonSearcher.StripAll(xs), 20)
  }

  /** The key-point candidates: section headings longer than five characters, then the first ten bullets. */
  function KeyPointCandidates(text: string, rx: Regexes): (r: seq<string>)
    ensures forall x :: x in r <==>
      (x in rx.sectionHeadings(Take(text, 5000)) && |x| > 5) || x in Take(rx.bullets(text), 10)
  {
    var sections := rx.sectionHeadings(Take(text, 5000));
    LongerThan(sections, 5) + Take(rx.bullets(text), 10)
  }

  /** `[s for s in xs if len(s) > n]`. */
  function LongerThan(xs: seq<string>, n: nat): (r: seq<string>)
    ensures |r| <= |xs|
    ensures forall x :: x in r <==> x in xs && |x| > n
  {
    if xs == [] then [] else (if |xs[0]| > n then [xs[0]] else []) + LongerThan(xs[1..], n)
  }

  /**
   * `_extract_key_points`: at most 15 of the distinct candidates, in set order, kept stripped
   * when longer than 20 characters. When there are at most 15 distinct candidates, none is lost.
   */
  function KeyPoints(text: string, rx: Regexes): (r: seq<string>)
    requires ValidRegexes(rx)
    ensures |r| <= 15
    ensures forall k :: 0 <= k < |r| ==> |r[k]| > 20 && Stripped(r[k])
    ensures forall k :: 0 <= k < |r| ==> r[k] in PersonSearcher.StripAll(KeyPointCandidates(text, rx))
    ensures |SetOf(KeyPointCandidates(text, rx))| <= 15 ==>
      forall x :: x in KeyPointCandidates(text, rx) && |Strip(x)| > 20 ==> Strip(x) in r
  {
    var cands := KeyPointCandidates(text, rx);
    var listed := rx.setOrder(SetOf(cands));
    assert Enumerates(listed, SetOf(cands));
    KeyPointsSound(cands, listed);
    if |SetOf(cands)| <= 15 then
      KeyPointsComplete(cands, listed);
      StrippedLong(Take(listed, 15))
    else StrippedLong(Take(listed, 15))
  }

  /** The kept points are stripped candidates. */
  lemma KeyPointsSound(cands: seq<string>, listed: seq<string>)
    requires Enumerates(listed, SetOf(cands))
    ensures forall y :: y in StrippedLong(Take(listed, 15)) ==> y in PersonSearcher.StripAll(cands)
  {
    var chosen := Take(listed, 15);
    assert forall x :: x in chosen ==> x in listed;
    StripAllWithin(chosen, cands);
  }

  /** With at most 15 distinct candidates, every candidate long enough once stripped is kept. */
  lemma KeyPointsComplete(cands: seq<string>, listed: seq<string>)
    requires Enumerates(listed, SetOf(cands)) && |SetOf(cands)| <= 15
    ensures forall x :: x in cands && |Strip(x)| > 20 ==> Strip(x) in StrippedLong(Take(listed, 15))
  {
    EnumerationLength(listed, SetOf(cands));
    assert Take(listed, 15) == listed;
    StripAllMembers(listed);
  }

  lemma StripAllMembers(xs: seq<string>)
    ensures forall x :: x in xs ==> Strip(x) in PersonSearcher.StripAll(xs)
  {
    var sx := PersonSearcher.StripAll(xs);
    forall x | x in xs ensures Strip(x) in sx {
      var i :| 0 <= i < |xs| && xs[i] == x;
      assert sx[i] == Strip(x);
    }
  }

  /** Stripping keeps membership: the stripped elements of `xs` are stripped elements of `ys`. */
  lemma StripAllWithin(xs: seq<string>, ys: seq<string>)
    requires forall x :: x in xs ==> x in ys
    ensures forall y :: y in PersonSearcher.StripAll(xs) ==> y in PersonSearcher.StripAll(ys)
  {
    var sx, sy := PersonSearcher.StripAll(xs), PersonSearcher.StripAll(ys);
    forall y | y in sx ensures y in sy {
      var i :| 0 <= i < |sx| && sx[i] == y;
      assert xs[i] in ys;
      var m :| 0 <= m < |ys| && ys[m] == xs[i];
      assert sx[i] == Strip(xs[i]) && sy[m] == Strip(ys[m]);
    }
  }

  /** An enumeration of a set is as long as the set is large. */
  lemma {:induction false} EnumerationLength(e: seq<string>, s: set<string>)
    requires Enumerates(e, s)
    ensures |e| == |s|
    decreases |e|
  {
    if e != [] {
      var rest := e[1..];
      forall x ensures x in rest <==> x in s - {e[0]} {
        if x in rest {
          var i :| 0 <= i < |rest| && rest[i] == x;
          assert e[i + 1] == x && e[0] != e[i + 1];
        }
        if x in s - {e[0]} {
          var i :| 0 <= i < |e| && e[i] == x;
          assert i != 0 && rest[i - 1] == x;
        }
      }
      assert NoDup(rest) by {
        forall i, j | 0 <= i < j < |rest| ensures rest[i] != rest[j] {
          assert rest[i] == e[i + 1] && rest[j] == e[j + 1];
        }
      }
      EnumerationLength(rest, s - {e[0]});
    } else {
      assert forall x :: x !in s;
      assert s == {};
    }
  }

  // ---------------------------------------------------------------- methodologies

  /** Number of methodology keyword patterns; pattern 1 is `experiment(al)?`. */
  const MethodPatterns: nat := 9

  /**
   * What `re.findall` returns for one whole match `m` of methodology pattern `k`. The
   * `experiment(al)?` pattern has a group, so as written `findall` returns group 1
   * ("al" or ""), not the match; `grouped == false` is the evidently intended whole match.
   */
  function Returned(k: nat, m: string, grouped: bool): (r: string)
    ensures !grouped || k != 1 ==> r == m
  {
    if grouped && k == 1 then (if |m| > 10 then m[10..] else "") else m
  }

  function ReturnedAll(k: nat, ms: seq<string>, grouped: bool): (r: seq<string>)
    ensures |r| == |ms|
    ensures forall i :: 0 <= i < |ms| ==> r[i] == Returned(k, ms[i], grouped)
  {
    seq(|ms|, i requires 0 <= i < |ms| => Returned(k, ms[i], grouped))
  }

  /** The list built by the first `k` rounds of the keyword loop: at most three results per pattern. */
  function CollectedUpTo(text: string, rx: Regexes, k: nat, grouped: bool): (r: seq<string>)
    ensures |r| <= 3 * k
  {
    if k == 0 then []
    else CollectedUpTo(text, rx, k - 1, grouped) + ReturnedAll(k - 1, Take(rx.methodMatches(k - 1, Take(text, 5000)), 3), grouped)
  }

  /** `list(set(methodologies))`: each collected result once. */
  function MethodologiesWith(text: string, rx: Regexes, grouped: bool): (r: seq<string>)
    requires ValidRegexes(rx)
    ensures NoDup(r) && |r| <= 3 * MethodPatterns
    ensures forall x :: x in r <==> x in CollectedUpTo(text, rx, MethodPatterns, grouped)
  {
    var collected := CollectedUpTo(text, rx, MethodPatterns, grouped);
    var r := rx.setOrder(SetOf(collected));
    assert Enumerates(r, SetOf(collected));
    EnumerationLength(r, SetOf(collected));
    SetOfLength(collected);
    r
  }

  /** A sequence has at least as many elements as its set of elements. */
  lemma {:induction false} SetOfLength(xs: seq<string>)
    ensures |SetOf(xs)| <= |xs|
  {
    if xs != [] {
      SetOfLength(xs[1..]);
      assert SetOf(xs) == {xs[0]} + SetOf(xs[1..]);
    } else {
      assert SetOf(xs) == {};
    }
  }

  /** `_extract_methodologies` as written. */
  function MethodologiesAsWritten(text: string, rx: Regexes): (r: seq<string>)
    requires ValidRegexes(rx)
    ensures NoDup(r)
    ensures forall x :: x in r <==> x in CollectedUpTo(text, rx, MethodPatterns, true)
  {
    MethodologiesWith(text, rx, true)
  }

  /** `_extract_methodologies` returning the keyword matches themselves, as intended. */
  function Methodologies(text: string, rx: Regexes): (r: seq<string>)
    requires ValidRegexes(rx)
    ensures NoDup(r) && |r| <= 3 * MethodPatterns
    ensures forall x :: x in r <==> x in CollectedUpTo(text, rx, MethodPatterns, false)
  {
    MethodologiesWith(text, rx, false)
  }

  /** The keyword loop of `_extract_methodologies`, with whole matches collected. */
  method ExtractMethodologies(text: string, rx: Regexes) returns (r: seq<string>)
    requires ValidRegexes(rx)
    ensures r == Methodologies(text, rx)
  {
    var head := Take(text, 5000);
    var collected: seq<string> := [];
    var k := 0;
    while k < MethodPatterns
      invariant k <= MethodPatterns
      invariant collected == CollectedUpTo(text, rx, k, false)
    {
      var matches := rx.methodMatches(k, head);
      if matches != [] {
        collected := collected + ReturnedAll(k, Take(matches, 3), false);
      }
      k := k + 1;
    }
    r := rx.setOrder(SetOf(collected));
  }

  /** A text whose only methodology match is "experimental". */
  function ExperimentalOnly(): Regexes
  {
    Regexes(
      t => None, t => [], t => [],
      (k: nat, t: string) => if k == 1 then ["experimental"] else [],
      SortedSet)
  }

  lemma {:induction false} ExperimentalCollected(k: nat, grouped: bool)
    requires 2 <= k
    ensures CollectedUpTo("an experimental design", ExperimentalOnly(), k, grouped)
         == [Returned(1, "experimental", grouped)]
  {
    var t, rx := "an experimental design", ExperimentalOnly();
    if k == 2 {
      assert CollectedUpTo(t, rx, 1, grouped) == [];
      assert ReturnedAll(1, Take(rx.methodMatches(1, Take(t, 5000)), 3), grouped) == [Returned(1, "experimental", grouped)];
    } else {
      ExperimentalCollected(k - 1, grouped);
      assert rx.methodMatches(k - 1, Take(t, 5000)) == [];
    }
  }

  /**
   * As written, a paper mentioning only "experimental" is credited with the methodology "al";
   * with whole matches it is credited with "experimental".
   */
  lemma ExperimentalGroupFinding()
    ensures ValidRegexes(ExperimentalOnly())
    ensures "al" in MethodologiesAsWritten("an experimental design", ExperimentalOnly())
    ensures "experimental" !in MethodologiesAsWritten("an experimental design", ExperimentalOnly())
    ensures "experimental" in Methodologies("an experimental design", ExperimentalOnly())
  {
    ExperimentalCollected(MethodPatterns, true);
    ExperimentalCollected(MethodPatterns, false);
    assert "experimental"[10..] == "al";
  }

  // ---------------------------------------------------------------- quotes

  /** `_extract_quotes`: the first five quotations of 50 to 300 characters in the first 3000. */
  function NotableQuotes(text: string): (r: seq<string>)
    ensures |r| <= 5
    ensures forall j :: 0 <= j < |r| ==> 50 <= |r[j]| <= 300 && Quotes.QuoteFree(r[j])
    ensures forall j :: 0 <= j < |r| ==> Quotes.QuotedAfter(Take(text, 3000), r[j], 0)
  {
    var all := Quotes.Quoted(Take(text, 3000), 50, 300);
    var r := Take(all, 5);
    assert forall j :: 0 <= j < |r| ==> r[j] == all[j];
    r
  }

  // ---------------------------------------------------------------- papers

  /** `analyze_paper` on a paper whose PDF yielded `fullText`. */
  function AnalyzePaper(paper: PaperMetadata, fullText: string, rx: Regexes): (c: PaperContent)
    requires ValidRegexes(rx)
    ensures c.paperId == paper.title && c.title == paper.title && c.authors == paper.authors
    ensures c.year == paper.year && c.citations == paper.citations && c.fullText == fullText
    ensures match ExtractAbstract(fullText, rx)
      case Some(a) => c.abstractText == if a != "" then a else PersonSearcher.OrEmpty(paper.abstractText)
      case None => c.abstractText == PersonSearcher.OrEmpty(paper.abstractText)
    ensures c.keyPoints == KeyPoints(fullText, rx) && |c.keyPoints| <= 15
    ensures c.methodologies == Methodologies(fullText, rx) && NoDup(c.methodologies)
    ensures c.notableQuotes == NotableQuotes(fullText) && |c.notableQuotes| <= 5
  {
    var extracted := ExtractAbstract(fullText, rx);
    var abstractText := if extracted.Some? && extracted.value != "" then extracted.value
      else PersonSearcher.OrEmpty(paper.abstractText);
    PaperContent(paper.title, paper.title, paper.authors, paper.year, abstractText,
      KeyPoints(fullText, rx), Methodologies(fullText, rx), NotableQuotes(fullText), fullText, paper.citations)
  }

  /** `analyze_paper` as written: the same entry, with the values `re.findall` returns as its methodologies. */
  function AnalyzePaperAsWritten(paper: PaperMetadata, fullText: string, rx: Regexes): (c: PaperContent)
    requires ValidRegexes(rx)
    ensures c.methodologies == MethodologiesAsWritten(fullText, rx) && NoDup(c.methodologies)
    ensures c.(methodologies := []) == AnalyzePaper(paper, fullText, rx).(methodologies := [])
  {
    AnalyzePaper(paper, fullText, rx).(methodologies := MethodologiesAsWritten(fullText, rx))
  }

  /** The entry kept for the paper at position `idx` whose download failed. */
  function MetadataOnly(paper: PaperMetadata, idx: nat): (c: PaperContent)
    ensures c.paperId == "paper_" + NatToString(idx) && c.title == paper.title
    ensures c.authors == paper.authors && c.year == paper.year && c.citations == paper.citations
    ensures c.abstractText == PersonSearcher.OrEmpty(paper.abstractText)
    ensures c.keyPoints == [] && c.methodologies == [] && c.notableQuotes == [] && c.fullText == ""
  {
    PaperContent("paper_" + NatToString(idx), paper.title, paper.authors, paper.year,
      PersonSearcher.OrEmpty(paper.abstractText), [], [], [], "", paper.citations)
  }

  /** Number of pairs `zip(papers, download_results)` yields. */
  function Pairs(papers: seq<PaperMetadata>, results: seq<DownloadResult>): (n: nat)
    ensures n <= |papers| && n <= |results|
    ensures n == |papers| || n == |results|
  {
    if |papers| <= |results| then |papers| else |results|
  }

  /**
   * What pair `i` contributes: the analysis when the download succeeded and names a file,
   * nothing when it succeeded without `file_path` (the `KeyError` is caught and logged), and
   * the metadata-only entry when the download failed.
   */
  function Outcome(papers: seq<PaperMetadata>, results: seq<DownloadResult>, pdfText: string -> string,
                   rx: Regexes, i: nat): (o: Option<PaperContent>)
    requires ValidRegexes(rx) && i < Pairs(papers, results)
    ensures o.None? <==> results[i].success && results[i].filePath.None?
    ensures o.Some? ==> o.value.title == papers[i].title
  {
    var result := results[i];
    if result.success then
      match result.filePath
      case Some(path) => Some(AnalyzePaper(papers[i], pdfText(path), rx))
      case None => None
    else Some(MetadataOnly(papers[i], i))
  }

  function Titles(papers: seq<PaperMetadata>): (r: seq<string>)
    ensures |r| == |papers| && forall i :: 0 <= i < |r| ==> r[i] == papers[i].title
  {
    seq(|papers|, i requires 0 <= i < |papers| => papers[i].title)
  }

  /** What each pair contributes, in order. */
  function Outcomes(papers: seq<PaperMetadata>, results: seq<DownloadResult>, pdfText: string -> string,
                    rx: Regexes): (r: seq<Option<PaperContent>>)
    requires ValidRegexes(rx)
    ensures |r| == Pairs(papers, results)
    ensures forall i :: 0 <= i < |r| ==> r[i] == Outcome(papers, results, pdfText, rx, i)
  {
    seq(Pairs(papers, results), i requires 0 <= i < Pairs(papers, results) => Outcome(papers, results, pdfText, rx, i))
  }

  /** The title-keyed dict `analyze_all_papers` returns. */
  function Analyzed(papers: seq<PaperMetadata>, results: seq<DownloadResult>, pdfText: string -> string,
                    rx: Regexes): (r: OMap<PaperContent>)
    requires ValidRegexes(rx)
    ensures Valid(r)
  {
    PutSome(Titles(papers), Outcomes(papers, results, pdfText, rx), Pairs(papers, results))
  }

  /** `analyze_all_papers`. */
  method AnalyzeAllPapers(papers: seq<PaperMetadata>, results: seq<DownloadResult>, pdfText: string -> string,
                          rx: Regexes) returns (analyzed: OMap<PaperContent>)
    requires ValidRegexes(rx)
    ensures analyzed == Analyzed(papers, results, pdfText, rx)
  {
    ghost var titles, outcomes := Titles(papers), Outcomes(papers, results, pdfText, rx);
    analyzed := Empty();
    var n := Pairs(papers, results);
    var idx := 0;
    while idx < n
      invariant idx <= n
      invariant analyzed == PutSome(titles, outcomes, idx)
    {
      analyzed := AnalyzePair(papers, results, pdfText, rx, idx, analyzed);
      idx := idx + 1;
    }
  }

  /** One pass of the loop: pair `idx` enters the dict built from the pairs before it. */
  method AnalyzePair(papers: seq<PaperMetadata>, results: seq<DownloadResult>, pdfText: string -> string,
                     rx: Regexes, idx: nat, analyzed: OMap<PaperContent>) returns (next: OMap<PaperContent>)
    requires ValidRegexes(rx) && idx < Pairs(papers, results)
    requires analyzed == PutSome(Titles(papers), Outcomes(papers, results, pdfText, rx), idx)
    ensures next == PutSome(Titles(papers), Outcomes(papers, results, pdfText, rx), idx + 1)
  {
    ghost var outcomes := Outcomes(papers, results, pdfText, rx);
    assert outcomes[idx] == Outcome(papers, results, pdfText, rx, idx);
    var paper, result := papers[idx], results[idx];
    next := analyzed;
    if result.success {
      if result.filePath.Some? {
        var content := AnalyzePaper(paper, pdfText(result.filePath.value), rx);
        next := Put(analyzed, paper.title, content);
      }
    } else {
      next := Put(analyzed, paper.title, MetadataOnly(paper, idx));
    }
  }

  /** Pair `i` leaves an entry: its download failed, or it succeeded and names a file. */
  predicate Contributes(results: seq<DownloadResult>, i: int)
  {
    0 <= i < |results| && (!results[i].success || results[i].filePath.Some?)
  }

  /** A title is a key exactly when some pair with that title contributed an entry. */
  lemma AnalyzedKeys(papers: seq<PaperMetadata>, results: seq<DownloadResult>,
                     pdfText: string -> string, rx: Regexes, t: string)
    requires ValidRegexes(rx)
    ensures t in Analyzed(papers, results, pdfText, rx).values <==>
      exists i :: 0 <= i < Pairs(papers, results) && Contributes(results, i) && papers[i].title == t
  {
    var titles, outcomes := Titles(papers), Outcomes(papers, results, pdfText, rx);
    PutSomeKeys(titles, outcomes, Pairs(papers, results), t);
    assert forall i :: 0 <= i < |outcomes| ==> (outcomes[i].Some? <==> Contributes(results, i));
  }

  /**
   * A later paper with the same title overwrites an earlier entry: the entry for a title is
   * the one of the last pair with that title that contributed.
   */
  lemma AnalyzedLastWins(papers: seq<PaperMetadata>, results: seq<DownloadResult>,
                         pdfText: string -> string, rx: Regexes, i: nat)
    requires ValidRegexes(rx) && i < Pairs(papers, results) && Contributes(results, i)
    requires forall j :: i < j < Pairs(papers, results) && papers[j].title == papers[i].title ==>
      !Contributes(results, j)
    ensures papers[i].title in Analyzed(papers, results, pdfText, rx).values
    ensures Analyzed(papers, results, pdfText, rx).values[papers[i].title]
         == Outcome(papers, results, pdfText, rx, i).value
  {
    var titles, outcomes := Titles(papers), Outcomes(papers, results, pdfText, rx);
    assert forall j :: 0 <= j < |outcomes| ==> (outcomes[j].Some? <==> Contributes(results, j));
    PutSomeLast(titles, outcomes, Pairs(papers, results), i);
  }
}
