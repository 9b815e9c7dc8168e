/**
 * The report generator: it writes the ten report sections with the generative model,
 * retrying failed calls and switching to fallback models on quota errors, tracks the
 * `[From: ...]` citation markers each section contains, and lays out the bibliography.
 *
 * The model service is `Provider.Service`; the generator's own mutable state is the
 * current model name and the index of the next fallback model.
 */
module Reports {
  import opened Wrappers
  import opened Text
  import opened OrderedMaps
  import opened Provider
  import Sorting
  import Citations
  import ContentAnalyzer
  import Flowables

  type PaperContent = ContentAnalyzer.PaperContent

  // ---------------------------------------------------------------- section configs

  datatype SectionConfig = SectionConfig(title: string, length: string, focus: string)

  // The section keys, and each section's config.
  const ExecutiveSummaryKey: string := "executive_summary"
  const PersonalityProfileKey: string := "personality_profile"
  const IntellectualProfileKey: string := "intellectual_profile"
  const DomainExpertiseKey: string := "domain_expertise"
  const ResearchMethodologyKey: string := "research_methodology"
  const ProfessionalBackgroundKey: string := "professional_background"
  const EvolutionIdeasKey: string := "evolution_ideas"
  const ThoughtLeadershipKey: string := "thought_leadership"
  const CollaborationNetworkKey: string := "collaboration_network"
  const BibliographyKey: string := "bibliography"

  const ExecutiveSummary: SectionConfig := SectionConfig("Executive Summary", "2-3 pages", "Complete overview of person and their contributions")
  const PersonalityProfile: SectionConfig := SectionConfig("Personality Profile & Communication Style", "6-8 pages", "Communication patterns, personality traits, values")
  const IntellectualProfile: SectionConfig := SectionConfig("Intellectual Profile & Mindset", "8-10 pages", "Core beliefs, problem-solving, decision-making, innovation")
  const DomainExpertise: SectionConfig := SectionConfig("Domain Expertise & Knowledge Base", "10-12 pages", "Key concepts, frameworks, methodologies, contributions")
  const ResearchMethodology: SectionConfig := SectionConfig("Research Methodology & Approach", "6-8 pages", "Methodological preferences, study designs, validation")
  const ProfessionalBackground: SectionConfig := SectionConfig("Professional Background & Journey", "4-5 pages", "Career evolution, education, achievements")
  const EvolutionIdeas: SectionConfig := SectionConfig("Evolution of Ideas & Thinking", "6-8 pages", "Conceptual development over time, intellectual trajectory")
  const ThoughtLeadership: SectionConfig := SectionConfig("Thought Leadership & Public Presence", "5-7 pages", "Books, articles, speaking, public engagement")
  const CollaborationNetwork: SectionConfig := SectionConfig("Collaboration & Network Influence", "4-5 pages", "Co-author networks, collaborations, influence")
  const Bibliography: SectionConfig := SectionConfig("Complete Bibliography & References", "3-4 pages", "Full references for all cited papers")

  /** `_get_section_configs`, in its dict order. */
  function SectionConfigs(): seq<(string, SectionConfig)>
  {
    [ (ExecutiveSummaryKey, ExecutiveSummary),
      (PersonalityProfileKey, PersonalityProfile),
      (IntellectualProfileKey, IntellectualProfile),
      (DomainExpertiseKey, DomainExpertise),
      (ResearchMethodologyKey, ResearchMethodology),
      (ProfessionalBackgroundKey, ProfessionalBackground),
      (EvolutionIdeasKey, EvolutionIdeas),
      (ThoughtLeadershipKey, ThoughtLeadership),
      (CollaborationNetworkKey, CollaborationNetwork),
      (BibliographyKey, Bibliography) ]
  }

  function SectionKeys(): seq<string>
  {
    [ ExecutiveSummaryKey,
      PersonalityProfileKey,
      IntellectualProfileKey,
      DomainExpertiseKey,
      ResearchMethodologyKey,
      ProfessionalBackgroundKey,
      EvolutionIdeasKey,
      ThoughtLeadershipKey,
      CollaborationNetworkKey,
      BibliographyKey ]
  }

  /** The ten section keys are distinct and are the configs' keys, in order. */
  lemma SectionKeysFacts()
    ensures |SectionConfigs()| == |SectionKeys()| == 10
    ensures forall i :: 0 <= i < 10 ==> SectionConfigs()[i].0 == SectionKeys()[i]
    ensures NoDup(SectionKeys())
  {
  }

  // ---------------------------------------------------------------- paper excerpts

  datatype Excerpt = Excerpt(
    id: string, title: string, authors: string, year: string, abstractText: string,
    keyPoints: seq<string>, methodologies: seq<string>, isDownloaded: bool)

  /** One `(paper_id, content)` pair of `paper_contents.items()`. */
  type Item = (string, PaperContent)

  /** The richness key: `len(key_points) + len(full_text[:500])`. */
  function Richness(x: Item): int { |x.1.keyPoints| + |Take(x.1.fullText, 500)| }

  /** The impact key: the citation count. */
  function Impact(x: Item): int { x.1.citations }

  predicate HasText(x: Item) { x.1.fullText != "" }

  /** The elements of `xs` on which `f` is `want`, in order. */
  function Filter<T(!new)>(xs: seq<T>, f: T -> bool, want: bool): (r: seq<T>)
    ensures forall x :: x in r <==> x in xs && f(x) == want
    ensures |r| <= |xs|
  {
    if xs == [] then [] else (if f(xs[0]) == want then [xs[0]] else []) + Filter(xs[1..], f, want)
  }

  /** Every element passes the test or fails it, not both. */
  lemma {:induction false} FilterPartition<T(!new)>(xs: seq<T>, f: T -> bool)
    ensures |Filter(xs, f, true)| + |Filter(xs, f, false)| == |xs|
  {
    if xs != [] {
      FilterPartition(xs[1..], f);
    }
  }

  /** The first 15 of `ds` by `rich`, then the first of `ms` by `impact`, 20 in all at most. */
  function Pick<T>(ds: seq<T>, ms: seq<T>, rich: T -> int, impact: T -> int): seq<T>
  {
    var d := Take(Sorting.SortDesc(ds, rich), 15);
    d + Take(Sorting.SortDesc(ms, impact), 20 - |d|)
  }

  /** The picked excerpts: the downloaded papers first, each group in its own order. */
  lemma PickFacts<T>(ds: seq<T>, ms: seq<T>, rich: T -> int, impact: T -> int)
    ensures var r := Pick(ds, ms, rich, impact);
      var nd := if |ds| < 15 then |ds| else 15;
      && |r| == nd + (if |ms| < 20 - nd then |ms| else 20 - nd)
      && (forall j :: 0 <= j < nd ==> r[j] in ds)
      && (forall j :: nd <= j < |r| ==> r[j] in ms)
      && Sorting.SortedDesc(r[..nd], rich)
      && Sorting.SortedDesc(r[nd..], impact)
  {
    PickSorted(ds, ms, rich, impact);
    PickMembers(ds, ms, rich, impact);
  }

  lemma PickSorted<T>(ds: seq<T>, ms: seq<T>, rich: T -> int, impact: T -> int)
    ensures var r := Pick(ds, ms, rich, impact);
      var nd := if |ds| < 15 then |ds| else 15;
      && |r| == nd + (if |ms| < 20 - nd then |ms| else 20 - nd)
      && Sorting.SortedDesc(r[..nd], rich)
      && Sorting.SortedDesc(r[nd..], impact)
  {
    var sd := Sorting.SortDesc(ds, rich);
    var sm := Sorting.SortDesc(ms, impact);
    var d := Take(sd, 15);
    var m := Take(sm, 20 - |d|);
    var r := Pick(ds, ms, rich, impact);
    assert r == d + m;
    assert r[..|d|] == d && r[|d|..] == m;
    Sorting.SortedDescPrefix(sd, rich, |d|);
    Sorting.SortedDescPrefix(sm, impact, |m|);
    assert d == sd[..|d|] && m == sm[..|m|];
  }

  lemma PickMembers<T>(ds: seq<T>, ms: seq<T>, rich: T -> int, impact: T -> int)
    ensures var r := Pick(ds, ms, rich, impact);
      var nd := if |ds| < 15 then |ds| else 15;
      && (forall j :: 0 <= j < nd && j < |r| ==> r[j] in ds)
      && (forall j :: nd <= j < |r| ==> r[j] in ms)
  {
    var sd := Sorting.SortDesc(ds, rich);
    var sm := Sorting.SortDesc(ms, impact);
    var d := Take(sd, 15);
    var m := Take(sm, 20 - |d|);
    var r := Pick(ds, ms, rich, impact);
    assert r == d + m;
    TakeMembers(sd, ds, 15);
    TakeMembers(sm, ms, 20 - |d|);
    ConcatMembers(d, m, ds, ms);
  }

  lemma ConcatMembers<T>(d: seq<T>, m: seq<T>, xs: seq<T>, ys: seq<T>)
    requires forall y :: y in d ==> y in xs
    requires forall y :: y in m ==> y in ys
    ensures forall j :: 0 <= j < |d| ==> (d + m)[j] in xs
    ensures forall j :: |d| <= j < |d + m| ==> (d + m)[j] in ys
  {
    forall j | 0 <= j < |d| ensures (d + m)[j] in xs {
      assert (d + m)[j] == d[j];
    }
    forall j | |d| <= j < |d + m| ensures (d + m)[j] in ys {
      assert (d + m)[j] == m[j - |d|];
    }
  }

  lemma TakeMembers<T>(sorted: seq<T>, xs: seq<T>, n: nat)
    requires multiset(sorted) == multiset(xs)
    ensures forall y :: y in Take(sorted, n) ==> y in xs
  {
    forall y | y in Take(sorted, n) ensures y in xs {
      assert y in sorted;
      assert y in multiset(xs);
    }
  }

  /** An element of `ds` that `Pick` leaves out is ranked no higher than any it keeps. */
  lemma PickTop<T>(ds: seq<T>, ms: seq<T>, rich: T -> int, impact: T -> int, x: T)
    requires x in ds && x !in Take(Sorting.SortDesc(ds, rich), 15)
    ensures forall y :: y in Take(Sorting.SortDesc(ds, rich), 15) ==> rich(y) >= rich(x)
  {
    var sd := Sorting.SortDesc(ds, rich);
    var d := Take(sd, 15);
    assert x in multiset(ds);
    assert x in sd;
    var i :| 0 <= i < |sd| && sd[i] == x;
    assert |d| == 15 && d == sd[..15] && i >= 15;
    forall y | y in d ensures rich(y) >= rich(x) {
      var k :| 0 <= k < |d| && d[k] == y;
      assert sd[k] == y;
    }
  }

  function RichestDownloaded(contents: OMap<PaperContent>): seq<Item>
    requires Valid(contents)
  {
    Take(Sorting.SortDesc(Filter(Items(contents), HasText, true), Richness), 15)
  }

  /** `papers_to_include`: the 15 richest downloaded papers, then the most cited metadata-only papers, 20 at most. */
  function Included(contents: OMap<PaperContent>): seq<Item>
    requires Valid(contents)
  {
    Pick(Filter(Items(contents), HasText, true), Filter(Items(contents), HasText, false), Richness, Impact)
  }

  function ToExcerpt(x: Item): Excerpt
  {
    var c := x.1;
    Excerpt(x.0, c.title, c.authors, c.year, Take(c.abstractText, 500), Take(c.keyPoints, 10),
            Take(c.methodologies, 5), c.fullText != "")
  }

  /** The excerpts of the papers, one per paper and in the same order. */
  function ExcerptsOf(papers: seq<Item>): (ex: seq<Excerpt>)
    ensures |ex| == |papers|
    ensures forall i :: 0 <= i < |ex| ==> ex[i] == ToExcerpt(papers[i])
  {
    seq(|papers|, i requires 0 <= i < |papers| => ToExcerpt(papers[i]))
  }

  /** The excerpts `_prepare_paper_excerpts_for_section` returns; the section key plays no part. */
  function Excerpts(contents: OMap<PaperContent>): seq<Excerpt>
    requires Valid(contents)
  {
    ExcerptsOf(Included(contents))
  }

  /** `_prepare_paper_excerpts_for_section`: the included papers, each turned into an excerpt. */
  method PrepareExcerpts(contents: OMap<PaperContent>) returns (excerpts: seq<Excerpt>)
    requires Valid(contents)
    ensures |excerpts| == |Included(contents)|
    ensures forall i :: 0 <= i < |excerpts| ==> excerpts[i] == ToExcerpt(Included(contents)[i])
  {
    excerpts := ToExcerpts(Included(contents));
  }

  /** The loop of `_prepare_paper_excerpts_for_section` that builds one excerpt per paper. */
  method ToExcerpts(papers: seq<Item>) returns (excerpts: seq<Excerpt>)
    ensures |excerpts| == |papers|
    ensures forall i :: 0 <= i < |excerpts| ==> excerpts[i] == ToExcerpt(papers[i])
  {
    excerpts := [];
    var k := 0;
    while k < |papers|
      invariant k <= |papers| && |excerpts| == k
      invariant forall i :: 0 <= i < k ==> excerpts[i] == ToExcerpt(papers[i])
    {
      excerpts := excerpts + [ToExcerpt(papers[k])];
      k := k + 1;
    }
  }

  /**
   * What the excerpts are: every excerpt shows the content stored under its id; the
   * downloaded ones come first, at most 15 of them and all of them when there are fewer
   * than 15, ordered by richness; then as many metadata-only papers as the 20 slots leave,
   * ordered by citations; `is_downloaded` is `bool(full_text)`.
   */
  lemma ExcerptsFacts(contents: OMap<PaperContent>)
    requires Valid(contents)
    ensures var ex := Excerpts(contents);
      var inc := Included(contents);
      var nD := |Filter(Items(contents), HasText, true)|;
      var nM := |Filter(Items(contents), HasText, false)|;
      var nd := if nD < 15 then nD else 15;
      && |ex| <= 20
      && |ex| == nd + (if nM < 20 - nd then nM else 20 - nd)
      && (forall j :: 0 <= j < |ex| ==> (ex[j].isDownloaded <==> j < nd))
      && (forall j :: 0 <= j < |ex| ==> ex[j].id in contents.values && ex[j] == ToExcerpt((ex[j].id, contents.values[ex[j].id])))
      && Sorting.SortedDesc(inc[..nd], Richness)
      && Sorting.SortedDesc(inc[nd..], Impact)
  {
    ExcerptsCount(contents);
    ExcerptsContents(contents);
  }

  /** There is one excerpt per included paper, at most 20 of them, split as the pick splits them. */
  lemma ExcerptsCount(contents: OMap<PaperContent>)
    requires Valid(contents)
    ensures var nD := |Filter(Items(contents), HasText, true)|;
      var nM := |Filter(Items(contents), HasText, false)|;
      var nd := if nD < 15 then nD else 15;
      && |Excerpts(contents)| <= 20
      && |Excerpts(contents)| == nd + (if nM < 20 - nd then nM else 20 - nd)
      && Sorting.SortedDesc(Included(contents)[..nd], Richness)
      && Sorting.SortedDesc(Included(contents)[nd..], Impact)
  {
    IncludedFacts(contents);
    assert |Excerpts(contents)| == |Included(contents)|;
  }

  /** Each excerpt shows a stored paper, and the first `min(nD, 15)` are the downloaded ones. */
  lemma ExcerptsContents(contents: OMap<PaperContent>)
    requires Valid(contents)
    ensures var ex := Excerpts(contents);
      var nD := |Filter(Items(contents), HasText, true)|;
      var nd := if nD < 15 then nD else 15;
      && (forall j :: 0 <= j < |ex| ==> (ex[j].isDownloaded <==> j < nd))
      && (forall j :: 0 <= j < |ex| ==> ex[j].id in contents.values && ex[j] == ToExcerpt((ex[j].id, contents.values[ex[j].id])))
  {
    IncludedFacts(contents);
    var inc := Included(contents);
    var nD := |Filter(Items(contents), HasText, true)|;
    var nd := if nD < 15 then nD else 15;
    forall j | 0 <= j < |inc| ensures inc[j].0 in contents.values && inc[j].1 == contents.values[inc[j].0] {
      ItemsMember(contents, inc[j]);
    }
    assert forall j :: 0 <= j < |inc| ==> (HasText(inc[j]) <==> j < nd);
    ExcerptsOfFacts(inc, contents.values, nd);
    assert Excerpts(contents) == ExcerptsOf(inc);
  }

  /** The excerpts of stored papers, the first `nd` of them downloaded, show what is stored. */
  lemma ExcerptsOfFacts(papers: seq<Item>, stored: map<string, PaperContent>, nd: nat)
    requires forall j :: 0 <= j < |papers| ==> papers[j].0 in stored && papers[j].1 == stored[papers[j].0]
    requires forall j :: 0 <= j < |papers| ==> (HasText(papers[j]) <==> j < nd)
    ensures var ex := ExcerptsOf(papers);
      && (forall j :: 0 <= j < |ex| ==> (ex[j].isDownloaded <==> j < nd))
      && (forall j :: 0 <= j < |ex| ==> ex[j].id in stored && ex[j] == ToExcerpt((ex[j].id, stored[ex[j].id])))
  {
    var ex := ExcerptsOf(papers);
    forall j | 0 <= j < |ex| ensures ex[j].id in stored && ex[j] == ToExcerpt((ex[j].id, stored[ex[j].id])) {
      assert ex[j].id == papers[j].0;
      assert papers[j] == (papers[j].0, stored[papers[j].0]);
    }
  }

  /** The included papers are stored ones: the downloaded ones first, ranked by richness, then the rest by citations. */
  lemma IncludedFacts(contents: OMap<PaperContent>)
    requires Valid(contents)
    ensures var inc := Included(contents);
      var nD := |Filter(Items(contents), HasText, true)|;
      var nM := |Filter(Items(contents), HasText, false)|;
      var nd := if nD < 15 then nD else 15;
      && |inc| == nd + (if nM < 20 - nd then nM else 20 - nd)
      && (forall j :: 0 <= j < |inc| ==> inc[j] in Items(contents) && (HasText(inc[j]) <==> j < nd))
      && Sorting.SortedDesc(inc[..nd], Richness)
      && Sorting.SortedDesc(inc[nd..], Impact)
  {
    var items := Items(contents);
    var ds, ms := Filter(items, HasText, true), Filter(items, HasText, false);
    PickFacts(ds, ms, Richness, Impact);
    var inc := Included(contents);
    var nd := if |ds| < 15 then |ds| else 15;
    forall j | 0 <= j < |inc| ensures inc[j] in items && (HasText(inc[j]) <==> j < nd) {
      if j < nd { assert inc[j] in ds; } else { assert inc[j] in ms; }
    }
  }

  /** Richest first: a downloaded paper left out is no richer than any downloaded paper included. */
  lemma RichestFirst(contents: OMap<PaperContent>, x: Item)
    requires Valid(contents)
    requires x in Filter(Items(contents), HasText, true) && x !in RichestDownloaded(contents)
    ensures forall y :: y in RichestDownloaded(contents) ==> Richness(y) >= Richness(x)
  {
    PickTop(Filter(Items(contents), HasText, true), Filter(Items(contents), HasText, false), Richness, Impact, x);
  }

  // ---------------------------------------------------------------- the section prompt

  function StatusTag(e: Excerpt): string { if e.isDownloaded then "[DOWNLOADED]" else "[METADATA ONLY]" }

  function PointLines(points: seq<string>): string
  {
    if points == [] then "" else "   - " + points[0] + "\n" + PointLines(points[1..])
  }

  /** The entry for the excerpt numbered `idx`. */
  function PaperEntry(idx: nat, e: Excerpt): string
  {
    "\n" + NatToString(idx) + ". \"" + e.title + "\" (" + e.year + ") by " + e.authors + " " + StatusTag(e) + "\n"
    + (if e.abstractText != "" then "   Abstract: " + Take(e.abstractText, 300) + "...\n" else "")
    + PointLines(Take(e.keyPoints, 5))
  }

  /** `paper_text`: the entries of `excerpts`, numbered from `idx`. */
  function PaperText(excerpts: seq<Excerpt>, idx: nat): string
    decreases |excerpts|
  {
    if excerpts == [] then "" else PaperEntry(idx, excerpts[0]) + PaperText(excerpts[1..], idx + 1)
  }

  /** The fixed instructions after the paper list, one line per constant. */
  const RulesHeading: string := "CRITICAL MANDATORY REQUIREMENTS (MUST FOLLOW):"
  const Rule1: string := "1. Write in PARAGRAPH form (not bullet points or lists)"
  const Rule2: string := "2. **YOU MUST add a citation at the END of EVERY single paragraph** - no exceptions"
  const Rule3: string := "3. Citation format: [From: Paper Title, Author Year]"
  const Rule4: string := "4. If paper not downloaded, add: [From: Paper Title, Author Year - metadata only]"
  const Rule5: string := "5. **EVERY paragraph MUST end with a citation** - this is mandatory"
  const Rule6: string := "6. Each paragraph should be 3-5 sentences"
  const Rule7: string := "7. Be specific about which paper supports each claim"
  const Rule8: string := "8. If you don't cite papers, the output is INVALID"
  const ExampleHeading: string := "Example paragraph format:"
  const ExampleParagraph: string := "\"This section discusses important concepts from their research. The analysis reveals key patterns in their methodology and approach to problem-solving. [From: Paper Title, Author Year]\""
  const Reminder: string := "**REMEMBER: EVERY paragraph MUST end with a citation from the papers list above. NO exceptions.**"

  function Requirements(): string
  {
    "\n" + RulesHeading + "\n" + Rule1 + "\n" + Rule2 + "\n" + Rule3 + "\n" + Rule4 + "\n" + Rule5 + "\n"
    + Rule6 + "\n" + Rule7 + "\n" + Rule8 + "\n\n" + ExampleHeading + "\n" + ExampleParagraph + "\n\n" + Reminder + "\n"
  }

  /** `_build_section_prompt`. */
  function SectionPrompt(personName: string, cfg: SectionConfig, excerpts: seq<Excerpt>): string
  {
    "\nGenerate a " + cfg.length + " \"" + cfg.title + "\" section for " + personName + ".\n\nFocus on: "
    + cfg.focus + "\n\nAvailable research papers and key points:\n" + PaperText(excerpts, 1) + "\n"
    + Requirements() + "\nGenerate the complete section now:\n"
  }

  // ---------------------------------------------------------------- citation markers

  predicate Lacks(s: string, c: char) { forall k :: 0 <= k < |s| ==> s[k] != c }

  /** The length of the whitespace run of `s` starting at index `i`. */
  function SpaceRun(s: string, i: nat): (n: nat)
    requires i <= |s|
    ensures i + n <= |s|
    ensures forall k :: i <= k < i + n ==> IsSpace(s[k])
    ensures i + n < |s| ==> !IsSpace(s[i + n])
    decreases |s| - i
  {
    if i == |s| || !IsSpace(s[i]) then 0 else 1 + SpaceRun(s, i + 1)
  }

  /** The length of the run of characters other than `stop` starting at index `i`. */
  function RunBefore(s: string, i: nat, stop: char): (n: nat)
    requires i <= |s|
    ensures i + n <= |s|
    ensures forall k :: i <= k < i + n ==> s[k] != stop
    ensures i + n < |s| ==> s[i + n] == stop
    decreases |s| - i
  {
    if i == |s| || s[i] == stop then 0 else 1 + RunBefore(s, i + 1, stop)
  }

  /** The two groups of one match of `\[From:\s+([^,]+),\s+([^\]]+)\]`. */
  datatype Marker = Marker(title: string, rest: string)

  /** A group `[^c]+` after `\s+`: the run up to `c`, or, when that run is empty, the last whitespace character the `\s+` gives back. */
  function Group(s: string, start: nat, spaces: nat, run: nat, stop: char): (g: string)
    requires spaces <= start && start + run <= |s|
    requires run > 0 || (spaces >= 2 && IsSpace(s[start - 1]) && !IsSpace(stop))
    requires forall k :: start <= k < start + run ==> s[k] != stop
    ensures g != [] && Lacks(g, stop)
  {
    if run > 0 then s[start..start + run] else s[start - 1..start]
  }

  /** How much of `(?:\s*-\s*metadata only)?` matches at index `e`. */
  function SuffixLength(s: string, e: nat): (n: nat)
    requires e <= |s|
    ensures e + n <= |s|
  {
    var w := SpaceRun(s, e);
    if e + w < |s| && s[e + w] == '-' then
      var w2 := SpaceRun(s, e + w + 1);
      if OccursAt(s, "metadata only", e + w + 1 + w2) then w + 1 + w2 + 13 else 0
    else 0
  }

  /**
   * The match of the citation pattern that starts at index `i`, with the index after its `]`.
   * `[^,]+` and `[^\]]+` run to the first `,` and `]`; when such a run is empty, the
   * preceding `\s+` gives one whitespace character back if it has two or more.
   */
  function MarkerAt(s: string, i: nat): (r: Option<(Marker, nat)>)
    requires i <= |s|
    ensures r.Some? ==> i < r.value.1 <= |s|
    ensures r.Some? ==> r.value.0.title != [] && r.value.0.rest != []
    ensures r.Some? ==> Lacks(r.value.0.title, ',') && Lacks(r.value.0.rest, ']')
  {
    if !OccursAt(s, "[From:", i) then None
    else
      var w := SpaceRun(s, i + 6);
      var p := i + 6 + w;
      var n := RunBefore(s, p, ',');
      if w == 0 || p + n == |s| || (n == 0 && w < 2) then None
      else
        var b := p + n + 1;
        var w2 := SpaceRun(s, b);
        var q := b + w2;
        var m := RunBefore(s, q, ']');
        if w2 == 0 || q + m == |s| || (m == 0 && w2 < 2) then None
        else
          var e := q + m + 1;
          Some((Marker(Group(s, p, w, n, ','), Group(s, q, w2, m, ']')), e))
  }

  /** `re.findall` of the citation pattern on `s[i..]`: scan, and resume after each match. */
  function MarkersFrom(s: string, i: nat): seq<Marker>
    requires i <= |s|
    decreases |s| - i
  {
    if i == |s| then []
    else match MarkerAt(s, i)
      case Some((mk, e)) => [mk] + MarkersFrom(s, e + SuffixLength(s, e))
      case None => MarkersFrom(s, i + 1)
  }

  function Markers(s: string): seq<Marker> { MarkersFrom(s, 0) }

  /** A run function's result is pinned down by where the run ends. */
  lemma RunBeforeIs(s: string, i: nat, stop: char, k: nat)
    requires i + k < |s| && s[i + k] == stop
    requires forall j :: i <= j < i + k ==> s[j] != stop
    ensures RunBefore(s, i, stop) == k
  {
  }

  lemma SpaceRunIs(s: string, i: nat, k: nat)
    requires i + k < |s| && !IsSpace(s[i + k])
    requires forall j :: i <= j < i + k ==> IsSpace(s[j])
    ensures SpaceRun(s, i) == k
  {
  }

  /**
   * The tracker's inline marker and the generator's marker scanner agree: scanning the
   * marker `Citations.FormatCitation` writes for a reference gives back its title, and
   * the rest of the marker as the second group. The title must not hold a comma nor start
   * with whitespace; the authors must be non-empty and not start with whitespace; neither
   * the authors nor the year may hold a `]`.
   */
  lemma FormatCitationScans(r: Citations.PaperReference)
    requires r.title != [] && !IsSpace(r.title[0]) && Lacks(r.title, ',')
    requires r.authors != [] && !IsSpace(r.authors[0])
    requires Lacks(r.authors, ']')
    requires Lacks(r.year, ']')
    ensures Markers(Citations.FormatCitation(r))
         == [Marker(r.title, r.authors + " " + r.year + (if r.isDownloaded then "" else " - metadata only"))]
  {
    var y := r.authors + " " + r.year + (if r.isDownloaded then "" else " - metadata only");
    forall k | 0 <= k < |y| ensures y[k] != ']' {
      if k < |r.authors| { assert y[k] == r.authors[k]; }
      else if k == |r.authors| { assert y[k] == ' '; }
      else if k < |r.authors| + 1 + |r.year| { assert y[k] == r.year[k - |r.authors| - 1]; }
      else { assert y[k] == " - metadata only"[k - |r.authors| - 1 - |r.year|]; }
    }
    assert y[0] == r.authors[0];
    assert Citations.FormatCitation(r) == "[From: " + r.title + ", " + y + "]";
    MarkerOf(r.title, y);
  }

  /** Scanning `[From: t, y]` finds exactly the marker `(t, y)`. */
  lemma MarkerOf(t: string, y: string)
    requires t != [] && !IsSpace(t[0]) && Lacks(t, ',')
    requires y != [] && !IsSpace(y[0]) && Lacks(y, ']')
    ensures Markers("[From: " + t + ", " + y + "]") == [Marker(t, y)]
  {
    var s := "[From: " + t + ", " + y + "]";
    MarkerLayout(t, y);
    OneMarker(s, |t|, |y|);
    MarkerParts(t, y);
  }

  lemma MarkerParts(t: string, y: string)
    ensures var s := "[From: " + t + ", " + y + "]";
      |s| == 10 + |t| + |y| && s[7..7 + |t|] == t && s[9 + |t|..9 + |t| + |y|] == y
  {
    var s := "[From: " + t + ", " + y + "]";
    assert s == "[From: " + (t + (", " + (y + "]")));
  }

  lemma OneMarker(s: string, n: nat, m: nat)
    requires |s| == 10 + n + m && n > 0 && m > 0
    requires OccursAt(s, "[From:", 0) && SpaceRun(s, 6) == 1 && RunBefore(s, 7, ',') == n
    requires SpaceRun(s, 8 + n) == 1 && RunBefore(s, 9 + n, ']') == m
    ensures Markers(s) == [Marker(s[7..7 + n], s[9 + n..9 + n + m])]
  {
    MarkerAtSingleSpaces(s, 0, n, m);
    assert SuffixLength(s, |s|) == 0;
    assert MarkersFrom(s, |s|) == [];
  }

  lemma MarkerLayout(t: string, y: string)
    requires t != [] && !IsSpace(t[0]) && Lacks(t, ',')
    requires y != [] && !IsSpace(y[0]) && Lacks(y, ']')
    ensures var s := "[From: " + t + ", " + y + "]";
      && |s| == 10 + |t| + |y|
      && OccursAt(s, "[From:", 0) && SpaceRun(s, 6) == 1 && RunBefore(s, 7, ',') == |t|
      && SpaceRun(s, 8 + |t|) == 1 && RunBefore(s, 9 + |t|, ']') == |y|
  {
    var h := "[From: " + t + ",";
    var s := "[From: " + t + ", " + y + "]";
    assert s == h + " " + y + "]" == h + (" " + y + "]");
    MarkerHead(t, " " + y + "]");
    assert s[|h|] == ' ' && s[|h| + 1..|h| + 1 + |y|] == y && s[|h| + 1 + |y|] == ']';
    MarkerTail(s, |h|, y);
  }

  /** The opening `[From: t,` of a marker. */
  lemma MarkerHead(t: string, z: string)
    requires t != [] && !IsSpace(t[0]) && Lacks(t, ',')
    ensures var s := "[From: " + t + "," + z;
      OccursAt(s, "[From:", 0) && SpaceRun(s, 6) == 1 && RunBefore(s, 7, ',') == |t|
  {
    var s := "[From: " + t + "," + z;
    assert s[..6] == "[From:" && s[6] == ' ' && s[7 + |t|] == ',';
    forall k | 7 <= k < 7 + |t| ensures s[k] != ',' { assert s[k] == t[k - 7]; }
    assert s[7] == t[0];
    SpaceRunIs(s, 6, 1);
    RunBeforeIs(s, 7, ',', |t|);
  }

  /** The closing ` y]` of a marker, at index `b` of `s`. */
  lemma MarkerTail(s: string, b: nat, y: string)
    requires y != [] && !IsSpace(y[0]) && Lacks(y, ']')
    requires b + 2 + |y| <= |s| && s[b] == ' ' && s[b + 1..b + 1 + |y|] == y && s[b + 1 + |y|] == ']'
    ensures SpaceRun(s, b) == 1 && RunBefore(s, b + 1, ']') == |y|
  {
    assert s[b + 1] == y[0];
    SpaceRunIs(s, b, 1);
    LacksWithin(s, b + 1, y, ']');
    RunBeforeIs(s, b + 1, ']', |y|);
  }

  /** A slice of `s` that lacks `c` leaves `c` out of those positions of `s`. */
  lemma LacksWithin(s: string, i: nat, y: string, c: char)
    requires i + |y| <= |s| && s[i..i + |y|] == y && Lacks(y, c)
    ensures forall k :: i <= k < i + |y| ==> s[k] != c
  {
    forall k | i <= k < i + |y| ensures s[k] != c { assert s[k] == y[k - i]; }
  }

  /** A marker whose `\s+` runs are single characters and whose groups are non-empty. */
  lemma MarkerAtSingleSpaces(s: string, i: nat, n: nat, m: nat)
    requires i + 9 + n + m < |s| && n > 0 && m > 0
    requires OccursAt(s, "[From:", i) && SpaceRun(s, i + 6) == 1 && RunBefore(s, i + 7, ',') == n
    requires SpaceRun(s, i + 8 + n) == 1 && RunBefore(s, i + 9 + n, ']') == m
    ensures MarkerAt(s, i) == Some((Marker(s[i + 7..i + 7 + n], s[i + 9 + n..i + 9 + n + m]), i + 10 + n + m))
  {
    assert Group(s, i + 7, 1, n, ',') == s[i + 7..i + 7 + n];
    assert Group(s, i + 9 + n, 1, m, ']') == s[i + 9 + n..i + 9 + n + m];
  }

  // ---------------------------------------------------------------- citation tracking

  /** `title in excerpt['title'] or excerpt['title'] in title`. */
  predicate TitlesMatch(title: string, e: Excerpt) { Contains(e.title, title) || Contains(title, e.title) }

  /** The first excerpt, at or after index `from`, whose title matches. */
  function FirstMatch(excerpts: seq<Excerpt>, title: string, from: nat): (r: Option<nat>)
    requires from <= |excerpts|
    ensures r.Some? ==> from <= r.value < |excerpts| && TitlesMatch(title, excerpts[r.value])
    ensures r.Some? ==> forall k :: from <= k < r.value ==> !TitlesMatch(title, excerpts[k])
    ensures r.None? ==> forall k :: from <= k < |excerpts| ==> !TitlesMatch(title, excerpts[k])
    decreases |excerpts| - from
  {
    if from == |excerpts| then None
    else if TitlesMatch(title, excerpts[from]) then Some(from)
    else FirstMatch(excerpts, title, from + 1)
  }

  /** The ledger after citing, for each marker in order, the first matching excerpt; unmatched markers change nothing. */
  function Tracked(l: Citations.Ledger, section: string, markers: seq<Marker>, excerpts: seq<Excerpt>): (l': Citations.Ledger)
    requires Citations.Consistent(l)
    ensures Citations.Consistent(l')
    decreases |markers|
  {
    if markers == [] then l else Tracked(TrackOne(l, section, markers[0], excerpts), section, markers[1..], excerpts)
  }

  /** One marker: cite the first matching excerpt, if any. */
  function TrackOne(l: Citations.Ledger, section: string, m: Marker, excerpts: seq<Excerpt>): (l': Citations.Ledger)
    requires Citations.Consistent(l)
    ensures Citations.Consistent(l')
  {
    match FirstMatch(excerpts, m.title, 0)
    case Some(j) => Citations.CiteConsistent(l, section, excerpts[j].id); Citations.Cite(l, section, excerpts[j].id)
    case None => l
  }

  /** The ids the markers resolve to, in marker order. */
  function CitedIds(markers: seq<Marker>, excerpts: seq<Excerpt>): seq<string>
  {
    if markers == [] then []
    else
      (match FirstMatch(excerpts, markers[0].title, 0) case Some(j) => [excerpts[j].id] case None => [])
      + CitedIds(markers[1..], excerpts)
  }

  /**
   * Tracking the markers of a section: the references stay as they were, every other
   * section keeps its list, and this section's list keeps its old entries in front and
   * gains exactly the registered papers the markers resolve to.
   */
  lemma {:induction false} TrackedFacts(l: Citations.Ledger, section: string, markers: seq<Marker>, excerpts: seq<Excerpt>)
    requires Citations.Consistent(l)
    ensures var l' := Tracked(l, section, markers, excerpts);
      && l'.paperRefs == l.paperRefs
      && Citations.SectionPapers(l, section) <= Citations.SectionPapers(l', section)
      && (forall p :: p in Citations.SectionPapers(l', section)
                 <==> p in Citations.SectionPapers(l, section) || (p in l.paperRefs && p in CitedIds(markers, excerpts)))
      && (forall s :: s != section ==> Citations.SectionPapers(l', s) == Citations.SectionPapers(l, s))
    decreases |markers|
  {
    if markers != [] {
      var ids := CitedIds(markers, excerpts);
      match FirstMatch(excerpts, markers[0].title, 0)
      case Some(j) =>
        var p := excerpts[j].id;
        var l1 := Citations.Cite(l, section, p);
        CiteStep(l, section, p);
        Citations.CiteConsistent(l, section, p);
        TrackedFacts(l1, section, markers[1..], excerpts);
        assert ids == [p] + CitedIds(markers[1..], excerpts);
      case None =>
        TrackedFacts(l, section, markers[1..], excerpts);
        assert ids == CitedIds(markers[1..], excerpts);
    }
  }

  /** One citation, seen from the section lists. */
  lemma CiteStep(l: Citations.Ledger, section: string, p: string)
    requires Citations.Consistent(l)
    ensures var l' := Citations.Cite(l, section, p);
      && Citations.SectionPapers(l, section) <= Citations.SectionPapers(l', section)
      && (forall q :: q in Citations.SectionPapers(l', section)
                 <==> q in Citations.SectionPapers(l, section) || (q == p && p in l.paperRefs))
      && (forall s :: s != section ==> Citations.SectionPapers(l', s) == Citations.SectionPapers(l, s))
  {
    if p in l.paperRefs {
      Citations.CiteEffect(l, section, p);
    }
  }

  // ---------------------------------------------------------------- one generation attempt

  /** The map step's answers, joined and handed to the reduce call. */
  function ReducePrompt(partials: seq<string>): string
  {
    "Combine the following sections into a cohesive narrative:\n\n" + Join(partials, "\n\n---\n\n")
  }

  /** `_generate_with_chunking`: one call per 4000-character chunk, then one reduce call. */
  function Chunked(respond: Responder, env: Env, model: string, prompt: string): (Result<string, Exception>, Env)
  {
    var (r, env1) := AskAll(respond, env, model, Chunks(prompt, 4000));
    if r.Err? then (Err(r.error), env1)
    else
      var (reply, env2) := Ask(respond, env1, model, ReducePrompt(r.value));
      (ReplyResult(reply), env2)
  }

  /** The `try` body of one attempt: a prompt over 8000 characters goes through chunking. */
  function Attempt(respond: Responder, env: Env, model: string, prompt: string): (Result<string, Exception>, Env)
  {
    if |prompt| > 8000 then Chunked(respond, env, model, prompt)
    else
      var (reply, env1) := Ask(respond, env, model, prompt);
      (ReplyResult(reply), env1)
  }

  /**
   * One attempt adds calls and no sleeps; a prompt of at most 8000 characters is sent as it
   * is, in exactly one call; a text it returns is the answer to its last call (the reduce call
   * when the prompt is chunked), and an exception it raises is what its last call raised.
   */
  lemma AttemptFacts(respond: Responder, env: Env, model: string, prompt: string)
    ensures var (r, env1) := Attempt(respond, env, model, prompt);
      && env.calls < env1.calls && env1.sleeps == env.sleeps
      && (|prompt| <= 8000 ==> env1.calls == env.calls + [Call(model, prompt)])
      && (r.Ok? ==> LastAnswered(respond, env1, r.value))
      && (r.Err? ==> respond(|env1.calls| - 1, env1.calls[|env1.calls| - 1]) == Raise(r.error))
  {
    if |prompt| > 8000 {
      ChunkedFacts(respond, env, model, prompt);
    } else {
      AskRecords(respond, env, model, prompt);
    }
  }

  /** The chunked branch adds calls and no sleeps; its text answers the reduce call, its exception is the last call's. */
  lemma ChunkedFacts(respond: Responder, env: Env, model: string, prompt: string)
    requires |prompt| > 8000
    ensures var (r, env1) := Chunked(respond, env, model, prompt);
      && env.calls < env1.calls && env1.sleeps == env.sleeps
      && (r.Ok? ==> LastAnswered(respond, env1, r.value))
      && (r.Err? ==> respond(|env1.calls| - 1, env1.calls[|env1.calls| - 1]) == Raise(r.error))
  {
    var chunks := Chunks(prompt, 4000);
    ChunksFacts(prompt, 4000);
    AskAllFacts(respond, env, model, chunks);
    var (r, env1) := AskAll(respond, env, model, chunks);
    if r.Ok? {
      AskRecords(respond, env1, model, ReducePrompt(r.value));
    }
  }

  /**
   * A prompt of at most 8000 characters is not chunked: the attempt is the one call on the
   * prompt itself, and its result is that call's text or the exception it raised.
   */
  lemma ShortAttempt(respond: Responder, env: Env, model: string, prompt: string)
    requires |prompt| <= 8000
    ensures var (r, env1) := Attempt(respond, env, model, prompt);
      var reply := respond(|env.calls|, Call(model, prompt));
      && env1 == Env(env.calls + [Call(model, prompt)], env.sleeps)
      && (reply.Answer? ==> r == Ok(reply.text))
      && (reply.Raise? ==> r == Err(reply.error))
  {
  }

  /**
   * A prompt over 8000 characters whose calls are all answered: `ceil(len / 4000)` calls on
   * the 4000-character chunks, in order, then one reduce call on the fixed header followed by
   * the chunk answers joined by "\n\n---\n\n", whose answer is the result.
   */
  lemma LongAttempt(respond: Responder, env: Env, model: string, prompt: string)
    requires |prompt| > 8000
    requires forall n, c :: respond(n, c).Answer?
    ensures var (r, env1) := Attempt(respond, env, model, prompt);
      var chunks := Chunks(prompt, 4000);
      var n := |env.calls|;
      var partials := ChunkAnswers(respond, n, model, chunks);
      && Concat(chunks) == prompt
      && |chunks| == (|prompt| + 3999) / 4000
      && |env1.calls| == n + |chunks| + 1 && env1.sleeps == env.sleeps
      && (forall i :: 0 <= i < |chunks| ==> env1.calls[n + i] == Call(model, chunks[i]))
      && env1.calls[n + |chunks|]
         == Call(model, "Combine the following sections into a cohesive narrative:\n\n" + Join(partials, "\n\n---\n\n"))
      && r == Ok(respond(n + |chunks|, env1.calls[n + |chunks|]).text)
  {
    var chunks := Chunks(prompt, 4000);
    ChunksFacts(prompt, 4000);
    ChunkCount(prompt);
    AnsweredPhase(respond, env, model, chunks);
    var (r, env1) := AskAll(respond, env, model, chunks);
    AskRecords(respond, env1, model, ReducePrompt(r.value));
  }

  /** When every call fails with `e`, an attempt makes exactly one call and fails with `e`. */
  lemma AttemptAlwaysFails(respond: Responder, env: Env, model: string, prompt: string, e: Exception)
    requires forall n, c :: respond(n, c) == Raise(e)
    ensures var (r, env1) := Attempt(respond, env, model, prompt);
      r == Err(e) && |env1.calls| == |env.calls| + 1 && env1.sleeps == env.sleeps
  {
    if |prompt| > 8000 {
      var chunks := Chunks(prompt, 4000);
      ChunksFacts(prompt, 4000);
      assert chunks != [];
      assert AskAll(respond, env, model, chunks) == (Err(e), Env(env.calls + [Call(model, chunks[0])], env.sleeps));
    }
  }

  // ---------------------------------------------------------------- quota delays

  /** `[\d.]`, for ASCII digits. */
  predicate IsDigitOrDot(c: char) { IsDigit(c) || c == '.' }

  function DigitDotRun(s: string, i: nat): (n: nat)
    requires i <= |s|
    ensures i + n <= |s|
    ensures forall k :: i <= k < i + n ==> IsDigitOrDot(s[k])
    ensures i + n < |s| ==> !IsDigitOrDot(s[i + n])
    decreases |s| - i
  {
    if i == |s| || !IsDigitOrDot(s[i]) then 0 else 1 + DigitDotRun(s, i + 1)
  }

  /**
   * The group of a match of `retry in ([\d.]+)s`, ignoring case, at index `i`. The run of
   * digits and dots is greedy and giving characters back cannot help, since the character
   * after a shorter run is a digit or a dot and not `s`.
   */
  function RetryInAt(s: string, i: nat): (g: Option<string>)
    requires i <= |s|
    ensures g.Some? ==> g.value != [] && forall k :: 0 <= k < |g.value| ==> IsDigitOrDot(g.value[k])
  {
    if i + 9 <= |s| && Lower(s[i..i + 9]) == "retry in " then
      var n := DigitDotRun(s, i + 9);
      if n > 0 && i + 9 + n < |s| && LowerChar(s[i + 9 + n]) == 's' then Some(s[i + 9..i + 9 + n]) else None
    else None
  }

  /** `re.search`: the first match at or after index `i`. */
  function RetryInFrom(s: string, i: nat): (g: Option<string>)
    requires i <= |s|
    ensures g.Some? ==> g.value != [] && forall k :: 0 <= k < |g.value| ==> IsDigitOrDot(g.value[k])
    decreases |s| - i
  {
    if i == |s| then None
    else if RetryInAt(s, i).Some? then RetryInAt(s, i)
    else RetryInFrom(s, i + 1)
  }

  function Pow10(n: nat): (r: nat)
    ensures r >= 1
  {
    if n == 0 then 1 else 10 * Pow10(n - 1)
  }

  /**
   * `float(g)` for a run of digits and dots: the exact value `num / 10^scale`, or Python's
   * `ValueError` when the run has two dots or no digit.
   */
  function ParseDecimal(g: string): Result<Delay, Exception>
  {
    var dot := Find(g, ".", 0);
    var whole := if dot < 0 then g else g[..dot];
    var frac := if dot < 0 then "" else g[dot + 1..];
    if Contains(frac, ".") || (whole == "" && frac == "") then
      Err(Exception("ValueError", "could not convert string to float: '" + g + "'"))
    else Ok(Decimal(DigitsValue(whole), DigitsValue(frac), |frac|))
  }

  /** The number `whole.frac` whose fraction has `places` digits, as a count of `10 ** -places`. */
  function Decimal(whole: nat, frac: nat, places: nat): (d: Delay)
    ensures d.scale == places && d.num >= whole * Pow10(places)
  {
    Delay(whole * Pow10(places) + frac, places)
  }

  /** `max(extracted_delay, 30)`: Python keeps the first argument unless 30 is larger. */
  function AtLeast30(d: Delay): (r: Delay)
    ensures r == d || r == Delay(30, 0)
    ensures r.num >= 30 * Pow10(r.scale)
    ensures d.num >= 30 * Pow10(d.scale) ==> r == d
  {
    if 30 * Pow10(d.scale) > d.num then Delay(30, 0) else d
  }

  /**
   * The wait after a quota error: the configured number of seconds, unless the message
   * mentions a retry delay and a `retry in <n>s` can be read from it.
   */
  function QuotaDelay(configured: nat, message: string): Result<Delay, Exception>
  {
    if Contains(message, "retry_delay") || Contains(message, "Please retry in") then
      match RetryInFrom(message, 0)
      case None => Ok(Delay(configured, 0))
      case Some(g) =>
        match ParseDecimal(g)
        case Err(e) => Err(e)
        case Ok(x) => Ok(AtLeast30(x))
    else Ok(Delay(configured, 0))
  }

  // ---------------------------------------------------------------- the retry loop

  /** The exception `_generate_with_retries` raises once every attempt has failed. */
  function Exhausted(maxRetries: nat, last: Option<Exception>): Exception
  {
    Exception("RuntimeError", "Generation failed after " + NatToString(maxRetries) + " retries" +
      match last
      case None => ""
      case Some(e) => ": " + e.typeName + (if IsQuota(e) then QuotaNote else ""))
  }

  const QuotaNote: string := QuotaOpen + QuotaWords + QuotaAdvice
  const QuotaOpen: string := " (API "
  const QuotaWords: string := "quota exceeded"
  const QuotaAdvice: string := " - consider waiting or upgrading to paid tier)"

  /** `_get_fallback_model`: the next fallback model, and the index after it. */
  function NextFallback(fallbacks: seq<string>, index: nat): (r: (Option<string>, nat))
    ensures r.0.Some? <==> index < |fallbacks|
    ensures r.0.Some? ==> r.0.value == fallbacks[index] && r.1 == index + 1
    ensures r.0.None? ==> r.1 == index
  {
    if |fallbacks| == 0 then (None, index)
    else if index < |fallbacks| then (Some(fallbacks[index]), index + 1)
    else (None, index)
  }

  /** The generator's state: the model in use, the next fallback's index, and the service's record. */
  datatype RunState = RunState(model: string, index: nat, env: Env)

  /** What stays fixed across attempts: the service and the configuration. */
  datatype Settings = Settings(respond: Responder, fallbacks: seq<string>, quotaDelay: nat)

  /** Ask for a fallback model and switch to it when it is a non-empty name. */
  function Switched(fallbacks: seq<string>, st: RunState): (r: (Option<string>, RunState))
  {
    var (f, i) := NextFallback(fallbacks, st.index);
    (f, RunState(if f.Some? && f.value != "" then f.value else st.model, i, st.env))
  }

  /** The model in use is the primary one or a fallback already handed out. */
  predicate ModelOk(primary: string, fallbacks: seq<string>, st: RunState)
  {
    st.index <= |fallbacks| && (st.model == primary || st.model in fallbacks[..st.index])
  }

  /**
   * From `st` to `st'` the index only moves on, and the model is still the one of `st` or a
   * fallback handed out in between: once switched to a fallback, the generator never goes
   * back to the primary model, since `_get_fallback_model` is the only way the model changes.
   */
  predicate Kept(fallbacks: seq<string>, st: RunState, st': RunState)
  {
    st.index <= st'.index <= |fallbacks| && (st'.model == st.model || st'.model in fallbacks[st.index..st'.index])
  }

  /** How one attempt of the loop ends: with the method's result, or going on to the next attempt. */
  datatype Step = Done(result: Result<string, Exception>, state: RunState) | Next(last: Exception, state: RunState)

  /** One pass of the loop body at attempt `attempt`. */
  function AttemptStep(s: Settings, prompt: string, maxRetries: nat, attempt: nat, st: RunState): Step
  {
    var (r, env1) := Attempt(s.respond, st.env, st.model, prompt);
    var st1 := st.(env := env1);
    if r.Ok? then Done(r, st1)
    else if IsQuota(r.error) then QuotaStep(s, prompt, maxRetries, attempt, r.error, st1)
    else Next(r.error, if attempt < maxRetries - 1 then st1.(env := Slept(st1.env, Delay(Pow2(attempt), 0))) else st1)
  }

  /**
   * The quota branch: wait, and switch to a fallback before the last attempt; on the last
   * attempt, switch and make one more direct call with the fallback model.
   */
  function QuotaStep(s: Settings, prompt: string, maxRetries: nat, attempt: nat, e: Exception, st: RunState): Step
  {
    match QuotaDelay(s.quotaDelay, e.message)
    case Err(ve) => Done(Err(ve), st)
    case Ok(d) =>
      if attempt < maxRetries - 1 then
        var st2 := st.(env := Slept(st.env, d));
        Next(e, if attempt == maxRetries - 2 then Switched(s.fallbacks, st2).1 else st2)
      else
        var (f, st2) := Switched(s.fallbacks, st);
        if f.Some? && f.value != "" then
          var (reply, env3) := Ask(s.respond, st2.env, st2.model, prompt);
          if reply.Answer? then Done(Ok(reply.text), st2.(env := env3)) else Next(e, st2.(env := env3))
        else Next(e, st2)
  }

  /** The attempts of one call, as a function of the attempt number and the state. */
  function Attempts(s: Settings, prompt: string, maxRetries: nat): (nat, RunState) -> Step
  {
    (attempt: nat, st: RunState) => AttemptStep(s, prompt, maxRetries, attempt, st)
  }

  /** `for attempt in range(max_retries)` from `attempt` on, `last` being the last exception caught. */
  function Loop(step: (nat, RunState) -> Step, maxRetries: nat, attempt: nat, last: Option<Exception>, st: RunState)
    : (Result<string, Exception>, RunState)
    decreases maxRetries - attempt
  {
    if attempt >= maxRetries then (Err(Exhausted(maxRetries, last)), st)
    else
      match step(attempt, st)
      case Done(r, st1) => (r, st1)
      case Next(e, st1) => Loop(step, maxRetries, attempt + 1, Some(e), st1)
  }

  /** `_generate_with_retries`. */
  function Retry(s: Settings, prompt: string, maxRetries: nat, attempt: nat, last: Option<Exception>, st: RunState)
    : (Result<string, Exception>, RunState)
  {
    Loop(Attempts(s, prompt, maxRetries), maxRetries, attempt, last, st)
  }

  // ---------------------------------------------------------------- what the retry loop promises

  /** Taking a fallback keeps the model in use a known one and moves the index on by at most one. */
  lemma SwitchedFacts(primary: string, fallbacks: seq<string>, st: RunState)
    requires ModelOk(primary, fallbacks, st)
    ensures var st' := Switched(fallbacks, st).1;
      ModelOk(primary, fallbacks, st') && st.index <= st'.index <= st.index + 1 && st'.env == st.env
    ensures Kept(fallbacks, st, Switched(fallbacks, st).1)
  {
    var (f, i) := NextFallback(fallbacks, st.index);
    var st' := Switched(fallbacks, st).1;
    if f.Some? {
      assert fallbacks[..i] == fallbacks[..st.index] + [fallbacks[st.index]];
      assert fallbacks[st.index..i] == [fallbacks[st.index]];
    }
  }

  /** A state kept from one kept from `st` is kept from `st`. */
  lemma KeptTrans(fallbacks: seq<string>, st: RunState, st1: RunState, st2: RunState)
    requires Kept(fallbacks, st, st1) && Kept(fallbacks, st1, st2)
    ensures Kept(fallbacks, st, st2)
  {
    var whole := fallbacks[st.index..st2.index];
    assert whole == fallbacks[st.index..st1.index] + fallbacks[st1.index..st2.index];
    if st2.model != st1.model {
      assert st2.model in fallbacks[st1.index..st2.index];
    } else if st1.model != st.model {
      assert st1.model in fallbacks[st.index..st1.index];
    }
  }

  /** One attempt takes a fallback only on the last two attempts. */
  lemma StepModel(primary: string, s: Settings, prompt: string, maxRetries: nat, attempt: nat, st: RunState)
    requires attempt < maxRetries && ModelOk(primary, s.fallbacks, st)
    ensures var st' := AttemptStep(s, prompt, maxRetries, attempt, st).state;
      && ModelOk(primary, s.fallbacks, st')
      && st.index <= st'.index <= st.index + (if attempt + 2 >= maxRetries then 1 else 0)
    ensures Kept(s.fallbacks, st, AttemptStep(s, prompt, maxRetries, attempt, st).state)
  {
    var (r, env1) := Attempt(s.respond, st.env, st.model, prompt);
    var st1 := st.(env := env1);
    if r.Err? && IsQuota(r.error) && QuotaDelay(s.quotaDelay, r.error.message).Ok? {
      var d := QuotaDelay(s.quotaDelay, r.error.message).value;
      SwitchedFacts(primary, s.fallbacks, st1.(env := Slept(st1.env, d)));
      SwitchedFacts(primary, s.fallbacks, st1);
    }
  }

  /**
   * The model in use after a call of `_generate_with_retries` is the primary one or a
   * fallback handed out, and at most two fallbacks are handed out per call. The model the
   * call ends with is the one it started with or a fallback handed out during the call, so
   * a generator already on a fallback never returns to a primary model that is not itself
   * listed among the fallbacks.
   */
  lemma {:induction false} RetryModel(primary: string, s: Settings, prompt: string, maxRetries: nat, attempt: nat,
                                      last: Option<Exception>, st: RunState)
    requires ModelOk(primary, s.fallbacks, st)
    ensures var st' := Retry(s, prompt, maxRetries, attempt, last, st).1;
      && ModelOk(primary, s.fallbacks, st')
      && st.index <= st'.index
      && st'.index <= st.index + (if attempt >= maxRetries then 0 else if maxRetries - attempt < 2 then 1 else 2)
    ensures Kept(s.fallbacks, st, Retry(s, prompt, maxRetries, attempt, last, st).1)
    ensures st.model != primary && primary !in s.fallbacks ==> Retry(s, prompt, maxRetries, attempt, last, st).1.model != primary
    decreases maxRetries - attempt
  {
    if attempt < maxRetries {
      StepModel(primary, s, prompt, maxRetries, attempt, st);
      var step := AttemptStep(s, prompt, maxRetries, attempt, st);
      if step.Next? {
        RetryModel(primary, s, prompt, maxRetries, attempt + 1, Some(step.last), step.state);
        KeptTrans(s.fallbacks, st, step.state, Retry(s, prompt, maxRetries, attempt, last, st).1);
      }
    }
  }

  /** One attempt only adds calls, and sleeps at most once, never on the last attempt. */
  lemma StepRecord(s: Settings, prompt: string, maxRetries: nat, attempt: nat, st: RunState)
    requires attempt < maxRetries
    ensures var st' := AttemptStep(s, prompt, maxRetries, attempt, st).state;
      && st.env.calls < st'.env.calls && st.env.sleeps <= st'.env.sleeps
      && |st'.env.sleeps| <= |st.env.sleeps| + (if attempt + 1 < maxRetries then 1 else 0)
  {
    AttemptFacts(s.respond, st.env, st.model, prompt);
  }

  /** A call of `_generate_with_retries` sleeps at most once per attempt but the last. */
  lemma {:induction false} RetrySleeps(s: Settings, prompt: string, maxRetries: nat, attempt: nat,
                                       last: Option<Exception>, st: RunState)
    ensures var st' := Retry(s, prompt, maxRetries, attempt, last, st).1;
      && st.env.calls <= st'.env.calls && st.env.sleeps <= st'.env.sleeps
      && (attempt < maxRetries ==> |st'.env.sleeps| - |st.env.sleeps| <= maxRetries - attempt - 1)
    decreases maxRetries - attempt
  {
    if attempt < maxRetries {
      StepRecord(s, prompt, maxRetries, attempt, st);
      var step := AttemptStep(s, prompt, maxRetries, attempt, st);
      if step.Next? {
        RetrySleeps(s, prompt, maxRetries, attempt + 1, Some(step.last), step.state);
      }
    }
  }

  /** A text an attempt returns is the answer to the last call it made. */
  lemma StepAnswered(s: Settings, prompt: string, maxRetries: nat, attempt: nat, st: RunState)
    requires attempt < maxRetries
    ensures var step := AttemptStep(s, prompt, maxRetries, attempt, st);
      step.Done? && step.result.Ok? ==> LastAnswered(s.respond, step.state.env, step.result.value)
  {
    AttemptFacts(s.respond, st.env, st.model, prompt);
    var (r, env1) := Attempt(s.respond, st.env, st.model, prompt);
    var st1 := st.(env := env1);
    if r.Err? && IsQuota(r.error) {
      var (f, st2) := Switched(s.fallbacks, st1);
      AskRecords(s.respond, st2.env, st2.model, prompt);
    }
  }

  /** The text `_generate_with_retries` returns is the model's answer to the last call made. */
  lemma {:induction false} RetryAnswered(s: Settings, prompt: string, maxRetries: nat, attempt: nat,
                                         last: Option<Exception>, st: RunState)
    ensures var (r, st') := Retry(s, prompt, maxRetries, attempt, last, st);
      r.Ok? ==> LastAnswered(s.respond, st'.env, r.value)
    decreases maxRetries - attempt
  {
    if attempt < maxRetries {
      StepAnswered(s, prompt, maxRetries, attempt, st);
      var step := AttemptStep(s, prompt, maxRetries, attempt, st);
      if step.Next? {
        RetryAnswered(s, prompt, maxRetries, attempt + 1, Some(step.last), step.state);
      }
    }
  }

  /** The waits `w(a)` of the attempts `a` from `attempt` on. */
  function Waits(w: nat -> seq<Delay>, attempt: nat, maxRetries: nat): seq<Delay>
    decreases maxRetries - attempt
  {
    if attempt >= maxRetries then [] else w(attempt) + Waits(w, attempt + 1, maxRetries)
  }

  /** When every attempt goes on with `e`, the loop ends with the exhaustion error naming `e`. */
  lemma {:induction false} LoopExhausts(step: (nat, RunState) -> Step, maxRetries: nat, attempt: nat,
                                        last: Option<Exception>, st: RunState, e: Exception)
    requires forall a: nat, x: RunState :: attempt <= a < maxRetries ==> step(a, x).Next? && step(a, x).last == e
    ensures Loop(step, maxRetries, attempt, last, st).0 == Err(Exhausted(maxRetries, if attempt < maxRetries then Some(e) else last))
    decreases maxRetries - attempt
  {
    if attempt < maxRetries {
      LoopExhausts(step, maxRetries, attempt + 1, Some(e), step(attempt, st).state, e);
    }
  }

  /** When every attempt goes on after waiting `w(a)`, the loop's waits are those, in order. */
  lemma {:induction false} LoopWaits(step: (nat, RunState) -> Step, maxRetries: nat, attempt: nat,
                                     last: Option<Exception>, st: RunState, w: nat -> seq<Delay>)
    requires forall a: nat, x: RunState :: attempt <= a < maxRetries ==>
      step(a, x).Next? && step(a, x).state.env.sleeps == x.env.sleeps + w(a)
    ensures Loop(step, maxRetries, attempt, last, st).1.env.sleeps == st.env.sleeps + Waits(w, attempt, maxRetries)
    decreases maxRetries - attempt
  {
    if attempt < maxRetries {
      var st1 := step(attempt, st).state;
      LoopWaits(step, maxRetries, attempt + 1, Some(step(attempt, st).last), st1, w);
      assert st1.env.sleeps + Waits(w, attempt + 1, maxRetries) == st.env.sleeps + (w(attempt) + Waits(w, attempt + 1, maxRetries));
    }
  }

  /** When every attempt goes on with one call and the same model, so does the loop. */
  lemma {:induction false} LoopOneCallEach(step: (nat, RunState) -> Step, maxRetries: nat, attempt: nat,
                                           last: Option<Exception>, st: RunState)
    requires forall a: nat, x: RunState :: attempt <= a < maxRetries ==>
      && step(a, x).Next? && step(a, x).state.model == x.model && step(a, x).state.index == x.index
      && |step(a, x).state.env.calls| == |x.env.calls| + 1
    ensures var st' := Loop(step, maxRetries, attempt, last, st).1;
      && st'.model == st.model && st'.index == st.index
      && |st'.env.calls| == |st.env.calls| + (if attempt < maxRetries then maxRetries - attempt else 0)
    decreases maxRetries - attempt
  {
    if attempt < maxRetries {
      LoopOneCallEach(step, maxRetries, attempt + 1, Some(step(attempt, st).last), step(attempt, st).state);
    }
  }

  /** The wait after a failed attempt other than a quota error: `2 ** attempt`, except after the last. */
  function BackoffWait(maxRetries: nat): nat -> seq<Delay>
  {
    (a: nat) => if a + 1 < maxRetries then [Delay(Pow2(a), 0)] else []
  }

  /** The waits `2 ** attempt` of the attempts from `attempt` on, none after the last. */
  function Backoffs(attempt: nat, maxRetries: nat): seq<Delay>
  {
    Waits(BackoffWait(maxRetries), attempt, maxRetries)
  }

  /** Under a constant non-quota error every attempt makes one call, waits its backoff and goes on. */
  lemma BackoffAttempts(s: Settings, prompt: string, maxRetries: nat, e: Exception)
    requires forall n, c :: s.respond(n, c) == Raise(e)
    requires !IsQuota(e)
    ensures forall a: nat, x: RunState :: a < maxRetries ==>
      && Attempts(s, prompt, maxRetries)(a, x).Next? && Attempts(s, prompt, maxRetries)(a, x).last == e
      && Attempts(s, prompt, maxRetries)(a, x).state.env.sleeps == x.env.sleeps + BackoffWait(maxRetries)(a)
      && Attempts(s, prompt, maxRetries)(a, x).state.model == x.model
      && Attempts(s, prompt, maxRetries)(a, x).state.index == x.index
      && |Attempts(s, prompt, maxRetries)(a, x).state.env.calls| == |x.env.calls| + 1
  {
    forall a: nat, x: RunState | a < maxRetries
      ensures var t := AttemptStep(s, prompt, maxRetries, a, x);
        && t.Next? && t.last == e && t.state.env.sleeps == x.env.sleeps + BackoffWait(maxRetries)(a)
        && t.state.model == x.model && t.state.index == x.index && |t.state.env.calls| == |x.env.calls| + 1
    {
      AttemptAlwaysFails(s.respond, x.env, x.model, prompt, e);
    }
  }

  /**
   * When every call fails with the same non-quota error, each attempt makes one call and
   * waits `2 ** attempt` seconds unless it is the last, no fallback is taken, and the
   * loop ends with the exhaustion error naming that error.
   */
  lemma RetryBackoff(s: Settings, prompt: string, maxRetries: nat, attempt: nat,
                     last: Option<Exception>, st: RunState, e: Exception)
    requires forall n, c :: s.respond(n, c) == Raise(e)
    requires !IsQuota(e)
    ensures var (r, st') := Retry(s, prompt, maxRetries, attempt, last, st);
      && r == Err(Exhausted(maxRetries, if attempt < maxRetries then Some(e) else last))
      && st'.model == st.model && st'.index == st.index
      && st'.env.sleeps == st.env.sleeps + Backoffs(attempt, maxRetries)
      && |st'.env.calls| == |st.env.calls| + (if attempt < maxRetries then maxRetries - attempt else 0)
  {
    var step := Attempts(s, prompt, maxRetries);
    var w := BackoffWait(maxRetries);
    BackoffAttempts(s, prompt, maxRetries, e);
    LoopExhausts(step, maxRetries, attempt, last, st, e);
    LoopWaits(step, maxRetries, attempt, last, st, w);
    LoopOneCallEach(step, maxRetries, attempt, last, st);
  }

  /** `d` repeated `n` times. */
  function Repeat(d: Delay, n: nat): seq<Delay>
  {
    if n == 0 then [] else [d] + Repeat(d, n - 1)
  }

  /** The wait after a quota error that reads as `d`: `d`, except after the last attempt. */
  function QuotaWait(d: Delay, maxRetries: nat): nat -> seq<Delay>
  {
    (a: nat) => if a + 1 < maxRetries then [d] else []
  }

  lemma {:induction false} QuotaWaitsRepeat(d: Delay, attempt: nat, maxRetries: nat)
    ensures Waits(QuotaWait(d, maxRetries), attempt, maxRetries) == Repeat(d, if attempt < maxRetries then maxRetries - attempt - 1 else 0)
    decreases maxRetries - attempt
  {
    if attempt < maxRetries {
      QuotaWaitsRepeat(d, attempt + 1, maxRetries);
      if attempt + 1 < maxRetries {
        assert Repeat(d, maxRetries - attempt - 1) == [d] + Repeat(d, maxRetries - attempt - 2);
      }
    }
  }

  /**
   * When every call fails with the same quota error whose delay reads as `d`, every
   * attempt but the last waits `d`, and the loop ends with the quota exhaustion error.
   */
  lemma RetryQuota(s: Settings, prompt: string, maxRetries: nat, st: RunState, e: Exception, d: Delay)
    requires forall n, c :: s.respond(n, c) == Raise(e)
    requires IsQuota(e) && QuotaDelay(s.quotaDelay, e.message) == Ok(d)
    requires maxRetries > 0
    ensures var (r, st') := Retry(s, prompt, maxRetries, 0, None, st);
      && r == Err(Exhausted(maxRetries, Some(e)))
      && st'.env.sleeps == st.env.sleeps + Repeat(d, maxRetries - 1)
  {
    RetryQuotaResult(s, prompt, maxRetries, st, e, d);
    RetryQuotaWaits(s, prompt, maxRetries, st, e, d);
    QuotaWaitsRepeat(d, 0, maxRetries);
  }

  lemma RetryQuotaResult(s: Settings, prompt: string, maxRetries: nat, st: RunState, e: Exception, d: Delay)
    requires forall n, c :: s.respond(n, c) == Raise(e)
    requires IsQuota(e) && QuotaDelay(s.quotaDelay, e.message) == Ok(d)
    requires maxRetries > 0
    ensures Retry(s, prompt, maxRetries, 0, None, st).0 == Err(Exhausted(maxRetries, Some(e)))
  {
    QuotaAttempts(s, prompt, maxRetries, e, d);
    LoopExhausts(Attempts(s, prompt, maxRetries), maxRetries, 0, None, st, e);
  }

  lemma RetryQuotaWaits(s: Settings, prompt: string, maxRetries: nat, st: RunState, e: Exception, d: Delay)
    requires forall n, c :: s.respond(n, c) == Raise(e)
    requires IsQuota(e) && QuotaDelay(s.quotaDelay, e.message) == Ok(d)
    ensures Retry(s, prompt, maxRetries, 0, None, st).1.env.sleeps == st.env.sleeps + Waits(QuotaWait(d, maxRetries), 0, maxRetries)
  {
    QuotaAttempts(s, prompt, maxRetries, e, d);
    LoopWaits(Attempts(s, prompt, maxRetries), maxRetries, 0, None, st, QuotaWait(d, maxRetries));
  }

  /** Under a constant quota error that reads as `d` every attempt waits `d` unless it is the last, and goes on. */
  lemma QuotaAttempts(s: Settings, prompt: string, maxRetries: nat, e: Exception, d: Delay)
    requires forall n, c :: s.respond(n, c) == Raise(e)
    requires IsQuota(e) && QuotaDelay(s.quotaDelay, e.message) == Ok(d)
    ensures forall a: nat, x: RunState :: a < maxRetries ==>
      && Attempts(s, prompt, maxRetries)(a, x).Next? && Attempts(s, prompt, maxRetries)(a, x).last == e
      && Attempts(s, prompt, maxRetries)(a, x).state.env.sleeps == x.env.sleeps + QuotaWait(d, maxRetries)(a)
  {
    forall a: nat, x: RunState | a < maxRetries
      ensures var t := AttemptStep(s, prompt, maxRetries, a, x);
        t.Next? && t.last == e && t.state.env.sleeps == x.env.sleeps + QuotaWait(d, maxRetries)(a)
    {
      QuotaStepWaits(s, prompt, maxRetries, a, x, e, d);
    }
  }

  /** One attempt under a constant quota error waits `d` unless it is the last, and goes on. */
  lemma QuotaStepWaits(s: Settings, prompt: string, maxRetries: nat, attempt: nat, st: RunState, e: Exception, d: Delay)
    requires attempt < maxRetries
    requires forall n, c :: s.respond(n, c) == Raise(e)
    requires IsQuota(e) && QuotaDelay(s.quotaDelay, e.message) == Ok(d)
    ensures var step := AttemptStep(s, prompt, maxRetries, attempt, st);
      && step == Next(e, step.state)
      && step.state.env.sleeps == st.env.sleeps + (if attempt + 1 < maxRetries then [d] else [])
  {
    AttemptAlwaysFails(s.respond, st.env, st.model, prompt, e);
  }

  // ---------------------------------------------------------------- reading the delay back

  /** A string of digits holds no dot. */
  lemma NoDot(g: string)
    requires forall k :: 0 <= k < |g| ==> IsDigit(g[k])
    ensures Find(g, ".", 0) == -1
  {
    forall j | 0 <= j < |g| ensures !OccursAt(g, ".", j) {
      assert g[j..j + 1][0] == g[j];
    }
  }

  /** A dot at index `j` makes `p` occur: `Contains` sees it. */
  lemma ContainsAt(s: string, p: string, j: nat)
    requires OccursAt(s, p, j)
    ensures Contains(s, p)
  {
  }

  /** `float` of a whole number written in digits is that number. */
  lemma ParseWhole(n: nat)
    ensures ParseDecimal(NatToString(n)) == Ok(Delay(n, 0))
  {
    var g := NatToString(n);
    NoDot(g);
    NoDot("");
    DigitsValueOfNat(n);
  }

  /** `float` of `a.b` is `a` followed by the digits of `b` over a power of ten. */
  lemma ParseFraction(a: nat, b: nat)
    ensures var w, f := NatToString(a), NatToString(b);
      ParseDecimal(w + "." + f) == Ok(Delay(a * Pow10(|f|) + b, |f|))
  {
    ParseParts(NatToString(a), NatToString(b));
    DigitsValueOfNat(a);
    DigitsValueOfNat(b);
  }

  /** A run `w.f` of digits around one dot. */
  lemma ParseParts(w: string, f: string)
    requires w != [] && forall k :: 0 <= k < |w| ==> IsDigit(w[k])
    requires forall k :: 0 <= k < |f| ==> IsDigit(f[k])
    ensures ParseDecimal(w + "." + f) == Ok(Decimal(DigitsValue(w), DigitsValue(f), |f|))
  {
    var g := w + "." + f;
    assert g == w + ("." + f);
    FindAfterDigits(w, "." + f);
    assert g[..|w|] == w && g[|w| + 1..] == f;
    NoDot(f);
    assert !Contains(f, ".") && w != "";
    assert ParseDecimal(g) == Ok(Decimal(DigitsValue(g[..|w|]), DigitsValue(g[|w| + 1..]), |g[|w| + 1..]|));
  }

  /** The first dot of digits followed by a dot is that dot. */
  lemma FindAfterDigits(w: string, t: string)
    requires forall k :: 0 <= k < |w| ==> IsDigit(w[k])
    requires t != [] && t[0] == '.'
    ensures Find(w + t, ".", 0) == |w|
  {
    var g := w + t;
    assert g[|w|..|w| + 1] == ".";
    forall j | 0 <= j < |w| ensures !OccursAt(g, ".", j) {
      assert g[j..j + 1][0] == w[j];
    }
    FindFirst(g, ".", |w|);
  }

  /** `Find` returns the first place the pattern occurs. */
  lemma FindFirst(s: string, p: string, j: nat)
    requires OccursAt(s, p, j)
    requires forall k :: 0 <= k < j ==> !OccursAt(s, p, k)
    ensures Find(s, p, 0) == j
  {
  }

  /** A run with two dots is not a number: `float` raises `ValueError`. */
  lemma ParseTwoDots(g: string, i: nat, j: nat)
    requires i < j < |g| && g[i] == '.' && g[j] == '.'
    ensures ParseDecimal(g).Err? && ParseDecimal(g).error.typeName == "ValueError"
  {
    assert g[i..i + 1] == ".";
    assert OccursAt(g, ".", i);
    var dot := Find(g, ".", 0);
    assert 0 <= dot <= i;
    var frac := g[dot + 1..];
    assert frac[j - dot - 1..j - dot] == ".";
    ContainsAt(frac, ".", j - dot - 1);
  }

  /** The message the quota error carries in the form the service writes it. */
  function RetryMessage(n: nat): string { "Please retry in " + NatToString(n) + "s" }

  /** None of the first seven positions of the message starts a `retry in` match. */
  lemma NoEarlierMatch(n: nat, i: nat)
    requires i < 7
    ensures RetryInAt(RetryMessage(n), i) == None
  {
    var m := RetryMessage(n);
    assert m[..16] == "Please retry in ";
    if i + 9 <= |m| {
      assert Lower(m[i..i + 9])[0] == LowerChar(m[i]);
      assert m[i] == "Please "[i];
    }
  }

  lemma DigitDotRunIs(s: string, i: nat, k: nat)
    requires i + k < |s| && !IsDigitOrDot(s[i + k])
    requires forall j :: i <= j < i + k ==> IsDigitOrDot(s[j])
    ensures DigitDotRun(s, i) == k
  {
  }

  /** At index 7 the message matches, and the group is the number's digits. */
  lemma MatchAtSeven(n: nat)
    ensures RetryInAt(RetryMessage(n), 7) == Some(NatToString(n))
  {
    var m := RetryMessage(n);
    var g := NatToString(n);
    assert m[7..16] == "retry in ";
    assert Lower("retry in ") == "retry in ";
    assert m[16..16 + |g|] == g;
    forall j | 16 <= j < 16 + |g| ensures IsDigitOrDot(m[j]) { assert m[j] == g[j - 16]; }
    assert m[16 + |g|] == 's';
    DigitDotRunIs(m, 16, |g|);
  }

  /** The scan from index `i` < 8 finds the match at index 7. */
  lemma {:induction false} ScanFinds(n: nat, i: nat)
    requires i <= 7
    ensures RetryInFrom(RetryMessage(n), i) == Some(NatToString(n))
    decreases 7 - i
  {
    if i < 7 {
      NoEarlierMatch(n, i);
      ScanFinds(n, i + 1);
    } else {
      MatchAtSeven(n);
    }
  }

  /**
   * A quota message `Please retry in <n>s` reads back as `n` seconds, raised to the
   * 30-second minimum.
   */
  lemma QuotaDelayReadsBack(configured: nat, n: nat)
    ensures QuotaDelay(configured, RetryMessage(n)) == Ok(AtLeast30(Delay(n, 0)))
    ensures n >= 30 ==> QuotaDelay(configured, RetryMessage(n)) == Ok(Delay(n, 0))
    ensures n < 30 ==> QuotaDelay(configured, RetryMessage(n)) == Ok(Delay(30, 0))
  {
    var m := RetryMessage(n);
    assert m[0..15] == "Please retry in";
    ContainsAt(m, "Please retry in", 0);
    ScanFinds(n, 0);
    ParseWhole(n);
  }

  /** A message mentioning no retry delay leaves the configured wait. */
  lemma QuotaDelayDefault(configured: nat, message: string)
    requires !Contains(message, "retry_delay") && !Contains(message, "Please retry in")
    ensures QuotaDelay(configured, message) == Ok(Delay(configured, 0))
  {
  }

  // ---------------------------------------------------------------- the sections

  /**
   * The text a section gets: the content, or what the `except` clause writes instead, a
   * bracketed text that starts with `[Error` and keeps at most 200 characters of the message.
   */
  function SectionText(key: string, r: Result<string, Exception>): (t: string)
    ensures r.Ok? ==> t == r.value
    ensures r.Err? ==> |t| >= 6 && t[..6] == "[Error"
    ensures r.Err? ==> |t| <= |key| + 221
  {
    match r
    case Ok(t) => t
    case Err(e) =>
      if e.typeName == "RuntimeError" && Contains(Lower(e.message), "quota exceeded") then QuotaPlaceholder(key)
      else "[Error generating " + key + ": " + Take(e.message, 200) + "]"
  }

  function QuotaPlaceholder(key: string): string
  {
    "[Error: API quota exceeded for " + key + ". Please wait and retry, or upgrade to paid tier.]"
  }

  /** Lower-case ASCII text and spaces are left as they are by `Lower`. */
  lemma LowerKeeps(s: string, i: nat, p: string)
    requires OccursAt(s, p, i)
    requires forall k :: 0 <= k < |p| ==> p[k] == ' ' || 'a' <= p[k] <= 'z'
    ensures OccursAt(Lower(s), p, i)
  {
    forall k | 0 <= k < |p| ensures Lower(s)[i + k] == p[k] {
      assert s[i + k] == s[i..i + |p|][k];
    }
    assert Lower(s)[i..i + |p|] == p;
  }

  /** The message raised after a quota error, lower-cased, still says "quota exceeded". */
  lemma ExhaustedQuotaMessage(maxRetries: nat, e: Exception)
    requires IsQuota(e)
    ensures Exhausted(maxRetries, Some(e)).typeName == "RuntimeError"
    ensures Contains(Lower(Exhausted(maxRetries, Some(e)).message), QuotaWords)
  {
    var x := "Generation failed after " + NatToString(maxRetries) + " retries" + (": " + e.typeName);
    var m := Exhausted(maxRetries, Some(e)).message;
    var b := |x| + |QuotaOpen|;
    assert m == (x + QuotaOpen) + QuotaWords + QuotaAdvice;
    assert m[b..b + |QuotaWords|] == QuotaWords;
    LowerKeeps(m, b, QuotaWords);
    ContainsAt(Lower(m), QuotaWords, b);
  }

  /** Running out of retries after a quota error gives the section the quota placeholder. */
  lemma ExhaustedQuotaText(key: string, maxRetries: nat, e: Exception)
    requires IsQuota(e)
    ensures SectionText(key, Err(Exhausted(maxRetries, Some(e)))) == QuotaPlaceholder(key)
  {
    ExhaustedQuotaMessage(maxRetries, e);
  }
}
