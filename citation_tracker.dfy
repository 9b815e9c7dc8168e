/**
 * The citation ledger: which registered papers each report section cites, and which
 * sections cite each paper. The tracker object keeps three dictionaries in step;
 * its state is the `Ledger` value, and every query is a function of that value.
 */
module Citations {
  import opened Wrappers
  import opened Text
  import opened OrderedMaps

  datatype PaperReference = PaperReference(paperId: string, title: string, authors: string, year: string, isDownloaded: bool)

  /** The inline marker for a paper; metadata-only papers say so inside the brackets. */
  function FormatCitation(r: PaperReference): string
  {
    "[From: " + r.title + ", " + r.authors + " " + r.year + (if r.isDownloaded then "]" else " - metadata only]")
  }

  /**
   * The three dictionaries: section -> paper ids in first-citation order,
   * paper id -> set of sections, paper id -> reference.
   */
  datatype Ledger = Ledger(
    sectionPapers: OMap<seq<string>>,
    paperSections: OMap<set<string>>,
    paperRefs: map<string, PaperReference>)

  function EmptyLedger(): (l: Ledger)
    ensures Consistent(l)
  {
    Ledger(Empty(), Empty(), map[])
  }

  /**
   * What the tracker maintains: both dictionaries are well-formed, the lists are
   * duplicate-free and non-empty, every cited paper is registered, and a paper is
   * in a section's list exactly when that section is in the paper's set.
   */
  ghost predicate Consistent(l: Ledger)
  {
    var sp := l.sectionPapers.values;
    var ps := l.paperSections.values;
    Valid(l.sectionPapers) && Valid(l.paperSections)
    && (forall s :: s in sp ==> NoDup(sp[s]) && sp[s] != [])
    && (forall p :: p in ps ==> p in l.paperRefs && ps[p] != {})
    && (forall s, p :: s in sp && p in sp[s] ==> p in ps && s in ps[p])
    && (forall s, p :: p in ps && s in ps[p] ==> s in sp && p in sp[s])
  }

  /** `register_paper`: an upsert keyed by the paper id that leaves both citation dictionaries alone. */
  function Register(l: Ledger, r: PaperReference): (l': Ledger)
    ensures l'.paperRefs.Keys == l.paperRefs.Keys + {r.paperId} && l'.paperRefs[r.paperId] == r
    ensures forall q :: q in l.paperRefs && q != r.paperId ==> l'.paperRefs[q] == l.paperRefs[q]
    ensures l'.sectionPapers == l.sectionPapers && l'.paperSections == l.paperSections
  {
    l.(paperRefs := l.paperRefs[r.paperId := r])
  }

  /** Registering adds one paper when the id is new and none when it replaces a reference. */
  lemma RegisterCount(l: Ledger, r: PaperReference)
    ensures |Register(l, r).paperRefs| == |l.paperRefs| + (if r.paperId in l.paperRefs then 0 else 1)
  {
  }

  /** Registering keeps the ledger consistent. */
  lemma RegisterConsistent(l: Ledger, r: PaperReference)
    requires Consistent(l)
    ensures Consistent(Register(l, r))
  {
  }

  /** The list of papers cited by section `s` (`get_section_papers`): `[]` for an unknown section. */
  function SectionPapers(l: Ledger, s: string): seq<string>
  {
    Get(l.sectionPapers, s, [])
  }

  function SectionSet(l: Ledger, p: string): set<string>
  {
    Get(l.paperSections, p, {})
  }

  /** `add_citation`: skip unregistered ids; otherwise append once to the section's list and add the section to the paper's set. */
  function Cite(l: Ledger, s: string, p: string): (l': Ledger)
    requires Valid(l.sectionPapers) && Valid(l.paperSections)
    ensures p !in l.paperRefs ==> l' == l
    ensures l'.paperRefs == l.paperRefs
  {
    if p !in l.paperRefs then l
    else
      var cur := SectionPapers(l, s);
      var sp := Put(l.sectionPapers, s, if p in cur then cur else cur + [p]);
      var ps := Put(l.paperSections, p, SectionSet(l, p) + {s});
      Ledger(sp, ps, l.paperRefs)
  }

  /** After citing a registered paper, it appears exactly once in the section's list, which keeps first-citation order. */
  lemma CiteEffect(l: Ledger, s: string, p: string)
    requires Consistent(l) && p in l.paperRefs
    ensures var l' := Cite(l, s, p);
      && SectionPapers(l', s) == (if p in SectionPapers(l, s) then SectionPapers(l, s) else SectionPapers(l, s) + [p])
      && multiset(SectionPapers(l', s))[p] == 1
      && s in SectionSet(l', p)
      && (forall t :: t != s ==> SectionPapers(l', t) == SectionPapers(l, t))
      && (forall q :: q != p ==> SectionSet(l', q) == SectionSet(l, q))
  {
    CiteMaps(l, s, p);
    CiteCountOne(SectionPapers(l, s), p);
  }

  /** Appending a paper to a duplicate-free list unless it is there leaves it in the list exactly once. */
  lemma CiteCountOne(cur: seq<string>, p: string)
    requires NoDup(cur)
    ensures multiset(if p in cur then cur else cur + [p])[p] == 1
  {
    if p in cur {
      var i :| 0 <= i < |cur| && cur[i] == p;
      NoDupCountOne(cur, i);
    } else {
      assert multiset(cur)[p] == 0;
      assert multiset(cur + [p]) == multiset(cur) + multiset{p};
    }
  }

  lemma NoDupCountOne(xs: seq<string>, i: nat)
    requires NoDup(xs) && i < |xs|
    ensures multiset(xs)[xs[i]] == 1
  {
    assert xs == xs[..i] + [xs[i]] + xs[i + 1..];
    assert xs[i] !in xs[..i] && xs[i] !in xs[i + 1..] by {
      forall j | 0 <= j < |xs| && j != i ensures xs[j] != xs[i] {
        if j < i { assert xs[j] != xs[i]; } else { assert xs[i] != xs[j]; }
      }
    }
    assert multiset(xs) == multiset(xs[..i]) + multiset{xs[i]} + multiset(xs[i + 1..]);
  }

  /** Citing preserves the ledger invariant. */
  lemma CiteConsistent(l: Ledger, s: string, p: string)
    requires Consistent(l)
    ensures Consistent(Cite(l, s, p))
  {
    if p in l.paperRefs {
      CiteValues(l, s, p);
      CiteForward(l, s, p);
      CiteBackward(l, s, p);
    }
  }

  /** The two value maps after citing a registered paper, and the shape facts the invariant asks of them. */
  lemma CiteValues(l: Ledger, s: string, p: string)
    requires Consistent(l) && p in l.paperRefs
    ensures var l' := Cite(l, s, p);
      && Valid(l'.sectionPapers) && Valid(l'.paperSections)
      && (forall t :: t in l'.sectionPapers.values ==> NoDup(l'.sectionPapers.values[t]) && l'.sectionPapers.values[t] != [])
      && (forall q :: q in l'.paperSections.values ==> q in l'.paperRefs && l'.paperSections.values[q] != {})
  {
    CiteMaps(l, s, p);
    var cur := SectionPapers(l, s);
    var updated := if p in cur then cur else cur + [p];
    assert NoDup(updated);
  }

  /** The two value maps after citing a registered paper. */
  lemma CiteMaps(l: Ledger, s: string, p: string)
    requires Valid(l.sectionPapers) && Valid(l.paperSections) && p in l.paperRefs
    ensures var l' := Cite(l, s, p);
      var cur := SectionPapers(l, s);
      && l'.sectionPapers.values == l.sectionPapers.values[s := if p in cur then cur else cur + [p]]
      && l'.paperSections.values == l.paperSections.values[p := SectionSet(l, p) + {s}]
  {
  }

  /** After citing, every paper in a section's list has that section in its set. */
  lemma CiteForward(l: Ledger, s: string, p: string)
    requires Consistent(l) && p in l.paperRefs
    ensures var l' := Cite(l, s, p);
      forall t, q :: t in l'.sectionPapers.values && q in l'.sectionPapers.values[t] ==>
        q in l'.paperSections.values && t in l'.paperSections.values[q]
  {
    CiteMaps(l, s, p);
    var l' := Cite(l, s, p);
    var cur := SectionPapers(l, s);
    var sp := l'.sectionPapers.values;
    var ps := l'.paperSections.values;
    forall t, q | t in sp && q in sp[t] ensures q in ps && t in ps[q] {
      if t != s {
        assert q in l.sectionPapers.values[t];
      } else if q != p {
        assert q in cur;
      }
    }
  }

  /** After citing, every section in a paper's set lists that paper. */
  lemma CiteBackward(l: Ledger, s: string, p: string)
    requires Consistent(l) && p in l.paperRefs
    ensures var l' := Cite(l, s, p);
      forall t, q :: q in l'.paperSections.values && t in l'.paperSections.values[q] ==>
        t in l'.sectionPapers.values && q in l'.sectionPapers.values[t]
  {
    var l' := Cite(l, s, p);
    forall t, q | q in l'.paperSections.values && t in l'.paperSections.values[q]
      ensures t in l'.sectionPapers.values && q in l'.sectionPapers.values[t]
    {
      CiteBackwardAt(l, s, p, t, q);
    }
  }

  lemma CiteBackwardAt(l: Ledger, s: string, p: string, t: string, q: string)
    requires Consistent(l) && p in l.paperRefs
    requires q in Cite(l, s, p).paperSections.values && t in Cite(l, s, p).paperSections.values[q]
    ensures t in Cite(l, s, p).sectionPapers.values && q in Cite(l, s, p).sectionPapers.values[t]
  {
    CiteMaps(l, s, p);
    if q != p || t != s {
      assert t in l.paperSections.values[q];
      CiteKeeps(l, s, p, t, q);
    }
  }

  /** Citing never takes a paper out of a section's list. */
  lemma CiteKeeps(l: Ledger, s: string, p: string, t: string, q: string)
    requires Valid(l.sectionPapers) && Valid(l.paperSections)
    requires t in l.sectionPapers.values && q in l.sectionPapers.values[t]
    ensures t in Cite(l, s, p).sectionPapers.values && q in Cite(l, s, p).sectionPapers.values[t]
  {
    if p in l.paperRefs && t == s {
      assert q in SectionPapers(l, s);
    }
  }

  /** Citing the same paper in the same section twice has the effect of citing it once. */
  lemma CiteIdempotent(l: Ledger, s: string, p: string)
    requires Consistent(l)
    ensures Cite(Cite(l, s, p), s, p) == Cite(l, s, p)
  {
    if p in l.paperRefs {
      var l1 := Cite(l, s, p);
      CiteEffect(l, s, p);
      var l2 := Cite(l1, s, p);
      assert p in SectionPapers(l1, s);
      assert SectionSet(l1, p) + {s} == SectionSet(l1, p);
      assert l2.sectionPapers.values == l1.sectionPapers.values;
      assert l2.paperSections.values == l1.paperSections.values;
    }
  }

  /** The ledger's two views agree, and every paper in either view is registered. */
  lemma CitedIff(l: Ledger, s: string, p: string)
    requires Consistent(l)
    ensures p in SectionPapers(l, s) <==> s in SectionSet(l, p)
    ensures p in SectionPapers(l, s) ==> p in l.paperRefs
  {
  }

  /** `get_paper_sections`: the sections citing `p`, sorted and each once; `[]` for an id never cited. */
  function PaperSections(l: Ledger, p: string): (r: seq<string>)
    ensures SortedStrs(r) && NoDup(r)
    ensures forall s :: s in r <==> s in SectionSet(l, p)
    ensures p !in l.paperSections.values ==> r == []
  {
    SortedSet(SectionSet(l, p))
  }

  /** `get_all_sections`: sections with citations, in the order they were first cited. */
  function AllSections(l: Ledger): seq<string> { l.sectionPapers.keys }

  /** `get_all_papers`: ids of cited papers, in the order they were first cited. */
  function AllPapers(l: Ledger): seq<string> { l.paperSections.keys }

  /** Every id `get_all_papers` reports is registered, and each is reported once. */
  lemma AllPapersRegistered(l: Ledger)
    requires Consistent(l)
    ensures NoDup(AllPapers(l))
    ensures forall i :: 0 <= i < |AllPapers(l)| ==> AllPapers(l)[i] in l.paperRefs && SectionSet(l, AllPapers(l)[i]) != {}
  {
  }

  /** `get_paper_ref`. */
  function PaperRef(l: Ledger, p: string): Option<PaperReference>
  {
    if p in l.paperRefs then Some(l.paperRefs[p]) else None
  }

  /** `format_inline_citation`: the paper's marker, or the fixed unknown-paper marker. */
  function InlineCitation(l: Ledger, p: string): (c: string)
    ensures p !in l.paperRefs ==> c == "[From: Unknown Paper]"
    ensures p in l.paperRefs ==> c == FormatCitation(l.paperRefs[p])
  {
    match PaperRef(l, p)
    case Some(r) => FormatCitation(r)
    case None => "[From: Unknown Paper]"
  }

  datatype Statistics = Statistics(
    totalPapers: nat, citedPapers: nat, totalSections: nat,
    downloaded: nat, metadataOnly: nat, sectionPaperCounts: map<string, nat>)

  function DownloadedIds(refs: map<string, PaperReference>): set<string>
  {
    set p | p in refs && refs[p].isDownloaded
  }

  function MetadataOnlyIds(refs: map<string, PaperReference>): set<string>
  {
    set p | p in refs && !refs[p].isDownloaded
  }

  /** `get_statistics`. */
  function GetStatistics(l: Ledger): (st: Statistics)
    ensures st.downloaded + st.metadataOnly == st.totalPapers == |l.paperRefs|
    ensures Consistent(l) ==> st.citedPapers <= st.totalPapers
    ensures forall s :: s in st.sectionPaperCounts <==> s in l.sectionPapers.values
    ensures forall s :: s in st.sectionPaperCounts ==> st.sectionPaperCounts[s] == |SectionPapers(l, s)|
  {
    var d := DownloadedIds(l.paperRefs);
    var m := MetadataOnlyIds(l.paperRefs);
    assert d + m == l.paperRefs.Keys && d * m == {};
    CitedRegisteredCard(l);
    Statistics(
      |l.paperRefs|, |l.paperSections.values|, |l.sectionPapers.values|,
      |d|, |m|,
      map s | s in l.sectionPapers.values :: |l.sectionPapers.values[s]|)
  }

  lemma CitedRegisteredCard(l: Ledger)
    ensures Consistent(l) ==> |l.paperSections.values| <= |l.paperRefs|
  {
    if Consistent(l) {
      var a := l.paperSections.values.Keys;
      var b := l.paperRefs.Keys;
      assert a <= b;
      assert b == a + (b - a);
    }
  }

  /**
   * The tracker object. Its three fields are the dictionaries the source mutates in place;
   * `State()` reads them as a ledger value.
   */
  class CitationTracker {
    var sectionPapers: OMap<seq<string>>
    var paperSections: OMap<set<string>>
    var paperRefs: map<string, PaperReference>

    function State(): Ledger
      reads this
    {
      Ledger(sectionPapers, paperSections, paperRefs)
    }

    ghost predicate Valid()
      reads this
    {
      Consistent(State())
    }

    constructor ()
      ensures Valid() && State() == EmptyLedger()
    {
      sectionPapers := Empty();
      paperSections := Empty();
      paperRefs := map[];
    }

    method RegisterPaper(paperId: string, title: string, authors: string, year: string, isDownloaded: bool)
      requires Valid()
      modifies this
      ensures Valid()
      ensures State() == Register(old(State()), PaperReference(paperId, title, authors, year, isDownloaded))
    {
      RegisterConsistent(State(), PaperReference(paperId, title, authors, year, isDownloaded));
      paperRefs := paperRefs[paperId := PaperReference(paperId, title, authors, year, isDownloaded)];
    }

    method AddCitation(sectionName: string, paperId: string)
      requires Valid()
      modifies this
      ensures Valid()
      ensures State() == Cite(old(State()), sectionName, paperId)
    {
      CiteConsistent(State(), sectionName, paperId);
      if paperId !in paperRefs {
        return;
      }
      var papers := Get(sectionPapers, sectionName, []);
      if paperId !in papers {
        papers := papers + [paperId];
      }
      sectionPapers := Put(sectionPapers, sectionName, papers);
      paperSections := Put(paperSections, paperId, Get(paperSections, paperId, {}) + {sectionName});
    }
  }
}
