/**
 * The `ReportGenerator` object: the model in use and the index of the next fallback
 * model are its fields, the model service is `Provider.Service`, and each method is
 * proved against the function of module `Reports` that specifies it.
 * Also here: the whole `generate_all_sections` loop and the bibliography.
 */
module ReportRun {
  import opened Wrappers
  import opened Text
  import opened OrderedMaps
  import opened Provider
  import opened Reports
  import Citations
  import opened Flowables

  /** How the body of one attempt ends: the method returns, or the loop goes on after catching `error`. */
  datatype Outcome = Returned(result: Result<string, Exception>) | Caught(error: Exception)

  function OutcomeOf(step: Step): Outcome
  {
    match step
    case Done(r, _) => Returned(r)
    case Next(e, _) => Caught(e)
  }

  /** An attempt before the last unfolds the loop once. */
  lemma RetryUnfold(s: Settings, prompt: string, maxRetries: nat, attempt: nat, last: Option<Exception>, st: RunState)
    requires attempt < maxRetries
    ensures Retry(s, prompt, maxRetries, attempt, last, st) ==
      match AttemptStep(s, prompt, maxRetries, attempt, st)
      case Done(r, st1) => (r, st1)
      case Next(e, st1) => Retry(s, prompt, maxRetries, attempt + 1, Some(e), st1)
  {
    assert Attempts(s, prompt, maxRetries)(attempt, st) == AttemptStep(s, prompt, maxRetries, attempt, st);
  }

  class ReportGenerator {
    const service: Service
    const primaryModel: string
    const fallbackModels: seq<string>
    const quotaRetryDelay: nat
    var modelName: string
    var currentModelIndex: nat

    /** The configuration the generator was built with. */
    function Config(): Settings
    {
      Settings(service.respond, fallbackModels, quotaRetryDelay)
    }

    /** The state the retry loop threads through: the model, the fallback index and the service's record. */
    function Run(): RunState
      reads this, service
    {
      RunState(modelName, currentModelIndex, service.State())
    }

    /** The model in use is the primary model or a fallback already handed out. */
    predicate Valid()
      reads this, service
    {
      ModelOk(primaryModel, fallbackModels, Run())
    }

    /** `__init__`, given the service, `GEMINI_MODEL`, `GEMINI_FALLBACK_MODELS` and `GEMINI_QUOTA_RETRY_DELAY`. */
    constructor (service: Service, model: string, fallbacks: seq<string>, quotaDelay: nat)
      ensures this.service == service && primaryModel == model && fallbackModels == fallbacks
      ensures quotaRetryDelay == quotaDelay && modelName == model && currentModelIndex == 0
      ensures Valid()
    {
      this.service := service;
      primaryModel := model;
      fallbackModels := fallbacks;
      quotaRetryDelay := quotaDelay;
      modelName := model;
      currentModelIndex := 0;
    }

    /** `_get_fallback_model`. */
    method GetFallbackModel() returns (m: Option<string>)
      modifies this
      ensures (m, currentModelIndex) == NextFallback(fallbackModels, old(currentModelIndex))
      ensures modelName == old(modelName)
    {
      if |fallbackModels| == 0 {
        return None;
      }
      if currentModelIndex < |fallbackModels| {
        m := Some(fallbackModels[currentModelIndex]);
        currentModelIndex := currentModelIndex + 1;
        return;
      }
      return None;
    }

    /** Ask for a fallback and use it when it is a non-empty name. */
    method SwitchToFallback() returns (f: Option<string>)
      modifies this
      ensures (f, Run()) == Switched(fallbackModels, old(Run()))
    {
      f := GetFallbackModel();
      if f.Some? && f.value != "" {
        modelName := f.value;
      }
    }

    /** `_generate_with_chunking`: the map calls over the chunks, then the reduce call. */
    method GenerateWithChunking(prompt: string) returns (r: Result<string, Exception>)
      modifies service
      ensures (r, service.State()) == Chunked(service.respond, old(service.State()), modelName, prompt)
    {
      var chunks := SplitPrompt(prompt, 4000);
      var partials := AskEach(service, modelName, chunks);
      if partials.Err? {
        return Err(partials.error);
      }
      var reply := service.Generate(modelName, ReducePrompt(partials.value));
      r := ReplyResult(reply);
    }

    /** The `try` body of one attempt. */
    method AttemptOnce(prompt: string) returns (r: Result<string, Exception>)
      modifies service
      ensures (r, service.State()) == Attempt(service.respond, old(service.State()), modelName, prompt)
    {
      if |prompt| > 8000 {
        r := GenerateWithChunking(prompt);
      } else {
        var reply := service.Generate(modelName, prompt);
        r := ReplyResult(reply);
      }
    }

    /** The `except ResourceExhausted` clause of attempt `attempt`. */
    method OnQuota(prompt: string, maxRetries: nat, attempt: nat, e: Exception) returns (out: Outcome)
      modifies this, service
      ensures var step := QuotaStep(Config(), prompt, maxRetries, attempt, e, old(Run()));
        out == OutcomeOf(step) && Run() == step.state
    {
      var delay := QuotaDelay(quotaRetryDelay, e.message);
      if delay.Err? {
        return Returned(Err(delay.error));
      }
      if attempt < maxRetries - 1 {
        service.Sleep(delay.value);
        if attempt == maxRetries - 2 {
          var _ := SwitchToFallback();
        }
        return Caught(e);
      }
      var f := SwitchToFallback();
      if f.Some? && f.value != "" {
        var reply := service.Generate(modelName, prompt);
        if reply.Answer? {
          return Returned(Ok(reply.text));
        }
      }
      return Caught(e);
    }

    /** One pass of the loop body of `_generate_with_retries`. */
    method AttemptStepOnce(prompt: string, maxRetries: nat, attempt: nat) returns (out: Outcome)
      modifies this, service
      ensures var step := AttemptStep(Config(), prompt, maxRetries, attempt, old(Run()));
        out == OutcomeOf(step) && Run() == step.state
    {
      var r := AttemptOnce(prompt);
      if r.Ok? {
        return Returned(r);
      }
      if IsQuota(r.error) {
        out := OnQuota(prompt, maxRetries, attempt, r.error);
        return;
      }
      if attempt < maxRetries - 1 {
        service.Sleep(Delay(Pow2(attempt), 0));
      }
      return Caught(r.error);
    }

    /**
     * `_generate_with_retries`: the attempt loop, then the exhaustion error. The model in
     * use stays the primary one or a fallback handed out, and it changes only to a fallback
     * handed out during the call.
     */
    method GenerateWithRetries(prompt: string, maxRetries: nat) returns (r: Result<string, Exception>)
      requires Valid()
      modifies this, service
      ensures (r, Run()) == Retry(Config(), prompt, maxRetries, 0, None, old(Run()))
      ensures Valid() && Kept(fallbackModels, old(Run()), Run())
    {
      RetryModel(primaryModel, Config(), prompt, maxRetries, 0, None, Run());
      var last: Option<Exception> := None;
      var attempt := 0;
      while attempt < maxRetries
        invariant Retry(Config(), prompt, maxRetries, attempt, last, Run()) == Retry(Config(), prompt, maxRetries, 0, None, old(Run()))
        decreases maxRetries - attempt
      {
        RetryUnfold(Config(), prompt, maxRetries, attempt, last, Run());
        var out := AttemptStepOnce(prompt, maxRetries, attempt);
        if out.Returned? {
          return out.result;
        }
        last := Some(out.error);
        attempt := attempt + 1;
      }
      r := Err(Exhausted(maxRetries, last));
    }

    /**
     * `_extract_and_track_citations`: for each marker, in order, cite the first excerpt whose
     * title contains the marker's title or is contained in it.
     */
    method ExtractAndTrackCitations(content: string, sectionKey: string, excerpts: seq<Excerpt>,
                                    tracker: Citations.CitationTracker)
      requires tracker.Valid()
      modifies tracker
      ensures tracker.Valid()
      ensures tracker.State() == Tracked(old(tracker.State()), sectionKey, Markers(content), excerpts)
    {
      var citations := Markers(content);
      var k := 0;
      while k < |citations|
        invariant k <= |citations| && tracker.Valid()
        invariant Tracked(tracker.State(), sectionKey, citations[k..], excerpts) ==
                  Tracked(old(tracker.State()), sectionKey, citations, excerpts)
      {
        TrackedUnfold(tracker.State(), sectionKey, citations, k, excerpts);
        TrackCitation(citations[k], sectionKey, excerpts, tracker);
        k := k + 1;
      }
    }

    /** The inner loop of `_extract_and_track_citations`: cite the first excerpt matching the marker's title, then stop. */
    method TrackCitation(citation: Marker, sectionKey: string, excerpts: seq<Excerpt>, tracker: Citations.CitationTracker)
      requires tracker.Valid()
      modifies tracker
      ensures tracker.Valid()
      ensures tracker.State() == TrackOne(old(tracker.State()), sectionKey, citation, excerpts)
    {
      var title := citation.title;
      var j := 0;
      while j < |excerpts|
        invariant j <= |excerpts| && tracker.State() == old(tracker.State())
        invariant FirstMatch(excerpts, title, j) == FirstMatch(excerpts, title, 0)
      {
        if TitlesMatch(title, excerpts[j]) {
          tracker.AddCitation(sectionKey, excerpts[j].id);
          return;
        }
        j := j + 1;
      }
    }

    /** `_generate_section`: build the prompt, generate with three attempts, track the citations. */
    method GenerateSection(personName: string, sectionKey: string, cfg: SectionConfig, excerpts: seq<Excerpt>,
                           tracker: Citations.CitationTracker) returns (r: Result<string, Exception>)
      requires Valid() && tracker.Valid()
      modifies this, service, tracker
      ensures Valid() && tracker.Valid()
      ensures (r, tracker.State(), Run()) ==
        SectionOutcome(Config(), SectionPrompt(personName, cfg, excerpts), sectionKey, excerpts, old(tracker.State()), old(Run()))
    {
      var prompt := SectionPrompt(personName, cfg, excerpts);
      r := GenerateWithRetries(prompt, 3);
      if r.Ok? {
        ExtractAndTrackCitations(r.value, sectionKey, excerpts, tracker);
      }
    }

    /** `generate_all_sections`: the sections of `_get_section_configs`, in order. */
    method GenerateAllSections(personName: string, contents: OMap<PaperContent>, tracker: Citations.CitationTracker)
      returns (sections: OMap<string>)
      requires Valid() && OrderedMaps.Valid(contents) && tracker.Valid()
      modifies this, service, tracker
      ensures Valid() && tracker.Valid() && Kept(fallbackModels, old(Run()), Run())
      ensures (sections, tracker.State(), Run()) ==
        SectionsFrom(Config(), Jobs(personName, SectionConfigs(), Excerpts(contents)), Excerpts(contents),
                     Empty(), old(tracker.State()), old(Run()))
    {
      sections := GenerateSections(personName, contents, SectionConfigs(), tracker);
    }

    /**
     * The body of the loop of `generate_all_sections` for one section: the `try` block, with the
     * pause after a generated section, and the `except` clause that gives a failed section its
     * error text.
     */
    method GenerateEntry(personName: string, contents: OMap<PaperContent>, key: string, cfg: SectionConfig,
                         sections: OMap<string>, tracker: Citations.CitationTracker) returns (sections': OMap<string>)
      requires Valid() && OrderedMaps.Valid(contents) && OrderedMaps.Valid(sections) && tracker.Valid()
      modifies this, service, tracker
      ensures (sections', tracker.State(), Run()) ==
        SectionStep(Config(), Job(key, SectionPrompt(personName, cfg, Excerpts(contents))), Excerpts(contents),
                    sections, old(tracker.State()), old(Run()))
    {
      var excerpts := PrepareExcerpts(contents);
      ExcerptsIs(contents, excerpts);
      var r := GenerateSection(personName, key, cfg, excerpts, tracker);
      sections' := Put(sections, key, SectionText(key, r));
      Pause(r, tracker);
    }

    /** The `time.sleep(1)` after a generated section; the tracker is left alone. */
    method Pause(r: Result<string, Exception>, tracker: Citations.CitationTracker)
      modifies service
      ensures Run() == Paused(r, old(Run())) && tracker.State() == old(tracker.State())
    {
      if r.Ok? {
        service.Sleep(Delay(1, 0));
      }
    }

    /** The loop of `generate_all_sections` over `configs`. */
    method GenerateSections(personName: string, contents: OMap<PaperContent>, configs: seq<(string, SectionConfig)>,
                            tracker: Citations.CitationTracker) returns (sections: OMap<string>)
      requires Valid() && OrderedMaps.Valid(contents) && tracker.Valid()
      modifies this, service, tracker
      ensures Valid() && tracker.Valid() && Kept(fallbackModels, old(Run()), Run())
      ensures (sections, tracker.State(), Run()) ==
        SectionsFrom(Config(), Jobs(personName, configs, Excerpts(contents)), Excerpts(contents),
                     Empty(), old(tracker.State()), old(Run()))
    {
      sections := Empty();
      var k := 0;
      while k < |configs|
        invariant k <= |configs| && Valid() && OrderedMaps.Valid(sections) && tracker.Valid()
        invariant Kept(fallbackModels, old(Run()), Run())
        invariant SectionsFrom(Config(), Jobs(personName, configs, Excerpts(contents))[k..], Excerpts(contents),
                               sections, tracker.State(), Run()) ==
                  SectionsFrom(Config(), Jobs(personName, configs, Excerpts(contents)), Excerpts(contents),
                               Empty(), old(tracker.State()), old(Run()))
      {
        ghost var before := Run();
        sections := GenerateNext(personName, contents, configs, k, sections, tracker);
        KeptTrans(fallbackModels, old(Run()), before, Run());
        k := k + 1;
      }
    }

    /** Section `k` of the loop, seen from the rest of the loop. */
    method GenerateNext(personName: string, contents: OMap<PaperContent>, configs: seq<(string, SectionConfig)>, k: nat,
                        sections: OMap<string>, tracker: Citations.CitationTracker) returns (sections': OMap<string>)
      requires k < |configs| && Valid() && OrderedMaps.Valid(contents) && OrderedMaps.Valid(sections) && tracker.Valid()
      modifies this, service, tracker
      ensures Valid() && OrderedMaps.Valid(sections') && tracker.Valid() && Kept(fallbackModels, old(Run()), Run())
      ensures SectionsFrom(Config(), Jobs(personName, configs, Excerpts(contents))[k + 1..], Excerpts(contents),
                           sections', tracker.State(), Run()) ==
              SectionsFrom(Config(), Jobs(personName, configs, Excerpts(contents))[k..], Excerpts(contents),
                           sections, old(tracker.State()), old(Run()))
    {
      var excerpts := Excerpts(contents);
      var jobs := Jobs(personName, configs, excerpts);
      JobAt(personName, configs, excerpts, k);
      SectionsStep(Config(), jobs, k, excerpts, sections, tracker.State(), Run());
      SectionStepKeeps(primaryModel, Config(), jobs[k], excerpts, sections, tracker.State(), Run());
      sections' := GenerateEntry(personName, contents, configs[k].0, configs[k].1, sections, tracker);
    }

    /** `_add_bibliography`: the story with the bibliography of the tracker's cited papers appended. */
    method AddBibliography(story: seq<Flowable>, tracker: Citations.CitationTracker, h1: string, h2: string, body: string)
      returns (story': seq<Flowable>)
      ensures story' == story + BibliographyOf(tracker.State(), h1, h2, body)
    {
      var title := [Paragraph(BibliographyTitle, h1), Spacer(100, 1200)];
      story' := story + title;
      var cited := Citations.AllPapers(tracker.State());
      if cited == [] {
        Associative(story, title, [Paragraph(NoCitations, body)]);
        story' := story' + [Paragraph(NoCitations, body)];
        return;
      }
      var downloaded, metadata := SplitRefs(tracker, cited);
      var withDownloaded := AddGroup(story', DownloadedHeading, downloaded, true, h2, body);
      story' := AddGroup(withDownloaded, MetadataHeading, metadata, false, h2, body);
      Associative(story + title, RefGroup(DownloadedHeading, Entries(downloaded, true), h2, body),
                  RefGroup(MetadataHeading, Entries(metadata, false), h2, body));
      Associative(story, title, Groups(tracker.State(), cited, h2, body));
    }

    /** The loop that sorts the cited papers with a reference into downloaded and metadata-only ones. */
    method SplitRefs(tracker: Citations.CitationTracker, cited: seq<string>)
      returns (downloaded: seq<Citations.PaperReference>, metadata: seq<Citations.PaperReference>)
      ensures downloaded == RefsWith(tracker.State(), cited, true)
      ensures metadata == RefsWith(tracker.State(), cited, false)
    {
      downloaded, metadata := [], [];
      var i := 0;
      while i < |cited|
        invariant i <= |cited|
        invariant downloaded == RefsWith(tracker.State(), cited[..i], true)
        invariant metadata == RefsWith(tracker.State(), cited[..i], false)
      {
        assert cited[..i + 1][..i] == cited[..i];
        var ref := Citations.PaperRef(tracker.State(), cited[i]);
        if ref.Some? {
          if ref.value.isDownloaded {
            downloaded := downloaded + [ref.value];
          } else {
            metadata := metadata + [ref.value];
          }
        }
        i := i + 1;
      }
      assert cited[..i] == cited;
    }

    /** One group of the bibliography, appended when it has a reference. */
    method AddGroup(story: seq<Flowable>, heading: string, refs: seq<Citations.PaperReference>, downloaded: bool,
                    h2: string, body: string) returns (story': seq<Flowable>)
      ensures story' == story + RefGroup(heading, Entries(refs, downloaded), h2, body)
    {
      story' := story;
      var entries := Entries(refs, downloaded);
      if refs == [] {
        assert story + RefGroup(heading, entries, h2, body) == story;
        return;
      }
      story' := story' + [Paragraph(heading, h2), Spacer(100, 800)];
      ghost var front := story';
      var j := 0;
      while j < |refs|
        invariant j <= |refs|
        invariant story' == front + EntryLines(entries[..j], body)
      {
        var entry := if downloaded then BibEntry(refs[j]) else MetadataEntry(refs[j]);
        EntryLinesStep(entries, j, body);
        Associative(front, EntryLines(entries[..j], body), [Paragraph(entry, body), Spacer(100, 400)]);
        story' := story' + [Paragraph(entry, body), Spacer(100, 400)];
        j := j + 1;
      }
      assert entries[..j] == entries;
      Associative(story, [Paragraph(heading, h2), Spacer(100, 800)], EntryLines(entries, body));
    }
  }

  /** The excerpts `PrepareExcerpts` hands back are `Excerpts(contents)`. */
  lemma ExcerptsIs(contents: OMap<PaperContent>, excerpts: seq<Excerpt>)
    requires Valid(contents)
    requires |excerpts| == |Included(contents)|
    requires forall i :: 0 <= i < |excerpts| ==> excerpts[i] == ToExcerpt(Included(contents)[i])
    ensures excerpts == Excerpts(contents)
  {
  }

  /** Tracking from marker `k` on is tracking marker `k`, then the rest. */
  lemma TrackedUnfold(l: Citations.Ledger, section: string, markers: seq<Marker>, k: nat, excerpts: seq<Excerpt>)
    requires Citations.Consistent(l) && k < |markers|
    ensures Tracked(l, section, markers[k..], excerpts) ==
            Tracked(TrackOne(l, section, markers[k], excerpts), section, markers[k + 1..], excerpts)
  {
    assert markers[k..][1..] == markers[k + 1..];
  }

  // ---------------------------------------------------------------- all sections

  /** `_generate_section` as a function of its prompt: the retry loop with three attempts; on success the markers are tracked. */
  function SectionOutcome(s: Settings, prompt: string, key: string, excerpts: seq<Excerpt>,
                          l: Citations.Ledger, st: RunState): (out: (Result<string, Exception>, Citations.Ledger, RunState))
    requires Citations.Consistent(l)
    ensures Citations.Consistent(out.1)
  {
    var (r, st1) := Retry(s, prompt, 3, 0, None, st);
    (r, if r.Ok? then Tracked(l, key, Markers(r.value), excerpts) else l, st1)
  }

  /** A section to generate: its key and the prompt `_generate_section` builds for it. */
  datatype Job = Job(key: string, prompt: string)

  /** The jobs of the configured sections, all over the same excerpts. */
  function Jobs(personName: string, configs: seq<(string, SectionConfig)>, excerpts: seq<Excerpt>): (js: seq<Job>)
    ensures |js| == |configs|
  {
    seq(|configs|, i requires 0 <= i < |configs| => Job(configs[i].0, SectionPrompt(personName, configs[i].1, excerpts)))
  }

  /** Job `k` is section `k` with its prompt. */
  lemma JobAt(personName: string, configs: seq<(string, SectionConfig)>, excerpts: seq<Excerpt>, k: nat)
    requires k < |configs|
    ensures Jobs(personName, configs, excerpts)[k] == Job(configs[k].0, SectionPrompt(personName, configs[k].1, excerpts))
  {
  }

  /**
   * One section of `generate_all_sections`: its text goes into the sections, and a
   * generated section is followed by `time.sleep(1)`.
   */
  function SectionStep(s: Settings, job: Job, excerpts: seq<Excerpt>,
                       sections: OMap<string>, l: Citations.Ledger, st: RunState): (out: (OMap<string>, Citations.Ledger, RunState))
    requires Valid(sections) && Citations.Consistent(l)
    ensures Valid(out.0) && Citations.Consistent(out.1)
    ensures out.0.keys == if job.key in sections.values then sections.keys else sections.keys + [job.key]
  {
    var o := SectionOutcome(s, job.prompt, job.key, excerpts, l, st);
    (Put(sections, job.key, SectionText(job.key, o.0)), o.1, Paused(o.0, o.2))
  }

  /** The state after a section: a generated section is followed by `time.sleep(1)`. */
  function Paused(r: Result<string, Exception>, st: RunState): (st': RunState)
    ensures st'.model == st.model && st'.index == st.index && st'.env.calls == st.env.calls
    ensures st'.env.sleeps == st.env.sleeps + (if r.Ok? then [Delay(1, 0)] else [])
  {
    if r.Ok? then st.(env := Slept(st.env, Delay(1, 0))) else st
  }

  /** The loop of `generate_all_sections` over `jobs`, from the sections, ledger and state so far. */
  function SectionsFrom(s: Settings, jobs: seq<Job>, excerpts: seq<Excerpt>, sections: OMap<string>,
                        l: Citations.Ledger, st: RunState): (out: (OMap<string>, Citations.Ledger, RunState))
    requires Valid(sections) && Citations.Consistent(l)
    ensures Valid(out.0) && Citations.Consistent(out.1)
    decreases |jobs|
  {
    if jobs == [] then (sections, l, st)
    else
      var t := SectionStep(s, jobs[0], excerpts, sections, l, st);
      SectionsFrom(s, jobs[1..], excerpts, t.0, t.1, t.2)
  }

  /** The loop from section `k` on is section `k`, then the loop from section `k + 1` on. */
  lemma SectionsStep(s: Settings, jobs: seq<Job>, k: nat, excerpts: seq<Excerpt>, sections: OMap<string>,
                     l: Citations.Ledger, st: RunState)
    requires Valid(sections) && Citations.Consistent(l) && k < |jobs|
    ensures var t := SectionStep(s, jobs[k], excerpts, sections, l, st);
      SectionsFrom(s, jobs[k..], excerpts, sections, l, st) == SectionsFrom(s, jobs[k + 1..], excerpts, t.0, t.1, t.2)
  {
    assert jobs[k..][0] == jobs[k] && jobs[k..][1..] == jobs[k + 1..];
  }

  /** One section keeps the model in use legitimate, and changes it only to a fallback handed out. */
  lemma SectionStepKeeps(primary: string, s: Settings, job: Job, excerpts: seq<Excerpt>, sections: OMap<string>,
                         l: Citations.Ledger, st: RunState)
    requires Valid(sections) && Citations.Consistent(l) && ModelOk(primary, s.fallbacks, st)
    ensures ModelOk(primary, s.fallbacks, SectionStep(s, job, excerpts, sections, l, st).2)
    ensures Kept(s.fallbacks, st, SectionStep(s, job, excerpts, sections, l, st).2)
  {
    RetryModel(primary, s, job.prompt, 3, 0, None, st);
  }

  /** The section keys of `jobs`, in order. */
  function JobKeys(jobs: seq<Job>): (ks: seq<string>)
    ensures |ks| == |jobs| && forall i :: 0 <= i < |jobs| ==> ks[i] == jobs[i].key
  {
    if jobs == [] then [] else [jobs[0].key] + JobKeys(jobs[1..])
  }

  /** New, distinct section keys join the dict in the order of their jobs. */
  lemma {:induction false} SectionsKeys(s: Settings, jobs: seq<Job>, excerpts: seq<Excerpt>, sections: OMap<string>,
                                        l: Citations.Ledger, st: RunState)
    requires Valid(sections) && Citations.Consistent(l)
    requires NoDup(sections.keys + JobKeys(jobs))
    ensures SectionsFrom(s, jobs, excerpts, sections, l, st).0.keys == sections.keys + JobKeys(jobs)
    decreases |jobs|
  {
    if jobs != [] {
      var t := SectionStep(s, jobs[0], excerpts, sections, l, st);
      var key := jobs[0].key;
      assert JobKeys(jobs) == [key] + JobKeys(jobs[1..]);
      NewKeyAppends(sections.keys, key, JobKeys(jobs[1..]));
      assert sections.keys + JobKeys(jobs) == (sections.keys + [key]) + JobKeys(jobs[1..]);
      SectionsKeys(s, jobs[1..], excerpts, t.0, t.1, t.2);
    }
  }

  /** The first of the new keys is new, and the rest stay distinct after it joins. */
  lemma NewKeyAppends(keys: seq<string>, key: string, rest: seq<string>)
    requires NoDup(keys + ([key] + rest))
    ensures key !in keys && keys + ([key] + rest) == (keys + [key]) + rest
  {
    var all := keys + ([key] + rest);
    assert all[|keys|] == key;
    forall i | 0 <= i < |keys| ensures keys[i] != key {
      assert all[i] == keys[i];
    }
  }

  /** The jobs of the ten configured sections carry the ten section keys. */
  lemma ConfiguredKeys(personName: string, excerpts: seq<Excerpt>)
    ensures JobKeys(Jobs(personName, SectionConfigs(), excerpts)) == SectionKeys()
    ensures NoDup(Empty<string>().keys + SectionKeys())
  {
    SectionKeysFacts();
  }

  /** `generate_all_sections` fills exactly the ten configured keys, in configuration order. */
  lemma AllSectionsKeys(s: Settings, personName: string, excerpts: seq<Excerpt>, l: Citations.Ledger, st: RunState)
    requires Citations.Consistent(l)
    ensures SectionsFrom(s, Jobs(personName, SectionConfigs(), excerpts), excerpts, Empty(), l, st).0.keys == SectionKeys()
  {
    ConfiguredKeys(personName, excerpts);
    SectionsKeys(s, Jobs(personName, SectionConfigs(), excerpts), excerpts, Empty(), l, st);
  }

  /**
   * What a section does to the ledger: the references stay, every other section keeps
   * its list, and this section's list gains exactly the registered papers the markers of
   * the generated text resolve to; a failed section cites nothing.
   */
  lemma OutcomeLedger(s: Settings, prompt: string, key: string, excerpts: seq<Excerpt>, l: Citations.Ledger, st: RunState)
    requires Citations.Consistent(l)
    ensures var o := SectionOutcome(s, prompt, key, excerpts, l, st);
      && o.1.paperRefs == l.paperRefs
      && Citations.SectionPapers(l, key) <= Citations.SectionPapers(o.1, key)
      && (forall p :: p in Citations.SectionPapers(o.1, key) <==>
            p in Citations.SectionPapers(l, key) ||
            (o.0.Ok? && p in l.paperRefs && p in CitedIds(Markers(o.0.value), excerpts)))
      && (forall sec :: sec != key ==> Citations.SectionPapers(o.1, sec) == Citations.SectionPapers(l, sec))
  {
    var o := SectionOutcome(s, prompt, key, excerpts, l, st);
    if o.0.Ok? {
      TrackedFacts(l, key, Markers(o.0.value), excerpts);
    }
  }

  /** The whole loop keeps the references, and a section without a job keeps its list. */
  lemma {:induction false} SectionsLedger(s: Settings, jobs: seq<Job>, excerpts: seq<Excerpt>, sections: OMap<string>,
                                          l: Citations.Ledger, st: RunState)
    requires Valid(sections) && Citations.Consistent(l)
    ensures var out := SectionsFrom(s, jobs, excerpts, sections, l, st);
      && out.1.paperRefs == l.paperRefs
      && (forall sec :: sec !in JobKeys(jobs) ==> Citations.SectionPapers(out.1, sec) == Citations.SectionPapers(l, sec))
    decreases |jobs|
  {
    if jobs != [] {
      var t := SectionStep(s, jobs[0], excerpts, sections, l, st);
      OutcomeLedger(s, jobs[0].prompt, jobs[0].key, excerpts, l, st);
      SectionsLedger(s, jobs[1..], excerpts, t.0, t.1, t.2);
      assert JobKeys(jobs) == [jobs[0].key] + JobKeys(jobs[1..]);
    }
  }

  // ---------------------------------------------------------------- quota exhaustion

  /** `n` waits of `d`, then `m` more, are `n + m` waits of `d`. */
  lemma {:induction false} RepeatAdd(d: Delay, n: nat, m: nat)
    ensures Repeat(d, n) + Repeat(d, m) == Repeat(d, n + m)
  {
    if n > 0 {
      RepeatAdd(d, n - 1, m);
      assert Repeat(d, n) + Repeat(d, m) == [d] + (Repeat(d, n - 1) + Repeat(d, m));
    }
  }

  /** Two waits, then `2 * (n - 1)`, are `2 * n` waits; none leaves the log as it was. */
  lemma TwoMoreWaits(log: seq<Delay>, d: Delay, n: nat)
    ensures n > 0 ==> (log + Repeat(d, 2)) + Repeat(d, 2 * (n - 1)) == log + Repeat(d, 2 * n)
    ensures log + Repeat(d, 2 * 0) == log
  {
    if n > 0 {
      RepeatAdd(d, 2, 2 * (n - 1));
      assert 2 + 2 * (n - 1) == 2 * n;
    }
  }

  /** `_generate_section` under a constant quota error: the exhausted-retries error after two waits, no citations. */
  lemma OutcomeQuota(s: Settings, prompt: string, key: string, excerpts: seq<Excerpt>,
                     l: Citations.Ledger, st: RunState, e: Exception, d: Delay)
    requires Citations.Consistent(l)
    requires forall n, c :: s.respond(n, c) == Raise(e)
    requires IsQuota(e) && QuotaDelay(s.quotaDelay, e.message) == Ok(d)
    ensures var o := SectionOutcome(s, prompt, key, excerpts, l, st);
      && o.0 == Err(Exhausted(3, Some(e)))
      && o.1 == l
      && o.2.env.sleeps == st.env.sleeps + Repeat(d, 2)
  {
    RetryQuota(s, prompt, 3, st, e, d);
  }

  /**
   * A section whose every attempt hits the same quota error: its text is the quota
   * placeholder, the ledger is untouched, and the state gains the two waits between the
   * three attempts and no one-second pause.
   */
  lemma SectionQuota(s: Settings, job: Job, excerpts: seq<Excerpt>, sections: OMap<string>,
                     l: Citations.Ledger, st: RunState, e: Exception, d: Delay)
    requires Valid(sections) && Citations.Consistent(l)
    requires forall n, c :: s.respond(n, c) == Raise(e)
    requires IsQuota(e) && QuotaDelay(s.quotaDelay, e.message) == Ok(d)
    ensures var t := SectionStep(s, job, excerpts, sections, l, st);
      && t.0 == Put(sections, job.key, QuotaPlaceholder(job.key))
      && t.1 == l
      && t.2.env.sleeps == st.env.sleeps + Repeat(d, 2)
  {
    OutcomeQuota(s, job.prompt, job.key, excerpts, l, st, e, d);
    ExhaustedQuotaText(job.key, 3, e);
  }

  /** The loop under a constant quota error: every key of a job holds its placeholder, every other key keeps its text. */
  lemma {:induction false} SectionsQuota(s: Settings, jobs: seq<Job>, excerpts: seq<Excerpt>, sections: OMap<string>,
                                         l: Citations.Ledger, st: RunState, e: Exception, d: Delay)
    requires Valid(sections) && Citations.Consistent(l)
    requires forall n, c :: s.respond(n, c) == Raise(e)
    requires IsQuota(e) && QuotaDelay(s.quotaDelay, e.message) == Ok(d)
    ensures var out := SectionsFrom(s, jobs, excerpts, sections, l, st);
      && (forall k :: k in out.0.values <==> k in sections.values || k in JobKeys(jobs))
      && (forall k :: k in out.0.values ==>
            out.0.values[k] == if k in JobKeys(jobs) then QuotaPlaceholder(k) else sections.values[k])
    decreases |jobs|
  {
    if jobs != [] {
      var t := SectionStep(s, jobs[0], excerpts, sections, l, st);
      SectionQuota(s, jobs[0], excerpts, sections, l, st, e, d);
      SectionsQuota(s, jobs[1..], excerpts, t.0, t.1, t.2, e, d);
      assert JobKeys(jobs) == [jobs[0].key] + JobKeys(jobs[1..]);
    }
  }

  /** The loop under a constant quota error cites nothing. */
  lemma {:induction false} SectionsQuotaLedger(s: Settings, jobs: seq<Job>, excerpts: seq<Excerpt>, sections: OMap<string>,
                                               l: Citations.Ledger, st: RunState, e: Exception, d: Delay)
    requires Valid(sections) && Citations.Consistent(l)
    requires forall n, c :: s.respond(n, c) == Raise(e)
    requires IsQuota(e) && QuotaDelay(s.quotaDelay, e.message) == Ok(d)
    ensures SectionsFrom(s, jobs, excerpts, sections, l, st).1 == l
    decreases |jobs|
  {
    if jobs != [] {
      var t := SectionStep(s, jobs[0], excerpts, sections, l, st);
      SectionQuota(s, jobs[0], excerpts, sections, l, st, e, d);
      SectionsQuotaLedger(s, jobs[1..], excerpts, t.0, t.1, t.2, e, d);
    }
  }

  /** The loop under a constant quota error: each section adds two waits of `d` and no one-second pause. */
  lemma {:induction false} SectionsQuotaWaits(s: Settings, jobs: seq<Job>, excerpts: seq<Excerpt>, sections: OMap<string>,
                                              l: Citations.Ledger, st: RunState, e: Exception, d: Delay)
    requires Valid(sections) && Citations.Consistent(l)
    requires forall n, c :: s.respond(n, c) == Raise(e)
    requires IsQuota(e) && QuotaDelay(s.quotaDelay, e.message) == Ok(d)
    ensures SectionsFrom(s, jobs, excerpts, sections, l, st).2.env.sleeps == st.env.sleeps + Repeat(d, 2 * |jobs|)
    decreases |jobs|
  {
    if jobs != [] {
      var t := SectionStep(s, jobs[0], excerpts, sections, l, st);
      SectionQuota(s, jobs[0], excerpts, sections, l, st, e, d);
      SectionsQuotaWaits(s, jobs[1..], excerpts, t.0, t.1, t.2, e, d);
      TwoMoreWaits(st.env.sleeps, d, |jobs|);
    } else {
      TwoMoreWaits(st.env.sleeps, d, 0);
    }
  }

  // ---------------------------------------------------------------- bibliography

  const BibliographyTitle := "Complete Bibliography & References"
  const NoCitations := "No papers were cited in this report."
  const DownloadedHeading := "Downloaded Papers"
  const MetadataHeading := "Additional References (Metadata Only)"
  const MetadataNote := " (Citation from available metadata)"

  /** The entry of a downloaded paper: authors, title and year, each closed by a full stop. */
  function BibEntry(r: Citations.PaperReference): string
  {
    r.authors + ". " + r.title + ". " + r.year + "."
  }

  /** The entry of a metadata-only paper: the same, with a note that it comes from metadata. */
  function MetadataEntry(r: Citations.PaperReference): (e: string)
    ensures e == BibEntry(r) + MetadataNote
  {
    r.authors + ". " + r.title + ". " + r.year + "." + MetadataNote
  }

  /** The papers `ids` name that the ledger has a reference for and whose download status is `downloaded`, in order. */
  function RefsWith(l: Citations.Ledger, ids: seq<string>, downloaded: bool): (rs: seq<Citations.PaperReference>)
    ensures |rs| <= |ids|
    ensures forall r :: r in rs ==> r.isDownloaded == downloaded && r in l.paperRefs.Values
    decreases |ids|
  {
    if ids == [] then []
    else
      var rest := RefsWith(l, ids[..|ids| - 1], downloaded);
      match Citations.PaperRef(l, ids[|ids| - 1])
      case Some(r) => if r.isDownloaded == downloaded then rest + [r] else rest
      case None => rest
  }

  /** The flowables of some entries: each entry's paragraph, then a small spacer. */
  function EntryLines(entries: seq<string>, body: string): (fs: seq<Flowable>)
    ensures |fs| == 2 * |entries|
    ensures forall i :: 0 <= i < |entries| ==> fs[2 * i] == Paragraph(entries[i], body) && fs[2 * i + 1] == Spacer(100, 400)
    decreases |entries|
  {
    if entries == [] then []
    else EntryLines(entries[..|entries| - 1], body) + [Paragraph(entries[|entries| - 1], body), Spacer(100, 400)]
  }

  /** One more entry adds its paragraph and spacer at the end. */
  lemma EntryLinesStep(entries: seq<string>, j: nat, body: string)
    requires j < |entries|
    ensures EntryLines(entries[..j + 1], body) == EntryLines(entries[..j], body) + [Paragraph(entries[j], body), Spacer(100, 400)]
  {
    assert entries[..j + 1][..j] == entries[..j];
  }

  /** A group of the bibliography: nothing when it has no entries, otherwise its heading and its entries. */
  function RefGroup(heading: string, entries: seq<string>, h2: string, body: string): seq<Flowable>
  {
    if entries == [] then [] else [Paragraph(heading, h2), Spacer(100, 800)] + EntryLines(entries, body)
  }

  function Entries(refs: seq<Citations.PaperReference>, downloaded: bool): (es: seq<string>)
    ensures |es| == |refs|
    ensures forall i :: 0 <= i < |refs| ==> es[i] == if downloaded then BibEntry(refs[i]) else MetadataEntry(refs[i])
  {
    seq(|refs|, i requires 0 <= i < |refs| => if downloaded then BibEntry(refs[i]) else MetadataEntry(refs[i]))
  }

  /**
   * What `_add_bibliography` appends: the title, then either the no-citation note or the
   * downloaded papers and the metadata-only papers, each group only when it has an entry.
   */
  function BibliographyOf(l: Citations.Ledger, h1: string, h2: string, body: string): seq<Flowable>
  {
    var cited := Citations.AllPapers(l);
    [Paragraph(BibliographyTitle, h1), Spacer(100, 1200)]
    + (if cited == [] then [Paragraph(NoCitations, body)] else Groups(l, cited, h2, body))
  }

  /** The two groups, downloaded papers first. */
  function Groups(l: Citations.Ledger, cited: seq<string>, h2: string, body: string): seq<Flowable>
  {
    RefGroup(DownloadedHeading, Entries(RefsWith(l, cited, true), true), h2, body)
    + RefGroup(MetadataHeading, Entries(RefsWith(l, cited, false), false), h2, body)
  }

  /** Papers with a reference fall into exactly one of the two groups. */
  lemma {:induction false} RefsPartition(l: Citations.Ledger, ids: seq<string>)
    requires forall i :: 0 <= i < |ids| ==> ids[i] in l.paperRefs
    ensures |RefsWith(l, ids, true)| + |RefsWith(l, ids, false)| == |ids|
    decreases |ids|
  {
    if ids != [] {
      RefsPartition(l, ids[..|ids| - 1]);
    }
  }

  /** A paper with a reference is listed in the group of its download status. */
  lemma {:induction false} RefsMember(l: Citations.Ledger, ids: seq<string>, i: nat)
    requires i < |ids| && ids[i] in l.paperRefs
    ensures l.paperRefs[ids[i]] in RefsWith(l, ids, l.paperRefs[ids[i]].isDownloaded)
    decreases |ids|
  {
    if i < |ids| - 1 {
      assert ids[..|ids| - 1][i] == ids[i];
      RefsMember(l, ids[..|ids| - 1], i);
    }
  }

  /** An entry's paragraph is among the lines of its group. */
  lemma EntryInLines(entries: seq<string>, i: nat, body: string)
    requires i < |entries|
    ensures Paragraph(entries[i], body) in EntryLines(entries, body)
  {
    assert EntryLines(entries, body)[2 * i] == Paragraph(entries[i], body);
  }

  /**
   * Every paper `get_all_papers` reports gets its entry in the bibliography: the plain one
   * when its PDF was downloaded, the one with the metadata note otherwise.
   */
  lemma BibliographyLists(l: Citations.Ledger, h1: string, h2: string, body: string, p: string)
    requires Citations.Consistent(l) && p in Citations.AllPapers(l)
    ensures var r := l.paperRefs[p];
      Paragraph(if r.isDownloaded then BibEntry(r) else MetadataEntry(r), body) in BibliographyOf(l, h1, h2, body)
  {
    var cited := Citations.AllPapers(l);
    Citations.AllPapersRegistered(l);
    var i :| 0 <= i < |cited| && cited[i] == p;
    var r := l.paperRefs[p];
    RefsMember(l, cited, i);
    var refs := RefsWith(l, cited, r.isDownloaded);
    var k :| 0 <= k < |refs| && refs[k] == r;
    var entries := Entries(refs, r.isDownloaded);
    EntryInLines(entries, k, body);
  }

  /**
   * The size of the bibliography: the title and its spacer, then the note alone, or for
   * each cited paper an entry and a spacer and for each non-empty group a heading and a spacer.
   */
  lemma BibliographyLength(l: Citations.Ledger, h1: string, h2: string, body: string)
    requires Citations.Consistent(l)
    ensures var cited := Citations.AllPapers(l);
      |BibliographyOf(l, h1, h2, body)| ==
        if cited == [] then 3
        else 2 + 2 * |cited|
             + (if RefsWith(l, cited, true) == [] then 0 else 2)
             + (if RefsWith(l, cited, false) == [] then 0 else 2)
  {
    Citations.AllPapersRegistered(l);
    RefsPartition(l, Citations.AllPapers(l));
  }
}
