/**
 * `GeminiSynthesizer`, the profile writer of the first scraper generation: a retry loop
 * with a doubling backoff around one generation attempt (a map-reduce over 4000-character
 * chunks for prompts over 8000 characters), the seven-section profile with its fallback
 * chain, the post-processing of insights, quotes and summaries, and the curation of
 * publications for the domain-expertise prompt.
 *
 * The model service is `Provider.Service`; what `_result_to_text` extracts from a response
 * is the text of an `Answer`.
 */
module ContentSynthesizer {
  import opened Wrappers
  import opened Text
  import opened OrderedMaps
  import opened Provider
  import Sorting

  // ---------------------------------------------------------------- one attempt

  /** The indentation of the reduce prompt's lines inside the method body. */
  const ReduceIndent := "                    "
  const ReduceHead := "                    Combine the following sections into a cohesive, structured chapter:"

  /** The reduce prompt: a fixed preamble, then the partial answers separated by blank lines. */
  function ReducePrompt(partials: seq<string>): string
  {
    Join(["", ReduceHead, ReduceIndent, ReduceIndent + Join(partials, "\n\n")], "\n")
  }

  /** The map-reduce branch: one call per 4000-character chunk, then one call on the joined answers. */
  function MapReduce(respond: Responder, env: Env, model: string, prompt: string): (Result<string, Exception>, Env)
  {
    var (r, env1) := AskAll(respond, env, model, Chunks(prompt, 4000));
    if r.Err? then (Err(r.error), env1)
    else
      var (reply, env2) := Ask(respond, env1, model, ReducePrompt(r.value));
      (ReplyResult(reply), env2)
  }

  /** The `try` body of one attempt: a prompt over 8000 characters goes through the map-reduce. */
  function Attempt(respond: Responder, env: Env, model: string, prompt: string): (Result<string, Exception>, Env)
  {
    if |prompt| > 8000 then MapReduce(respond, env, model, prompt)
    else
      var (reply, env1) := Ask(respond, env, model, prompt);
      (ReplyResult(reply), env1)
  }

  /**
   * One attempt makes at least one call and no sleep; a prompt of at most 8000 characters is
   * sent as it is, in exactly one call; a text it returns is the answer to its last call, and
   * an exception it raises is what its last call raised.
   */
  lemma AttemptFacts(respond: Responder, env: Env, model: string, prompt: string)
    ensures var (r, env1) := Attempt(respond, env, model, prompt);
      && env.calls < env1.calls && env1.sleeps == env.sleeps
      && (|prompt| <= 8000 ==> env1.calls == env.calls + [Call(model, prompt)])
      && (r.Ok? ==> LastAnswered(respond, env1, r.value))
      && (r.Err? ==> respond(|env1.calls| - 1, env1.calls[|env1.calls| - 1]) == Raise(r.error))
  {
    if |prompt| > 8000 {
      var chunks := Chunks(prompt, 4000);
      ChunksFacts(prompt, 4000);
      AskAllFacts(respond, env, model, chunks);
      var (r, env1) := AskAll(respond, env, model, chunks);
      if r.Ok? {
        AskRecords(respond, env1, model, ReducePrompt(r.value));
      }
    } else {
      AskRecords(respond, env, model, prompt);
    }
  }

  /**
   * A prompt over 8000 characters whose calls are all answered: `ceil(len / 4000)` calls on
   * the chunks, in order, then one reduce call on the chunk answers in order, whose answer
   * is the result.
   */
  lemma LongAttempt(respond: Responder, env: Env, model: string, prompt: string)
    requires |prompt| > 8000
    requires forall n, c :: respond(n, c).Answer?
    ensures var (r, env1) := Attempt(respond, env, model, prompt);
      var chunks := Chunks(prompt, 4000);
      var n := |env.calls|;
      && |chunks| == (|prompt| + 3999) / 4000
      && |env1.calls| == n + |chunks| + 1
      && (forall i :: 0 <= i < |chunks| ==> env1.calls[n + i] == Call(model, chunks[i]))
      && env1.calls[n + |chunks|] == Call(model, ReducePrompt(ChunkAnswers(respond, n, model, chunks)))
      && r == Ok(respond(n + |chunks|, env1.calls[n + |chunks|]).text)
  {
    var chunks := Chunks(prompt, 4000);
    ChunkCount(prompt);
    AnsweredPhase(respond, env, model, chunks);
    var (r, env1) := AskAll(respond, env, model, chunks);
    AskRecords(respond, env1, model, ReducePrompt(r.value));
  }

  // ---------------------------------------------------------------- the retry loop

  /** The `RuntimeError` raised once every attempt has failed. */
  const GenerationFailed := Exception("RuntimeError", "generation failed after retries")

  /** The default `max_retries`. */
  const MaxRetries: nat := 5

  /** The sleep after the failure of attempt `attempt` (counted from 0): the backoff starts at 2 seconds and doubles. */
  function Backoff(attempt: nat): Delay
  {
    Delay(2 * Pow2(attempt), 0)
  }

  /** The sleeps after the failures of attempts `from`, ..., `to - 1`. */
  function Backoffs(from: nat, to: nat): (ds: seq<Delay>)
    requires from <= to
  {
    seq(to - from, i requires 0 <= i < to - from => Backoff(from + i))
  }

  /** `_generate_with_chunking` from attempt `attempt` on: every failure is followed by its sleep. */
  function Generation(respond: Responder, env: Env, model: string, prompt: string, maxRetries: nat, attempt: nat)
    : (Result<string, Exception>, Env)
    requires attempt <= maxRetries
    decreases maxRetries - attempt
  {
    if attempt == maxRetries then (Err(GenerationFailed), env)
    else
      var (r, env1) := Attempt(respond, env, model, prompt);
      if r.Ok? then (r, env1)
      else Generation(respond, Slept(env1, Backoff(attempt)), model, prompt, maxRetries, attempt + 1)
  }

  lemma BackoffsCons(from: nat, to: nat)
    requires from < to
    ensures Backoffs(from, to) == [Backoff(from)] + Backoffs(from + 1, to)
  {
  }

  /**
   * When generation fails, every attempt left has failed: it raises the `RuntimeError`, has
   * slept after each attempt (the last one too) with the doubling backoff, and has made at
   * least one call per attempt.
   */
  lemma {:induction false} GenerationFails(respond: Responder, env: Env, model: string, prompt: string, maxRetries: nat, attempt: nat)
    requires attempt <= maxRetries
    ensures var (r, env') := Generation(respond, env, model, prompt, maxRetries, attempt);
      r.Err? ==>
        && r.error == GenerationFailed
        && env'.sleeps == env.sleeps + Backoffs(attempt, maxRetries)
        && |env'.calls| >= |env.calls| + (maxRetries - attempt)
    decreases maxRetries - attempt
  {
    if attempt < maxRetries {
      var (r, env1) := Attempt(respond, env, model, prompt);
      AttemptFacts(respond, env, model, prompt);
      if r.Err? {
        var env2 := Slept(env1, Backoff(attempt));
        GenerationFails(respond, env2, model, prompt, maxRetries, attempt + 1);
        BackoffsCons(attempt, maxRetries);
        assert env.sleeps + Backoffs(attempt, maxRetries) == env2.sleeps + Backoffs(attempt + 1, maxRetries);
      }
    }
  }

  /**
   * When generation succeeds, the text is the answer to the last call, and it slept once per
   * failed attempt before the successful one, with the doubling backoff: fewer sleeps than
   * attempts allowed.
   */
  lemma {:induction false} GenerationSucceeds(respond: Responder, env: Env, model: string, prompt: string, maxRetries: nat, attempt: nat)
    requires attempt <= maxRetries
    ensures var (r, env') := Generation(respond, env, model, prompt, maxRetries, attempt);
      r.Ok? ==>
        && LastAnswered(respond, env', r.value)
        && env.sleeps <= env'.sleeps
        && |env'.sleeps| < |env.sleeps| + (maxRetries - attempt)
        && env'.sleeps == env.sleeps + Backoffs(attempt, attempt + (|env'.sleeps| - |env.sleeps|))
    decreases maxRetries - attempt
  {
    if attempt < maxRetries {
      var (r, env1) := Attempt(respond, env, model, prompt);
      AttemptFacts(respond, env, model, prompt);
      if r.Ok? {
        assert Backoffs(attempt, attempt) == [];
      } else {
        var env2 := Slept(env1, Backoff(attempt));
        GenerationSucceeds(respond, env2, model, prompt, maxRetries, attempt + 1);
        var (r', env') := Generation(respond, env2, model, prompt, maxRetries, attempt + 1);
        if r'.Ok? {
          var k := |env'.sleeps| - |env2.sleeps|;
          BackoffsCons(attempt, attempt + 1 + k);
          assert env.sleeps + Backoffs(attempt, attempt + 1 + k) == env2.sleeps + Backoffs(attempt + 1, attempt + 1 + k);
        }
      }
    }
  }

  /** Generation only adds to the call log. */
  lemma {:induction false} GenerationCalls(respond: Responder, env: Env, model: string, prompt: string, maxRetries: nat, attempt: nat)
    requires attempt <= maxRetries
    ensures env.calls <= Generation(respond, env, model, prompt, maxRetries, attempt).1.calls
    decreases maxRetries - attempt
  {
    if attempt < maxRetries {
      var (r, env1) := Attempt(respond, env, model, prompt);
      AttemptFacts(respond, env, model, prompt);
      if r.Err? {
        GenerationCalls(respond, Slept(env1, Backoff(attempt)), model, prompt, maxRetries, attempt + 1);
      }
    }
  }

  /**
   * A prompt of at most 8000 characters: every attempt is one call on the prompt itself, so
   * the calls made are the failed attempts (one sleep each) plus the successful one.
   */
  lemma {:induction false} ShortGeneration(respond: Responder, env: Env, model: string, prompt: string, maxRetries: nat, attempt: nat)
    requires attempt <= maxRetries && |prompt| <= 8000
    ensures var (r, env') := Generation(respond, env, model, prompt, maxRetries, attempt);
      && env.calls <= env'.calls && env.sleeps <= env'.sleeps
      && |env'.calls| - |env.calls| == |env'.sleeps| - |env.sleeps| + (if r.Ok? then 1 else 0)
      && forall i :: |env.calls| <= i < |env'.calls| ==> env'.calls[i] == Call(model, prompt)
    decreases maxRetries - attempt
  {
    if attempt < maxRetries {
      var (r, env1) := Attempt(respond, env, model, prompt);
      AttemptFacts(respond, env, model, prompt);
      if r.Err? {
        var env2 := Slept(env1, Backoff(attempt));
        ShortGeneration(respond, env2, model, prompt, maxRetries, attempt + 1);
      }
    }
  }

  /** When every call raises, each attempt is one call, and generation fails after all of them and all the sleeps. */
  lemma {:induction false} GenerationAlwaysFails(respond: Responder, env: Env, model: string, prompt: string, maxRetries: nat, attempt: nat, e: Exception)
    requires attempt <= maxRetries
    requires forall n, c :: respond(n, c) == Raise(e)
    ensures var (r, env') := Generation(respond, env, model, prompt, maxRetries, attempt);
      && r == Err(GenerationFailed)
      && |env'.calls| == |env.calls| + (maxRetries - attempt)
      && env'.sleeps == env.sleeps + Backoffs(attempt, maxRetries)
    decreases maxRetries - attempt
  {
    if attempt < maxRetries {
      var (r, env1) := Attempt(respond, env, model, prompt);
      AlwaysFailingAttempt(respond, env, model, prompt, e);
      var env2 := Slept(env1, Backoff(attempt));
      GenerationAlwaysFails(respond, env2, model, prompt, maxRetries, attempt + 1, e);
      BackoffsCons(attempt, maxRetries);
      assert env.sleeps + Backoffs(attempt, maxRetries) == env2.sleeps + Backoffs(attempt + 1, maxRetries);
    }
  }

  /** When every call raises `e`, an attempt makes exactly one call and fails with `e`. */
  lemma AlwaysFailingAttempt(respond: Responder, env: Env, model: string, prompt: string, e: Exception)
    requires forall n, c :: respond(n, c) == Raise(e)
    ensures var (r, env1) := Attempt(respond, env, model, prompt);
      r == Err(e) && |env1.calls| == |env.calls| + 1 && env1.sleeps == env.sleeps
  {
    if |prompt| > 8000 {
      var chunks := Chunks(prompt, 4000);
      ChunksFacts(prompt, 4000);
      assert chunks != [];
      assert AskAll(respond, env, model, chunks) == (Err(e), Env(env.calls + [Call(model, chunks[0])], env.sleeps));
    }
  }

  /** When no call raises, the first attempt succeeds: generation is that attempt and it never sleeps. */
  lemma AlwaysAnswered(respond: Responder, env: Env, model: string, prompt: string, maxRetries: nat)
    requires 0 < maxRetries
    requires forall n, c :: respond(n, c).Answer?
    ensures Attempt(respond, env, model, prompt).0.Ok?
    ensures Generation(respond, env, model, prompt, maxRetries, 0) == Attempt(respond, env, model, prompt)
  {
    AttemptFacts(respond, env, model, prompt);
  }

  // ---------------------------------------------------------------- the fallback section

  /** The text stored when even the fallback call fails. */
  const Pending := "Section pending – insufficient data or temporary error."

  const ExpertiseOutline := "Summarize CBBE pyramid, brand resonance, positioning, IMC, brand architecture, measurement, and applications to digital/social. Provide 6–8 cohesive paragraphs with definitions and examples."
  const BackgroundOutline := "Give a structured 3–4 page overview of roles, affiliations (Dartmouth/Tuck; earlier Stanford/Berkeley/UNC/Duke), major achievements, and influence."
  const LeadershipOutline := "Synthesize books/articles, talks, and public stance on branding. Provide a 4–5 page narrative with notable ideas and their evolution."
  const DefaultOutline := "Provide a cohesive 2–3 page narrative summary of this section."

  /** `outlines.get(section, default)`. */
  function FallbackHint(section: string): string
  {
    if section == DomainExpertise then ExpertiseOutline
    else if section == ProfessionalBackground then BackgroundOutline
    else if section == ThoughtLeadership then LeadershipOutline
    else DefaultOutline
  }

  function UpperChar(c: char): char
  {
    if 'a' <= c <= 'z' then (c as int - 32) as char else c
  }

  /** `s.title()` on the ASCII range, `afterLetter` telling whether the character before `s` was a letter. */
  function TitleFrom(s: string, afterLetter: bool): (r: string)
    ensures |r| == |s|
    ensures forall i :: 0 <= i < |s| && !IsAsciiLetter(s[i]) ==> r[i] == s[i]
    ensures forall i :: 0 <= i < |s| && IsAsciiLetter(s[i]) ==>
      r[i] == if (if i == 0 then afterLetter else IsAsciiLetter(s[i - 1])) then LowerChar(s[i]) else UpperChar(s[i])
  {
    if s == [] then []
    else
      var c := if !IsAsciiLetter(s[0]) then s[0] else if afterLetter then LowerChar(s[0]) else UpperChar(s[0]);
      var rest := TitleFrom(s[1..], IsAsciiLetter(s[0]));
      assert forall i :: 1 <= i < |s| ==> s[1..][i - 1] == s[i];
      [c] + rest
  }

  /** `s.title()`: a letter is upper-cased when it starts a run of letters and lower-cased otherwise. */
  function Title(s: string): string
  {
    TitleFrom(s, false)
  }

  /** The one prompt of `_fallback_section`. */
  function FallbackPrompt(section: string): string
  {
    "Create the section '" + Title(Replace(section, "_", " ")) + "' for Kevin Lane Keller. " + FallbackHint(section)
  }

  /** `_fallback_section`: one call; an exception gives the pending text. */
  function Fallback(respond: Responder, env: Env, model: string, section: string): (string, Env)
  {
    var (reply, env1) := Ask(respond, env, model, FallbackPrompt(section));
    (if reply.Answer? then reply.text else Pending, env1)
  }

  /** One iteration of `synthesize_person_profile`: the generated text, or the fallback when generation failed. */
  function SectionValue(respond: Responder, env: Env, model: string, section: string, prompt: string): (string, Env)
  {
    var (r, env1) := Generation(respond, env, model, prompt, MaxRetries, 0);
    if r.Ok? then (r.value, env1) else Fallback(respond, env1, model, section)
  }

  /**
   * A section whose generation succeeded holds the generated text; one whose generation failed
   * slept 2, 4, 8, 16 and 32 seconds, then made the fallback call, and holds its answer or the
   * pending text when it raised.
   */
  lemma SectionValueFacts(respond: Responder, env: Env, model: string, section: string, prompt: string)
    ensures var (v, env') := SectionValue(respond, env, model, section, prompt);
      var (r, env1) := Generation(respond, env, model, prompt, MaxRetries, 0);
      && env.calls <= env'.calls
      && (r.Ok? ==> v == r.value && env' == env1 && LastAnswered(respond, env', v))
      && (r.Err? ==>
            && env'.sleeps == env.sleeps + Backoffs(0, MaxRetries)
            && env'.calls == env1.calls + [Call(model, FallbackPrompt(section))]
            && v == (if respond(|env1.calls|, Call(model, FallbackPrompt(section))).Answer?
                     then respond(|env1.calls|, Call(model, FallbackPrompt(section))).text else Pending))
  {
    GenerationFails(respond, env, model, prompt, MaxRetries, 0);
    GenerationSucceeds(respond, env, model, prompt, MaxRetries, 0);
    GenerationCalls(respond, env, model, prompt, MaxRetries, 0);
  }

  // ---------------------------------------------------------------- the profile

  const ExecutiveSummary := "executive_summary"
  const PersonalityProfile := "personality_profile"
  const DomainExpertise := "domain_expertise"
  const ProfessionalBackground := "professional_background"
  const WritingStyle := "writing_style"
  const ThoughtLeadership := "thought_leadership"
  const NetworkInfluence := "network_influence"

  /** The seven sections, in the order of the prompt dict. */
  const SectionKeys: seq<string> := [ExecutiveSummary, PersonalityProfile, DomainExpertise,
    ProfessionalBackground, WritingStyle, ThoughtLeadership, NetworkInfluence]

  /** The six prompts built from Python reprs of the scraped data; the expertise prompt is built from the publications. */
  datatype DataPrompts = DataPrompts(executiveSummary: string, personality: string, background: string,
                                     writingStyle: string, thoughtLeadership: string, network: string)

  /** The prompt dict's values, in key order. */
  function SynthesisPrompts(d: DataPrompts, pubs: seq<Publication>): (ps: seq<string>)
    ensures |ps| == |SectionKeys|
  {
    [d.executiveSummary, d.personality, ExpertisePrompt(pubs), d.background, d.writingStyle,
     d.thoughtLeadership, d.network]
  }

  /** One iteration of the profile loop, as a function of the service record, the key and the prompt. */
  type Step = (Env, string, string) -> (string, Env)

  /** The iteration of `synthesize_person_profile` against the given service and model. */
  function SectionStep(respond: Responder, model: string): Step
  {
    (env: Env, section: string, prompt: string) => SectionValue(respond, env, model, section, prompt)
  }

  /** The loop over the prompt dict from `keys[0]` on, storing into `acc`. */
  function Fill(step: Step, env: Env, keys: seq<string>, prompts: seq<string>, acc: OMap<string>): (OMap<string>, Env)
    requires |keys| == |prompts| && Valid(acc)
    decreases |keys|
  {
    if keys == [] then (acc, env)
    else
      var (v, env1) := step(env, keys[0], prompts[0]);
      Fill(step, env1, keys[1..], prompts[1..], Put(acc, keys[0], v))
  }

  /** `synthesize_person_profile`, given the prompt dict's values. */
  function Profile(respond: Responder, env: Env, model: string, prompts: seq<string>): (OMap<string>, Env)
    requires |prompts| == |SectionKeys|
  {
    Fill(SectionStep(respond, model), env, SectionKeys, prompts, Empty())
  }

  /** Storing under keys not yet present appends them, in order. */
  lemma {:induction false} FillKeys(step: Step, env: Env, keys: seq<string>, prompts: seq<string>, acc: OMap<string>)
    requires |keys| == |prompts| && Valid(acc) && NoDup(acc.keys + keys)
    ensures Fill(step, env, keys, prompts, acc).0.keys == acc.keys + keys
    decreases |keys|
  {
    if keys != [] {
      var (v, env1) := step(env, keys[0], prompts[0]);
      var acc1 := Put(acc, keys[0], v);
      assert (acc.keys + keys)[|acc.keys|] == keys[0];
      assert keys[0] !in acc.keys by {
        forall i | 0 <= i < |acc.keys| ensures acc.keys[i] != keys[0] {
          assert (acc.keys + keys)[i] == acc.keys[i];
        }
      }
      assert acc1.keys == acc.keys + [keys[0]];
      assert acc1.keys + keys[1..] == acc.keys + keys;
      FillKeys(step, env1, keys[1..], prompts[1..], acc1);
    }
  }

  /** The seven keys differ in their length or in their first letter. */
  lemma SectionKeysDistinct()
    ensures NoDup(Empty<string>().keys + SectionKeys)
  {
    var lengths := [17, 19, 16, 23, 13, 18, 17];
    var initials := ['e', 'p', 'd', 'p', 'w', 't', 'n'];
    assert |ExecutiveSummary| == 17 && ExecutiveSummary[0] == 'e';
    assert |PersonalityProfile| == 19 && PersonalityProfile[0] == 'p';
    assert |DomainExpertise| == 16 && DomainExpertise[0] == 'd';
    assert |ProfessionalBackground| == 23 && ProfessionalBackground[0] == 'p';
    assert |WritingStyle| == 13 && WritingStyle[0] == 'w';
    assert |ThoughtLeadership| == 18 && ThoughtLeadership[0] == 't';
    assert |NetworkInfluence| == 17 && NetworkInfluence[0] == 'n';
    assert forall i :: 0 <= i < 7 ==> |SectionKeys[i]| == lengths[i] && SectionKeys[i][0] == initials[i];
    assert forall i, j :: 0 <= i < j < 7 ==> lengths[i] != lengths[j] || initials[i] != initials[j];
    assert Empty<string>().keys + SectionKeys == SectionKeys;
  }

  /** The profile has exactly the seven section keys, in order, whatever the service does. */
  lemma ProfileKeys(respond: Responder, env: Env, model: string, prompts: seq<string>)
    requires |prompts| == |SectionKeys|
    ensures Profile(respond, env, model, prompts).0.keys == SectionKeys
  {
    SectionKeysDistinct();
    FillKeys(SectionStep(respond, model), env, SectionKeys, prompts, Empty());
    assert Empty<string>().keys + SectionKeys == SectionKeys;
  }

  /** `d` repeated `n` times. */
  function Repeated<T>(d: seq<T>, n: nat): seq<T>
  {
    if n == 0 then [] else d + Repeated(d, n - 1)
  }

  lemma MulStep(a: nat, n: nat)
    requires n > 0
    ensures a * n == a + a * (n - 1)
  {
  }

  /** When every iteration stores `v`, the loop stores `v` under every key and keeps the other entries. */
  lemma {:induction false} FillAllSame(step: Step, env: Env, keys: seq<string>, prompts: seq<string>, acc: OMap<string>, v: string)
    requires |keys| == |prompts| && Valid(acc)
    requires forall e: Env, k: string, p: string :: step(e, k, p).0 == v
    ensures var m := Fill(step, env, keys, prompts, acc).0;
      && (forall k :: k in keys ==> k in m.values && m.values[k] == v)
      && (forall k :: k in acc.values && k !in keys ==> k in m.values && m.values[k] == acc.values[k])
    decreases |keys|
  {
    if keys != [] {
      var (v1, env1) := step(env, keys[0], prompts[0]);
      var acc1 := Put(acc, keys[0], v1);
      FillAllSame(step, env1, keys[1..], prompts[1..], acc1, v);
      var m := Fill(step, env, keys, prompts, acc).0;
      assert m == Fill(step, env1, keys[1..], prompts[1..], acc1).0;
      assert keys[0] in acc1.values && acc1.values[keys[0]] == v;
      forall k | k in keys ensures k in m.values && m.values[k] == v {
        InHeadOrTail(keys, k);
      }
      forall k | k in acc.values && k !in keys ensures k in m.values && m.values[k] == acc.values[k] {
        assert k != keys[0] && k !in keys[1..];
      }
    }
  }

  lemma InHeadOrTail(keys: seq<string>, k: string)
    requires k in keys
    ensures k == keys[0] || k in keys[1..]
  {
    var i :| 0 <= i < |keys| && keys[i] == k;
    if i > 0 { assert keys[1..][i - 1] == k; }
  }

  /** When every iteration makes `calls` calls and the sleeps `waits`, the loop does so once per key. */
  lemma {:induction false} FillAllCost(step: Step, env: Env, keys: seq<string>, prompts: seq<string>, acc: OMap<string>,
                                       calls: nat, waits: seq<Delay>)
    requires |keys| == |prompts| && Valid(acc)
    requires forall e: Env, k: string, p: string :: |step(e, k, p).1.calls| == |e.calls| + calls && step(e, k, p).1.sleeps == e.sleeps + waits
    ensures var env' := Fill(step, env, keys, prompts, acc).1;
      |env'.calls| == |env.calls| + calls * |keys| && env'.sleeps == env.sleeps + Repeated(waits, |keys|)
    decreases |keys|
  {
    if keys != [] {
      var (v1, env1) := step(env, keys[0], prompts[0]);
      var acc1 := Put(acc, keys[0], v1);
      FillAllCost(step, env1, keys[1..], prompts[1..], acc1, calls, waits);
      MulStep(calls, |keys|);
      Associative(env.sleeps, waits, Repeated(waits, |keys| - 1));
    }
  }

  /** When every call raises, a section makes six calls (five attempts and the fallback), sleeps five times and holds the pending text. */
  lemma SectionAllFail(respond: Responder, env: Env, model: string, section: string, prompt: string, e: Exception)
    requires forall n, c :: respond(n, c) == Raise(e)
    ensures var (v, env') := SectionValue(respond, env, model, section, prompt);
      v == Pending && |env'.calls| == |env.calls| + 6 && env'.sleeps == env.sleeps + Backoffs(0, MaxRetries)
  {
    GenerationAlwaysFails(respond, env, model, prompt, MaxRetries, 0, e);
  }

  /** When every call raises, all seven sections hold the pending text after 42 calls and 35 sleeps. */
  lemma ProfileAllFail(respond: Responder, env: Env, model: string, prompts: seq<string>, e: Exception)
    requires |prompts| == |SectionKeys|
    requires forall n, c :: respond(n, c) == Raise(e)
    ensures var (m, env') := Profile(respond, env, model, prompts);
      && (forall k :: k in SectionKeys ==> k in m.values && m.values[k] == Pending)
      && |env'.calls| == |env.calls| + 42
      && env'.sleeps == env.sleeps + Repeated(Backoffs(0, MaxRetries), 7)
  {
    var step := SectionStep(respond, model);
    forall e0: Env, k: string, p: string ensures step(e0, k, p).0 == Pending && |step(e0, k, p).1.calls| == |e0.calls| + 6
                         && step(e0, k, p).1.sleeps == e0.sleeps + Backoffs(0, MaxRetries) {
      SectionAllFail(respond, e0, model, k, p, e);
    }
    FillAllSame(step, env, SectionKeys, prompts, Empty(), Pending);
    FillAllCost(step, env, SectionKeys, prompts, Empty(), 6, Backoffs(0, MaxRetries));
  }

  /** Some call in the log was answered with `t`. */
  ghost predicate Answered(respond: Responder, env: Env, t: string)
  {
    exists j :: 0 <= j < |env.calls| && respond(j, env.calls[j]) == Answer(t)
  }

  lemma AnsweredGrows(respond: Responder, env: Env, env': Env, t: string)
    requires Answered(respond, env, t) && env.calls <= env'.calls
    ensures Answered(respond, env', t)
  {
    var j :| 0 <= j < |env.calls| && respond(j, env.calls[j]) == Answer(t);
    assert env'.calls[j] == env.calls[j];
  }

  /** A step that only adds calls and stores the pending text or the answer to its last call. */
  ghost predicate AnswersOrPending(respond: Responder, step: Step)
  {
    forall e: Env, k: string, p: string :: e.calls <= step(e, k, p).1.calls
                   && (step(e, k, p).0 == Pending || LastAnswered(respond, step(e, k, p).1, step(e, k, p).0))
  }

  /** With such a step, every value the loop stores is the pending text or a text the service answered. */
  lemma {:induction false} FillAnswered(respond: Responder, step: Step, env: Env, keys: seq<string>, prompts: seq<string>, acc: OMap<string>)
    requires |keys| == |prompts| && Valid(acc) && AnswersOrPending(respond, step)
    requires forall k :: k in acc.values ==> acc.values[k] == Pending || Answered(respond, env, acc.values[k])
    ensures var (m, env') := Fill(step, env, keys, prompts, acc);
      && env.calls <= env'.calls
      && forall k :: k in m.values ==> m.values[k] == Pending || Answered(respond, env', m.values[k])
    decreases |keys|
  {
    if keys != [] {
      var (v, env1) := step(env, keys[0], prompts[0]);
      var acc1 := Put(acc, keys[0], v);
      assert env.calls <= env1.calls && (v == Pending || LastAnswered(respond, env1, v));
      forall k | k in acc1.values ensures acc1.values[k] == Pending || Answered(respond, env1, acc1.values[k]) {
        if k == keys[0] {
          if v != Pending {
            assert respond(|env1.calls| - 1, env1.calls[|env1.calls| - 1]) == Answer(v);
          }
        } else if acc.values[k] != Pending {
          AnsweredGrows(respond, env, env1, acc.values[k]);
        }
      }
      FillAnswered(respond, step, env1, keys[1..], prompts[1..], acc1);
    }
  }

  /** A section's value is the pending text or the answer to the last call it made. */
  lemma SectionAnswered(respond: Responder, env: Env, model: string, section: string, prompt: string)
    ensures var (v, env') := SectionValue(respond, env, model, section, prompt);
      env.calls <= env'.calls && (v == Pending || LastAnswered(respond, env', v))
  {
    SectionValueFacts(respond, env, model, section, prompt);
  }

  /** Every value of the profile is the pending text or one of the service's answers. */
  lemma ProfileAnswered(respond: Responder, env: Env, model: string, prompts: seq<string>)
    requires |prompts| == |SectionKeys|
    ensures var (m, env') := Profile(respond, env, model, prompts);
      forall k :: k in m.values ==> m.values[k] == Pending || Answered(respond, env', m.values[k])
  {
    var step := SectionStep(respond, model);
    forall e0: Env, k: string, p: string ensures e0.calls <= step(e0, k, p).1.calls
                         && (step(e0, k, p).0 == Pending || LastAnswered(respond, step(e0, k, p).1, step(e0, k, p).0)) {
      SectionAnswered(respond, e0, model, k, p);
    }
    FillAnswered(respond, step, env, SectionKeys, prompts, Empty());
  }

  // ---------------------------------------------------------------- insights, quotes, summaries

  /** The indentation of the prompts' lines inside the method bodies. */
  const PromptIndent := "        "

  const InsightsLine2 := "        Each insight should be a clear, actionable statement."
  const InsightsLine4 := "        Return only the insights, one per line, without numbering or bullet points."

  /** The prompt of `extract_key_insights`, one list element per line. */
  function InsightsPrompt(content: string, maxInsights: nat): string
  {
    Join(["", PromptIndent + "Extract the " + NatToString(maxInsights) + " most important insights from the following content.",
          InsightsLine2, PromptIndent, PromptIndent + "Content: " + content, PromptIndent, InsightsLine4, PromptIndent], "\n")
  }

  const SummaryLine2 := "        Maintain the key points and tone of the original."

  /** The prompt of `summarize_content`. */
  function SummaryPrompt(content: string, maxLength: nat): string
  {
    Join(["", PromptIndent + "Summarize the following content in approximately " + NatToString(maxLength) + " words.",
          SummaryLine2, PromptIndent, PromptIndent + "Content: " + content, PromptIndent], "\n")
  }

  const QuotesLine2 := "        that capture their voice, style, and key messages. Make them sound authentic to their personality."
  const QuotesLine4 := "        Return only the quotes, one per line, without quotation marks or attribution."

  /** The prompt of `generate_quotes`; `dataRepr` is `str(data)`. */
  function QuotesPrompt(dataRepr: string, maxQuotes: nat): string
  {
    Join(["", PromptIndent + "Based on the following data about this person, generate " + NatToString(maxQuotes) + " representative quotes",
          QuotesLine2, PromptIndent, PromptIndent + "Data: " + dataRepr, PromptIndent, QuotesLine4, PromptIndent], "\n")
  }

  /** `[line.strip() for line in lines if line.strip()]`. */
  function KeptLines(lines: seq<string>): seq<string>
  {
    if lines == [] then []
    else (if Strip(lines[0]) != "" then [Strip(lines[0])] else []) + KeptLines(lines[1..])
  }

  /**
   * The kept lines are exactly the non-blank lines, stripped: each is non-empty with no
   * whitespace at either end, and there are no more of them than lines.
   */
  lemma {:induction false} KeptLinesFacts(lines: seq<string>)
    ensures |KeptLines(lines)| <= |lines|
    ensures forall y :: y in KeptLines(lines) ==> y != "" && !IsSpace(y[0]) && !IsSpace(y[|y| - 1])
    ensures forall y :: y in KeptLines(lines) <==> exists i :: 0 <= i < |lines| && Strip(lines[i]) == y && y != ""
  {
    if lines != [] {
      KeptLinesFacts(lines[1..]);
      var head := if Strip(lines[0]) != "" then [Strip(lines[0])] else [];
      assert KeptLines(lines) == head + KeptLines(lines[1..]);
      forall y ensures y in KeptLines(lines) <==> exists i :: 0 <= i < |lines| && Strip(lines[i]) == y && y != "" {
        if y in KeptLines(lines[1..]) {
          var i :| 0 <= i < |lines[1..]| && Strip(lines[1..][i]) == y && y != "";
          assert lines[i + 1] == lines[1..][i];
        }
        if exists i :: 0 <= i < |lines| && Strip(lines[i]) == y && y != "" {
          var i :| 0 <= i < |lines| && Strip(lines[i]) == y && y != "";
          if i > 0 {
            assert lines[1..][i - 1] == lines[i];
          }
        }
      }
    }
  }

  /** What `extract_key_insights` and `generate_quotes` return for a generation outcome: the first `max` kept lines, or `[]`. */
  function LinesResult(r: Result<string, Exception>, max: nat): seq<string>
  {
    if r.Ok? then Take(KeptLines(Split(r.value, "\n")), max) else []
  }

  /**
   * At most `max` lines, each a non-blank line of the generated text, stripped; the first
   * `max` of them in order when there are more; nothing when generation failed.
   */
  lemma LinesResultFacts(r: Result<string, Exception>, max: nat)
    ensures |LinesResult(r, max)| <= max
    ensures r.Err? ==> LinesResult(r, max) == []
    ensures r.Ok? ==> LinesResult(r, max) <= KeptLines(Split(r.value, "\n"))
    ensures r.Ok? ==> |LinesResult(r, max)| == if max < |KeptLines(Split(r.value, "\n"))| then max else |KeptLines(Split(r.value, "\n"))|
    ensures r.Ok? ==> forall y :: y in LinesResult(r, max) ==>
      y != "" && !IsSpace(y[0]) && !IsSpace(y[|y| - 1]) && exists line :: line in Split(r.value, "\n") && Strip(line) == y
  {
    if r.Ok? {
      var lines := Split(r.value, "\n");
      KeptLinesFacts(lines);
      var out := LinesResult(r, max);
      forall y | y in out ensures y in KeptLines(lines) {
        var i :| 0 <= i < |out| && out[i] == y;
        assert KeptLines(lines)[i] == y;
      }
    }
  }

  /** The `except` path of `summarize_content`: the first `max_length` characters and an ellipsis, when longer. */
  function SummaryFallback(content: string, maxLength: nat): string
  {
    if |content| > maxLength then content[..maxLength] + "..." else content
  }

  /**
   * The fallback summary keeps the content when it fits; otherwise it is its first
   * `max_length` characters followed by `...`, so never more than three characters over.
   */
  lemma SummaryFallbackFacts(content: string, maxLength: nat)
    ensures var s := SummaryFallback(content, maxLength);
      && (|content| <= maxLength ==> s == content)
      && |s| <= maxLength + 3
      && (|content| > maxLength ==> s[..maxLength] == content[..maxLength] && EndsWith(s, "..."))
  {
  }

  /** What `summarize_content` returns for a generation outcome. */
  function SummaryResult(r: Result<string, Exception>, content: string, maxLength: nat): string
  {
    if r.Ok? then r.value else SummaryFallback(content, maxLength)
  }

  // ---------------------------------------------------------------- curated publications

  /**
   * A publication record of the scholar data; a missing `title`, `year`, `venue` or
   * `abstract` is the empty string and the citation count is an integer.
   */
  datatype Publication = Publication(title: string, year: string, venue: string, abstractText: string, citations: int)

  const Keywords: seq<string> := ["brand", "branding", "brand equity", "positioning", "resonance",
    "loyalty", "architecture", "portfolio", "imc", "communication"]

  /** `k in title or k in venue or k in abstract`, lower-cased. */
  predicate Mentions(p: Publication, k: string)
  {
    Contains(Lower(p.title), k) || Contains(Lower(p.venue), k) || Contains(Lower(p.abstractText), k)
  }

  /** The number of keywords of `ks` the publication mentions. */
  function Hits(p: Publication, ks: seq<string>): (n: nat)
    ensures n <= |ks|
  {
    if ks == [] then 0 else (if Mentions(p, ks[0]) then 1 else 0) + Hits(p, ks[1..])
  }

  /** `score_pub`. */
  function Score(p: Publication): int
  {
    Hits(p, Keywords) * 1000 + p.citations
  }

  /** A keyword hit outweighs any citation count below 1000. */
  lemma HitsDominate(p: Publication, q: Publication)
    requires 0 <= p.citations < 1000 && 0 <= q.citations < 1000
    ensures Hits(p, Keywords) > Hits(q, Keywords) ==> Score(p) > Score(q)
    ensures Score(p) >= Score(q) ==> Hits(p, Keywords) >= Hits(q, Keywords)
  {
  }

  /** `sorted(pubs, key=score_pub, reverse=True)[:25]`. */
  function Curated(pubs: seq<Publication>): seq<Publication>
  {
    Take(Sorting.SortDesc(pubs, Score), 25)
  }

  /**
   * The curated list holds the first 25 publications by score (all of them when there are
   * fewer), taken from the input, in non-increasing score order.
   */
  lemma CuratedFacts(pubs: seq<Publication>)
    ensures var c := Curated(pubs);
      && |c| == (if |pubs| < 25 then |pubs| else 25)
      && multiset(c) <= multiset(pubs)
      && Sorting.SortedDesc(c, Score)
  {
    var s := Sorting.SortDesc(pubs, Score);
    var c := Curated(pubs);
    assert s == c + s[|c|..];
    assert multiset(s) == multiset(c) + multiset(s[|c|..]);
    Sorting.SortedDescPrefix(s, Score, |c|);
    assert c == s[..|c|];
  }

  /** Every publication left out of the curated list scores no higher than any kept one. */
  lemma CuratedTop(pubs: seq<Publication>)
    ensures forall p, q :: p in multiset(pubs) - multiset(Curated(pubs)) && q in Curated(pubs) ==> Score(p) <= Score(q)
  {
    var s := Sorting.SortDesc(pubs, Score);
    var n := |Curated(pubs)|;
    assert s == s[..n] + s[n..];
    assert Curated(pubs) == s[..n];
    Sorting.SortedDescSplit(s, Score, n);
  }

  lemma {:induction false} WithKeyPrefix(s: seq<Publication>, k: int, n: nat)
    requires n <= |s|
    ensures Sorting.WithKey(s[..n], Score, k) <= Sorting.WithKey(s, Score, k)
  {
    if n > 0 {
      assert s[..n][0] == s[0] && s[..n][1..] == s[1..][..n - 1];
      WithKeyPrefix(s[1..], k, n - 1);
    }
  }

  /** Publications with equal scores keep their input order in the curated list. */
  lemma CuratedStable(pubs: seq<Publication>, k: int)
    ensures Sorting.WithKey(Curated(pubs), Score, k) <= Sorting.WithKey(pubs, Score, k)
  {
    var s := Sorting.SortDesc(pubs, Score);
    Sorting.SortDescStable(pubs, Score, k);
    WithKeyPrefix(s, k, |Curated(pubs)|);
    assert Curated(pubs) == s[..|Curated(pubs)|];
  }

  /** One curated line. */
  function CuratedLine(p: Publication): string
  {
    "- " + Strip(p.title) + " | " + p.year + " | " + p.venue + " | cites:" + IntToString(p.citations)
  }

  const NoCurated := "(no curated items)"

  /** The curated lines, in order. */
  function CuratedLines(c: seq<Publication>): (lines: seq<string>)
    ensures |lines| == |c|
  {
    if c == [] then [] else [CuratedLine(c[0])] + CuratedLines(c[1..])
  }

  /** The curated lines joined by newlines, or the placeholder when there are none. */
  function CuratedBlock(pubs: seq<Publication>): string
  {
    var lines := CuratedLines(Curated(pubs));
    if lines == [] then NoCurated else Join(lines, "\n")
  }

  lemma JoinStarts(parts: seq<string>, sep: string)
    requires parts != []
    ensures StartsWith(Join(parts, sep), parts[0])
  {
  }

  /** The placeholder appears exactly when there are no publications; otherwise the block opens with the best one's line. */
  lemma CuratedBlockFacts(pubs: seq<Publication>)
    ensures CuratedBlock(pubs) == NoCurated <==> pubs == []
    ensures pubs != [] ==> StartsWith(CuratedBlock(pubs), CuratedLine(Curated(pubs)[0]))
  {
    CuratedFacts(pubs);
    var c := Curated(pubs);
    if pubs != [] {
      var lines := CuratedLines(c);
      JoinStarts(lines, "\n");
      var b := CuratedBlock(pubs);
      assert b[0] == '-';
      assert NoCurated[0] == '(';
    }
  }

  /** The `outline` of the expertise prompt (one string in the source, written as three adjacent literals). */
  const ConceptOutline := "Core concepts to cover: Customer-Based Brand Equity (CBBE) pyramid; brand resonance; brand positioning; brand elements and secondary associations; integrated marketing communications (IMC); brand portfolios and architecture; measurement of brand equity; managing brands over time; co-branding/licensing/alliances; global branding; digital/social contexts."

  const ExpertiseLine1 := "        Produce a 12–15 page Domain Expertise & Knowledge chapter about Kevin Lane Keller."
  const ExpertiseLine2 := "        Write as a rigorous, structured narrative for AI training."
  const ExpertiseLine4 := "        Use these curated publications (title | year | venue | citations):"
  const ExpertiseRequirements := "        Requirements:"
  const ExpertiseReq1 := "        - Organize into sections/subsections; avoid bullet dumps."
  const ExpertiseReq2 := "        - Tie concepts back to papers informally (no formal citations)."
  const ExpertiseReq3 := "        - Be didactic: definitions, explanations, examples, edge cases."
  const ExpertiseReq4 := "        - Keep to Keller's contributions; avoid generic marketing filler."
  const ExpertiseReq5 := "        - Flow: foundations → applications → measurement → stewardship."

  /** The expertise prompt's lines before the curated block, up to the block's indentation. */
  const ExpertiseHead := Join(["", ExpertiseLine1, ExpertiseLine2, "", ExpertiseLine4, PromptIndent], "\n")

  /** The expertise prompt's lines after the curated block. */
  const ExpertiseTail := Join(["", "", PromptIndent + ConceptOutline, "", ExpertiseRequirements, ExpertiseReq1, ExpertiseReq2,
                               ExpertiseReq3, ExpertiseReq4, ExpertiseReq5, PromptIndent], "\n")

  /** `_create_expertise_prompt`: the curated block and the concept outline inside a fixed frame. */
  function ExpertisePrompt(pubs: seq<Publication>): string
  {
    ExpertiseHead + CuratedBlock(pubs) + ExpertiseTail
  }

  // ---------------------------------------------------------------- the object

  /** `GeminiSynthesizer`: the configured model and the service it calls. */
  class GeminiSynthesizer {
    const service: Service
    const model: string

    /** `__init__`, given the service and `GEMINI_MODEL`. */
    constructor (service: Service, model: string)
      ensures this.service == service && this.model == model
    {
      this.service := service;
      this.model := model;
    }

    /** The `try` body of one attempt of `_generate_with_chunking`. */
    method AttemptOnce(prompt: string) returns (r: Result<string, Exception>)
      modifies service
      ensures (r, service.State()) == Attempt(service.respond, old(service.State()), model, prompt)
    {
      if |prompt| > 8000 {
        var chunks := SplitPrompt(prompt, 4000);
        var partials := AskEach(service, model, chunks);
        if partials.Err? {
          return Err(partials.error);
        }
        var reply := service.Generate(model, ReducePrompt(partials.value));
        r := ReplyResult(reply);
      } else {
        var reply := service.Generate(model, prompt);
        r := ReplyResult(reply);
      }
    }

    /** `_generate_with_chunking(prompt, max_retries)`: the attempts with a doubling `backoff`. */
    method GenerateWithChunking(prompt: string, maxRetries: nat) returns (r: Result<string, Exception>)
      modifies service
      ensures (r, service.State()) == Generation(service.respond, old(service.State()), model, prompt, maxRetries, 0)
    {
      var backoff := 2;
      var attempt := 0;
      while attempt < maxRetries
        invariant attempt <= maxRetries && backoff == 2 * Pow2(attempt)
        invariant Generation(service.respond, service.State(), model, prompt, maxRetries, attempt)
               == Generation(service.respond, old(service.State()), model, prompt, maxRetries, 0)
        decreases maxRetries - attempt
      {
        r := AttemptOnce(prompt);
        if r.Ok? {
          return;
        }
        service.Sleep(Delay(backoff, 0));
        backoff := backoff * 2;
        attempt := attempt + 1;
      }
      r := Err(GenerationFailed);
    }

    /** `_fallback_section`. */
    method FallbackSection(section: string) returns (t: string)
      modifies service
      ensures (t, service.State()) == Fallback(service.respond, old(service.State()), model, section)
    {
      var reply := service.Generate(model, FallbackPrompt(section));
      t := if reply.Answer? then reply.text else Pending;
    }

    /** One iteration of the profile loop. */
    method SynthesizeSection(section: string, prompt: string) returns (v: string)
      modifies service
      ensures (v, service.State()) == SectionValue(service.respond, old(service.State()), model, section, prompt)
    {
      var r := GenerateWithChunking(prompt, MaxRetries);
      if r.Ok? {
        v := r.value;
      } else {
        v := FallbackSection(section);
      }
    }

    /** `synthesize_person_profile`, given the six data prompts and the scholar publications. */
    method SynthesizePersonProfile(d: DataPrompts, pubs: seq<Publication>) returns (content: OMap<string>)
      modifies service
      ensures (content, service.State()) == Profile(service.respond, old(service.State()), model, SynthesisPrompts(d, pubs))
    {
      content := SynthesizeSections(SynthesisPrompts(d, pubs));
    }

    /** The loop over the prompt dict. */
    method SynthesizeSections(prompts: seq<string>) returns (content: OMap<string>)
      requires |prompts| == |SectionKeys|
      modifies service
      ensures (content, service.State()) == Profile(service.respond, old(service.State()), model, prompts)
    {
      content := Empty();
      var k := 0;
      while k < |SectionKeys|
        invariant k <= |SectionKeys| && Valid(content)
        invariant Fill(SectionStep(service.respond, model), service.State(), SectionKeys[k..], prompts[k..], content)
               == Profile(service.respond, old(service.State()), model, prompts)
        decreases |SectionKeys| - k
      {
        assert SectionKeys[k..][1..] == SectionKeys[k + 1..] && prompts[k..][1..] == prompts[k + 1..];
        var v := SynthesizeSection(SectionKeys[k], prompts[k]);
        content := Put(content, SectionKeys[k], v);
        k := k + 1;
      }
    }

    /** `extract_key_insights(content, max_insights)`. */
    method ExtractKeyInsights(content: string, maxInsights: nat) returns (insights: seq<string>)
      modifies service
      ensures var (r, env) := Generation(service.respond, old(service.State()), model, InsightsPrompt(content, maxInsights), MaxRetries, 0);
        insights == LinesResult(r, maxInsights) && service.State() == env
    {
      var r := GenerateWithChunking(InsightsPrompt(content, maxInsights), MaxRetries);
      if r.Ok? {
        insights := Take(KeptLines(Split(r.value, "\n")), maxInsights);
      } else {
        insights := [];
      }
    }

    /** `summarize_content(content, max_length)`. */
    method SummarizeContent(content: string, maxLength: nat) returns (summary: string)
      modifies service
      ensures var (r, env) := Generation(service.respond, old(service.State()), model, SummaryPrompt(content, maxLength), MaxRetries, 0);
        summary == SummaryResult(r, content, maxLength) && service.State() == env
    {
      var r := GenerateWithChunking(SummaryPrompt(content, maxLength), MaxRetries);
      if r.Ok? {
        summary := r.value;
      } else {
        summary := SummaryFallback(content, maxLength);
      }
    }

    /** `generate_quotes(data, max_quotes)`, given `str(data)`. */
    method GenerateQuotes(dataRepr: string, maxQuotes: nat) returns (quotes: seq<string>)
      modifies service
      ensures var (r, env) := Generation(service.respond, old(service.State()), model, QuotesPrompt(dataRepr, maxQuotes), MaxRetries, 0);
        quotes == LinesResult(r, maxQuotes) && service.State() == env
    {
      var r := GenerateWithChunking(QuotesPrompt(dataRepr, maxQuotes), MaxRetries);
      if r.Ok? {
        quotes := Take(KeptLines(Split(r.value, "\n")), maxQuotes);
      } else {
        quotes := [];
      }
    }
  }
}
