/**
 * The generative-model service both report writers call, seen from outside: each
 * `generate_content` call is answered with either a text or a raised exception, and
 * each `time.sleep` is recorded. What the service answers to the n-th call is a
 * function the model takes as given (`Responder`); the calls made and the sleeps
 * taken so far are the `Env` value the specifications thread through.
 *
 * Also here: `_split_prompt`, which both writers define identically, and the map
 * phase of their map-reduce over prompt chunks.
 */
module Provider {
  import opened Wrappers
  import opened Text

  /** A raised Python exception: its class name and `str(e)`. */
  datatype Exception = Exception(typeName: string, message: string)

  /** `google.api_core.exceptions.ResourceExhausted`, the quota error. */
  predicate IsQuota(e: Exception) { e.typeName == "ResourceExhausted" }

  /** The outcome of one `generate_content` call: the response's text, or the exception it raised. */
  datatype Reply = Answer(text: string) | Raise(error: Exception)

  datatype Call = Call(model: string, prompt: string)

  /** A `time.sleep` argument: `num / 10^scale` seconds. */
  datatype Delay = Delay(num: nat, scale: nat)

  /** The calls made so far, in order, and the sleeps taken, in order. */
  datatype Env = Env(calls: seq<Call>, sleeps: seq<Delay>)

  /** The service's answer to the call with the given index in the call log. */
  type Responder = (nat, Call) -> Reply

  /** One call: the service answers it and it joins the call log. */
  function Ask(respond: Responder, env: Env, model: string, prompt: string): (Reply, Env)
  {
    (respond(|env.calls|, Call(model, prompt)), Env(env.calls + [Call(model, prompt)], env.sleeps))
  }

  function Slept(env: Env, d: Delay): Env
  {
    Env(env.calls, env.sleeps + [d])
  }

  function Pow2(n: nat): (r: nat)
    ensures r >= 1
  {
    if n == 0 then 1 else 2 * Pow2(n - 1)
  }

  /** The service as an object: the answers are fixed, the logs grow. */
  class Service {
    const respond: Responder
    var calls: seq<Call>
    var sleeps: seq<Delay>

    function State(): Env
      reads this
    {
      Env(calls, sleeps)
    }

    constructor (respond: Responder)
      ensures this.respond == respond && State() == Env([], [])
    {
      this.respond := respond;
      calls := [];
      sleeps := [];
    }

    /** `model.generate_content(prompt)` on the named model. */
    method Generate(model: string, prompt: string) returns (reply: Reply)
      modifies this
      ensures (reply, State()) == Ask(respond, old(State()), model, prompt)
    {
      reply := respond(|calls|, Call(model, prompt));
      calls := calls + [Call(model, prompt)];
    }

    /** `time.sleep(d)`. */
    method Sleep(d: Delay)
      modifies this
      ensures State() == Slept(old(State()), d)
    {
      sleeps := sleeps + [d];
    }
  }

  /**
   * The text a reply hands back (what the writers' response-to-text helpers extract), or the
   * exception the call raised.
   */
  function ReplyResult(reply: Reply): (r: Result<string, Exception>)
    ensures r.Ok? <==> reply.Answer?
    ensures reply.Answer? ==> r.value == reply.text
    ensures reply.Raise? ==> r.error == reply.error
  {
    match reply
    case Answer(t) => Ok(t)
    case Raise(e) => Err(e)
  }

  /** The last call made was answered with `t`. */
  predicate LastAnswered(respond: Responder, env: Env, t: string)
  {
    |env.calls| > 0 && respond(|env.calls| - 1, env.calls[|env.calls| - 1]) == Answer(t)
  }

  lemma AskRecords(respond: Responder, env: Env, model: string, prompt: string)
    ensures var (reply, env1) := Ask(respond, env, model, prompt);
      && env1.calls == env.calls + [Call(model, prompt)] && env1.sleeps == env.sleeps
      && respond(|env1.calls| - 1, env1.calls[|env1.calls| - 1]) == reply
  {
  }

  // ---------------------------------------------------------------- prompt chunks

  /** The slices `text[i:i+size]`, `text[i+size:i+2*size]`, ... that start before the end of `text`. */
  function ChunksFrom(text: string, size: nat, i: nat): seq<string>
    requires size > 0
    decreases |text| - i
  {
    if i >= |text| then []
    else [text[i..if i + size < |text| then i + size else |text|]] + ChunksFrom(text, size, i + size)
  }

  function Chunks(text: string, size: nat): seq<string>
    requires size > 0
  {
    ChunksFrom(text, size, 0)
  }

  /** `''.join(parts)`. */
  function Concat(parts: seq<string>): string
  {
    if parts == [] then "" else parts[0] + Concat(parts[1..])
  }

  /**
   * Cutting `text[i..]` into chunks loses nothing: the chunks concatenate back to it, every
   * chunk is non-empty and at most `size` long, every chunk but the last is exactly `size`
   * long, and there are `ceil((|text| - i) / size)` of them.
   */
  lemma {:induction false} ChunksFromFacts(text: string, size: nat, i: nat)
    requires size > 0 && i <= |text|
    ensures Concat(ChunksFrom(text, size, i)) == text[i..]
    ensures forall j :: 0 <= j < |ChunksFrom(text, size, i)| ==> 0 < |ChunksFrom(text, size, i)[j]| <= size
    ensures forall j :: 0 <= j < |ChunksFrom(text, size, i)| - 1 ==> |ChunksFrom(text, size, i)[j]| == size
    ensures i < |text| <==> |ChunksFrom(text, size, i)| > 0
    ensures i < |text| ==> (|ChunksFrom(text, size, i)| - 1) * size < |text| - i <= |ChunksFrom(text, size, i)| * size
    decreases |text| - i
  {
    var r := ChunksFrom(text, size, i);
    if i < |text| {
      var e := if i + size < |text| then i + size else |text|;
      var rest := ChunksFrom(text, size, i + size);
      assert r == [text[i..e]] + rest;
      if i + size < |text| {
        ChunksFromFacts(text, size, i + size);
        assert text[i..] == text[i..e] + text[i + size..];
      } else {
        assert rest == [];
      }
      assert r[1..] == rest;
    } else {
      assert r == [];
    }
  }

  /** `_split_prompt(text, chunk_size)`: the chunks of `text` round-trip to it and have the expected sizes. */
  lemma ChunksFacts(text: string, size: nat)
    requires size > 0
    ensures Concat(Chunks(text, size)) == text
    ensures forall j :: 0 <= j < |Chunks(text, size)| ==> 0 < |Chunks(text, size)[j]| <= size
    ensures forall j :: 0 <= j < |Chunks(text, size)| - 1 ==> |Chunks(text, size)[j]| == size
    ensures |text| > 0 <==> |Chunks(text, size)| > 0
    ensures |text| > 0 ==> (|Chunks(text, size)| - 1) * size < |text| <= |Chunks(text, size)| * size
  {
    ChunksFromFacts(text, size, 0);
  }

  /** `_split_prompt`: the `while` loop that appends `text[i:i+chunk_size]` and steps `i` by `chunk_size`. */
  method SplitPrompt(text: string, chunkSize: nat) returns (parts: seq<string>)
    requires chunkSize > 0
    ensures parts == Chunks(text, chunkSize)
  {
    parts := [];
    var i := 0;
    while i < |text|
      invariant parts + ChunksFrom(text, chunkSize, i) == Chunks(text, chunkSize)
      decreases |text| - i
    {
      var e := if i + chunkSize < |text| then i + chunkSize else |text|;
      parts := parts + [text[i..e]];
      i := i + chunkSize;
    }
  }

  // ---------------------------------------------------------------- the map phase

  /**
   * One call per chunk, in order, collecting the answers; the first exception stops the
   * loop and is what the phase raises.
   */
  function AskAll(respond: Responder, env: Env, model: string, chunks: seq<string>): (Result<seq<string>, Exception>, Env)
    decreases |chunks|
  {
    if chunks == [] then (Ok([]), env)
    else
      var (reply, env1) := Ask(respond, env, model, chunks[0]);
      match reply
      case Raise(e) => (Err(e), env1)
      case Answer(t) => Prefixed([t], AskAll(respond, env1, model, chunks[1..]))
  }

  /** Answers already collected, put in front of a later phase's outcome. */
  function Prefixed(ps: seq<string>, r: (Result<seq<string>, Exception>, Env)): (Result<seq<string>, Exception>, Env)
  {
    (if r.0.Ok? then Ok(ps + r.0.value) else r.0, r.1)
  }

  /**
   * What the map phase does: it calls the model on the chunks in order, so the new calls are
   * the first chunks; it sleeps not at all; when it succeeds it has made one call per chunk
   * and returns the answers in chunk order; when it fails, every call before the last was
   * answered and the last one raised the exception returned.
   */
  ghost predicate PhaseOutcome(respond: Responder, env: Env, model: string, chunks: seq<string>,
                               out: (Result<seq<string>, Exception>, Env))
  {
    && PhaseCalls(env, model, chunks, out.1)
    && PhaseAnswered(respond, env, model, chunks, out)
    && PhaseRaised(respond, env, out)
  }

  /** The phase adds no sleep and its calls, in order, are on the first chunks. */
  ghost predicate PhaseCalls(env: Env, model: string, chunks: seq<string>, env': Env)
  {
    && env'.sleeps == env.sleeps
    && env.calls <= env'.calls && |env'.calls| <= |env.calls| + |chunks|
    && (forall i :: |env.calls| <= i < |env'.calls| ==> env'.calls[i] == Call(model, chunks[i - |env.calls|]))
  }

  /** A successful phase called the model once per chunk and returns the answers in chunk order. */
  ghost predicate PhaseAnswered(respond: Responder, env: Env, model: string, chunks: seq<string>,
                                out: (Result<seq<string>, Exception>, Env))
  {
    out.0.Ok? ==>
      |out.1.calls| == |env.calls| + |chunks| && |out.0.value| == |chunks|
      && forall i :: 0 <= i < |chunks| ==> respond(|env.calls| + i, Call(model, chunks[i])) == Answer(out.0.value[i])
  }

  /** A failed phase made at least one call; all of its calls but the last were answered and the last raised. */
  ghost predicate PhaseRaised(respond: Responder, env: Env, out: (Result<seq<string>, Exception>, Env))
  {
    var (r, env') := out;
    r.Err? ==>
      |env'.calls| > |env.calls|
      && respond(|env'.calls| - 1, env'.calls[|env'.calls| - 1]) == Raise(r.error)
      && forall i :: |env.calls| <= i < |env'.calls| - 1 ==> respond(i, env'.calls[i]).Answer?
  }

  lemma {:induction false} AskAllFacts(respond: Responder, env: Env, model: string, chunks: seq<string>)
    ensures PhaseOutcome(respond, env, model, chunks, AskAll(respond, env, model, chunks))
    decreases |chunks|
  {
    if chunks != [] {
      var (reply, env1) := Ask(respond, env, model, chunks[0]);
      if reply.Answer? {
        AskAllFacts(respond, env1, model, chunks[1..]);
        AskAllStep(respond, env, model, chunks, reply.text, env1);
      }
    }
  }

  /** One answered call followed by the rest of the phase. */
  lemma AskAllStep(respond: Responder, env: Env, model: string, chunks: seq<string>, t: string, env1: Env)
    requires chunks != [] && Ask(respond, env, model, chunks[0]) == (Answer(t), env1)
    requires PhaseOutcome(respond, env1, model, chunks[1..], AskAll(respond, env1, model, chunks[1..]))
    ensures PhaseOutcome(respond, env, model, chunks, AskAll(respond, env, model, chunks))
  {
    var rest := AskAll(respond, env1, model, chunks[1..]);
    assert AskAll(respond, env, model, chunks) == Prefixed([t], rest);
    StepCalls(env, model, chunks, env1, rest.1);
    StepAnswered(respond, env, model, chunks, t, env1, rest);
    StepRaised(respond, env, model, chunks, t, env1, rest);
  }

  lemma StepCalls(env: Env, model: string, chunks: seq<string>, env1: Env, e1: Env)
    requires chunks != [] && env1 == Env(env.calls + [Call(model, chunks[0])], env.sleeps)
    requires PhaseCalls(env1, model, chunks[1..], e1)
    ensures PhaseCalls(env, model, chunks, e1)
  {
    var n := |env.calls|;
    forall i | n <= i < |e1.calls| ensures e1.calls[i] == Call(model, chunks[i - n]) {
      if i > n { assert chunks[1..][i - (n + 1)] == chunks[i - n]; }
      else { assert e1.calls[n] == env1.calls[n]; }
    }
  }

  lemma StepAnswered(respond: Responder, env: Env, model: string, chunks: seq<string>, t: string, env1: Env,
                     rest: (Result<seq<string>, Exception>, Env))
    requires chunks != [] && Ask(respond, env, model, chunks[0]) == (Answer(t), env1)
    requires PhaseAnswered(respond, env1, model, chunks[1..], rest)
    ensures PhaseAnswered(respond, env, model, chunks, Prefixed([t], rest))
  {
    if rest.0.Ok? {
      var n := |env.calls|;
      var v := [t] + rest.0.value;
      forall i | 0 <= i < |chunks| ensures respond(n + i, Call(model, chunks[i])) == Answer(v[i]) {
        if i > 0 { assert chunks[1..][i - 1] == chunks[i] && v[i] == rest.0.value[i - 1]; }
      }
    }
  }

  lemma StepRaised(respond: Responder, env: Env, model: string, chunks: seq<string>, t: string, env1: Env,
                   rest: (Result<seq<string>, Exception>, Env))
    requires chunks != [] && Ask(respond, env, model, chunks[0]) == (Answer(t), env1)
    requires PhaseCalls(env1, model, chunks[1..], rest.1)
    requires PhaseRaised(respond, env1, rest)
    ensures PhaseRaised(respond, env, Prefixed([t], rest))
  {
    var n := |env.calls|;
    var e1 := rest.1;
    if rest.0.Err? {
      assert e1.calls[n] == env1.calls[n] == Call(model, chunks[0]);
      forall i | n <= i < |e1.calls| - 1 ensures respond(i, e1.calls[i]).Answer? {
      }
    }
  }

  lemma PrefixedNil(r: (Result<seq<string>, Exception>, Env))
    ensures Prefixed([], r) == r
  {
    if r.0.Ok? { assert [] + r.0.value == r.0.value; }
  }

  lemma PrefixedSnoc(ps: seq<string>, t: string, r: (Result<seq<string>, Exception>, Env))
    ensures Prefixed(ps, Prefixed([t], r)) == Prefixed(ps + [t], r)
  {
    if r.0.Ok? { assert ps + ([t] + r.0.value) == (ps + [t]) + r.0.value; }
  }

  /** The text of an answered call. */
  function TextOf(reply: Reply): string
  {
    if reply.Answer? then reply.text else ""
  }

  /** The answers to the calls on `chunks`, made from call index `n` on. */
  function ChunkAnswers(respond: Responder, n: nat, model: string, chunks: seq<string>): (ts: seq<string>)
    ensures |ts| == |chunks|
  {
    seq(|chunks|, i requires 0 <= i < |chunks| => TextOf(respond(n + i, Call(model, chunks[i]))))
  }

  /** `x / 4000` for an `x` between two multiples of 4000. */
  lemma CeilDiv(x: int, q: int)
    requires (q - 1) * 4000 < x <= q * 4000
    ensures (x + 3999) / 4000 == q
  {
  }

  /** A prompt over 8000 characters makes `ceil(len / 4000)` chunks. */
  lemma ChunkCount(prompt: string)
    requires |prompt| > 0
    ensures |Chunks(prompt, 4000)| == (|prompt| + 3999) / 4000
  {
    ChunksFacts(prompt, 4000);
    CeilDiv(|prompt|, |Chunks(prompt, 4000)|);
  }

  /** When no call raises, the map phase calls the model on each chunk in order and collects the answers. */
  lemma AnsweredPhase(respond: Responder, env: Env, model: string, chunks: seq<string>)
    requires forall n, c :: respond(n, c).Answer?
    ensures var (r, env1) := AskAll(respond, env, model, chunks);
      && r == Ok(ChunkAnswers(respond, |env.calls|, model, chunks))
      && env.calls <= env1.calls && |env1.calls| == |env.calls| + |chunks| && env1.sleeps == env.sleeps
      && (forall i :: 0 <= i < |chunks| ==> env1.calls[|env.calls| + i] == Call(model, chunks[i]))
  {
    AskAllFacts(respond, env, model, chunks);
    var (r, env1) := AskAll(respond, env, model, chunks);
    var n := |env.calls|;
    assert r.Ok?;
    var ts := ChunkAnswers(respond, n, model, chunks);
    forall i | 0 <= i < |chunks| ensures r.value[i] == ts[i] {
      assert respond(n + i, Call(model, chunks[i])) == Answer(r.value[i]);
    }
    assert r.value == ts;
  }

  /** The `for ch in chunks` loop of both writers' map-reduce, stopping at the first exception. */
  method AskEach(service: Service, model: string, chunks: seq<string>) returns (r: Result<seq<string>, Exception>)
    modifies service
    ensures (r, service.State()) == AskAll(service.respond, old(service.State()), model, chunks)
  {
    var partials := [];
    var k := 0;
    PrefixedNil(AskAll(service.respond, service.State(), model, chunks));
    assert chunks[0..] == chunks;
    while k < |chunks|
      invariant k <= |chunks|
      invariant Prefixed(partials, AskAll(service.respond, service.State(), model, chunks[k..]))
             == AskAll(service.respond, old(service.State()), model, chunks)
      decreases |chunks| - k
    {
      assert chunks[k..][0] == chunks[k] && chunks[k..][1..] == chunks[k + 1..];
      ghost var before := service.State();
      var reply := service.Generate(model, chunks[k]);
      if reply.Raise? {
        assert AskAll(service.respond, before, model, chunks[k..]) == (Err(reply.error), service.State());
        return Err(reply.error);
      }
      PrefixedSnoc(partials, reply.text, AskAll(service.respond, service.State(), model, chunks[k + 1..]));
      partials := partials + [reply.text];
      k := k + 1;
    }
    assert chunks[k..] == [];
    assert partials + [] == partials;
    r := Ok(partials);
  }
}
