/**
 * The scrape server of the render deployment: it turns a Semantic Scholar profile
 * URL into an author id, keeps one job record per accepted request in the `jobs`
 * dictionary, and moves each record through queued, running and a terminal state
 * while the scraper reports its progress.
 */
module ScrapeServer {
  import opened Wrappers
  import opened Text
  import Markup

  /** The error message of `extract_author_id`, surfaced as the detail of a 400 response. */
  const BadProfileUrl := "Semantic Scholar profile URL must look like 'https://www.semanticscholar.org/author/Name/ID'."

  /** `s.rstrip(c)`: `s` with every trailing `c` removed. */
  function RStrip(s: string, c: char): (r: string)
    ensures |r| <= |s| && r == s[..|r|]
    ensures r == [] || r[|r| - 1] != c
    ensures forall k :: |r| <= k < |s| ==> s[k] == c
  {
    if s != [] && s[|s| - 1] == c then RStrip(s[..|s| - 1], c) else s
  }

  /**
   * `extract_author_id` on the path of the profile URL: the last `/`-separated segment
   * after trailing slashes are removed, when there are at least two segments and the
   * last one is all digits; otherwise the ValueError, as `Err`.
   */
  function ExtractAuthorId(path: string): Result<string, string>
  {
    LastSegmentId(RStrip(path, '/'))
  }

  /** The segment test of `extract_author_id`, on the path once trailing slashes are removed. */
  function LastSegmentId(s: string): Result<string, string>
  {
    var parts := Split(s, "/");
    if |parts| >= 2 && IsDigits(parts[|parts| - 1]) then Ok(parts[|parts| - 1]) else Err(BadProfileUrl)
  }

  lemma NoSlash(s: string)
    requires !Contains(s, "/")
    ensures Markup.NoChar(s, '/')
  {
    ContainsIff(s, "/");
    forall k | 0 <= k < |s| ensures s[k] != '/' {
      assert s[k..k + 1] == [s[k]];
      assert !OccursAt(s, "/", k);
    }
  }

  lemma DigitsNoSlash(s: string)
    requires IsDigits(s)
    ensures Markup.NoChar(s, '/')
  {
  }

  /** A slash-free tail of `s` after a slash is no longer than any other tail after a slash. */
  lemma TailShorter(s: string, a: string, x: string, b: string, y: string)
    requires s == a + "/" + x && s == b + "/" + y
    requires Markup.NoChar(x, '/')
    ensures |x| <= |y|
  {
    assert s[|s| - |y| - 1] == '/';
    assert forall j :: |s| - |x| <= j < |s| ==> s[j] == x[j - (|s| - |x|)];
  }

  /** Two ways of writing `s` as something, a slash, and a slash-free tail have the same tail. */
  lemma SameTail(s: string, a: string, x: string, b: string, y: string)
    requires s == a + "/" + x && s == b + "/" + y
    requires Markup.NoChar(x, '/') && Markup.NoChar(y, '/')
    ensures x == y
  {
    TailShorter(s, a, x, b, y);
    TailShorter(s, b, y, a, x);
    assert x == s[|s| - |x|..] == y;
  }

  /** With two pieces or more, `s` ends with the separator and the last piece. */
  lemma LastPieceSuffix(s: string, sep: string)
    requires |sep| > 0 && |Split(s, sep)| >= 2
    ensures EndsWith(s, sep + Split(s, sep)[|Split(s, sep)| - 1])
  {
    var parts := Split(s, sep);
    var head := Join(parts[..|parts| - 1], sep);
    var t := sep + parts[|parts| - 1];
    SplitLast(s, sep);
    Associative(head, sep, parts[|parts| - 1]);
    assert s == head + t;
    assert s[|s| - |t|..] == t;
  }

  /** An accepted id is all digits and is what follows the last slash of the stripped path. */
  lemma AuthorIdShape(path: string)
    requires ExtractAuthorId(path).Ok?
    ensures IsDigits(ExtractAuthorId(path).value)
    ensures EndsWith(RStrip(path, '/'), "/" + ExtractAuthorId(path).value)
  {
    LastPieceSuffix(RStrip(path, '/'), "/");
  }

  /** Cutting `a + "/" + x` at slashes, for a slash-free `x`, gives two pieces or more, the last being `x`. */
  lemma LastPieceOf(s: string, a: string, x: string)
    requires s == a + "/" + x && Markup.NoChar(x, '/')
    ensures |Split(s, "/")| >= 2 && Split(s, "/")[|Split(s, "/")| - 1] == x
  {
    assert OccursAt(s, "/", |a|);
    ContainsIff(s, "/");
    SplitMany(s, "/");
    var parts := Split(s, "/");
    SplitLast(s, "/");
    SplitPiecesFree(s, "/");
    NoSlash(parts[|parts| - 1]);
    SameTail(s, Join(parts[..|parts| - 1], "/"), parts[|parts| - 1], a, x);
  }

  /** Conversely, a stripped path that ends in a slash and a run of digits yields those digits. */
  lemma AuthorIdFromShape(path: string, id: string)
    requires IsDigits(id) && EndsWith(RStrip(path, '/'), "/" + id)
    ensures ExtractAuthorId(path) == Ok(id)
  {
    SegmentIdFromShape(RStrip(path, '/'), id);
  }

  lemma SegmentIdFromShape(s: string, id: string)
    requires IsDigits(id) && EndsWith(s, "/" + id)
    ensures LastSegmentId(s) == Ok(id)
  {
    var a := s[..|s| - |id| - 1];
    assert s == a + "/" + id;
    DigitsNoSlash(id);
    LastPieceOf(s, a, id);
  }

  /** A path without any slash once trailing slashes are gone is rejected. */
  lemma AuthorIdNeedsSlash(path: string)
    requires !Contains(RStrip(path, '/'), "/")
    ensures ExtractAuthorId(path) == Err(BadProfileUrl)
  {
    SplitMany(RStrip(path, '/'), "/");
  }

  /** The example shape from the error message, with a trailing slash, is accepted. */
  lemma AuthorIdExample()
    ensures ExtractAuthorId("/author/Name/1741101/") == Ok("1741101")
  {
    assert RStrip("/author/Name/1741101/", '/') == "/author/Name/1741101";
    AuthorIdFromShape("/author/Name/1741101/", "1741101");
  }

  datatype Status = Queued | Running | Completed | Failed

  function StatusName(s: Status): (r: string)
    ensures s == Queued <==> r == "queued"
    ensures s == Completed <==> r == "completed"
  {
    match s
    case Queued => "queued"
    case Running => "running"
    case Completed => "completed"
    case Failed => "failed"
  }

  /** The `result` dictionary of a completed job. */
  datatype JobResult = JobResult(authorId: string, profileUrl: string, totalPapers: nat, htmlUrl: string, debugUrl: string)

  /** One job record of the `jobs` dictionary; `None` is Python's None. */
  datatype Job = Job(status: Status, message: string, stage: string, percentage: int, result: Option<JobResult>, error: Option<string>)

  /** An HTTP error raised by an endpoint. */
  datatype HttpError = HttpError(code: nat, detail: string)

  /** The record `start_scrape` stores for an accepted request. */
  function NewJob(): (j: Job)
    ensures j.status == Queued && j.percentage == 0 && j.stage == ""
    ensures j.result == None && j.error == None
  {
    Job(Queued, "Request accepted", "", 0, None, None)
  }

  /** What every record keeps: a percentage in [0, 100], 100 once terminal, a result exactly when completed, an error only when failed. */
  predicate JobValid(j: Job)
  {
    0 <= j.percentage <= 100
    && (j.status in {Completed, Failed} ==> j.percentage == 100)
    && (j.result.Some? <==> j.status == Completed)
    && (j.error.Some? ==> j.status == Failed)
  }

  /** The percentage the scraper reports, in hundredths of a percent, clamped into [0, 100%]. */
  function Clamp(c: int): (r: nat)
    ensures r <= 10000
    ensures 0 <= c <= 10000 ==> r == c
    ensures c < 0 ==> r == 0
    ensures c > 10000 ==> r == 10000
  {
    if c < 0 then 0 else if c > 10000 then 10000 else c
  }

  /** Python's `round` on a value given in hundredths: the nearest whole number, ties to the even one. */
  function RoundHalfEven(c: nat): (v: nat)
    ensures 100 * v - 50 <= c <= 100 * v + 50
    ensures c == 100 * v + 50 || c == 100 * v - 50 ==> v % 2 == 0
  {
    var q := c / 100;
    var rem := c % 100;
    if rem > 50 || (rem == 50 && q % 2 == 1) then q + 1 else q
  }

  /** There is only one whole number that close to `c` with the tie going to the even one. */
  lemma RoundUnique(c: nat, v: nat, w: nat)
    requires 100 * v - 50 <= c <= 100 * v + 50 && (c == 100 * v + 50 || c == 100 * v - 50 ==> v % 2 == 0)
    requires 100 * w - 50 <= c <= 100 * w + 50 && (c == 100 * w + 50 || c == 100 * w - 50 ==> w % 2 == 0)
    ensures v == w
  {
  }

  /** `round(min(100.0, max(0.0, percentage)))`. */
  function PercentValue(c: int): (v: nat)
    ensures v <= 100
    ensures c <= 0 ==> v == 0
    ensures c >= 10000 ==> v == 100
  {
    RoundHalfEven(Clamp(c))
  }

  /** A progress report from the scraper: the stage and the percentage, in hundredths. */
  datatype ProgressEvent = ProgressEvent(stage: string, percentage: int)

  /** `progress_handler`: stage, rounded percentage and message change; nothing else does. */
  function Progress(j: Job, e: ProgressEvent): (r: Job)
    ensures r.stage == e.stage && r.percentage == PercentValue(e.percentage)
    ensures r.message == e.stage + "\U{2026} " + NatToString(r.percentage) + "% complete"
    ensures r.status == j.status && r.result == j.result && r.error == j.error
  {
    var v := PercentValue(e.percentage);
    j.(stage := e.stage, percentage := v, message := e.stage + "\U{2026} " + NatToString(v) + "% complete")
  }

  /** The record after the given progress reports, applied in order. */
  function Progressed(j: Job, events: seq<ProgressEvent>): (r: Job)
    ensures r.status == j.status && r.result == j.result && r.error == j.error
    ensures events == [] ==> r == j
  {
    if events == [] then j else Progress(Progressed(j, events[..|events| - 1]), events[|events| - 1])
  }

  /** After at least one report the record shows the last one. */
  lemma ProgressedLast(j: Job, events: seq<ProgressEvent>)
    requires events != []
    ensures Progressed(j, events).stage == events[|events| - 1].stage
    ensures Progressed(j, events).percentage == PercentValue(events[|events| - 1].percentage)
  {
  }

  /** Progress reports keep a valid running record valid. */
  lemma {:induction false} ProgressedValid(j: Job, events: seq<ProgressEvent>)
    requires JobValid(j) && j.status == Running
    ensures JobValid(Progressed(j, events))
  {
    if events != [] {
      ProgressedValid(j, events[..|events| - 1]);
    }
  }

  /** The record once `run_scrape_job` has marked it running. */
  function Start(j: Job): (r: Job)
    ensures r.status == Running && r.percentage == 5 && r.message == "Fetching data\U{2026}"
    ensures r.stage == j.stage && r.result == j.result && r.error == j.error
  {
    j.(status := Running, message := "Fetching data\U{2026}", percentage := 5)
  }

  /**
   * How the scrape ends, as far as the record can tell: the scraper returned this
   * many papers, something inside the `try` raised with this message, or setting up
   * the scraper raised before the `try` was entered.
   */
  datatype Outcome = Scraped(papers: nat) | Raised(message: string) | SetupRaised

  function HtmlName(authorId: string, timestamp: string): string
  {
    "semantic_scholar_" + authorId + "_" + timestamp + ".html"
  }

  function DebugName(authorId: string, timestamp: string): string
  {
    "debug_" + authorId + "_" + timestamp + ".json"
  }

  /** The terminal update of the `try` block: no papers, a completed scrape, or the exception handler. */
  function Finish(j: Job, authorId: string, profileUrl: string, timestamp: string, outcome: Outcome): (r: Job)
    requires !outcome.SetupRaised?
    ensures r.percentage == 100 && r.status in {Completed, Failed}
    ensures r.status == Completed <==> outcome.Scraped? && outcome.papers > 0
    ensures outcome.Raised? ==> r.error == Some(outcome.message) && r.result == j.result
    ensures outcome.Scraped? ==> r.error == j.error
    ensures r.status == Completed ==> r.stage == "Completed" && r.result.Some? && r.result.value.totalPapers == outcome.papers
    ensures r.status == Failed ==> r.stage == j.stage && r.result == j.result
  {
    match outcome
    case Scraped(n) =>
      if n == 0 then
        j.(status := Failed, message := "No papers found for this author.", percentage := 100)
      else
        var res := JobResult(authorId, profileUrl, n,
          "/artifacts/html/" + HtmlName(authorId, timestamp), "/artifacts/debug/" + DebugName(authorId, timestamp));
        j.(status := Completed, message := "Scrape complete. Collected " + NatToString(n) + " papers.",
           percentage := 100, stage := "Completed", result := Some(res))
    case Raised(msg) =>
      j.(status := Failed, error := Some(msg), message := "Scrape failed. Check server logs for details.", percentage := 100)
  }

  /** The whole life of a record under `run_scrape_job`, given what the scraper reports and how it ends. */
  function RunJob(j: Job, authorId: string, profileUrl: string, timestamp: string, events: seq<ProgressEvent>, outcome: Outcome): Job
  {
    if outcome.SetupRaised? then Start(j)
    else Finish(Progressed(Start(j), events), authorId, profileUrl, timestamp, outcome)
  }

  /**
   * A job accepted by `start_scrape` ends completed with its result, or failed with
   * percentage 100; the error is recorded exactly when the scrape raised. Only a
   * failure before the `try` leaves it running.
   */
  lemma RunJobEnds(authorId: string, profileUrl: string, timestamp: string, events: seq<ProgressEvent>, outcome: Outcome)
    ensures var r := RunJob(NewJob(), authorId, profileUrl, timestamp, events, outcome);
      JobValid(r)
      && (r.status == Running <==> outcome.SetupRaised?)
      && (r.status == Completed <==> outcome.Scraped? && outcome.papers > 0)
      && (r.error.Some? <==> outcome.Raised?)
  {
    var s := Start(NewJob());
    ProgressedValid(s, events);
  }

  /** The `jobs` dictionary and the endpoints that read and write it. */
  class Server {
    var jobs: map<string, Job>

    ghost predicate Valid()
      reads this
    {
      forall id :: id in jobs ==> JobValid(jobs[id])
    }

    constructor ()
      ensures jobs == map[] && Valid()
    {
      jobs := map[];
    }

    /**
     * `start_scrape`: a bad profile path is a 400 and creates no job; otherwise a
     * queued record is stored under the fresh `jobId`, which is returned together with
     * the author id the background run is started with.
     */
    method StartScrape(path: string, jobId: string) returns (r: Result<(string, string), HttpError>)
      modifies this
      ensures ExtractAuthorId(path).Err? ==> r == Err(HttpError(400, BadProfileUrl)) && jobs == old(jobs)
      ensures ExtractAuthorId(path).Ok? ==> r == Ok((jobId, ExtractAuthorId(path).value)) && jobs == old(jobs)[jobId := NewJob()]
      ensures old(Valid()) ==> Valid()
    {
      var id := ExtractAuthorId(path);
      if id.Err? {
        return Err(HttpError(400, id.error));
      }
      jobs := jobs[jobId := NewJob()];
      r := Ok((jobId, id.value));
    }

    /** `scrape_status`: the record, or 404 for an unknown id. */
    method ScrapeStatus(jobId: string) returns (r: Result<Job, HttpError>)
      ensures r.Err? <==> jobId !in jobs
      ensures r.Ok? ==> r.value == jobs[jobId]
      ensures r.Err? ==> r.error == HttpError(404, "Job not found")
    {
      if jobId !in jobs {
        return Err(HttpError(404, "Job not found"));
      }
      r := Ok(jobs[jobId]);
    }

    /**
     * `run_scrape_job`: the record is marked running, each progress report of the
     * scraper is written into it as it arrives, and the outcome of the scrape settles it.
     * Every other record is left alone.
     */
    method RunScrapeJob(jobId: string, authorId: string, profileUrl: string, timestamp: string,
                        events: seq<ProgressEvent>, outcome: Outcome)
      requires jobId in jobs
      modifies this
      ensures jobs == old(jobs)[jobId := RunJob(old(jobs)[jobId], authorId, profileUrl, timestamp, events, outcome)]
      ensures old(Valid()) && old(jobs)[jobId].result.None? && old(jobs)[jobId].error.None? ==> Valid()
    {
      ghost var before := jobs;
      jobs := jobs[jobId := Start(jobs[jobId])];
      if outcome.SetupRaised? {
        if old(Valid()) && before[jobId].result.None? && before[jobId].error.None? {
          RunKeepsValid(before, jobId, authorId, profileUrl, timestamp, events, outcome);
        }
        return;
      }
      ReportProgress(jobId, events);
      jobs := jobs[jobId := Finish(jobs[jobId], authorId, profileUrl, timestamp, outcome)];
      if old(Valid()) && before[jobId].result.None? && before[jobId].error.None? {
        RunKeepsValid(before, jobId, authorId, profileUrl, timestamp, events, outcome);
      }
    }

    /** The calls of `progress_handler`, each written into the record as it arrives. */
    method ReportProgress(jobId: string, events: seq<ProgressEvent>)
      requires jobId in jobs
      modifies this
      ensures jobs == old(jobs)[jobId := Progressed(old(jobs)[jobId], events)]
      ensures old(Valid()) && old(jobs)[jobId].status == Running ==> Valid()
    {
      ghost var j := jobs[jobId];
      var i := 0;
      while i < |events|
        invariant 0 <= i <= |events|
        invariant jobs == old(jobs)[jobId := Progressed(j, events[..i])]
      {
        assert events[..i + 1][..i] == events[..i];
        jobs := jobs[jobId := Progress(jobs[jobId], events[i])];
        i := i + 1;
      }
      assert events[..i] == events;
      if old(Valid()) && j.status == Running {
        ProgressedValid(j, events);
      }
    }
  }

  /**
   * Running a job that has neither a result nor an error yet, as every job `start_scrape`
   * accepts, keeps the dictionary valid.
   */
  lemma RunKeepsValid(jobs: map<string, Job>, jobId: string, authorId: string, profileUrl: string, timestamp: string,
                      events: seq<ProgressEvent>, outcome: Outcome)
    requires forall id :: id in jobs ==> JobValid(jobs[id])
    requires jobId in jobs && jobs[jobId].result.None? && jobs[jobId].error.None?
    ensures var after := jobs[jobId := RunJob(jobs[jobId], authorId, profileUrl, timestamp, events, outcome)];
      forall id :: id in after ==> JobValid(after[id])
  {
    ProgressedValid(Start(jobs[jobId]), events);
  }
}
