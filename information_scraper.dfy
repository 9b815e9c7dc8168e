/**
 * The orchestrator's own logic: ranking the search candidates by a confidence combined with
 * the reliability of their source, picking the person, grouping cached rows by data type,
 * choosing which scraped values to cache, collecting the text samples, and taking the title
 * from a Wikipedia URL. The scrapers, the cache database and the analyzers are not modelled.
 *
 * Confidences are integer hundredths (0.85 is 85), source weights integer tenths (0.9 is 9),
 * so a combined confidence is in thousandths.
 */
module InformationScraper {
  import opened Wrappers
  import opened Text
  import Json
  import Sorting
  import opened OrderedMaps
  import Markup

  // ---------------------------------------------------------------- _rank_candidates

  /**
   * A search candidate: the keys ranking reads. `source` and `confidence` may be missing
   * from the dict; `combined` is the `combined_confidence` ranking writes.
   */
  datatype Candidate = Candidate(name: string, source: Option<string>, confidence: Option<nat>, combined: int)

  /** `candidate.get('source', 'unknown')`. */
  function SourceOf(c: Candidate): string
  {
    match c.source case Some(s) => s case None => "unknown"
  }

  /** `candidate.get('confidence_score', 0)`. */
  function ScoreOf(c: Candidate): nat
  {
    match c.confidence case Some(v) => v case None => 0
  }

  /** The reliability of a source in tenths; a source not in the table weighs 0.5. */
  function Weight(source: string): (w: nat)
    ensures 4 <= w <= 9
  {
    if source == "wikipedia" then 9
    else if source == "google_scholar" then 8
    else if source == "linkedin" then 7
    else if source == "github" then 6
    else if source == "university" then 8
    else if source == "news" then 5
    else if source == "youtube" then 4
    else 5
  }

  /** `confidence_score * weight`, in thousandths. */
  function Weighted(score: nat, source: string): (r: int)
    ensures 4 * score <= r <= 9 * score
  {
    MulBound(score, Weight(source), score, 9);
    assert 4 * score <= score * Weight(source);
    score * Weight(source)
  }

  /** The candidates of one source, in input order: `source_groups[source]`. */
  function Group(cs: seq<Candidate>, source: string): (g: seq<Candidate>)
    ensures |g| <= |cs|
    ensures forall c :: c in g ==> c in cs && SourceOf(c) == source
  {
    if cs == [] then []
    else Group(cs[..|cs| - 1], source) + (if SourceOf(cs[|cs| - 1]) == source then [cs[|cs| - 1]] else [])
  }

  function Sum(cs: seq<Candidate>): nat
  {
    if cs == [] then 0 else Sum(cs[..|cs| - 1]) + ScoreOf(cs[|cs| - 1])
  }

  /**
   * `confidence_score * weight + avg_confidence * 0.1` in thousandths, the average of the
   * candidate's own source group taken in whole hundredths.
   */
  function Combined(cs: seq<Candidate>, c: Candidate): int
  {
    Weighted(ScoreOf(c), SourceOf(c)) + Mean(Group(cs, SourceOf(c)))
  }

  /** The floored average confidence of a group, 0 for an empty one. */
  function Mean(g: seq<Candidate>): nat
  {
    if g == [] then 0 else Sum(g) / |g|
  }

  /** Every candidate with its combined confidence written in, nothing else changed. */
  function Scored(cs: seq<Candidate>): (r: seq<Candidate>)
    ensures |r| == |cs|
    ensures forall i :: 0 <= i < |cs| ==> r[i] == cs[i].(combined := Combined(cs, cs[i]))
  {
    seq(|cs|, i requires 0 <= i < |cs| => cs[i].(combined := Combined(cs, cs[i])))
  }

  function CombinedKey(c: Candidate): int { c.combined }

  /** What `_rank_candidates` returns: the scored candidates, stably sorted by combined confidence, largest first. */
  function Ranked(cs: seq<Candidate>): seq<Candidate>
  {
    Sorting.SortDesc(Scored(cs), CombinedKey)
  }

  lemma GroupStep(cs: seq<Candidate>, i: nat, source: string)
    requires i < |cs|
    ensures Group(cs[..i + 1], source) == Group(cs[..i], source) + (if SourceOf(cs[i]) == source then [cs[i]] else [])
  {
    assert cs[..i + 1][..i] == cs[..i];
  }

  /** A candidate is in its own source group, so the group is never empty. */
  lemma {:induction false} GroupHas(cs: seq<Candidate>, i: nat)
    requires i < |cs|
    ensures cs[i] in Group(cs, SourceOf(cs[i]))
  {
    if i < |cs| - 1 {
      GroupHas(cs[..|cs| - 1], i);
    }
  }

  /** The sum loop of the generator in `avg_confidence`. */
  method SumScores(g: seq<Candidate>) returns (total: nat)
    ensures total == Sum(g)
  {
    total := 0;
    var k := 0;
    while k < |g|
      invariant 0 <= k <= |g|
      invariant total == Sum(g[..k])
    {
      assert g[..k + 1][..k] == g[..k];
      total := total + ScoreOf(g[k]);
      k := k + 1;
    }
    assert g[..k] == g;
  }

  /** The grouping loop: `source_groups` maps each source seen to its candidates, in order. */
  method GroupBySource(cs: seq<Candidate>) returns (groups: map<string, seq<Candidate>>)
    ensures forall s :: s in groups <==> Group(cs, s) != []
    ensures forall s :: s in groups ==> groups[s] == Group(cs, s)
  {
    groups := map[];
    var i := 0;
    while i < |cs|
      invariant 0 <= i <= |cs|
      invariant forall s :: s in groups <==> Group(cs[..i], s) != []
      invariant forall s :: s in groups ==> groups[s] == Group(cs[..i], s)
    {
      var source := SourceOf(cs[i]);
      forall s ensures Group(cs[..i + 1], s) == Group(cs[..i], s) + (if SourceOf(cs[i]) == s then [cs[i]] else []) {
        GroupStep(cs, i, s);
      }
      var members := if source in groups then groups[source] else [];
      groups := groups[source := members + [cs[i]]];
      i := i + 1;
    }
    assert cs[..i] == cs;
  }

  /** The body of the scoring loop for one candidate of `cs`. */
  method CombinedConfidence(cs: seq<Candidate>, groups: map<string, seq<Candidate>>, c: Candidate) returns (combined: int)
    requires SourceOf(c) in groups && groups[SourceOf(c)] == Group(cs, SourceOf(c)) != []
    ensures combined == Combined(cs, c)
  {
    var source := SourceOf(c);
    var sourceCandidates := groups[source];
    var total := SumScores(sourceCandidates);
    var avg := total / |sourceCandidates|;
    combined := Weighted(ScoreOf(c), source) + avg;
  }

  /** `_rank_candidates`: group by source, write every combined confidence, sort. */
  method RankCandidates(cs: seq<Candidate>) returns (ranked: seq<Candidate>)
    ensures ranked == Ranked(cs)
  {
    var groups := GroupBySource(cs);
    var scored: seq<Candidate> := [];
    var i := 0;
    while i < |cs|
      invariant 0 <= i <= |cs|
      invariant scored == Scored(cs)[..i]
    {
      TakeSnoc(Scored(cs), i);
      GroupHas(cs, i);
      var combined := CombinedConfidence(cs, groups, cs[i]);
      scored := scored + [cs[i].(combined := combined)];
      i := i + 1;
    }
    assert scored == Scored(cs);
    ranked := Sorting.SortDesc(scored, CombinedKey);
  }

  lemma TakeSnoc<T>(s: seq<T>, i: nat)
    requires i < |s|
    ensures s[..i + 1] == s[..i] + [s[i]]
  {
  }

  /** Ranking keeps exactly the scored candidates, largest combined confidence first. */
  lemma RankedPermutation(cs: seq<Candidate>)
    ensures multiset(Ranked(cs)) == multiset(Scored(cs))
    ensures Sorting.SortedDesc(Ranked(cs), CombinedKey)
  {
  }

  /** Candidates with equal combined confidence keep their search order. */
  lemma RankedStable(cs: seq<Candidate>, k: int)
    ensures Sorting.WithKey(Ranked(cs), CombinedKey, k) == Sorting.WithKey(Scored(cs), CombinedKey, k)
  {
    Sorting.SortDescStable(Scored(cs), CombinedKey, k);
  }

  /** Scoring changes nothing but the combined confidence. */
  lemma ScoredKeepsFields(cs: seq<Candidate>, i: nat)
    requires i < |cs|
    ensures Scored(cs)[i].name == cs[i].name && Scored(cs)[i].source == cs[i].source
    ensures Scored(cs)[i].confidence == cs[i].confidence
  {
  }

  lemma {:induction false} SumBound(g: seq<Candidate>, m: nat)
    requires forall c :: c in g ==> ScoreOf(c) <= m
    ensures Sum(g) <= m * |g|
  {
    if g != [] {
      assert g[|g| - 1] in g;
      SumBound(g[..|g| - 1], m);
      assert m * |g| == m * (|g| - 1) + m;
    }
  }

  lemma MulBound(a: nat, b: nat, m: nat, n: nat)
    requires a <= m && b <= n
    ensures 0 <= a * b <= m * n
  {
    assert a * b <= m * b;
  }

  lemma DivBound(x: nat, n: nat, m: nat)
    requires n > 0 && x <= m * n
    ensures x / n <= m
  {
  }

  /** Confidences of at most 1.0 give a combined confidence between 0 and 1.0. */
  lemma CombinedBound(cs: seq<Candidate>, c: Candidate)
    requires forall d :: d in cs ==> ScoreOf(d) <= 100
    requires ScoreOf(c) <= 100
    ensures 0 <= Combined(cs, c) <= 1000
  {
    var g := Group(cs, SourceOf(c));
    WeightedBound(ScoreOf(c), SourceOf(c), 100);
    MeanBound(g, 100);
  }

  lemma WeightedBound(score: nat, source: string, m: nat)
    requires score <= m
    ensures 0 <= Weighted(score, source) <= 9 * m
  {
    var r := Weighted(score, source);
    assert r <= 9 * score;
  }

  lemma MeanBound(g: seq<Candidate>, m: nat)
    requires forall d :: d in g ==> ScoreOf(d) <= m
    ensures Mean(g) <= m
  {
    if g != [] {
      SumBound(g, m);
      DivBound(Sum(g), |g|, m);
    }
  }

  /** Within one source a higher confidence never ranks lower: the group average is shared. */
  lemma SameSourceOrder(cs: seq<Candidate>, a: Candidate, b: Candidate)
    requires SourceOf(a) == SourceOf(b) && ScoreOf(a) >= ScoreOf(b)
    ensures Combined(cs, a) >= Combined(cs, b)
  {
  }

  // ---------------------------------------------------------------- select_person

  /** Auto-selection when the combined confidence exceeds 0.5. */
  const AutoSelectAbove: nat := 500

  /**
   * `select_person`: None for no candidates; otherwise the first candidate, whether it is
   * auto-selected for its confidence or picked after the listing. `auto` tells the branches apart.
   */
  function SelectPerson(candidates: seq<Candidate>): (r: (Option<Candidate>, bool))
    ensures r.0.None? <==> candidates == []
    ensures r.0.Some? ==> r.0.value == candidates[0]
    ensures r.1 <==> candidates != [] && candidates[0].combined > AutoSelectAbove
  {
    if candidates == [] then (None, false)
    else if candidates[0].combined > AutoSelectAbove then (Some(candidates[0]), true)
    else (Some(candidates[0]), false)
  }

  /** After ranking, the selected person has the largest combined confidence of all. */
  lemma SelectedIsBest(cs: seq<Candidate>)
    requires cs != []
    ensures SelectPerson(Ranked(cs)).0.Some?
    ensures forall c :: c in Scored(cs) ==> SelectPerson(Ranked(cs)).0.value.combined >= c.combined
  {
    var r := Ranked(cs);
    RankedPermutation(cs);
    forall c | c in Scored(cs) ensures r[0].combined >= c.combined {
      assert c in multiset(r);
      var j :| 0 <= j < |r| && r[j] == c;
      if j > 0 {
        assert CombinedKey(r[0]) >= CombinedKey(r[j]);
      }
    }
  }

  // ---------------------------------------------------------------- _process_cached_data

  /** A cached row: its `data_type` and `content`, either possibly missing. */
  datatype CachedRow = CachedRow(dataType: Option<string>, content: Option<string>)

  function TypeOf(row: CachedRow): string
  {
    match row.dataType case Some(t) => t case None => "unknown"
  }

  function ContentOf(row: CachedRow): string
  {
    match row.content case Some(c) => c case None => ""
  }

  /** The dict `_process_cached_data` builds from the first `n` rows. */
  function Grouped(rows: seq<CachedRow>): (r: OMap<seq<string>>)
    ensures Valid(r)
  {
    if rows == [] then Empty()
    else
      var acc := Grouped(rows[..|rows| - 1]);
      var row := rows[|rows| - 1];
      Put(acc, TypeOf(row), Get(acc, TypeOf(row), []) + [ContentOf(row)])
  }

  /** The contents of the rows of one data type, in order. */
  function ContentsOfType(rows: seq<CachedRow>, t: string): (r: seq<string>)
    ensures |r| <= |rows|
  {
    if rows == [] then []
    else ContentsOfType(rows[..|rows| - 1], t) + (if TypeOf(rows[|rows| - 1]) == t then [ContentOf(rows[|rows| - 1])] else [])
  }

  /** Each data type maps to the contents of its rows, in row order, and nothing is lost. */
  lemma GroupedContents(rows: seq<CachedRow>, t: string)
    ensures Get(Grouped(rows), t, []) == ContentsOfType(rows, t)
    ensures t in Grouped(rows).values <==> exists i :: 0 <= i < |rows| && TypeOf(rows[i]) == t
  {
    GroupedGet(rows, t);
    GroupedKeys(rows, t);
  }

  lemma {:induction false} GroupedGet(rows: seq<CachedRow>, t: string)
    ensures Get(Grouped(rows), t, []) == ContentsOfType(rows, t)
  {
    if rows != [] {
      GroupedGet(rows[..|rows| - 1], t);
    }
  }

  lemma GroupedKeys(rows: seq<CachedRow>, t: string)
    ensures t in Grouped(rows).values <==> exists i :: 0 <= i < |rows| && TypeOf(rows[i]) == t
  {
    GroupedKeysSound(rows, t);
    if exists i :: 0 <= i < |rows| && TypeOf(rows[i]) == t {
      var i :| 0 <= i < |rows| && TypeOf(rows[i]) == t;
      GroupedKeysComplete(rows, t, i);
    }
  }

  /** Every key of the grouping is the data type of some row. */
  lemma {:induction false} GroupedKeysSound(rows: seq<CachedRow>, t: string)
    ensures t in Grouped(rows).values ==> exists i :: 0 <= i < |rows| && TypeOf(rows[i]) == t
  {
    if rows != [] && t in Grouped(rows).values {
      var init := rows[..|rows| - 1];
      if TypeOf(rows[|rows| - 1]) != t {
        GroupedKeysSound(init, t);
        var i :| 0 <= i < |init| && TypeOf(init[i]) == t;
        assert TypeOf(rows[i]) == t;
      }
    }
  }

  /** The data type of every row is a key of the grouping. */
  lemma {:induction false} GroupedKeysComplete(rows: seq<CachedRow>, t: string, i: nat)
    requires i < |rows| && TypeOf(rows[i]) == t
    ensures t in Grouped(rows).values
  {
    var init := rows[..|rows| - 1];
    GroupedKeysStep(rows);
    if i < |init| {
      assert TypeOf(init[i]) == t;
      GroupedKeysComplete(init, t, i);
    }
  }

  /** One more row keeps every key and adds the row's data type. */
  lemma GroupedKeysStep(rows: seq<CachedRow>)
    requires rows != []
    ensures forall k :: k in Grouped(rows[..|rows| - 1]).values ==> k in Grouped(rows).values
    ensures TypeOf(rows[|rows| - 1]) in Grouped(rows).values
  {
  }

  /** The keys come in the order their data type first appears. */
  lemma {:induction false} GroupedOrder(rows: seq<CachedRow>, n: nat)
    requires n <= |rows|
    ensures Grouped(rows[..n]).keys <= Grouped(rows).keys
    decreases |rows| - n
  {
    if n < |rows| {
      var init := rows[..|rows| - 1];
      assert rows[..n] == init[..n];
      GroupedOrder(init, n);
    } else {
      assert rows[..n] == rows;
    }
  }

  lemma GroupedStep(rows: seq<CachedRow>, i: nat)
    requires i < |rows|
    ensures Grouped(rows[..i + 1]) == Put(Grouped(rows[..i]), TypeOf(rows[i]), Get(Grouped(rows[..i]), TypeOf(rows[i]), []) + [ContentOf(rows[i])])
  {
    assert rows[..i + 1][..i] == rows[..i];
  }

  /** The loop body: a new data type starts with an empty list, then the content is appended. */
  method AddContent(result: OMap<seq<string>>, dataType: string, content: string) returns (r: OMap<seq<string>>)
    requires Valid(result)
    ensures r == Put(result, dataType, Get(result, dataType, []) + [content])
  {
    r := result;
    if dataType !in r.values {
      PutTwice(r, dataType, [], [content]);
      r := Put(r, dataType, []);
    }
    r := Put(r, dataType, r.values[dataType] + [content]);
  }

  /** `_process_cached_data`: the row loop appending each content under its data type. */
  method ProcessCachedData(rows: seq<CachedRow>) returns (result: OMap<seq<string>>)
    ensures result == Grouped(rows)
  {
    result := Empty();
    var i := 0;
    while i < |rows|
      invariant 0 <= i <= |rows|
      invariant result == Grouped(rows[..i])
    {
      GroupedStep(rows, i);
      result := AddContent(result, TypeOf(rows[i]), ContentOf(rows[i]));
      i := i + 1;
    }
    assert rows[..i] == rows;
  }

  // ---------------------------------------------------------------- _cache_scraped_data

  /** The strings `_cache_scraped_data` stores for one value: the strings of a list, a string itself, nothing else. */
  function StringsOf(v: Json.Value): (r: seq<string>)
  {
    match v
    case Str(s) => [s]
    case List(items) => ListStrings(items)
    case _ => []
  }

  function ListStrings(items: seq<Json.Value>): (r: seq<string>)
    ensures |r| <= |items|
    ensures forall s :: s in r ==> Json.Str(s) in items
  {
    if items == [] then []
    else ListStrings(items[..|items| - 1]) + (match items[|items| - 1] case Str(s) => [s] case _ => [])
  }

  /** The `(data_type, content)` rows stored for a scraped dict, in item order. */
  function Stored(data: seq<(string, Json.Value)>): (r: seq<(string, string)>)
  {
    if data == [] then []
    else Stored(data[..|data| - 1]) + RowsOf(data[|data| - 1])
  }

  function RowsOf(entry: (string, Json.Value)): (r: seq<(string, string)>)
    ensures |r| == |StringsOf(entry.1)| && forall i :: 0 <= i < |r| ==> r[i] == (entry.0, StringsOf(entry.1)[i])
  {
    seq(|StringsOf(entry.1)|, i requires 0 <= i < |StringsOf(entry.1)| => (entry.0, StringsOf(entry.1)[i]))
  }

  /** Every row stored is a string of the data under its own key. */
  lemma {:induction false} StoredFrom(data: seq<(string, Json.Value)>, row: (string, string))
    requires row in Stored(data)
    ensures exists i :: 0 <= i < |data| && data[i].0 == row.0 && row.1 in StringsOf(data[i].1)
  {
    var init := data[..|data| - 1];
    var last := data[|data| - 1];
    if row in Stored(init) {
      StoredFrom(init, row);
      var i :| 0 <= i < |init| && init[i].0 == row.0 && row.1 in StringsOf(init[i].1);
      assert data[i] == init[i];
    } else {
      var k :| 0 <= k < |RowsOf(last)| && RowsOf(last)[k] == row;
      assert row.1 == StringsOf(last.1)[k];
    }
  }

  /** The inner loop for one dict item. */
  method CacheEntry(entry: (string, Json.Value)) returns (rows: seq<(string, string)>)
    ensures rows == RowsOf(entry)
  {
    var (dataType, content) := entry;
    rows := [];
    if content.List? {
      var k := 0;
      while k < |content.items|
        invariant 0 <= k <= |content.items|
        invariant rows == RowsOf((dataType, Json.List(content.items[..k])))
      {
        assert content.items[..k + 1][..k] == content.items[..k];
        if content.items[k].Str? {
          rows := rows + [(dataType, content.items[k].s)];
        }
        k := k + 1;
      }
      assert content.items[..k] == content.items;
    } else if content.Str? {
      rows := [(dataType, content.s)];
    }
  }

  /** `_cache_scraped_data`: the `store_scraped_data` calls, as the rows they store. */
  method CacheScrapedData(data: seq<(string, Json.Value)>) returns (stored: seq<(string, string)>)
    ensures stored == Stored(data)
  {
    stored := [];
    var i := 0;
    while i < |data|
      invariant 0 <= i <= |data|
      invariant stored == Stored(data[..i])
    {
      assert data[..i + 1][..i] == data[..i];
      var rows := CacheEntry(data[i]);
      stored := stored + rows;
      i := i + 1;
    }
    assert data[..i] == data;
  }

  /** The stored rows as they come back from the cache: type and content both present. */
  function AsCached(stored: seq<(string, string)>): (r: seq<CachedRow>)
    ensures |r| == |stored|
    ensures forall i :: 0 <= i < |stored| ==> r[i] == CachedRow(Some(stored[i].0), Some(stored[i].1))
  {
    seq(|stored|, i requires 0 <= i < |stored| => CachedRow(Some(stored[i].0), Some(stored[i].1)))
  }

  lemma AsCachedAppend(a: seq<(string, string)>, b: seq<(string, string)>)
    ensures AsCached(a + b) == AsCached(a) + AsCached(b)
  {
  }

  predicate DistinctKeys(data: seq<(string, Json.Value)>)
  {
    forall i, j :: 0 <= i < j < |data| ==> data[i].0 != data[j].0
  }

  lemma {:induction false} ContentsOfAppend(a: seq<CachedRow>, b: seq<CachedRow>, t: string)
    ensures ContentsOfType(a + b, t) == ContentsOfType(a, t) + ContentsOfType(b, t)
    decreases |b|
  {
    if b == [] {
      assert a + b == a;
    } else {
      assert (a + b)[..|a + b| - 1] == a + b[..|b| - 1];
      ContentsOfAppend(a, b[..|b| - 1], t);
    }
  }

  lemma {:induction false} ContentsOfRows(entry: (string, Json.Value), t: string)
    ensures ContentsOfType(AsCached(RowsOf(entry)), t) == if entry.0 == t then StringsOf(entry.1) else []
  {
    var rs := AsCached(RowsOf(entry));
    var n := |rs|;
    var strs := StringsOf(entry.1);
    var k := 0;
    while k < n
      invariant 0 <= k <= n
      invariant ContentsOfType(rs[..k], t) == if entry.0 == t then strs[..k] else []
    {
      assert rs[..k + 1][..k] == rs[..k];
      assert TypeOf(rs[k]) == entry.0 && ContentOf(rs[k]) == strs[k];
      k := k + 1;
    }
    assert rs[..n] == rs;
  }

  /**
   * Caching and reading back: with distinct keys, the cached rows grouped again give each key
   * exactly the strings of its value.
   */
  lemma {:induction false} CacheRoundTrip(data: seq<(string, Json.Value)>, i: nat)
    requires DistinctKeys(data) && i < |data|
    ensures Get(Grouped(AsCached(Stored(data))), data[i].0, []) == StringsOf(data[i].1)
  {
    GroupedContents(AsCached(Stored(data)), data[i].0);
    StoredContents(data, i);
  }

  lemma {:induction false} StoredContents(data: seq<(string, Json.Value)>, i: nat)
    requires DistinctKeys(data) && i < |data|
    ensures ContentsOfType(AsCached(Stored(data)), data[i].0) == StringsOf(data[i].1)
  {
    var init := data[..|data| - 1];
    var last := data[|data| - 1];
    var t := data[i].0;
    AsCachedAppend(Stored(init), RowsOf(last));
    ContentsOfAppend(AsCached(Stored(init)), AsCached(RowsOf(last)), t);
    ContentsOfRows(last, t);
    if i < |data| - 1 {
      assert init[i] == data[i];
      StoredContents(init, i);
    } else {
      NoneStored(init, t);
    }
  }

  lemma {:induction false} NoneStored(data: seq<(string, Json.Value)>, t: string)
    requires forall j :: 0 <= j < |data| ==> data[j].0 != t
    ensures ContentsOfType(AsCached(Stored(data)), t) == []
  {
    if data != [] {
      var init := data[..|data| - 1];
      var last := data[|data| - 1];
      AsCachedAppend(Stored(init), RowsOf(last));
      ContentsOfAppend(AsCached(Stored(init)), AsCached(RowsOf(last)), t);
      ContentsOfRows(last, t);
      NoneStored(init, t);
    }
  }

  // ---------------------------------------------------------------- _extract_text_samples

  /** The five `(source, field)` pairs read, in order. */
  const SampleFields: seq<(string, string)> :=
    [("wikipedia", "extract"), ("news", "articles"), ("youtube", "videos"), ("linkedin", "summary"), ("university", "biography")]

  type Scraped = map<string, map<string, Json.Value>>

  /** What one pair contributes: a list's elements, a string, or nothing. */
  function SampleOf(data: Scraped, pair: (string, string)): seq<Json.Value>
  {
    if pair.0 in data && pair.1 in data[pair.0] then
      match data[pair.0][pair.1]
      case List(items) => items
      case Str(s) => [Json.Str(s)]
      case _ => []
    else []
  }

  function Samples(data: Scraped, pairs: seq<(string, string)>): seq<Json.Value>
  {
    if pairs == [] then [] else Samples(data, pairs[..|pairs| - 1]) + SampleOf(data, pairs[|pairs| - 1])
  }

  /** `_extract_text_samples`. */
  method ExtractTextSamples(data: Scraped) returns (samples: seq<Json.Value>)
    ensures samples == Samples(data, SampleFields)
  {
    samples := [];
    var i := 0;
    while i < |SampleFields|
      invariant 0 <= i <= |SampleFields|
      invariant samples == Samples(data, SampleFields[..i])
    {
      assert SampleFields[..i + 1][..i] == SampleFields[..i];
      var (source, field) := SampleFields[i];
      if source in data {
        var d := data[source];
        if field in d {
          var content := d[field];
          if content.List? {
            samples := samples + content.items;
          } else if content.Str? {
            samples := samples + [content];
          }
        }
      }
      i := i + 1;
    }
    assert SampleFields[..i] == SampleFields;
  }

  /** Two scraped dicts that agree on the pairs read give the same samples: nothing else is read. */
  lemma {:induction false} SamplesReadOnly(a: Scraped, b: Scraped, pairs: seq<(string, string)>)
    requires forall p :: p in pairs ==> (p.0 in a && p.1 in a[p.0]) == (p.0 in b && p.1 in b[p.0])
    requires forall p :: p in pairs && p.0 in a && p.1 in a[p.0] ==> a[p.0][p.1] == b[p.0][p.1]
    ensures Samples(a, pairs) == Samples(b, pairs)
  {
    if pairs != [] {
      var init := pairs[..|pairs| - 1];
      assert forall p :: p in init ==> p in pairs;
      assert pairs[|pairs| - 1] in pairs;
      SamplesReadOnly(a, b, init);
    }
  }

  /** Without any of the five pairs there is no sample. */
  lemma {:induction false} NoSamples(data: Scraped, pairs: seq<(string, string)>)
    requires forall p :: p in pairs ==> !(p.0 in data && p.1 in data[p.0])
    ensures Samples(data, pairs) == []
  {
    if pairs != [] {
      assert pairs[|pairs| - 1] in pairs;
      assert forall p :: p in pairs[..|pairs| - 1] ==> p in pairs;
      NoSamples(data, pairs[..|pairs| - 1]);
    }
  }

  // ---------------------------------------------------------------- _scrape_wikipedia_by_url

  const WikiMarker := "/wiki/"

  /** The title taken from a Wikipedia URL: after the last "/wiki/", '_' read as ' '; None without "/wiki/". */
  function WikiTitle(url: string): (r: Option<string>)
    ensures r.Some? <==> Contains(url, WikiMarker)
    ensures r.Some? ==> Markup.NoChar(r.value, '_')
  {
    SplitMany(url, WikiMarker);
    if Contains(url, WikiMarker) then
      var pieces := Split(url, WikiMarker);
      Markup.ReplaceCharRemoves(pieces[|pieces| - 1], '_', " ");
      Some(Markup.ReplaceChar(pieces[|pieces| - 1], '_', " "))
    else None
  }

  /** The title comes from the text after the last "/wiki/": the URL ends with that marker and that text. */
  lemma WikiTitleLast(url: string)
    requires Contains(url, WikiMarker)
    ensures exists before, raw :: url == before + WikiMarker + raw && !Contains(raw, WikiMarker) && WikiTitle(url) == Some(Markup.ReplaceChar(raw, '_', " "))
  {
    var pieces := Split(url, WikiMarker);
    SplitMany(url, WikiMarker);
    SplitLast(url, WikiMarker);
    SplitPiecesFree(url, WikiMarker);
    var before := Join(pieces[..|pieces| - 1], WikiMarker);
    var raw := pieces[|pieces| - 1];
    assert url == before + WikiMarker + raw;
  }
}
