/**
 * Publication records gathered from Crossref and Semantic Scholar: shaping the two
 * APIs' items into one record layout, merging duplicates by DOI or normalised title,
 * and the exact-author filter. A record is a JSON object (`map<string, Value>`).
 */
module PublicationsEnricher {
  import opened Wrappers
  import opened Text
  import opened Json
  import opened OrderedMaps
  import Dedup

  type Record = map<string, Value>

  /** `p.get(k)`. */
  function Field(p: Record, k: string): Value
  {
    if k in p then p[k] else Null
  }

  /** The fields a later duplicate may fill in, in the order the merge visits them. */
  function FillableFields(): seq<string> { ["abstract", "pdf_url", "venue", "year", "authors", "url", "citations", "publisher"] }

  /** `(t or "").strip().lower()`; a truthy non-string title raises (AttributeError). */
  function NormTitle(t: Value): Result<string, string>
  {
    if !Truthy(t) then Ok("")
    else if t.Str? then Ok(Lower(Strip(t.s)))
    else Err("AttributeError")
  }

  /**
   * `p.get("doi") or norm_title(p.get("title", ""))`; an empty key means the record is skipped.
   * A truthy DOI that is not a string or a list is `True` or a non-zero integer; `True` is the
   * same dict key as `1`.
   */
  function MergeKey(p: Record): Result<string, string>
  {
    var doi := Field(p, "doi");
    if Truthy(doi) then
      (match doi
       case Str(s) => Ok(s)
       case Int(i) => Ok(IntToString(i))
       case List(_) => Err("TypeError")
       case _ => Ok(IntToString(1)))
    else NormTitle(if "title" in p then p["title"] else Str(""))
  }

  /** Copy from `p` each listed field that is falsy in `e` and truthy in `p`. */
  function FillFrom(e: Record, p: Record, flds: seq<string>): Record
    decreases |flds|
  {
    if flds == [] then e
    else
      var f := flds[0];
      var e' := if !Truthy(Field(e, f)) && Truthy(Field(p, f)) then e[f := p[f]] else e;
      FillFrom(e', p, flds[1..])
  }

  /** Filling never touches a truthy field or an unlisted one, and fills a falsy listed field that `p` has. */
  lemma {:induction false} FillFromFacts(e: Record, p: Record, flds: seq<string>, f: string)
    ensures (Truthy(Field(e, f)) || f !in flds) ==> Field(FillFrom(e, p, flds), f) == Field(e, f)
    ensures f in flds && !Truthy(Field(e, f)) && Truthy(Field(p, f)) ==> Field(FillFrom(e, p, flds), f) == Field(p, f)
    decreases |flds|
  {
    if flds != [] {
      var g := flds[0];
      var e' := if !Truthy(Field(e, g)) && Truthy(Field(p, g)) then e[g := p[g]] else e;
      assert FillFrom(e, p, flds) == FillFrom(e', p, flds[1..]);
      FillFromFacts(e', p, flds[1..], f);
      assert f in flds <==> f == g || f in flds[1..];
    }
  }

  /** One step of `_merge_publications` for a record with key `k`: skip an empty key, insert a new one, or fill the kept record. */
  function Insert(acc: OMap<Record>, k: string, p: Record): (r: OMap<Record>)
    requires Valid(acc)
    ensures Valid(r)
  {
    if k == "" then acc
    else if k !in acc.values then Put(acc, k, p)
    else Put(acc, k, FillFrom(acc.values[k], p, FillableFields()))
  }

  function MergeFrom(acc: OMap<Record>, pubs: seq<Record>): (r: Result<OMap<Record>, string>)
    requires Valid(acc)
    ensures r.Ok? ==> Valid(r.value)
    decreases |pubs|
  {
    if pubs == [] then Ok(acc)
    else
      var key := MergeKey(pubs[0]);
      if key.Err? then Err(key.error) else MergeFrom(Insert(acc, key.value, pubs[0]), pubs[1..])
  }

  /** The kept records in first-occurrence order of their keys (`list(by_key.values())`). */
  function ValuesInOrder(m: OMap<Record>): seq<Record>
    requires Valid(m)
  {
    seq(|m.keys|, i requires 0 <= i < |m.keys| => m.values[m.keys[i]])
  }

  /** `_merge_publications`. */
  function Merge(pubs: seq<Record>): Result<seq<Record>, string>
  {
    match MergeFrom(Empty(), pubs)
    case Err(e) => Err(e)
    case Ok(m) => Ok(ValuesInOrder(m))
  }

  /** The merge key of every record, with "" where the key cannot be computed. */
  function KeyList(pubs: seq<Record>): (ks: seq<string>)
    ensures |ks| == |pubs|
  {
    if pubs == [] then [] else [if MergeKey(pubs[0]).Ok? then MergeKey(pubs[0]).value else ""] + KeyList(pubs[1..])
  }

  /** Inserting key `ks[0]` extends the key order exactly as the first-occurrence filter does. */
  lemma InsertKeys(acc: OMap<Record>, p: Record, ks: seq<string>)
    requires Valid(acc) && ks != []
    ensures var acc' := Insert(acc, ks[0], p);
      acc'.keys + Dedup.DedupFrom(ks[1..], Dedup.Id, acc'.values.Keys) == acc.keys + Dedup.DedupFrom(ks, Dedup.Id, acc.values.Keys)
  {
    var k := ks[0];
    var acc' := Insert(acc, k, p);
    var s := acc.values.Keys;
    var rest := Dedup.DedupFrom(ks[1..], Dedup.Id, acc'.values.Keys);
    var d := Dedup.DedupFrom(ks, Dedup.Id, s);
    InsertKeySet(acc, p, k);
    DedupKeysHead(ks, s);
    InsertKeysOrder(acc, p, k, rest, d);
  }

  lemma InsertKeySet(acc: OMap<Record>, p: Record, k: string)
    requires Valid(acc)
    ensures Insert(acc, k, p).values.Keys == if k != "" && k !in acc.values then acc.values.Keys + {k} else acc.values.Keys
  {
  }

  lemma InsertKeysOrder(acc: OMap<Record>, p: Record, k: string, rest: seq<string>, d: seq<string>)
    requires Valid(acc)
    requires d == if k != "" && k !in acc.values then [k] + rest else rest
    ensures Insert(acc, k, p).keys + rest == acc.keys + d
  {
    if k != "" && k !in acc.values {
      assert Insert(acc, k, p).keys == acc.keys + [k];
      assert acc.keys + [k] + rest == acc.keys + ([k] + rest);
    }
  }

  /** One step of the first-occurrence filter on keys. */
  lemma DedupKeysHead(ks: seq<string>, seen: set<string>)
    requires ks != []
    ensures Dedup.DedupFrom(ks, Dedup.Id, seen) ==
      if ks[0] == "" || ks[0] in seen then Dedup.DedupFrom(ks[1..], Dedup.Id, seen) else [ks[0]] + Dedup.DedupFrom(ks[1..], Dedup.Id, seen + {ks[0]})
  {
  }

  lemma {:induction false} MergeFromKeys(acc: OMap<Record>, pubs: seq<Record>)
    requires Valid(acc)
    requires MergeFrom(acc, pubs).Ok?
    ensures MergeFrom(acc, pubs).value.keys == acc.keys + Dedup.DedupFrom(KeyList(pubs), Dedup.Id, acc.values.Keys)
    decreases |pubs|
  {
    if pubs != [] {
      var k := MergeKey(pubs[0]).value;
      var acc' := Insert(acc, k, pubs[0]);
      assert MergeFrom(acc, pubs) == MergeFrom(acc', pubs[1..]);
      MergeFromKeys(acc', pubs[1..]);
      var ks := KeyList(pubs);
      assert ks[0] == k && ks[1..] == KeyList(pubs[1..]);
      InsertKeys(acc, pubs[0], ks);
    }
  }

  /**
   * Merge keys are pairwise distinct, and the output follows the first-occurrence
   * order of the non-empty keys of the input.
   */
  lemma MergeKeysFirstOccurrence(pubs: seq<Record>)
    requires MergeFrom(Empty(), pubs).Ok?
    ensures var m := MergeFrom(Empty(), pubs).value;
      && m.keys == Dedup.FirstPerKey(KeyList(pubs), Dedup.Id)
      && NoDup(m.keys)
  {
    var e: OMap<Record> := Empty();
    MergeFromKeys(e, pubs);
    assert e.values.Keys == {};
  }

  /** A merge step keeps every kept record's truthy and unlisted fields. */
  lemma InsertKeeps(acc: OMap<Record>, k0: string, p: Record, k: string, f: string)
    requires Valid(acc)
    requires k in acc.values && (Truthy(Field(acc.values[k], f)) || f !in FillableFields())
    ensures k in Insert(acc, k0, p).values && Field(Insert(acc, k0, p).values[k], f) == Field(acc.values[k], f)
  {
    FillFromFacts(acc.values[k], p, FillableFields(), f);
  }

  lemma {:induction false} MergeFromKeeps(acc: OMap<Record>, pubs: seq<Record>, k: string, f: string)
    requires Valid(acc)
    requires MergeFrom(acc, pubs).Ok?
    requires k in acc.values && (Truthy(Field(acc.values[k], f)) || f !in FillableFields())
    ensures k in MergeFrom(acc, pubs).value.values
    ensures Field(MergeFrom(acc, pubs).value.values[k], f) == Field(acc.values[k], f)
    decreases |pubs|
  {
    if pubs != [] {
      var acc' := Insert(acc, MergeKey(pubs[0]).value, pubs[0]);
      MergeFromStep(acc, pubs);
      InsertKeeps(acc, MergeKey(pubs[0]).value, pubs[0], k, f);
      MergeFromKeeps(acc', pubs[1..], k, f);
    }
  }

  /** The first record with each key is kept; a later duplicate never overwrites a truthy field, nor title, doi or source. */
  lemma {:induction false} MergeFromFirstKept(acc: OMap<Record>, pubs: seq<Record>, i: nat, f: string)
    requires Valid(acc)
    requires MergeFrom(acc, pubs).Ok?
    requires i < |pubs|
    requires var k := KeyList(pubs)[i];
      k != "" && k !in acc.values && (forall j :: 0 <= j < i ==> KeyList(pubs)[j] != k)
    requires Truthy(Field(pubs[i], f)) || f !in FillableFields()
    ensures KeyList(pubs)[i] in MergeFrom(acc, pubs).value.values
    ensures Field(MergeFrom(acc, pubs).value.values[KeyList(pubs)[i]], f) == Field(pubs[i], f)
    decreases |pubs|
  {
    var k := KeyList(pubs)[i];
    var k0 := MergeKey(pubs[0]).value;
    var acc' := Insert(acc, k0, pubs[0]);
    assert MergeFrom(acc, pubs) == MergeFrom(acc', pubs[1..]);
    assert KeyList(pubs)[0] == k0 && KeyList(pubs)[1..] == KeyList(pubs[1..]);
    if i == 0 {
      assert acc'.values[k] == pubs[0];
      MergeFromKeeps(acc', pubs[1..], k, f);
    } else {
      assert k0 != k;
      assert k !in acc'.values;
      assert KeyList(pubs[1..])[i - 1] == k && pubs[1..][i - 1] == pubs[i];
      forall j | 0 <= j < i - 1 ensures KeyList(pubs[1..])[j] != k {
        assert KeyList(pubs[1..])[j] == KeyList(pubs)[j + 1];
      }
      MergeFromFirstKept(acc', pubs[1..], i - 1, f);
    }
  }

  lemma MergeFromStep(acc: OMap<Record>, pubs: seq<Record>)
    requires Valid(acc) && pubs != [] && MergeKey(pubs[0]).Ok?
    ensures MergeFrom(acc, pubs) == MergeFrom(Insert(acc, MergeKey(pubs[0]).value, pubs[0]), pubs[1..])
  {
  }

  /** `_merge_publications` as the source writes it: a loop filling `by_key`. */
  method MergePublications(pubs: seq<Record>) returns (r: Result<seq<Record>, string>)
    ensures r == Merge(pubs)
  {
    var byKey: OMap<Record> := Empty();
    var i := 0;
    while i < |pubs|
      invariant 0 <= i <= |pubs|
      invariant Valid(byKey)
      invariant MergeFrom(Empty(), pubs) == MergeFrom(byKey, pubs[i..])
    {
      var p := pubs[i];
      assert pubs[i..][0] == p && pubs[i..][1..] == pubs[i + 1..];
      var key := MergeKey(p);
      if key.Err? {
        return Err(key.error);
      }
      MergeFromStep(byKey, pubs[i..]);
      byKey := AddToIndex(byKey, key.value, p);
      i := i + 1;
    }
    r := Ok(ValuesInOrder(byKey));
  }

  /** The body of the merge loop for a record with key `key`. */
  method AddToIndex(byKey: OMap<Record>, key: string, p: Record) returns (updated: OMap<Record>)
    requires Valid(byKey)
    ensures updated == Insert(byKey, key, p)
  {
    updated := byKey;
    if key != "" {
      if key !in byKey.values {
        updated := Put(byKey, key, p);
      } else {
        var existing := FillMissing(byKey.values[key], p);
        updated := Put(byKey, key, existing);
      }
    }
  }

  /** The inner field loop: fill each listed field that is falsy in `existing` and truthy in `p`. */
  method FillMissing(existing: Record, p: Record) returns (e: Record)
    ensures e == FillFrom(existing, p, FillableFields())
  {
    e := existing;
    var k := 0;
    while k < |FillableFields()|
      invariant 0 <= k <= |FillableFields()|
      invariant FillFrom(existing, p, FillableFields()) == FillFrom(e, p, FillableFields()[k..])
    {
      var fld := FillableFields()[k];
      assert FillableFields()[k..][0] == fld && FillableFields()[k..][1..] == FillableFields()[k + 1..];
      if !Truthy(Field(e, fld)) && Truthy(Field(p, fld)) {
        e := e[fld := p[fld]];
      }
      k := k + 1;
    }
  }

  /** `(p.get('authors') or '').lower()`; a truthy non-string raises. */
  function AuthorsText(p: Record): Result<string, string>
  {
    var a := Field(p, "authors");
    if !Truthy(a) then Ok("") else if a.Str? then Ok(Lower(a.s)) else Err("AttributeError")
  }

  /** The records whose lowercased authors contain `target`, in order; the first failing record raises. */
  function AuthorFilter(pubs: seq<Record>, target: string): Result<seq<Record>, string>
  {
    if pubs == [] then Ok([])
    else
      match AuthorsText(pubs[0])
      case Err(e) => Err(e)
      case Ok(a) => Prefixed(if Contains(a, target) then [pubs[0]] else [], AuthorFilter(pubs[1..], target))
  }

  /**
   * `filter_by_exact_author`: empty input gives []; otherwise the order-preserving
   * subsequence whose authors contain the stripped lowercased name. The affiliation
   * keywords are lowercased and compared but never remove a record.
   */
  method FilterByExactAuthor(pubs: seq<Record>, exactName: string, affiliationKeywords: seq<string>)
    returns (r: Result<seq<Record>, string>)
    ensures pubs == [] ==> r == Ok([])
    ensures r == AuthorFilter(pubs, Lower(Strip(exactName)))
  {
    if pubs == [] {
      return Ok([]);
    }
    var target := Lower(Strip(exactName));
    assert pubs[0..] == pubs;
    PrefixedNone(AuthorFilter(pubs, target));
    var filtered: seq<Record> := [];
    var i := 0;
    while i < |pubs|
      invariant 0 <= i <= |pubs|
      invariant AuthorFilter(pubs, target) == Prefixed(filtered, AuthorFilter(pubs[i..], target))
    {
      assert pubs[i..][0] == pubs[i] && pubs[i..][1..] == pubs[i + 1..];
      var a := AuthorsText(pubs[i]);
      if a.Err? {
        assert AuthorFilter(pubs[i..], target) == Err(a.error);
        return Err(a.error);
      }
      if Contains(a.value, target) {
        PrefixedAppend(filtered, pubs[i], AuthorFilter(pubs[i + 1..], target));
        filtered := filtered + [pubs[i]];
      } else {
        PrefixedNone(AuthorFilter(pubs[i + 1..], target));
      }
      i := i + 1;
    }
    assert pubs[i..] == [] && filtered + [] == filtered;
    r := Ok(filtered);
  }

  /** `filtered + rest` when the rest succeeded; an error otherwise. */
  function Prefixed(filtered: seq<Record>, r: Result<seq<Record>, string>): Result<seq<Record>, string>
  {
    match r
    case Err(e) => Err(e)
    case Ok(rest) => Ok(filtered + rest)
  }

  lemma PrefixedNone(r: Result<seq<Record>, string>)
    ensures Prefixed([], r) == r
  {
    if r.Ok? { assert [] + r.value == r.value; }
  }

  lemma PrefixedAppend(filtered: seq<Record>, p: Record, r: Result<seq<Record>, string>)
    ensures Prefixed(filtered, Prefixed([p], r)) == Prefixed(filtered + [p], r)
  {
    if r.Ok? { assert filtered + ([p] + r.value) == filtered + [p] + r.value; }
  }

  lemma {:induction false} AuthorFilterSubsequence(pubs: seq<Record>, target: string)
    requires AuthorFilter(pubs, target).Ok?
    ensures Dedup.IsSubsequence(AuthorFilter(pubs, target).value, pubs)
    ensures forall i :: 0 <= i < |AuthorFilter(pubs, target).value| ==>
                 AuthorsText(AuthorFilter(pubs, target).value[i]).Ok? && Contains(AuthorsText(AuthorFilter(pubs, target).value[i]).value, target)
  {
    if pubs != [] {
      AuthorFilterSubsequence(pubs[1..], target);
      var rest := AuthorFilter(pubs[1..], target).value;
      var r := AuthorFilter(pubs, target).value;
      if r == [pubs[0]] + rest {
        assert r[0] == pubs[0] && r[1..] == rest;
      } else {
        assert r == rest;
      }
    }
  }

  /**
   * Nothing that matches is lost: when the filter succeeds, every record could be read, and
   * each record whose authors contain the target is kept as often as it occurs in the input.
   */
  lemma {:induction false} AuthorFilterComplete(pubs: seq<Record>, target: string)
    requires AuthorFilter(pubs, target).Ok?
    ensures forall i :: 0 <= i < |pubs| ==> AuthorsText(pubs[i]).Ok?
    ensures forall p :: AuthorsText(p).Ok? && Contains(AuthorsText(p).value, target) ==>
                 multiset(AuthorFilter(pubs, target).value)[p] == multiset(pubs)[p]
  {
    if pubs != [] {
      AuthorFilterComplete(pubs[1..], target);
      var rest := AuthorFilter(pubs[1..], target).value;
      var r := AuthorFilter(pubs, target).value;
      assert pubs == [pubs[0]] + pubs[1..];
      forall i | 0 < i < |pubs| ensures AuthorsText(pubs[i]).Ok? {
        assert pubs[i] == pubs[1..][i - 1];
      }
      if Contains(AuthorsText(pubs[0]).value, target) {
        assert r == [pubs[0]] + rest;
      } else {
        assert r == rest;
      }
    }
  }

  /** The filter raises only when some record's authors cannot be read. */
  lemma {:induction false} AuthorFilterOk(pubs: seq<Record>, target: string)
    requires forall i :: 0 <= i < |pubs| ==> AuthorsText(pubs[i]).Ok?
    ensures AuthorFilter(pubs, target).Ok?
  {
    if pubs != [] {
      assert AuthorsText(pubs[0]).Ok?;
      forall i | 0 <= i < |pubs| - 1 ensures AuthorsText(pubs[1..][i]).Ok? {
        assert pubs[1..][i] == pubs[i + 1];
      }
      AuthorFilterOk(pubs[1..], target);
    }
  }

  /** A Crossref `works` item, with absent keys as empty lists and strings. */
  datatype CrossrefItem = CrossrefItem(
    title: seq<Value>, printDateParts: seq<seq<Value>>, onlineDateParts: seq<seq<Value>>,
    doi: string, url: string, authors: seq<(string, string)>, containerTitle: seq<Value>, publisher: string)

  /** `(xs or [""])[0]`. */
  function FirstOrEmpty(xs: seq<Value>): Value
  {
    if xs == [] then Str("") else xs[0]
  }

  /** The year: `published-print` date-parts first, else `published-online`, else None; an empty first date part raises IndexError. */
  function CrossrefYear(it: CrossrefItem): Result<Value, string>
  {
    if it.printDateParts != [] then
      (if it.printDateParts[0] == [] then Err("IndexError") else Ok(it.printDateParts[0][0]))
    else if it.onlineDateParts != [] then
      (if it.onlineDateParts[0] == [] then Err("IndexError") else Ok(it.onlineDateParts[0][0]))
    else Ok(Null)
  }

  function AuthorNames(authors: seq<(string, string)>): seq<string>
  {
    if authors == [] then [] else [Strip(authors[0].0 + " " + authors[0].1)] + AuthorNames(authors[1..])
  }

  /** One name per author, in order: the given and family names joined by a space, stripped. */
  lemma {:induction false} AuthorNamesFacts(authors: seq<(string, string)>)
    ensures |AuthorNames(authors)| == |authors|
    ensures forall i :: 0 <= i < |authors| ==> AuthorNames(authors)[i] == Strip(authors[i].0 + " " + authors[i].1)
  {
    if authors != [] {
      AuthorNamesFacts(authors[1..]);
    }
  }

  function CrossrefRecord(it: CrossrefItem, year: Value): Record
  {
    map["title" := FirstOrEmpty(it.title), "authors" := Str(Join(AuthorNames(it.authors), ", ")),
        "year" := (if Truthy(year) then year else Str("")), "venue" := FirstOrEmpty(it.containerTitle),
        "abstract" := Str(""), "citations" := Int(0), "url" := Str(it.url), "pdf_url" := Str(""),
        "doi" := Str(it.doi), "publisher" := Str(it.publisher), "source" := Str("crossref")]
  }

  /**
   * `_search_crossref` after a 200 response: one record per item, stopping (and keeping
   * what was built) at the first item whose date parts raise.
   */
  function CrossrefRecords(items: seq<CrossrefItem>): (r: seq<Record>)
    ensures |r| <= |items|
    ensures forall i :: 0 <= i < |r| ==> CrossrefYear(items[i]).Ok? && r[i] == CrossrefRecord(items[i], CrossrefYear(items[i]).value)
    ensures |r| < |items| ==> CrossrefYear(items[|r|]).Err?
  {
    if items == [] then []
    else
      match CrossrefYear(items[0])
      case Err(_) => []
      case Ok(y) => [CrossrefRecord(items[0], y)] + CrossrefRecords(items[1..])
  }

  /** A Semantic Scholar search hit. */
  datatype S2Paper = S2Paper(
    title: Value, authorNames: seq<string>, year: Value, venue: Value, abstractText: Value,
    citationCount: Value, url: Value, doi: string, pdfUrl: string)

  function S2Record(p: S2Paper): Record
  {
    map["title" := p.title, "authors" := Str(Join(p.authorNames, ", ")), "year" := p.year, "venue" := p.venue,
        "abstract" := p.abstractText, "citations" := p.citationCount, "url" := p.url, "pdf_url" := Str(p.pdfUrl),
        "doi" := Str(p.doi), "publisher" := Str(""), "source" := Str("semantic_scholar")]
  }

  function S2Records(data: seq<S2Paper>): (r: seq<Record>)
    ensures |r| == |data| && forall i :: 0 <= i < |r| ==> r[i] == S2Record(data[i])
  {
    if data == [] then [] else [S2Record(data[0])] + S2Records(data[1..])
  }

  /**
   * `enrich_by_author`: Crossref records, then Semantic Scholar records, merged and cut to
   * `max_results`; `[]` when merging raises. A response that is not 200 (None here) adds nothing.
   */
  function EnrichByAuthor(crossref: Option<seq<CrossrefItem>>, s2: Option<seq<S2Paper>>, maxResults: nat): (r: seq<Record>)
    ensures |r| <= maxResults
    ensures var input := EnrichInput(crossref, s2);
      match Merge(input)
      case Err(_) => r == []
      case Ok(m) => r == Take(m, maxResults)
  {
    match Merge(EnrichInput(crossref, s2))
    case Err(_) => []
    case Ok(m) => Take(m, maxResults)
  }

  /** The merge input: the Crossref records, then the Semantic Scholar records. */
  function EnrichInput(crossref: Option<seq<CrossrefItem>>, s2: Option<seq<S2Paper>>): seq<Record>
  {
    (if crossref.Some? then CrossrefRecords(crossref.value) else []) + (if s2.Some? then S2Records(s2.value) else [])
  }

  /**
   * When merging succeeds, `enrich_by_author` returns one record per merge key: the keys
   * are non-empty, pairwise distinct, in the order they first occur among the Crossref
   * then Semantic Scholar records, every non-empty input key is among them, and the first
   * `max_results` of them are returned with their merged records.
   */
  lemma EnrichByAuthorKeys(crossref: Option<seq<CrossrefItem>>, s2: Option<seq<S2Paper>>, maxResults: nat)
    requires MergeFrom(Empty(), EnrichInput(crossref, s2)).Ok?
    ensures MergedTake(EnrichInput(crossref, s2), EnrichByAuthor(crossref, s2, maxResults), maxResults)
  {
    var input := EnrichInput(crossref, s2);
    assert EnrichByAuthor(crossref, s2, maxResults) == Take(ValuesInOrder(MergeFrom(Empty(), input).value), maxResults);
    MergedTakeFacts(input, maxResults);
  }

  /** `r` is the first `n` records of the merge of `input`, one per distinct key in first-occurrence order. */
  ghost predicate MergedTake(input: seq<Record>, r: seq<Record>, n: nat)
    requires MergeFrom(Empty(), input).Ok?
  {
    var m := MergeFrom(Empty(), input).value;
    var ks := m.keys;
    && ks == Dedup.FirstPerKey(KeyList(input), Dedup.Id)
    && NoDup(ks)
    && (forall i :: 0 <= i < |ks| ==> ks[i] != "")
    && (forall i :: 0 <= i < |input| && KeyList(input)[i] != "" ==> KeyList(input)[i] in ks)
    && |r| == (if |ks| < n then |ks| else n)
    && (forall i :: 0 <= i < |r| ==> ks[i] in m.values && r[i] == m.values[ks[i]])
  }

  lemma MergedTakeFacts(input: seq<Record>, n: nat)
    requires MergeFrom(Empty(), input).Ok?
    ensures MergedTake(input, Take(ValuesInOrder(MergeFrom(Empty(), input).value), n), n)
  {
    var m := MergeFrom(Empty(), input).value;
    MergeKeysFirstOccurrence(input);
    Dedup.FirstPerKeyFacts(KeyList(input), Dedup.Id);
    var ks := m.keys;
    forall i | 0 <= i < |ks| ensures ks[i] != "" {
      assert Dedup.Id(ks[i]) != "";
    }
    forall i | 0 <= i < |input| && KeyList(input)[i] != "" ensures KeyList(input)[i] in ks {
      assert Dedup.Id(KeyList(input)[i]) != "";
      var j :| 0 <= j < |ks| && Dedup.Id(ks[j]) == Dedup.Id(KeyList(input)[i]);
    }
  }
}
