/**
 * The helpers every scraper inherits: text cleaning (whitespace collapse, then six HTML
 * entities decoded in dictionary order, then strip), the cache admission rule, the
 * cache-guarded store and lookup, and the bounded retry loop with exponential backoff.
 */
module BaseScraper {
  import opened Wrappers
  import opened Text

  /** `Config.MAX_RETRIES` when the environment does not override it. */
  const DefaultMaxRetries: nat := 3
  /** `Config.MAX_CONTENT_LENGTH`. */
  const MaxContentLength: nat := 1000000

  // ---------------------------------------------------------------- clean_text

  /** The `replacements` dict of `clean_text`, in its insertion order. */
  const Entities: seq<(string, string)> :=
    [("&amp;", "&"), ("&lt;", "<"), ("&gt;", ">"), ("&quot;", "\""), ("&apos;", "'"), ("&nbsp;", " ")]

  /** Every entity pattern starts with '&', so none is empty. */
  lemma EntitiesStartWithAmp()
    ensures forall i :: 0 <= i < |Entities| ==> |Entities[i].0| > 0 && Entities[i].0[0] == '&'
  {
  }

  /** `text.replace(entity, char)` for the first `n` entities, in order. */
  function Decoded(s: string, n: nat): string
    requires n <= |Entities|
  {
    EntitiesStartWithAmp();
    if n == 0 then s else Replace(Decoded(s, n - 1), Entities[n - 1].0, Entities[n - 1].1)
  }

  /** What `clean_text` returns. */
  function Cleaned(text: string): (r: string)
    ensures r == [] || (!IsSpace(r[0]) && !IsSpace(r[|r| - 1]))
  {
    if text == "" then "" else Strip(Decoded(Collapse(text), |Entities|))
  }

  /** `clean_text`: the collapse, then the replacement loop over the entity dict, then strip. */
  method CleanText(text: string) returns (r: string)
    ensures r == Cleaned(text)
  {
    if text == "" {
      return "";
    }
    r := Collapse(text);
    ghost var collapsed := r;
    EntitiesStartWithAmp();
    var i := 0;
    while i < |Entities|
      invariant 0 <= i <= |Entities|
      invariant r == Decoded(collapsed, i)
    {
      var (entity, ch) := Entities[i];
      r := Replace(r, entity, ch);
      i := i + 1;
    }
    r := Strip(r);
  }

  /** `s.replace(p, _)` is `s` when `p` does not occur in `s`. */
  lemma ReplaceAbsent(s: string, p: string, rep: string)
    requires |p| > 0 && !Contains(s, p)
    ensures Replace(s, p, rep) == s
  {
    assert Find(s, p, 0) < 0;
    assert s[0..] == s;
  }

  /** A string without '&' contains no entity. */
  lemma NoAmpNoEntity(s: string, p: string)
    requires |p| > 0 && p[0] == '&' && forall k :: 0 <= k < |s| ==> s[k] != '&'
    ensures !Contains(s, p)
  {
    forall j | 0 <= j ensures !OccursAt(s, p, j) {
      if j + |p| <= |s| {
        assert s[j..j + |p|][0] == s[j];
      }
    }
    ContainsIff(s, p);
  }

  /** Without '&', no replacement applies. */
  lemma {:induction false} DecodedNoAmp(s: string, n: nat)
    requires n <= |Entities| && forall k :: 0 <= k < |s| ==> s[k] != '&'
    ensures Decoded(s, n) == s
  {
    if n > 0 {
      DecodedNoAmp(s, n - 1);
      EntitiesStartWithAmp();
      NoAmpNoEntity(s, Entities[n - 1].0);
      ReplaceAbsent(s, Entities[n - 1].0, Entities[n - 1].1);
    }
  }

  /** Joined non-empty words end with a character of the last word. */
  lemma {:induction false} JoinWordsLast(ws: seq<string>)
    requires |ws| > 0 && forall i :: 0 <= i < |ws| ==> |ws[i]| > 0
    ensures var j := Join(ws, " "); |j| > 0 && j[|j| - 1] == ws[|ws| - 1][|ws[|ws| - 1]| - 1]
  {
    if |ws| > 1 {
      JoinWordsLast(ws[1..]);
      assert ws[1..][|ws| - 2] == ws[|ws| - 1];
    }
  }

  /** A string that starts and ends with non-whitespace is its own strip. */
  lemma StripTrimmed(s: string)
    requires s != [] && !IsSpace(s[0]) && !IsSpace(s[|s| - 1])
    ensures Strip(s) == s
  {
    assert LeadingSpace(s) == 0 && TrailingSpace(s) == 0;
    assert s[0..|s|] == s;
  }

  /** `s` has no '&'. */
  predicate NoAmp(s: string) { forall k :: 0 <= k < |s| ==> s[k] != '&' }

  lemma {:induction false} WordsNoAmp(s: string)
    requires NoAmp(s)
    ensures forall i :: 0 <= i < |Words(s)| ==> NoAmp(Words(s)[i])
    decreases |s|
  {
    var start := LeadingSpace(s);
    if start < |s| {
      var t := s[start..];
      var n := WordLength(t);
      assert NoAmp(t[n..]) && NoAmp(t[..n]);
      WordsNoAmp(t[n..]);
      var ws, rest := Words(s), Words(t[n..]);
      assert ws == [t[..n]] + rest;
      forall i | 0 <= i < |ws| ensures NoAmp(ws[i]) {
        if i > 0 { assert ws[i] == rest[i - 1]; }
      }
    }
  }

  lemma {:induction false} JoinNoAmp(ws: seq<string>)
    requires forall i :: 0 <= i < |ws| ==> NoAmp(ws[i])
    ensures NoAmp(Join(ws, " "))
  {
    if |ws| == 1 {
      assert NoAmp(ws[0]);
    } else if |ws| > 1 {
      JoinNoAmp(ws[1..]);
      var a, j := ws[0], Join(ws[1..], " ");
      assert NoAmp(a);
      forall k | 0 <= k < |a + " " + j| ensures (a + " " + j)[k] != '&' {
        if k < |a| { assert (a + " " + j)[k] == a[k]; }
        else if k > |a| { assert (a + " " + j)[k] == j[k - |a| - 1]; }
      }
    }
  }

  /**
   * On text without '&' no entity is decoded, and `clean_text` is exactly the whitespace
   * collapse: single spaces between the words and none at either end.
   */
  lemma CleanedWithoutEntities(text: string)
    requires NoAmp(text)
    ensures Cleaned(text) == Collapse(text)
  {
    if text != "" {
      var c := Collapse(text);
      WordsNoAmp(text);
      JoinNoAmp(Words(text));
      DecodedNoAmp(c, |Entities|);
      if c != [] {
        CollapseShape(text);
        JoinWordsLast(Words(text));
        StripTrimmed(c);
      }
    }
  }

  /** A non-empty string without whitespace is one word, so the collapse keeps it. */
  lemma CollapseWord(s: string)
    requires s != [] && forall k :: 0 <= k < |s| ==> !IsSpace(s[k])
    ensures Collapse(s) == s
  {
    assert LeadingSpace(s) == 0 && WordLength(s) == |s|;
    assert s[0..][..|s|] == s && s[0..][|s|..] == [];
    assert Words([]) == [];
    assert Words(s) == [s];
  }

  lemma AmpStep()
    ensures Replace("&amp;lt;", "&amp;", "&") == "&lt;"
  {
    assert Find("&amp;lt;", "&amp;", 0) == 0;
    assert Find("&amp;lt;", "&amp;", 5) == -1;
    assert Split("&amp;lt;", "&amp;") == ["", "lt;"];
  }

  lemma LtStep()
    ensures Replace("&lt;", "&lt;", "<") == "<"
  {
    assert Find("&lt;", "&lt;", 0) == 0;
    assert Find("&lt;", "&lt;", 4) == -1;
    assert Split("&lt;", "&lt;") == ["", ""];
  }

  /** Entities are decoded one pass each in dict order, `&amp;` first: "&amp;lt;" ends as "<". */
  lemma AmpDecodedFirst()
    ensures Cleaned("&amp;lt;") == "<"
  {
    AmpLtIsWord();
    CollapseWord("&amp;lt;");
    AmpLtDecoded();
    StripTrimmed("<");
  }

  lemma AmpLtIsWord()
    ensures "&amp;lt;" != [] && forall k :: 0 <= k < |"&amp;lt;"| ==> !IsSpace("&amp;lt;"[k])
  {
  }

  lemma AmpLtDecoded()
    ensures Decoded("&amp;lt;", |Entities|) == "<"
  {
    AmpStep();
    assert Decoded("&amp;lt;", 1) == "&lt;";
    LtStep();
    assert Decoded("&amp;lt;", 2) == "<";
    LtHasNoAmp();
    DecodedFrom("&amp;lt;", 2);
  }

  lemma LtHasNoAmp()
    ensures forall k :: 0 <= k < |"<"| ==> "<"[k] != '&'
  {
  }

  /** Once no '&' is left after the first `n` passes, the remaining passes change nothing. */
  lemma {:induction false} DecodedFrom(t: string, n: nat)
    requires n <= |Entities| && forall k :: 0 <= k < |Decoded(t, n)| ==> Decoded(t, n)[k] != '&'
    ensures Decoded(t, |Entities|) == Decoded(t, n)
    decreases |Entities| - n
  {
    if n < |Entities| {
      var s := Decoded(t, n);
      EntitiesStartWithAmp();
      NoAmpNoEntity(s, Entities[n].0);
      ReplaceAbsent(s, Entities[n].0, Entities[n].1);
      assert Decoded(t, n + 1) == s;
      DecodedFrom(t, n + 1);
    }
  }

  lemma NbspStep()
    ensures Replace("a&nbsp;&nbsp;b", "&nbsp;", " ") == "a  b"
  {
    NbspSplit();
    assert Join(["a", "", "b"], " ") == "a  b";
  }

  lemma NbspSplit()
    ensures Split("a&nbsp;&nbsp;b", "&nbsp;") == ["a", "", "b"]
  {
    var s := "a&nbsp;&nbsp;b";
    var p := "&nbsp;";
    NbspFindFirst();
    NbspFindSecond();
    assert Find(s, p, 13) == -1;
    assert s[13..] == "b" && s[7..7] == [] && s[0..1] == "a";
    assert SplitFrom(s, p, 13) == ["b"];
    assert SplitFrom(s, p, 7) == ["", "b"];
  }

  lemma NbspFindFirst()
    ensures Find("a&nbsp;&nbsp;b", "&nbsp;", 0) == 1
  {
    var s := "a&nbsp;&nbsp;b";
    var p := "&nbsp;";
    assert s[1..7] == p;
    assert s[0..6][0] == 'a';
    assert Find(s, p, 1) == 1;
  }

  lemma NbspFindSecond()
    ensures Find("a&nbsp;&nbsp;b", "&nbsp;", 7) == 7
  {
    var s := "a&nbsp;&nbsp;b";
    assert s[7..13] == "&nbsp;";
  }

  lemma NbspOnly()
    ensures forall m :: 0 <= m < 5 ==> !Contains("a&nbsp;&nbsp;b", Entities[m].0)
  {
    var s := "a&nbsp;&nbsp;b";
    forall m, j | 0 <= m < 5 && 0 <= j ensures !OccursAt(s, Entities[m].0, j) {
      if j + |Entities[m].0| <= |s| {
        assert s[j..j + |Entities[m].0|][0] == s[j];
        if s[j] == '&' {
          assert j == 1 || j == 7;
          assert s[j..j + |Entities[m].0|][1] == 'n';
        }
      }
    }
    forall m | 0 <= m < 5 ensures !Contains(s, Entities[m].0) {
      ContainsIff(s, Entities[m].0);
    }
  }

  /** The collapse runs before decoding, so a decoded `&nbsp;` can leave several spaces in a row. */
  lemma NbspAfterCollapse()
    ensures !SingleSpaced(Cleaned("a&nbsp;&nbsp;b"))
  {
    NbspIsWord();
    CollapseWord("a&nbsp;&nbsp;b");
    NbspDecoded();
    StripTrimmed("a  b");
    assert IsSpace("a  b"[1]) && IsSpace("a  b"[2]);
  }

  lemma NbspIsWord()
    ensures "a&nbsp;&nbsp;b" != [] && forall k :: 0 <= k < |"a&nbsp;&nbsp;b"| ==> !IsSpace("a&nbsp;&nbsp;b"[k])
  {
  }

  lemma NbspDecoded()
    ensures Decoded("a&nbsp;&nbsp;b", |Entities|) == "a  b"
  {
    NbspOnly();
    DecodedKeeps("a&nbsp;&nbsp;b", 5);
    NbspStep();
  }

  /** The first `n` replacements leave `s` alone when none of their patterns occurs. */
  lemma {:induction false} DecodedKeeps(s: string, n: nat)
    requires n <= |Entities| && forall m :: 0 <= m < n ==> !Contains(s, Entities[m].0)
    ensures Decoded(s, n) == s
  {
    if n > 0 {
      DecodedKeeps(s, n - 1);
      EntitiesStartWithAmp();
      ReplaceAbsent(s, Entities[n - 1].0, Entities[n - 1].1);
    }
  }

  // ---------------------------------------------------------------- should_cache

  /** `should_cache`: content whose stripped form has at least 50 characters and that is not over the size limit. */
  function ShouldCache(content: string): (b: bool)
    ensures b <==> |Strip(content)| >= 50 && |content| <= MaxContentLength
  {
    if content == "" || |Strip(content)| < 50 then false
    else if |content| > MaxContentLength then false
    else true
  }

  // ---------------------------------------------------------------- the scraper object

  /** One call of `cache_manager.store_scraped_data`. */
  datatype StoredRow = StoredRow(personId: int, source: string, dataType: string, content: string,
                                 metadata: Option<map<string, string>>, url: Option<string>)

  /**
   * The state a scraper keeps about its cache: whether it was given a cache manager, and
   * the rows it has handed to that manager, in order.
   */
  class Scraper {
    const hasCache: bool
    var stored: seq<StoredRow>

    /** Only admissible content reaches the cache, and nothing does without one. */
    ghost predicate Valid()
      reads this
    {
      && (!hasCache ==> stored == [])
      && forall i :: 0 <= i < |stored| ==> ShouldCache(stored[i].content)
    }

    constructor (hasCache: bool)
      ensures Valid() && this.hasCache == hasCache && stored == []
    {
      this.hasCache := hasCache;
      stored := [];
    }

    /** `store_data`: one row reaches the cache exactly when there is a cache and `should_cache` holds. */
    method StoreData(personId: int, source: string, dataType: string, content: string,
                     metadata: Option<map<string, string>>, url: Option<string>)
      requires Valid()
      modifies this
      ensures Valid()
      ensures stored == if hasCache && ShouldCache(content)
                        then old(stored) + [StoredRow(personId, source, dataType, content, metadata, url)]
                        else old(stored)
    {
      if hasCache && ShouldCache(content) {
        stored := stored + [StoredRow(personId, source, dataType, content, metadata, url)];
      }
    }

    /** `get_cached_data`: what the manager's lookup returns, or [] without a manager. */
    method GetCachedData<R>(personId: int, source: string, dataType: string,
                            lookup: (int, string, string) -> seq<R>) returns (rows: seq<R>)
      ensures !hasCache ==> rows == []
      ensures hasCache ==> rows == lookup(personId, source, dataType)
    {
      if hasCache {
        return lookup(personId, source, dataType);
      }
      return [];
    }
  }

  // ---------------------------------------------------------------- make_request

  function Pow2(n: nat): (p: nat)
    ensures p >= 1
  {
    if n == 0 then 1 else 2 * Pow2(n - 1)
  }

  /** The sleeps `2 ** 0, ..., 2 ** (k - 1)`. */
  function Backoffs(k: nat): (r: seq<nat>)
    ensures |r| == k && forall i :: 0 <= i < k ==> r[i] == Pow2(i)
  {
    if k == 0 then [] else Backoffs(k - 1) + [Pow2(k - 1)]
  }

  function Sum(s: seq<nat>): nat
  {
    if s == [] then 0 else Sum(s[..|s| - 1]) + s[|s| - 1]
  }

  /** The first attempt below `n`, from `from` on, whose request succeeds. */
  function FirstSuccess<R>(send: nat -> Option<R>, n: nat, from: nat): (r: Option<nat>)
    ensures r.Some? ==> from <= r.value < n && send(r.value).Some? && forall j :: from <= j < r.value ==> send(j).None?
    ensures r.None? ==> forall j :: from <= j < n ==> send(j).None?
    decreases n - from
  {
    if from >= n then None else if send(from).Some? then Some(from) else FirstSuccess(send, n, from + 1)
  }

  /**
   * `make_request`: attempt `i` succeeds when `send(i)` is a response (the GET returned and
   * `raise_for_status` passed) and fails with a request exception otherwise. The first response
   * is returned; after a failure that is not the last the loop sleeps `2 ** attempt`; after the
   * last it returns None.
   */
  method MakeRequest<R>(send: nat -> Option<R>, maxRetries: nat) returns (r: Option<R>, attempts: nat, sleeps: seq<nat>)
    ensures match FirstSuccess(send, maxRetries, 0)
      case Some(k) => r == send(k) && attempts == k + 1 && sleeps == Backoffs(k)
      case None => r.None? && attempts == maxRetries && sleeps == Backoffs(if maxRetries == 0 then 0 else maxRetries - 1)
    ensures attempts <= maxRetries && (attempts > 0 ==> |sleeps| == attempts - 1)
    ensures (exists i :: 0 <= i < maxRetries && send(i).Some?) ==> r.Some?
    ensures r.Some? ==> send(attempts - 1) == r
  {
    attempts := 0;
    sleeps := [];
    var attempt := 0;
    while attempt < maxRetries
      invariant 0 <= attempt <= maxRetries
      invariant maxRetries > 0 ==> attempt < maxRetries
      invariant attempts == attempt && sleeps == Backoffs(attempt)
      invariant FirstSuccess(send, maxRetries, 0) == FirstSuccess(send, maxRetries, attempt)
    {
      var response := send(attempt);
      attempts := attempts + 1;
      if response.Some? {
        return response, attempts, sleeps;
      }
      if attempt < maxRetries - 1 {
        sleeps := sleeps + [Pow2(attempt)];
      } else {
        return None, attempts, sleeps;
      }
      attempt := attempt + 1;
    }
    return None, attempts, sleeps;
  }

  /** The backoff sleeps before attempt `k` add up to `2 ** k - 1`. */
  lemma {:induction false} BackoffsTotal(k: nat)
    ensures Sum(Backoffs(k)) == Pow2(k) - 1
  {
    if k > 0 {
      BackoffsTotal(k - 1);
      assert Backoffs(k)[..k - 1] == Backoffs(k - 1);
    }
  }
}
