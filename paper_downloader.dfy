/**
 * The paper downloader: safe file names, candidate PDF URLs, the first-hit download loop
 * with its abstract-only fallback, the PDF acceptance test, the ZIP entry names, the
 * classification of papers by hosting site and the download-success estimate.
 * The HTTP session is a function from URL to response; the ZIP archive is the list of
 * entry names written to it.
 */
module PaperDownloader {
  import opened Wrappers
  import opened Text

  newtype byte = x: int | 0 <= x < 256

  /** A paper dict with the `.get` defaults applied; only the title has a default that depends on the call. */
  datatype PaperIn = PaperIn(
    title: Option<string>, authors: string, year: string, venue: string, abstractText: string,
    url: string, pdfUrl: string, doi: string, citations: int)

  /** What ends up in `paper_info['content']`: PDF bytes, or the text written when only the abstract is known. */
  datatype Content = Pdf(bytes: seq<byte>) | TextOnly(text: string)

  /** The `download_status` values. */
  datatype Status = Success | AbstractOnly | Failed

  /** The string stored under `download_status`. */
  function StatusName(s: Status): string
  {
    match s
    case Success => "success"
    case AbstractOnly => "abstract_only"
    case Failed => "failed"
  }

  /** `paper_info` once `safe_title` is set. */
  datatype PaperInfo = PaperInfo(
    title: string, authors: string, year: string, venue: string, abstractText: string,
    url: string, pdfUrl: string, doi: string, citations: int,
    safeTitle: string, content: Option<Content>, downloadStatus: Status, downloadUrl: Option<string>)

  /** The result of `session.get(url)` after `raise_for_status()`: an exception, or the content type and body. */
  datatype Response = Raised | Response(contentType: string, body: seq<byte>)

  type Fetcher = string -> Response

  // ---------------------------------------------------------------- safe file names

  /** What `\w` matches, on the ASCII range. */
  predicate IsWordChar(c: char) { IsAsciiLetter(c) || IsDigit(c) || c == '_' }

  predicate FileNameChar(c: char) { IsWordChar(c) || c == '-' }

  /** `re.sub(r'[^\w\s-]', '', s)`: keep word characters, whitespace and '-'. */
  function RemoveSpecial(s: string): (r: string)
    ensures |r| <= |s|
    ensures forall k :: 0 <= k < |r| ==> FileNameChar(r[k]) || IsSpace(r[k])
    ensures (forall k :: 0 <= k < |s| ==> FileNameChar(s[k]) || IsSpace(s[k])) ==> r == s
  {
    if s == [] then []
    else (if FileNameChar(s[0]) || IsSpace(s[0]) then [s[0]] else []) + RemoveSpecial(s[1..])
  }

  /** The length of the whitespace run at the start of `s`. */
  function SpaceRun(s: string): (n: nat)
    ensures n <= |s|
    ensures forall k :: 0 <= k < n ==> IsSpace(s[k])
    ensures n < |s| ==> !IsSpace(s[n])
  {
    if s != [] && IsSpace(s[0]) then 1 + SpaceRun(s[1..]) else 0
  }

  /** `re.sub(r'\s+', '_', s)`: every maximal whitespace run becomes one '_'. */
  function UnderscoreRuns(s: string): (r: string)
    ensures |r| <= |s|
    ensures forall k :: 0 <= k < |r| ==> !IsSpace(r[k])
    ensures (forall k :: 0 <= k < |s| ==> !IsSpace(s[k])) ==> r == s
    decreases |s|
  {
    if s == [] then []
    else if IsSpace(s[0]) then "_" + UnderscoreRuns(s[SpaceRun(s)..])
    else [s[0]] + UnderscoreRuns(s[1..])
  }

  /** `_create_safe_filename`: at most 50 characters, each a word character or '-'. */
  function SafeFilename(title: string): (r: string)
    ensures |r| <= 50
    ensures forall k :: 0 <= k < |r| ==> FileNameChar(r[k])
  {
    var kept := RemoveSpecial(title);
    var joined := UnderscoreRuns(kept);
    UnderscoreRunsChars(kept);
    forall k | 0 <= k < |joined| ensures FileNameChar(joined[k]) {
      if joined[k] != '_' {
        var j :| 0 <= j < |kept| && kept[j] == joined[k];
      }
    }
    Take(joined, 50)
  }

  /** Every character the substitution produces is '_' or a character of its input. */
  lemma {:induction false} UnderscoreRunsChars(s: string)
    ensures forall k :: 0 <= k < |UnderscoreRuns(s)| ==> UnderscoreRuns(s)[k] == '_' || UnderscoreRuns(s)[k] in s
    decreases |s|
  {
    if s != [] {
      var m := if IsSpace(s[0]) then SpaceRun(s) else 1;
      var u := s[m..];
      UnderscoreRunsChars(u);
      forall c | c in u ensures c in s {
        var j :| 0 <= j < |u| && u[j] == c;
        assert s[m + j] == c;
      }
    }
  }

  /** What `[^\w\s-]` leaves alone. */
  predicate Kept(c: char) { FileNameChar(c) || IsSpace(c) }

  /** The substitution character by character: a kept character stays, any other one is removed. */
  lemma RemoveSpecialChar(c: char)
    ensures RemoveSpecial([c]) == if Kept(c) then [c] else []
  {
    assert [c][1..] == [];
  }

  /** The substitution works on each part of a string separately, keeping the order. */
  lemma {:induction false} RemoveSpecialAppend(a: string, b: string)
    ensures RemoveSpecial(a + b) == RemoveSpecial(a) + RemoveSpecial(b)
  {
    if a != [] {
      assert (a + b)[0] == a[0] && (a + b)[1..] == a[1..] + b;
      RemoveSpecialAppend(a[1..], b);
      var h := if Kept(a[0]) then [a[0]] else [];
      Associative(h, RemoveSpecial(a[1..]), RemoveSpecial(b));
    } else {
      assert a + b == b;
    }
  }

  /** `SpaceRun` is the leading whitespace run. */
  lemma SpaceRunIsLeading(s: string)
    ensures SpaceRun(s) == LeadingSpace(s)
  {
  }

  /** Characters that are not whitespace pass through the substitution unchanged. */
  lemma {:induction false} UnderscoreRunsWord(w: string, r: string)
    requires forall k :: 0 <= k < |w| ==> !IsSpace(w[k])
    ensures UnderscoreRuns(w + r) == w + UnderscoreRuns(r)
  {
    if w != [] {
      assert (w + r)[0] == w[0] && (w + r)[1..] == w[1..] + r;
      UnderscoreRunsWord(w[1..], r);
      Associative([w[0]], w[1..], UnderscoreRuns(r));
      assert [w[0]] + w[1..] == w;
    } else {
      assert w + r == r;
    }
  }

  /** Joining with a non-empty tail: the head, the separator, then the rest joined. */
  lemma JoinCons(w: string, ws: seq<string>, sep: string)
    requires ws != []
    ensures Join([w] + ws, sep) == w + sep + Join(ws, sep)
  {
    assert ([w] + ws)[1..] == ws;
  }

  /** The words of `s` are those of `s` without its leading whitespace. */
  lemma WordsAfterSpace(s: string, m: nat)
    requires m <= |s| && m == LeadingSpace(s)
    ensures Words(s) == Words(s[m..])
  {
    var t := s[m..];
    if m < |s| {
      assert LeadingSpace(t) == 0;
      assert t[0..] == t;
    } else {
      assert LeadingSpace(t) == 0 == |t|;
    }
  }

  /** A string starting with whitespace: one '_' for the run, then the rest. */
  lemma UnderscoreRunsSpace(r: string)
    requires r != [] && IsSpace(r[0])
    ensures SpaceRun(r) > 0 && UnderscoreRuns(r) == "_" + UnderscoreRuns(r[SpaceRun(r)..])
  {
  }

  /** A string starting with a non-whitespace character: its first word, then the words of the rest. */
  lemma WordsHead(t: string)
    requires t != [] && !IsSpace(t[0])
    ensures WordLength(t) > 0 && Words(t) == [t[..WordLength(t)]] + Words(t[WordLength(t)..])
  {
    assert LeadingSpace(t) == 0 && t[0..] == t;
  }

  /** A string of whitespace only has no words. */
  lemma WordsNone(s: string)
    requires LeadingSpace(s) == |s|
    ensures Words(s) == []
  {
  }

  /** Putting the first word in front of the rest's words, joined by '_'. */
  lemma RunsCons(t: string, w: string, u: string, tail: string)
    requires UnderscoreRuns(t) == w + ("_" + UnderscoreRuns(u))
    requires UnderscoreRuns(u) == Join(Words(u), "_") + tail
    requires Words(t) == [w] + Words(u) && Words(u) != []
    ensures UnderscoreRuns(t) == Join(Words(t), "_") + tail
  {
    JoinCons(w, Words(u), "_");
    Associative(w, "_", Join(Words(u), "_") + tail);
    Associative(w + "_", Join(Words(u), "_"), tail);
  }

  /** The first word of `t` passes through, and the substitution of the rest follows it. */
  lemma FirstWordPasses(t: string)
    requires t != [] && !IsSpace(t[0])
    ensures 0 < WordLength(t)
    ensures UnderscoreRuns(t) == t[..WordLength(t)] + UnderscoreRuns(t[WordLength(t)..])
  {
    var n := WordLength(t);
    TakeDrop(t, n);
    var w, r := t[..n], t[n..];
    assert forall k :: 0 <= k < |w| ==> !IsSpace(w[k]);
    UnderscoreRunsWord(w, r);
  }

  /** A whitespace run in front: one '_', and the words of what follows it. */
  lemma GapFirst(r: string)
    requires r != [] && IsSpace(r[0])
    ensures 0 < SpaceRun(r) <= |r|
    ensures UnderscoreRuns(r) == "_" + UnderscoreRuns(r[SpaceRun(r)..])
    ensures Words(r) == Words(r[SpaceRun(r)..])
  {
    SpaceRunIsLeading(r);
    UnderscoreRunsSpace(r);
    WordsAfterSpace(r, SpaceRun(r));
  }

  /** A word followed by whitespace only: the word and one '_'. */
  lemma WordThenGap(t: string, n: nat)
    requires 0 < n < |t| && n == WordLength(t)
    requires SpaceRun(t[n..]) == |t| - n
    requires UnderscoreRuns(t) == t[..n] + UnderscoreRuns(t[n..])
    requires UnderscoreRuns(t[n..]) == "_" + UnderscoreRuns(t[n..][SpaceRun(t[n..])..])
    requires Words(t) == [t[..n]] + Words(t[n..]) && Words(t[n..]) == Words(t[n..][SpaceRun(t[n..])..])
    ensures UnderscoreRuns(t) == Join(Words(t), "_") + (if IsSpace(t[|t| - 1]) then "_" else "")
  {
    var r := t[n..];
    var u := r[SpaceRun(r)..];
    assert u == [] && UnderscoreRuns(u) == [];
    assert UnderscoreRuns(t) == t[..n] + "_";
    WordsNone(u);
    assert Words(t) == [t[..n]];
    assert Join(Words(t), "_") == t[..n];
    assert t[|t| - 1] == r[|r| - 1] && IsSpace(r[|r| - 1]);
  }

  /**
   * From a non-whitespace character on, the substitution gives the words joined by '_', with
   * one more '_' for a whitespace run at the end.
   */
  lemma {:induction false} UnderscoreRunsFromWord(t: string)
    requires t != [] && !IsSpace(t[0])
    ensures UnderscoreRuns(t) == Join(Words(t), "_") + (if IsSpace(t[|t| - 1]) then "_" else "")
    decreases |t|
  {
    var n := WordLength(t);
    FirstWordPasses(t);
    WordsHead(t);
    var w, r := t[..n], t[n..];
    if r == [] {
      WordsNone(r);
      assert t[|t| - 1] == w[n - 1];
    } else {
      GapFirst(r);
      var m := SpaceRun(r);
      if m == |r| {
        WordThenGap(t, n);
      } else {
        var u := r[m..];
        LastOfSuffix(t, n);
        LastOfSuffix(r, m);
        UnderscoreRunsFromWord(u);
        WordsHead(u);
        RunsCons(t, w, u, if IsSpace(t[|t| - 1]) then "_" else "");
      }
    }
  }

  /** A non-empty suffix ends with the string's last character. */
  lemma LastOfSuffix(t: string, k: nat)
    requires k < |t|
    ensures t[k..][|t| - k - 1] == t[|t| - 1]
  {
  }

  /** A whitespace run in front of a word: one '_', then the substitution from that word on. */
  lemma LeadingGapWords(s: string)
    requires 0 < LeadingSpace(s) < |s|
    ensures UnderscoreRuns(s) == "_" + (Join(Words(s), "_") + (if IsSpace(s[|s| - 1]) then "_" else ""))
  {
    var m := SpaceRun(s);
    SpaceRunIsLeading(s);
    GapFirst(s);
    var u := s[m..];
    LastOfSuffix(s, m);
    UnderscoreRunsFromWord(u);
    assert |u| - 1 == |s| - m - 1 && u[|u| - 1] == s[|s| - 1];
  }

  /**
   * The words of `s` joined by '_', with one more '_' for a leading and for a trailing
   * whitespace run, and a single '_' for a string of whitespace only.
   */
  function WordsUnderscored(s: string): string
  {
    (if LeadingSpace(s) > 0 then "_" else "")
    + (if LeadingSpace(s) == |s| then "" else Join(Words(s), "_") + (if IsSpace(s[|s| - 1]) then "_" else ""))
  }

  /** `re.sub(r'\s+', '_', s)` gives the words of `s` joined by '_', as `WordsUnderscored` spells out. */
  lemma UnderscoreRunsWords(s: string)
    ensures UnderscoreRuns(s) == WordsUnderscored(s)
  {
    SpaceRunIsLeading(s);
    if LeadingSpace(s) == 0 {
      if s != [] {
        UnderscoreRunsFromWord(s);
        var rest := Join(Words(s), "_") + (if IsSpace(s[|s| - 1]) then "_" else "");
        assert "" + rest == rest;
      }
    } else if LeadingSpace(s) == |s| {
      GapFirst(s);
      assert s[|s|..] == [];
    } else {
      LeadingGapWords(s);
    }
  }

  /**
   * `_create_safe_filename`: the first 50 characters of the title with every character other
   * than a word character, whitespace or '-' removed and each whitespace run turned into '_'.
   */
  lemma SafeFilenameOf(title: string)
    ensures SafeFilename(title) == Take(WordsUnderscored(RemoveSpecial(title)), 50)
  {
    SafeFilenameSteps(title);
    UnderscoreRunsWords(RemoveSpecial(title));
  }

  /** The three steps of `_create_safe_filename`, one after the other. */
  lemma SafeFilenameSteps(title: string)
    ensures SafeFilename(title) == Take(UnderscoreRuns(RemoveSpecial(title)), 50)
  {
  }

  /** A name made only of file-name characters and at most 50 long is its own safe name. */
  lemma SafeFilenameKeepsSafe(s: string)
    requires |s| <= 50 && forall k :: 0 <= k < |s| ==> FileNameChar(s[k])
    ensures SafeFilename(s) == s
  {
    assert RemoveSpecial(s) == s;
    assert forall k :: 0 <= k < |s| ==> !IsSpace(s[k]);
    assert UnderscoreRuns(s) == s;
  }

  /** Making a name safe twice changes nothing more. */
  lemma SafeFilenameIdempotent(title: string)
    ensures SafeFilename(SafeFilename(title)) == SafeFilename(title)
  {
    SafeFilenameKeepsSafe(SafeFilename(title));
  }

  // ---------------------------------------------------------------- arXiv identifiers

  /** The end of the run of digits starting at `i`. */
  function DigitsEnd(s: string, i: nat): (j: nat)
    requires i <= |s|
    ensures i <= j <= |s|
    ensures forall k :: i <= k < j ==> IsDigit(s[k])
    ensures j < |s| ==> !IsDigit(s[j])
    decreases |s| - i
  {
    if i < |s| && IsDigit(s[i]) then DigitsEnd(s, i + 1) else i
  }

  /** The group `(\d+\.\d+(?:v\d+)?)` matched greedily at `i`. */
  function IdAt(s: string, i: nat): (r: Option<string>)
    requires i <= |s|
  {
    var a := DigitsEnd(s, i);
    if a == i || a == |s| || s[a] != '.' then None
    else
      var b := DigitsEnd(s, a + 1);
      if b == a + 1 then None
      else if b < |s| && s[b] == 'v' && DigitsEnd(s, b + 1) > b + 1 then Some(s[i..DigitsEnd(s, b + 1)])
      else Some(s[i..b])
  }

  /** The shape of an arXiv identifier: digits '.' digits, optionally 'v' digits. */
  predicate IsArxivId(t: string)
  {
    var a := DigitsEnd(t, 0);
    0 < a < |t| && t[a] == '.' &&
    var b := DigitsEnd(t, a + 1);
    b > a + 1 && (b == |t| || (t[b] == 'v' && b + 1 < |t| && DigitsEnd(t, b + 1) == |t|))
  }

  const AbsPrefix := "arxiv.org/abs/"
  const PdfPrefix := "arxiv.org/pdf/"

  /** The pattern `arxiv\.org/(?:abs|pdf)/(...)` tried at position `i`. */
  function MatchAt(s: string, i: nat): Option<string>
    requires i <= |s|
  {
    if OccursAt(s, AbsPrefix, i) || OccursAt(s, PdfPrefix, i) then IdAt(s, i + 14) else None
  }

  /** `re.search`: the leftmost position where the pattern matches. */
  function SearchFrom(s: string, i: nat): (r: Option<string>)
    requires i <= |s|
    decreases |s| - i
  {
    if MatchAt(s, i).Some? then MatchAt(s, i)
    else if i == |s| then None
    else SearchFrom(s, i + 1)
  }

  /** `_extract_arxiv_id`. */
  function ExtractArxivId(url: string): (r: Option<string>)
  {
    SearchFrom(url, 0)
  }

  /** Digit runs do not look to the left of where they start. */
  lemma {:induction false} DigitsEndShift(p: string, t: string, k: nat)
    requires k <= |t|
    ensures DigitsEnd(p + t, |p| + k) == |p| + DigitsEnd(t, k)
    decreases |t| - k
  {
    if k < |t| && IsDigit(t[k]) {
      assert (p + t)[|p| + k] == t[k];
      DigitsEndShift(p, t, k + 1);
    } else if k < |t| {
      assert (p + t)[|p| + k] == t[k];
    }
  }

  /** A well-formed identifier at the end of a string is matched whole. */
  lemma IdAtEnd(p: string, t: string)
    requires IsArxivId(t)
    ensures IdAt(p + t, |p|) == Some(t)
  {
    var s := p + t;
    var a := DigitsEnd(t, 0);
    var b := DigitsEnd(t, a + 1);
    DigitsEndShift(p, t, 0);
    DigitsEndShift(p, t, a + 1);
    assert s[|p| + a] == t[a];
    if b < |t| {
      DigitsEndShift(p, t, b + 1);
      assert s[|p| + b] == t[b];
    }
    IdAtRuns(s, |p|, |p| + a, |p| + b);
    assert s[|p|..|s|] == t;
  }

  /** The match at `i` runs to the end of `s` when the digit runs found there do. */
  lemma IdAtRuns(s: string, i: nat, a: nat, b: nat)
    requires i < a < |s| && DigitsEnd(s, i) == a && s[a] == '.'
    requires a + 1 < b && DigitsEnd(s, a + 1) == b
    requires b == |s| || (s[b] == 'v' && b + 1 < |s| && DigitsEnd(s, b + 1) == |s|)
    ensures IdAt(s, i) == Some(s[i..|s|])
  {
  }

  /** The identifier of the canonical abstract page URL is found again. */
  lemma ArxivIdOfAbsUrl(id: string)
    requires IsArxivId(id)
    ensures ExtractArxivId("https://" + AbsPrefix + id) == Some(id)
  {
    var s := "https://" + AbsPrefix + id;
    forall i: nat | i < 8 ensures MatchAt(s, i).None? {
      assert s[i] != 'a' && AbsPrefix[0] == 'a' && PdfPrefix[0] == 'a';
    }
    assert s[8..22] == AbsPrefix;
    Associative("https://", AbsPrefix, id);
    IdAtEnd("https://" + AbsPrefix, id);
    assert MatchAt(s, 8) == Some(id);
    SearchSkip(s, 0, 8);
  }

  /** The search passes over positions where the pattern does not match. */
  lemma {:induction false} SearchSkip(s: string, i: nat, j: nat)
    requires i <= j <= |s|
    requires forall k :: i <= k < j ==> MatchAt(s, k).None?
    ensures SearchFrom(s, i) == SearchFrom(s, j)
    decreases j - i
  {
    if i < j {
      SearchSkip(s, i + 1, j);
    }
  }

  /** What the search finds always has the identifier shape. */
  lemma {:induction false} SearchFindsId(s: string, i: nat)
    requires i <= |s|
    ensures SearchFrom(s, i).Some? ==> IsArxivId(SearchFrom(s, i).value)
    decreases |s| - i
  {
    if MatchAt(s, i).Some? {
      MatchIsId(s, i + 14);
    } else if i < |s| {
      SearchFindsId(s, i + 1);
    }
  }

  lemma MatchIsId(s: string, i: nat)
    requires i <= |s| && IdAt(s, i).Some?
    ensures IsArxivId(IdAt(s, i).value)
  {
    var a := DigitsEnd(s, i);
    assert i < a < |s| && s[a] == '.';
    var b := DigitsEnd(s, a + 1);
    assert a + 1 < b;
    if b < |s| && s[b] == 'v' && DigitsEnd(s, b + 1) > b + 1 {
      var e := DigitsEnd(s, b + 1);
      assert IdAt(s, i) == Some(s[i..e]);
      SliceIsId(s, i, a, b, e);
    } else {
      assert IdAt(s, i) == Some(s[i..b]);
      SliceIsId(s, i, a, b, b);
    }
  }

  /** The slice covering the digit runs found from `i` has the identifier shape. */
  lemma SliceIsId(s: string, i: nat, a: nat, b: nat, e: nat)
    requires i < a < |s| && DigitsEnd(s, i) == a && s[a] == '.'
    requires a + 1 < b <= e <= |s| && DigitsEnd(s, a + 1) == b
    requires e == b || (s[b] == 'v' && b + 1 < e && DigitsEnd(s, b + 1) == e)
    ensures IsArxivId(s[i..e])
  {
    var t := s[i..e];
    PrefixDigitsEnd(s, i, e, 0, a - i);
    PrefixDigitsEnd(s, i, e, a - i + 1, b - i);
    if e != b {
      PrefixDigitsEnd(s, i, e, b - i + 1, e - i);
      assert t[b - i] == 'v';
    }
    assert t[a - i] == '.';
    IdShape(t, a - i, b - i);
  }

  /** Digit runs ending at `a`, at `b` and at the end make an identifier. */
  lemma IdShape(t: string, a: nat, b: nat)
    requires 0 < a < |t| && DigitsEnd(t, 0) == a && t[a] == '.'
    requires a + 1 < b <= |t| && DigitsEnd(t, a + 1) == b
    requires b == |t| || (t[b] == 'v' && b + 1 < |t| && DigitsEnd(t, b + 1) == |t|)
    ensures IsArxivId(t)
  {
  }

  /** Digit runs measured inside a slice end where they end in the whole string, or at the slice end. */
  lemma {:induction false} PrefixDigitsEnd(s: string, i: nat, e: nat, k: nat, stop: nat)
    requires i <= e <= |s| && k <= stop <= e - i
    requires forall m :: i + k <= m < i + stop ==> IsDigit(s[m])
    requires i + stop == e || !IsDigit(s[i + stop])
    ensures DigitsEnd(s[i..e], k) == stop
    decreases stop - k
  {
    if k < stop {
      PrefixDigitsEnd(s, i, e, k + 1, stop);
    }
  }

  // ---------------------------------------------------------------- candidate URLs

  /** The URL names `word`, ignoring case. */
  predicate Mentions(url: string, word: string) { Contains(Lower(url), word) }

  /** An arXiv URL from which an identifier can be read. */
  predicate ArxivLink(url: string) { Mentions(url, "arxiv") && ExtractArxivId(url).Some? }

  function Count(b: bool): nat { if b then 1 else 0 }

  /** The one-element list `[x]` when `b` holds, the empty list otherwise. */
  function When(b: bool, x: string): (r: seq<string>)
    ensures |r| == Count(b) && (b ==> r[0] == x)
  {
    if b then [x] else []
  }

  /**
   * `_generate_pdf_urls`: the arXiv PDF link when the URL mentions arxiv and carries an
   * identifier, the ResearchGate download link, the Academia.edu download link, then the DOI link.
   */
  function GeneratePdfUrls(url: string, doi: string): (r: seq<string>)
    ensures |r| == Count(ArxivLink(url)) + Count(Mentions(url, "researchgate")) + Count(Mentions(url, "academia.edu")) + Count(doi != "")
    ensures ArxivLink(url) ==> r[0] == "https://arxiv.org/pdf/" + ExtractArxivId(url).value + ".pdf"
    ensures !ArxivLink(url) && Mentions(url, "researchgate") ==> r[0] == url + "/download"
    ensures Mentions(url, "academia.edu") ==> r[|r| - 1 - Count(doi != "")] == Replace(url, "/document/", "/download/")
    ensures doi != "" ==> r[|r| - 1] == "https://doi.org/" + doi
  {
    var id := ExtractArxivId(url);
    var arxiv := When(ArxivLink(url), "https://arxiv.org/pdf/" + (if id.Some? then id.value else "") + ".pdf");
    var gate := When(Mentions(url, "researchgate"), url + "/download");
    var academia := When(Mentions(url, "academia.edu"), Replace(url, "/document/", "/download/"));
    var link := When(doi != "", "https://doi.org/" + doi);
    var tail := academia + link;
    assert |tail| > 0 ==> tail[|tail| - 1] == if doi != "" then link[0] else academia[0];
    arxiv + (gate + tail)
  }

  /** The candidate list of `_download_single_paper`: the PDF URL, the URL, then the generated ones. */
  function CandidateUrls(info: PaperInfo): (r: seq<string>)
    ensures |r| == (if info.pdfUrl != "" then 1 else 0) + (if info.url != "" then 1 else 0) + |GeneratePdfUrls(info.url, info.doi)|
    ensures info.pdfUrl != "" ==> r[0] == info.pdfUrl
    ensures info.url != "" ==> r[if info.pdfUrl != "" then 1 else 0] == info.url
    ensures r[|r| - |GeneratePdfUrls(info.url, info.doi)|..] == GeneratePdfUrls(info.url, info.doi)
  {
    var first := When(info.pdfUrl != "", info.pdfUrl);
    var second := When(info.url != "", info.url);
    var generated := GeneratePdfUrls(info.url, info.doi);
    var head := first + second;
    assert |head| == Count(info.pdfUrl != "") + Count(info.url != "");
    assert info.url != "" ==> head[|first|] == info.url;
    assert (head + generated)[|head|..] == generated;
    head + generated
  }

  // ---------------------------------------------------------------- downloading

  const PdfMagic: seq<byte> := [0x25, 0x50, 0x44, 0x46]

  /**
   * `_download_pdf_content`: the body, when the content type mentions pdf or the URL ends
   * in .pdf, and the body starts with the PDF signature; nothing otherwise or on an exception.
   */
  function DownloadPdfContent(fetch: Fetcher, url: string): (r: Option<seq<byte>>)
    ensures r.Some? <==> fetch(url).Response?
                         && (Contains(Lower(fetch(url).contentType), "pdf") || EndsWith(Lower(url), ".pdf"))
                         && PdfMagic <= fetch(url).body
    ensures r.Some? ==> r.value == fetch(url).body && |r.value| >= 4
  {
    match fetch(url)
    case Raised => None
    case Response(contentType, body) =>
      if !Contains(Lower(contentType), "pdf") && !EndsWith(Lower(url), ".pdf") then None
      else if PdfMagic <= body then Some(body)
      else None
  }

  /** `url` is tried (it is non-empty) and delivers a PDF. */
  predicate Yields(fetch: Fetcher, url: string) { url != "" && DownloadPdfContent(fetch, url).Some? }

  /** The first candidate at or after `from` that delivers a PDF. */
  function FirstPdfFrom(urls: seq<string>, fetch: Fetcher, from: nat): (r: Option<nat>)
    requires from <= |urls|
    ensures r.Some? ==> from <= r.value < |urls| && Yields(fetch, urls[r.value])
    ensures r.Some? ==> forall j :: from <= j < r.value ==> !Yields(fetch, urls[j])
    ensures r.None? ==> forall j :: from <= j < |urls| ==> !Yields(fetch, urls[j])
    decreases |urls| - from
  {
    if from == |urls| then None
    else if Yields(fetch, urls[from]) then Some(from)
    else FirstPdfFrom(urls, fetch, from + 1)
  }

  /** The `paper_info` dict before any download, with its safe title. */
  function InitialInfo(paper: PaperIn, paperNumber: nat): (info: PaperInfo)
    ensures info.title == (if paper.title.Some? then paper.title.value else "Paper " + NatToString(paperNumber))
    ensures info.safeTitle == SafeFilename(info.title)
    ensures info.content.None? && info.downloadStatus == Failed && info.downloadUrl.None?
  {
    var title := if paper.title.Some? then paper.title.value else "Paper " + NatToString(paperNumber);
    PaperInfo(title, paper.authors, paper.year, paper.venue, paper.abstractText, paper.url, paper.pdfUrl,
              paper.doi, paper.citations, SafeFilename(title), None, Failed, None)
  }

  /** `_create_text_content`: the metadata and abstract, with the note that no PDF was found. */
  function TextContent(info: PaperInfo): string
  {
    "Title: " + info.title + "\nAuthors: " + info.authors + "\nYear: " + info.year + "\nVenue: " + info.venue
    + "\nDOI: " + info.doi + "\nCitations: " + IntToString(info.citations) + "\n\nAbstract:\n" + info.abstractText
    + "\n\nNote: Full PDF was not available for download. This file contains the abstract and metadata only.\n"
  }

  /** The download loop and the abstract fallback, run on a prepared `paper_info` and its candidates. */
  function Outcome(base: PaperInfo, urls: seq<string>, fetch: Fetcher): PaperInfo
  {
    match FirstPdfFrom(urls, fetch, 0)
    case Some(j) =>
      base.(content := Some(Pdf(fetch(urls[j]).body)), downloadStatus := Success,
            downloadUrl := Some(urls[j]))
    case None =>
      if base.abstractText != "" then base.(content := Some(TextOnly(TextContent(base))), downloadStatus := AbstractOnly)
      else base
  }

  /** What `_download_single_paper` returns. */
  function SinglePaper(paper: PaperIn, paperNumber: nat, fetch: Fetcher): PaperInfo
  {
    Outcome(InitialInfo(paper, paperNumber), CandidateUrls(InitialInfo(paper, paperNumber)), fetch)
  }

  /** `_download_single_paper`: candidate URLs tried in order until one delivers a PDF. */
  method DownloadSinglePaper(paper: PaperIn, paperNumber: nat, fetch: Fetcher) returns (info: PaperInfo)
    ensures info == SinglePaper(paper, paperNumber, fetch)
  {
    info := InitialInfo(paper, paperNumber);
    var pdfUrls := CandidateUrls(info);
    info := TryCandidates(info, pdfUrls, fetch);
  }

  /** The URL loop of `_download_single_paper` and the fallback after it. */
  method TryCandidates(base: PaperInfo, pdfUrls: seq<string>, fetch: Fetcher) returns (info: PaperInfo)
    requires base.content.None?
    ensures info == Outcome(base, pdfUrls, fetch)
  {
    info := base;
    var i := 0;
    while i < |pdfUrls|
      invariant 0 <= i <= |pdfUrls|
      invariant info == base
      invariant FirstPdfFrom(pdfUrls, fetch, 0) == FirstPdfFrom(pdfUrls, fetch, i)
    {
      if pdfUrls[i] != "" {
        var content := DownloadPdfContent(fetch, pdfUrls[i]);
        if content.Some? {
          info := info.(content := Some(Pdf(content.value)), downloadStatus := Success, downloadUrl := Some(pdfUrls[i]));
          return;
        }
      }
      i := i + 1;
    }
    if info.content.None? && info.abstractText != "" {
      info := info.(content := Some(TextOnly(TextContent(info))), downloadStatus := AbstractOnly);
    }
  }

  /**
   * The status of a paper: 'success' exactly when some candidate delivered a PDF, and then the
   * content is the first such candidate's body; otherwise 'abstract_only' with text content when
   * the abstract is non-empty, and 'failed' with no content when it is empty. Title and safe
   * title are never changed.
   */
  lemma OutcomeStatus(base: PaperInfo, urls: seq<string>, fetch: Fetcher)
    requires base.content.None? && base.downloadStatus == Failed && base.downloadUrl.None?
    ensures (exists j :: 0 <= j < |urls| && Yields(fetch, urls[j])) ==> Outcome(base, urls, fetch).downloadStatus == Success
    ensures Outcome(base, urls, fetch).downloadStatus == Success ==>
              var u := Outcome(base, urls, fetch).downloadUrl;
              u.Some? && u.value in urls && Yields(fetch, u.value) && Outcome(base, urls, fetch).content == Some(Pdf(fetch(u.value).body))
    ensures Outcome(base, urls, fetch).downloadStatus != Success ==> Outcome(base, urls, fetch).downloadUrl.None?
    ensures Outcome(base, urls, fetch).downloadStatus == AbstractOnly ==> base.abstractText != ""
    ensures Outcome(base, urls, fetch).downloadStatus == Failed ==> Outcome(base, urls, fetch).content.None?
    ensures Outcome(base, urls, fetch).content.None? ==> Outcome(base, urls, fetch).downloadStatus == Failed
    ensures Outcome(base, urls, fetch).title == base.title && Outcome(base, urls, fetch).safeTitle == base.safeTitle
  {
  }

  /** Without a PDF, the abstract decides between 'abstract_only' and 'failed'. */
  lemma OutcomeFallback(base: PaperInfo, urls: seq<string>, fetch: Fetcher)
    requires base.content.None? && base.downloadStatus == Failed
    requires forall j :: 0 <= j < |urls| ==> !Yields(fetch, urls[j])
    ensures base.abstractText != "" ==> Outcome(base, urls, fetch).downloadStatus == AbstractOnly
    ensures base.abstractText != "" ==> Outcome(base, urls, fetch).content == Some(TextOnly(TextContent(base)))
    ensures base.abstractText == "" ==> Outcome(base, urls, fetch) == base
  {
    if FirstPdfFrom(urls, fetch, 0).Some? {
      assert false;
    }
  }

  // ---------------------------------------------------------------- the ZIP archive

  /** `f"{n:02d}"`: at least two digits, zero-padded. */
  function Pad2(n: nat): (r: string)
    ensures |r| >= 2 && forall k :: 0 <= k < |r| ==> IsDigit(r[k])
  {
    NatDigits(n);
    if n < 10 then "0" + NatToString(n) else NatToString(n)
  }

  lemma NatDigits(n: nat)
    ensures forall k :: 0 <= k < |NatToString(n)| ==> IsDigit(NatToString(n)[k])
    ensures n >= 10 ==> |NatToString(n)| >= 2
    ensures |NatToString(n)| >= 1
    decreases n
  {
    if n >= 10 {
      NatDigits(n / 10);
    }
  }

  /** The padded index reads back as the index. */
  lemma Pad2Value(n: nat)
    ensures DigitsValue(Pad2(n)) == n
  {
    DigitsValueOfNat(n);
    if n < 10 {
      assert NatToString(n) == [DigitChar(n)];
      assert Pad2(n) == ['0'] + [DigitChar(n)];
      assert Pad2(n)[..1] == ['0'];
    }
  }

  /** The entries written for the `n`-th paper: its content, when there is some, then its metadata. */
  function EntryNames(n: nat, info: PaperInfo): (r: seq<string>)
    ensures |r| == (if info.content.Some? then 2 else 1)
    ensures r[|r| - 1] == Pad2(n) + "_" + info.safeTitle + "_metadata.txt"
    ensures info.content.Some? ==> r[0] == Pad2(n) + "_" + info.safeTitle + ".pdf"
  {
    (if info.content.Some? then [Pad2(n) + "_" + info.safeTitle + ".pdf"] else [])
    + [Pad2(n) + "_" + info.safeTitle + "_metadata.txt"]
  }

  /** The entries written for the first `k` papers. */
  function ZipNames(papers: seq<PaperIn>, fetch: Fetcher, k: nat): (r: seq<string>)
    requires k <= |papers|
    ensures k <= |r| <= 2 * k
  {
    if k == 0 then [] else ZipNames(papers, fetch, k - 1) + EntryNames(k, SinglePaper(papers[k - 1], k, fetch))
  }

  /** The writes for one paper: its content under the numbered PDF name, when there is some, then its metadata. */
  method WriteEntries(entries: seq<string>, n: nat, info: PaperInfo) returns (r: seq<string>)
    ensures r == entries + EntryNames(n, info)
  {
    r := entries;
    if info.content.Some? {
      r := r + [Pad2(n) + "_" + info.safeTitle + ".pdf"];
    }
    r := r + [Pad2(n) + "_" + info.safeTitle + "_metadata.txt"];
  }

  /** `download_papers`: the ZIP entries written, paper by paper. */
  method DownloadPapers(papers: seq<PaperIn>, fetch: Fetcher) returns (entries: seq<string>)
    ensures entries == ZipNames(papers, fetch, |papers|)
  {
    entries := [];
    var i := 0;
    while i < |papers|
      invariant 0 <= i <= |papers|
      invariant entries == ZipNames(papers, fetch, i)
    {
      var info := DownloadSinglePaper(papers[i], i + 1, fetch);
      entries := WriteEntries(entries, i + 1, info);
      i := i + 1;
    }
  }

  // ---------------------------------------------------------------- sources and estimates

  datatype Source = Arxiv | ResearchGate | Academia | Publisher | Unknown

  /** The key of the bucket in the `sources` dict. */
  function SourceName(s: Source): string
  {
    match s
    case Arxiv => "arxiv"
    case ResearchGate => "researchgate"
    case Academia => "academia"
    case Publisher => "publisher"
    case Unknown => "unknown"
  }

  const SourceOrder: seq<Source> := [Arxiv, ResearchGate, Academia, Publisher, Unknown]
  const PublisherNames: seq<string> := ["ieee", "acm", "springer", "elsevier", "wiley"]

  predicate MentionsPublisher(u: string) { exists i :: 0 <= i < |PublisherNames| && Mentions(u, PublisherNames[i]) }

  /** The bucket a paper goes to: the first rule that holds for the lowercased URL. */
  function SourceOf(p: PaperIn): (s: Source)
    ensures Mentions(p.url, "arxiv") ==> s == Arxiv
    ensures s == Unknown <==> !Mentions(p.url, "arxiv") && !Mentions(p.url, "researchgate")
                              && !Mentions(p.url, "academia.edu") && !MentionsPublisher(p.url)
    ensures s == Publisher ==> MentionsPublisher(p.url)
  {
    if Mentions(p.url, "arxiv") then Arxiv
    else if Mentions(p.url, "researchgate") then ResearchGate
    else if Mentions(p.url, "academia.edu") then Academia
    else if MentionsPublisher(p.url) then Publisher
    else Unknown
  }

  /** The elements that `cls` puts into bucket `s`, in input order. */
  function InBucket<T>(xs: seq<T>, cls: T -> Source, s: Source): (r: seq<T>)
    ensures |r| <= |xs|
    ensures forall k :: 0 <= k < |r| ==> cls(r[k]) == s
  {
    if xs == [] then []
    else InBucket(xs[..|xs| - 1], cls, s) + (if cls(xs[|xs| - 1]) == s then [xs[|xs| - 1]] else [])
  }

  datatype Sources<T> = Sources(arxiv: seq<T>, researchgate: seq<T>, academia: seq<T>, publisher: seq<T>, unknown: seq<T>)

  function Bucket<T>(b: Sources<T>, s: Source): seq<T>
  {
    match s
    case Arxiv => b.arxiv
    case ResearchGate => b.researchgate
    case Academia => b.academia
    case Publisher => b.publisher
    case Unknown => b.unknown
  }

  function AddTo<T>(b: Sources<T>, s: Source, x: T): (r: Sources<T>)
    ensures Bucket(r, s) == Bucket(b, s) + [x]
    ensures forall t :: t != s ==> Bucket(r, t) == Bucket(b, t)
  {
    match s
    case Arxiv => b.(arxiv := b.arxiv + [x])
    case ResearchGate => b.(researchgate := b.researchgate + [x])
    case Academia => b.(academia := b.academia + [x])
    case Publisher => b.(publisher := b.publisher + [x])
    case Unknown => b.(unknown := b.unknown + [x])
  }

  /** The buckets `cls` fills from `xs`. */
  function Classified<T>(xs: seq<T>, cls: T -> Source): (b: Sources<T>)
    ensures forall s :: Bucket(b, s) == InBucket(xs, cls, s)
  {
    Sources(InBucket(xs, cls, Arxiv), InBucket(xs, cls, ResearchGate), InBucket(xs, cls, Academia),
            InBucket(xs, cls, Publisher), InBucket(xs, cls, Unknown))
  }

  /** `get_paper_sources`: every bucket holds exactly the papers classified into it, in input order. */
  method GetPaperSources(papers: seq<PaperIn>) returns (sources: Sources<PaperIn>)
    ensures sources == Classified(papers, SourceOf)
  {
    sources := Sources([], [], [], [], []);
    var i := 0;
    while i < |papers|
      invariant 0 <= i <= |papers|
      invariant sources == Classified(papers[..i], SourceOf)
    {
      var s := SourceOf(papers[i]);
      ClassifiedSnoc(papers[..i], SourceOf, papers[i]);
      assert papers[..i + 1] == papers[..i] + [papers[i]];
      sources := AddTo(sources, s, papers[i]);
      i := i + 1;
    }
    assert papers[..i] == papers;
  }

  lemma ClassifiedSnoc<T>(xs: seq<T>, cls: T -> Source, x: T)
    ensures Classified(xs + [x], cls) == AddTo(Classified(xs, cls), cls(x), x)
  {
    assert (xs + [x])[..|xs|] == xs;
    var l := Classified(xs + [x], cls);
    var r := AddTo(Classified(xs, cls), cls(x), x);
    assert forall s :: Bucket(l, s) == Bucket(r, s);
    assert l.arxiv == Bucket(l, Arxiv) && r.arxiv == Bucket(r, Arxiv);
    assert l.researchgate == Bucket(l, ResearchGate) && r.researchgate == Bucket(r, ResearchGate);
    assert l.academia == Bucket(l, Academia) && r.academia == Bucket(r, Academia);
    assert l.publisher == Bucket(l, Publisher) && r.publisher == Bucket(r, Publisher);
  }

  /** The buckets hold, between them, every element exactly as often as the input does. */
  lemma {:induction false} BucketsPartition<T>(xs: seq<T>, cls: T -> Source, y: T)
    ensures multiset(InBucket(xs, cls, Arxiv))[y] + multiset(InBucket(xs, cls, ResearchGate))[y] + multiset(InBucket(xs, cls, Academia))[y]
            + multiset(InBucket(xs, cls, Publisher))[y] + multiset(InBucket(xs, cls, Unknown))[y] == multiset(xs)[y]
  {
    if xs != [] {
      var init := xs[..|xs| - 1];
      var x := xs[|xs| - 1];
      BucketsPartition(init, cls, y);
      MultisetLast(xs);
      InBucketLast(xs, cls, Arxiv, y);
      InBucketLast(xs, cls, ResearchGate, y);
      InBucketLast(xs, cls, Academia, y);
      InBucketLast(xs, cls, Publisher, y);
      InBucketLast(xs, cls, Unknown, y);
    }
  }

  lemma MultisetLast<T>(xs: seq<T>)
    requires xs != []
    ensures multiset(xs) == multiset(xs[..|xs| - 1]) + multiset{xs[|xs| - 1]}
  {
    assert xs == xs[..|xs| - 1] + [xs[|xs| - 1]];
  }

  lemma InBucketLast<T>(xs: seq<T>, cls: T -> Source, s: Source, y: T)
    requires xs != []
    ensures var x := xs[|xs| - 1];
      multiset(InBucket(xs, cls, s))[y] == multiset(InBucket(xs[..|xs| - 1], cls, s))[y] + (if cls(x) == s && x == y then 1 else 0)
  {
  }

  /** So the bucket sizes add up to the number of elements. */
  lemma {:induction false} BucketsCount<T>(xs: seq<T>, cls: T -> Source)
    ensures |InBucket(xs, cls, Arxiv)| + |InBucket(xs, cls, ResearchGate)| + |InBucket(xs, cls, Academia)|
            + |InBucket(xs, cls, Publisher)| + |InBucket(xs, cls, Unknown)| == |xs|
  {
    if xs != [] {
      BucketsCount(xs[..|xs| - 1], cls);
    }
  }

  /** Estimated success rates, in percent. */
  function Rate(s: Source): nat
    ensures Rate(s) <= 100
  {
    match s
    case Arxiv => 95
    case ResearchGate => 70
    case Academia => 60
    case Publisher => 30
    case Unknown => 20
  }

  /** `int(count * rate)` with the rate exact. */
  function Estimated(count: nat, s: Source): (e: nat)
    ensures e <= count
    ensures e * 100 <= count * Rate(s) < (e + 1) * 100
  {
    count * Rate(s) / 100
  }

  datatype Estimates = Estimates(perSource: seq<(Source, nat)>, totalEstimated: nat, totalPapers: nat)

  /** The per-source estimates for the buckets in `order` that are non-empty. */
  function Reported<T>(sources: Sources<T>, order: seq<Source>): (r: seq<(Source, nat)>)
    ensures |r| <= |order|
  {
    if order == [] then []
    else
      var s := order[|order| - 1];
      var b := Bucket(sources, s);
      Reported(sources, order[..|order| - 1]) + (if b != [] then [(s, Estimated(|b|, s))] else [])
  }

  function SumEstimates(r: seq<(Source, nat)>): nat
  {
    if r == [] then 0 else SumEstimates(r[..|r| - 1]) + r[|r| - 1].1
  }

  /** `estimate_download_success`. */
  method EstimateDownloadSuccess(papers: seq<PaperIn>) returns (e: Estimates)
    ensures e.totalPapers == |papers|
    ensures e.perSource == Reported(Classified(papers, SourceOf), SourceOrder)
    ensures e.totalEstimated == SumEstimates(e.perSource)
  {
    var sources := GetPaperSources(papers);
    var perSource := [];
    var total := 0;
    var i := 0;
    while i < |SourceOrder|
      invariant 0 <= i <= |SourceOrder|
      invariant perSource == Reported(sources, SourceOrder[..i])
      invariant total == SumEstimates(perSource)
    {
      var s := SourceOrder[i];
      var bucket := Bucket(sources, s);
      ReportedSnoc(sources, SourceOrder, i);
      if bucket != [] {
        var estimated := |bucket| * Rate(s) / 100;
        SumSnoc(perSource, (s, estimated));
        perSource := perSource + [(s, estimated)];
        total := total + estimated;
      }
      i := i + 1;
    }
    assert SourceOrder[..i] == SourceOrder;
    e := Estimates(perSource, total, |papers|);
  }

  lemma ReportedSnoc<T>(sources: Sources<T>, order: seq<Source>, i: nat)
    requires i < |order|
    ensures Reported(sources, order[..i + 1])
         == Reported(sources, order[..i]) + (if Bucket(sources, order[i]) != [] then [(order[i], Estimated(|Bucket(sources, order[i])|, order[i]))] else [])
  {
    assert order[..i + 1][..i] == order[..i];
  }

  lemma ReportedLast<T>(sources: Sources<T>, order: seq<Source>)
    requires order != []
    ensures var s := order[|order| - 1]; var b := Bucket(sources, s);
      Reported(sources, order) == Reported(sources, order[..|order| - 1]) + (if b != [] then [(s, Estimated(|b|, s))] else [])
  {
  }

  lemma SumSnoc(r: seq<(Source, nat)>, x: (Source, nat))
    ensures SumEstimates(r + [x]) == SumEstimates(r) + x.1
  {
    assert (r + [x])[..|r|] == r;
  }

  /** Every reported source is a non-empty bucket of `order`, with its own estimate. */
  lemma {:induction false} ReportedSound<T>(sources: Sources<T>, order: seq<Source>)
    ensures var r := Reported(sources, order);
      forall k :: 0 <= k < |r| ==> r[k].0 in order && Bucket(sources, r[k].0) != [] && r[k].1 == Estimated(|Bucket(sources, r[k].0)|, r[k].0)
  {
    if order != [] {
      var init := order[..|order| - 1];
      ReportedSound(sources, init);
      ReportedLast(sources, order);
      assert forall s :: s in init ==> s in order;
    }
  }

  /** Every non-empty bucket of `order` is reported, with its estimate. */
  lemma {:induction false} ReportedComplete<T>(sources: Sources<T>, order: seq<Source>, s: Source)
    requires s in order && Bucket(sources, s) != []
    ensures (s, Estimated(|Bucket(sources, s)|, s)) in Reported(sources, order)
  {
    var n := |order|;
    var init := order[..n - 1];
    ReportedLast(sources, order);
    if order[n - 1] != s {
      assert order == init + [order[n - 1]];
      assert s in init;
      ReportedComplete(sources, init, s);
    }
  }

  /** No source is reported twice. */
  lemma {:induction false} ReportedDistinct<T>(sources: Sources<T>, order: seq<Source>)
    requires NoDup(order)
    ensures var r := Reported(sources, order); forall j, k :: 0 <= j < k < |r| ==> r[j].0 != r[k].0
  {
    if order != [] {
      var n := |order|;
      var init := order[..n - 1];
      var s := order[n - 1];
      assert NoDup(init);
      ReportedDistinct(sources, init);
      ReportedSound(sources, init);
      ReportedLast(sources, order);
      assert s !in init;
    }
  }

  /** The estimate reports the non-empty buckets, each once, in dict order and with its own estimate. */
  lemma ReportedFacts<T>(sources: Sources<T>)
    ensures var r := Reported(sources, SourceOrder);
      (forall k :: 0 <= k < |r| ==> Bucket(sources, r[k].0) != [] && r[k].1 == Estimated(|Bucket(sources, r[k].0)|, r[k].0))
      && (forall s :: Bucket(sources, s) != [] ==> (s, Estimated(|Bucket(sources, s)|, s)) in r)
      && (forall j, k :: 0 <= j < k < |r| ==> r[j].0 != r[k].0)
  {
    var r := Reported(sources, SourceOrder);
    ReportedSound(sources, SourceOrder);
    ReportedDistinct(sources, SourceOrder);
    forall s | Bucket(sources, s) != []
      ensures (s, Estimated(|Bucket(sources, s)|, s)) in r
    {
      assert s == SourceOrder[SourceIndex(s)];
      ReportedComplete(sources, SourceOrder, s);
    }
  }

  /** The position of `s` in `SourceOrder`. */
  function SourceIndex(s: Source): (k: nat)
    ensures k < |SourceOrder| && SourceOrder[k] == s
  {
    match s
    case Arxiv => 0
    case ResearchGate => 1
    case Academia => 2
    case Publisher => 3
    case Unknown => 4
  }

  /** The sum of the bucket sizes of `order`. */
  function BucketSizes<T>(b: Sources<T>, order: seq<Source>): nat
  {
    if order == [] then 0 else BucketSizes(b, order[..|order| - 1]) + |Bucket(b, order[|order| - 1])|
  }

  lemma BucketSizesSnoc<T>(b: Sources<T>, order: seq<Source>, i: nat)
    requires i < |order|
    ensures BucketSizes(b, order[..i + 1]) == BucketSizes(b, order[..i]) + |Bucket(b, order[i])|
  {
    assert order[..i + 1][..i] == order[..i];
  }

  lemma {:induction false} SumBounded<T>(b: Sources<T>, order: seq<Source>)
    ensures SumEstimates(Reported(b, order)) <= BucketSizes(b, order)
  {
    if order != [] {
      var init := order[..|order| - 1];
      var s := order[|order| - 1];
      SumBounded(b, init);
      ReportedLast(b, order);
      assert BucketSizes(b, order) == BucketSizes(b, init) + |Bucket(b, s)|;
      if Bucket(b, s) != [] {
        var x := (s, Estimated(|Bucket(b, s)|, s));
        assert Reported(b, order) == Reported(b, init) + [x];
        SumSnoc(Reported(b, init), x);
      } else {
        assert Reported(b, order) == Reported(b, init);
      }
    }
  }

  /** The estimated total never exceeds the number of papers. */
  lemma TotalBounded<T>(xs: seq<T>, cls: T -> Source)
    ensures SumEstimates(Reported(Classified(xs, cls), SourceOrder)) <= |xs|
  {
    var b := Classified(xs, cls);
    BucketsCount(xs, cls);
    SumBounded(b, SourceOrder);
    BucketSizesAll(b);
  }

  lemma BucketSizesAll<T>(b: Sources<T>)
    ensures BucketSizes(b, SourceOrder) == |b.arxiv| + |b.researchgate| + |b.academia| + |b.publisher| + |b.unknown|
  {
    var o := SourceOrder;
    assert BucketSizes(b, o[..0]) == 0;
    BucketSizesSnoc(b, o, 0);
    assert BucketSizes(b, o[..1]) == |b.arxiv|;
    BucketSizesSnoc(b, o, 1);
    assert BucketSizes(b, o[..2]) == |b.arxiv| + |b.researchgate|;
    BucketSizesSnoc(b, o, 2);
    assert BucketSizes(b, o[..3]) == |b.arxiv| + |b.researchgate| + |b.academia|;
    BucketSizesSnoc(b, o, 3);
    BucketSizesSnoc(b, o, 4);
    assert o[..5] == o;
  }
}
