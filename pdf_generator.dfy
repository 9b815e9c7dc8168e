/**
 * The PDF profile writer: rich-text section bodies (blank-line blocks classified as bullet
 * lists, numbered lists, quotes or paragraphs), the section placeholder rule, the listing
 * subsections, the data statistics, the basic-information table of the title page, and the
 * file name. Flowables are values; reportlab's layout and `doc.build` are not modelled.
 */
module PdfGenerator {
  import opened Wrappers
  import opened Text
  import opened Flowables
  import Json
  import opened Markup

  const CustomTitle := "CustomTitle"
  const SectionHeader := "SectionHeader"
  const SubsectionHeader := "SubsectionHeader"
  const Body := "CustomBodyText"
  const QuoteStyle := "Quote"
  const Caption := "Caption"
  const Heading2 := "Heading2"

  /** `0.08*inch`, the gap after a rich-text paragraph. */
  const ParagraphGap: nat := 576
  /** The listings show at most this many entries. */
  const ListingLimit: nat := 10

  // ---------------------------------------------------------------- _render_rich_text

  /** `content.replace('\r\n', '\n').replace('\r', '\n')`: no carriage return is left. */
  function Normalized(content: string): (r: string)
    ensures NoChar(r, '\r')
  {
    ReplaceCharRemoves(Replace(content, "\r\n", "\n"), '\r', "\n");
    ReplaceChar(Replace(content, "\r\n", "\n"), '\r', "\n")
  }

  /** `[b.strip() for b in pieces if b.strip()]`. */
  function StrippedNonBlank(pieces: seq<string>): (r: seq<string>)
    ensures |r| <= |pieces|
    ensures forall i :: 0 <= i < |r| ==> r[i] != "" && !IsSpace(r[i][0]) && !IsSpace(r[i][|r[i]| - 1])
  {
    if pieces == [] then []
    else (if Strip(pieces[0]) != "" then [Strip(pieces[0])] else []) + StrippedNonBlank(pieces[1..])
  }

  /** The blocks of a text: its pieces between blank lines, stripped, the empty ones dropped. */
  function Blocks(text: string): seq<string>
  {
    StrippedNonBlank(Split(text, "\n\n"))
  }

  const BulletMarks: seq<char> := ['-', '•', '*']

  /** A non-blank line whose stripped text starts with '-', '•' or '*'; blank lines do not count. */
  predicate IsBulletLine(l: string)
  {
    Strip(l) != "" ==> Strip(l)[0] in BulletMarks
  }

  /** `l.lstrip('-•*')`. */
  function DropMarks(l: string): (r: string)
    ensures |r| <= |l| && r == l[|l| - |r|..]
    ensures r != [] ==> r[0] !in BulletMarks
  {
    if l != [] && l[0] in BulletMarks then DropMarks(l[1..]) else l
  }

  function DigitRun(s: string, i: nat): (n: nat)
    requires i <= |s|
    ensures i + n <= |s| && forall j :: i <= j < i + n ==> IsDigit(s[j])
    ensures i + n < |s| ==> !IsDigit(s[i + n])
    decreases |s| - i
  {
    if i == |s| || !IsDigit(s[i]) then 0 else 1 + DigitRun(s, i + 1)
  }

  /**
   * The length of the match of `^\s*\d+\.\s+` at the start of `l`, if it matches: leading
   * whitespace, at least one digit, a dot, and at least one whitespace character.
   */
  function NumberPrefix(l: string): (r: Option<nat>)
    ensures r.Some? ==> r.value <= |l|
    ensures r.Some? ==> LeadingSpace(l) < |l| && IsDigit(l[LeadingSpace(l)])
  {
    var a := LeadingSpace(l);
    var d := DigitRun(l, a);
    if d == 0 || a + d == |l| || l[a + d] != '.' then None
    else
      var w := SpaceRun(l, a + d + 1);
      if w == 0 then None else Some(a + d + 1 + w)
  }

  predicate IsNumberedLine(l: string)
  {
    Strip(l) != "" ==> NumberPrefix(l).Some?
  }

  /** `block.startswith('"') and block.endswith('"') and len(block) > 2`. */
  predicate IsQuote(block: string)
  {
    |block| > 2 && block[0] == '"' && block[|block| - 1] == '"'
  }

  datatype Kind = Bullets | Numbered | Quotation | Prose

  function Lines(block: string): seq<string> { Split(block, "\n") }

  predicate AllBullets(lines: seq<string>) { forall i :: 0 <= i < |lines| ==> IsBulletLine(lines[i]) }

  predicate AllNumbered(lines: seq<string>) { forall i :: 0 <= i < |lines| ==> IsNumberedLine(lines[i]) }

  /** The classification of a block, tried in this order: bullet list, numbered list, quote, paragraph. */
  function KindOf(block: string): Kind
  {
    if AllBullets(Lines(block)) then Bullets
    else if AllNumbered(Lines(block)) then Numbered
    else if IsQuote(block) then Quotation
    else Prose
  }

  /** What each kind means: a bullet list exactly when every line is one; a later kind only when no earlier one applies. */
  lemma KindOfMeans(block: string)
    ensures KindOf(block) == Bullets <==> AllBullets(Lines(block))
    ensures KindOf(block) == Numbered <==> !AllBullets(Lines(block)) && AllNumbered(Lines(block))
    ensures KindOf(block) == Quotation <==> !AllBullets(Lines(block)) && !AllNumbered(Lines(block)) && IsQuote(block)
    ensures KindOf(block) == Prose <==> !AllBullets(Lines(block)) && !AllNumbered(Lines(block)) && !IsQuote(block)
  {
  }

  /** The markup of a bullet item: the marks removed, stripped, converted. */
  function BulletItem(l: string): (r: string)
    ensures NoChar(r, '\n')
  {
    ConvertMarkdown(Strip(DropMarks(l)))
  }

  /** The markup of a numbered item: the number prefix removed, stripped, converted. */
  function NumberedItem(l: string): (r: string)
    ensures NoChar(r, '\n')
  {
    ConvertMarkdown(Strip(match NumberPrefix(l) case Some(n) => l[n..] case None => l))
  }

  /** The items of a list block, one per line, blank lines included. */
  function ItemsOf(lines: seq<string>, item: string -> string): (items: seq<string>)
    ensures |items| == |lines| && forall i :: 0 <= i < |lines| ==> items[i] == item(lines[i])
  {
    seq(|lines|, i requires 0 <= i < |lines| => item(lines[i]))
  }

  /** The flowables of one block of kind `k`. */
  function KindFlowables(k: Kind, block: string): (fs: seq<Flowable>)
    ensures |fs| >= 1
  {
    match k
    case Bullets => [ListFlowable(ItemsOf(Lines(block), BulletItem), "bullet")]
    case Numbered => [ListFlowable(ItemsOf(Lines(block), NumberedItem), "1")]
    case Quotation => [Paragraph(ConvertMarkdown(block), QuoteStyle)]
    case Prose => [Paragraph(ConvertMarkdown(block), Body), Spacer(100, ParagraphGap)]
  }

  /** The flowables of one block. */
  function BlockFlowables(block: string): (fs: seq<Flowable>)
    ensures |fs| >= 1
  {
    KindFlowables(KindOf(block), block)
  }

  function BlocksFlowables(blocks: seq<string>): (fs: seq<Flowable>)
    ensures |fs| >= |blocks|
  {
    if blocks == [] then [] else BlocksFlowables(blocks[..|blocks| - 1]) + BlockFlowables(blocks[|blocks| - 1])
  }

  /**
   * What `_render_rich_text` returns: nothing for empty content or content without a
   * non-blank block, and otherwise one group holding the flowables of every block.
   */
  function RichText(content: string): (r: seq<Flowable>)
    ensures |r| <= 1
    ensures r == [] <==> content == "" || Blocks(Normalized(content)) == []
    ensures r != [] ==> r[0] == KeepTogether(BlocksFlowables(Blocks(Normalized(content))))
  {
    if content == "" then []
    else
      var fs := BlocksFlowables(Blocks(Normalized(content)));
      if fs == [] then [] else [KeepTogether(fs)]
  }

  /** The item loop of a list block: `item(l)` for every line, in order. */
  method ListItems(lines: seq<string>, item: string -> string) returns (items: seq<string>)
    ensures |items| == |lines| && forall i :: 0 <= i < |lines| ==> items[i] == item(lines[i])
  {
    items := [];
    var k := 0;
    while k < |lines|
      invariant 0 <= k <= |lines|
      invariant |items| == k && forall i :: 0 <= i < k ==> items[i] == item(lines[i])
    {
      items := items + [item(lines[k])];
      k := k + 1;
    }
  }

  /** The list flowable of a list block: one item per line. */
  method RenderList(lines: seq<string>, item: string -> string, bulletType: string) returns (fs: seq<Flowable>)
    ensures fs == [ListFlowable(ItemsOf(lines, item), bulletType)]
  {
    var items := ListItems(lines, item);
    assert items == ItemsOf(lines, item);
    fs := [ListFlowable(items, bulletType)];
  }

  /** The body of the block loop: classify, then build the list, quote or paragraph. */
  method RenderBlock(block: string) returns (fs: seq<Flowable>)
    ensures fs == BlockFlowables(block)
  {
    var lines := Lines(block);
    if AllBullets(lines) {
      fs := RenderList(lines, BulletItem, "bullet");
      assert KindOf(block) == Bullets;
    } else if AllNumbered(lines) {
      fs := RenderList(lines, NumberedItem, "1");
      assert KindOf(block) == Numbered;
    } else if IsQuote(block) {
      fs := [Paragraph(ConvertMarkdown(block), QuoteStyle)];
      assert KindOf(block) == Quotation;
    } else {
      fs := [Paragraph(ConvertMarkdown(block), Body), Spacer(100, ParagraphGap)];
      assert KindOf(block) == Prose;
    }
  }

  lemma BlocksStep(blocks: seq<string>, i: nat)
    requires i < |blocks|
    ensures BlocksFlowables(blocks[..i + 1]) == BlocksFlowables(blocks[..i]) + BlockFlowables(blocks[i])
  {
    assert blocks[..i + 1][..i] == blocks[..i];
  }

  /** `_render_rich_text`: the block loop appending to `flowables`, then the grouping. */
  method RenderRichText(content: string) returns (story: seq<Flowable>)
    ensures story == RichText(content)
  {
    if content == "" {
      return [];
    }
    var text := Normalized(content);
    var blocks := Blocks(text);
    var flowables: seq<Flowable> := [];
    var i := 0;
    while i < |blocks|
      invariant 0 <= i <= |blocks|
      invariant flowables == BlocksFlowables(blocks[..i])
    {
      BlocksStep(blocks, i);
      var fs := RenderBlock(blocks[i]);
      flowables := flowables + fs;
      i := i + 1;
    }
    assert blocks[..i] == blocks;
    story := if flowables == [] then [] else [KeepTogether(flowables)];
  }

  // ---------------------------------------------------------------- what the rich text guarantees

  /** A flowable whose markup contains no newline: reportlab sees line breaks only as `<br/>`. */
  predicate OneLine(f: Flowable)
  {
    match f
    case Paragraph(text, _) => NoChar(text, '\n')
    case ListFlowable(items, _) => forall i :: 0 <= i < |items| ==> NoChar(items[i], '\n')
    case _ => true
  }

  predicate AllOneLine(fs: seq<Flowable>)
  {
    forall j :: 0 <= j < |fs| ==> OneLine(fs[j])
  }

  lemma KindOneLine(k: Kind, block: string)
    ensures AllOneLine(KindFlowables(k, block))
  {
    match k
    case Bullets =>
      var items := ItemsOf(Lines(block), BulletItem);
      assert OneLine(ListFlowable(items, "bullet"));
    case Numbered =>
      var items := ItemsOf(Lines(block), NumberedItem);
      assert OneLine(ListFlowable(items, "1"));
    case Quotation =>
    case Prose =>
  }

  lemma {:induction false} BlocksOneLine(blocks: seq<string>)
    ensures AllOneLine(BlocksFlowables(blocks))
  {
    if blocks != [] {
      var init := blocks[..|blocks| - 1];
      BlocksOneLine(init);
      KindOneLine(KindOf(blocks[|blocks| - 1]), blocks[|blocks| - 1]);
      ConcatOneLine(BlocksFlowables(init), BlockFlowables(blocks[|blocks| - 1]));
    }
  }

  lemma ConcatOneLine(a: seq<Flowable>, b: seq<Flowable>)
    requires AllOneLine(a) && AllOneLine(b)
    ensures AllOneLine(a + b)
  {
    forall j | 0 <= j < |a + b| ensures OneLine((a + b)[j]) {
      if j < |a| {
        assert (a + b)[j] == a[j];
      } else {
        assert (a + b)[j] == b[j - |a|];
      }
    }
  }

  /** Every paragraph and list item the rich text produces is one line of markup. */
  lemma RichTextOneLine(content: string)
    ensures forall f :: f in RichText(content) ==> f.KeepTogether? && AllOneLine(f.contents)
  {
    var fs := BlocksFlowables(Blocks(Normalized(content)));
    BlocksOneLine(Blocks(Normalized(content)));
    assert RichText(content) == [] || RichText(content) == [KeepTogether(fs)];
  }

  /** A numbered line is never taken for a bullet line: its stripped text starts with a digit. */
  lemma NumberedNotBullet(l: string)
    requires NumberPrefix(l).Some?
    ensures Strip(l) != "" && !IsBulletLine(l)
  {
    var a := LeadingSpace(l);
    assert !IsSpace(l[a]);
    assert Strip(l)[0] == l[a];
  }

  /** A block whose lines are all numbered, at least one of them, is rendered as a numbered list. */
  lemma NumberedBlock(block: string)
    requires forall i :: 0 <= i < |Lines(block)| ==> NumberPrefix(Lines(block)[i]).Some?
    ensures KindOf(block) == Numbered
  {
    NumberedNotBullet(Lines(block)[0]);
  }

  // ---------------------------------------------------------------- the section placeholder rule

  /** Section text is rendered unless it is empty or starts, in any letter case, with "error generating". */
  predicate Renders(content: string)
  {
    content != "" && !StartsWith(Lower(content), "error generating")
  }

  /** The body of a synthesized section: its rich text, or the section's placeholder paragraph. */
  method SectionBody(content: string, placeholder: string) returns (story: seq<Flowable>)
    ensures Renders(content) ==> story == RichText(content)
    ensures !Renders(content) ==> story == [Paragraph(placeholder, Body)]
  {
    if content != "" && !StartsWith(Lower(content), "error generating") {
      story := RenderRichText(content);
    } else {
      story := [Paragraph(placeholder, Body)];
    }
  }

  /** Error text is recognised whatever its letter case. */
  lemma ErrorTextNotRendered(rest: string)
    ensures !Renders("Error Generating" + rest)
  {
    var s := "Error Generating" + rest;
    var l := Lower(s);
    assert forall i :: 0 <= i < 16 ==> l[i] == LowerChar(s[i]);
    assert l[..16] == "error generating";
  }

  // ---------------------------------------------------------------- listing subsections

  /**
   * A listing subsection (publications, career timeline, media coverage, collaborators): for
   * a non-empty list, a gap, the heading, and for each of the first ten items its entry
   * paragraph and a gap. `entry(i, x)` is the entry markup of the `i`-th item, counted from 1.
   */
  method Listing<T>(heading: string, items: seq<T>, entry: (nat, T) -> string) returns (story: seq<Flowable>)
    ensures items == [] ==> story == []
    ensures items != [] ==> |story| == 2 + 2 * |Take(items, ListingLimit)|
    ensures items != [] ==> story[..2] == [Spacer(100, 1440), Paragraph(heading, SubsectionHeader)]
    ensures forall j :: 0 <= j < |Take(items, ListingLimit)| ==>
      story[2 + 2 * j] == Paragraph(entry(j + 1, items[j]), Body) && story[3 + 2 * j] == Spacer(100, 720)
  {
    story := [];
    if items == [] {
      return;
    }
    story := [Spacer(100, 1440), Paragraph(heading, SubsectionHeader)];
    var shown := Take(items, ListingLimit);
    var j := 0;
    while j < |shown|
      invariant 0 <= j <= |shown|
      invariant |story| == 2 + 2 * j && story[..2] == [Spacer(100, 1440), Paragraph(heading, SubsectionHeader)]
      invariant forall k :: 0 <= k < j ==> story[2 + 2 * k] == Paragraph(entry(k + 1, items[k]), Body) && story[3 + 2 * k] == Spacer(100, 720)
    {
      story := story + [Paragraph(entry(j + 1, shown[j]), Body), Spacer(100, 720)];
      j := j + 1;
    }
  }

  // ---------------------------------------------------------------- scraped data, stats and basic info

  datatype WikiData = WikiData(title: string, occupation: string)
  datatype ScholarData = ScholarData(name: string, affiliation: string, interests: seq<string>,
                                     publications: seq<Json.Value>, coauthors: seq<Json.Value>)
  datatype LinkedInData = LinkedInData(title: string, company: string, experience: seq<Json.Value>)

  /** The scraped sources the writer reads; an absent source is None, an absent field its default. */
  datatype Scraped = Scraped(wikipedia: Option<WikiData>, googleScholar: Option<ScholarData>, linkedin: Option<LinkedInData>,
                             news: Option<seq<Json.Value>>, youtube: Option<seq<Json.Value>>, github: Option<seq<Json.Value>>)

  datatype Stats = Stats(papers: nat, articles: nat, videos: nat, repos: nat, total: nat)

  /** The length of a source's list, 0 without the source. */
  function CountOf<T>(o: Option<seq<T>>): nat
  {
    if o.Some? then |o.value| else 0
  }

  /** `_calculate_data_stats`: the four counts and their sum. */
  method CalculateDataStats(d: Scraped) returns (stats: Stats)
    ensures stats.papers == (if d.googleScholar.Some? then |d.googleScholar.value.publications| else 0)
    ensures stats.articles == CountOf(d.news) && stats.videos == CountOf(d.youtube) && stats.repos == CountOf(d.github)
    ensures stats.total == stats.papers + stats.articles + stats.videos + stats.repos
  {
    stats := Stats(0, 0, 0, 0, 0);
    if d.googleScholar.Some? {
      stats := stats.(papers := |d.googleScholar.value.publications|);
    }
    if d.news.Some? {
      stats := stats.(articles := |d.news.value|);
    }
    if d.youtube.Some? {
      stats := stats.(videos := |d.youtube.value|);
    }
    if d.github.Some? {
      stats := stats.(repos := |d.github.value|);
    }
    stats := stats.(total := stats.papers + stats.articles + stats.videos + stats.repos);
  }

  datatype InfoKey = FullName | Occupation | Affiliation | ResearchInterests | Company

  function Label(k: InfoKey): string
  {
    match k
    case FullName => "Full Name"
    case Occupation => "Occupation"
    case Affiliation => "Affiliation"
    case ResearchInterests => "Research Interests"
    case Company => "Company"
  }

  /** The basic-information dict: its keys in insertion order with their values. */
  type Info = seq<(InfoKey, string)>

  function Keys(info: Info): (ks: seq<InfoKey>)
    ensures |ks| == |info| && forall i :: 0 <= i < |info| ==> ks[i] == info[i].0
  {
    if info == [] then [] else [info[0].0] + Keys(info[1..])
  }

  predicate Distinct(ks: seq<InfoKey>) { forall i, j :: 0 <= i < j < |ks| ==> ks[i] != ks[j] }

  /** `info.get(k, '')`. */
  function Lookup(info: Info, k: InfoKey): (v: string)
    ensures v != "" ==> k in Keys(info)
  {
    if info == [] then "" else if info[0].0 == k then info[0].1 else Lookup(info[1..], k)
  }

  /** `info[k] = v`: a present key keeps its place, a new one goes to the end. */
  function Assign(info: Info, k: InfoKey, v: string): (r: Info)
    ensures Lookup(r, k) == v
    ensures forall k' :: k' != k ==> Lookup(r, k') == Lookup(info, k')
    ensures Keys(r) == if k in Keys(info) then Keys(info) else Keys(info) + [k]
  {
    if info == [] then [(k, v)]
    else if info[0].0 == k then [(k, v)] + info[1..]
    else [info[0]] + Assign(info[1..], k, v)
  }

  /** The keys Wikipedia and Google Scholar set, in the order they first set them. */
  function WikiScholarOrder(d: Scraped): seq<InfoKey>
  {
    var w := if d.wikipedia.Some? then [FullName, Occupation] else [];
    if d.googleScholar.Some? then
      if d.wikipedia.Some? then w + [Affiliation, ResearchInterests] else w + [FullName, Affiliation, ResearchInterests]
    else w
  }

  /** The order in which `_extract_basic_info` first sets each key. */
  function KeyOrder(d: Scraped): seq<InfoKey>
  {
    var s := WikiScholarOrder(d);
    if d.linkedin.Some? then
      if d.wikipedia.Some? then s + [Company] else s + [Occupation, Company]
    else s
  }

  /** `_extract_basic_info`: Wikipedia first, then Google Scholar, then LinkedIn. */
  function BasicInfoOf(d: Scraped): Info
  {
    LinkedInStep(ScholarStep(WikiStep(d.wikipedia), d.googleScholar), d.linkedin)
  }

  /**
   * The value each key ends with: the Wikipedia title is the full name unless it is empty, and
   * then the Scholar name is; the Wikipedia occupation likewise before the LinkedIn title; the
   * first five Scholar interests, joined with ", ".
   */
  function Expected(d: Scraped, k: InfoKey): string
  {
    match k
    case FullName =>
      if d.wikipedia.Some? && d.wikipedia.value.title != "" then d.wikipedia.value.title
      else if d.googleScholar.Some? then d.googleScholar.value.name else ""
    case Occupation =>
      if d.wikipedia.Some? && d.wikipedia.value.occupation != "" then d.wikipedia.value.occupation
      else if d.linkedin.Some? then d.linkedin.value.title else ""
    case Affiliation => if d.googleScholar.Some? then d.googleScholar.value.affiliation else ""
    case ResearchInterests => if d.googleScholar.Some? then Join(Take(d.googleScholar.value.interests, 5), ", ") else ""
    case Company => if d.linkedin.Some? then d.linkedin.value.company else ""
  }

  /** The Wikipedia part: title and occupation. */
  function WikiStep(w: Option<WikiData>): (info: Info)
    ensures Keys(info) == if w.Some? then [FullName, Occupation] else []
    ensures forall k :: Lookup(info, k) == if w.Some? && k == FullName then w.value.title else if w.Some? && k == Occupation then w.value.occupation else ""
  {
    if w.Some? then Assign(Assign([], FullName, w.value.title), Occupation, w.value.occupation) else []
  }

  /** `if not info.get(k): info[k] = v`: a key with an empty or no value is set. */
  function AssignIfEmpty(info: Info, k: InfoKey, v: string): (r: Info)
    ensures Keys(r) == if k in Keys(info) then Keys(info) else Keys(info) + [k]
    ensures Lookup(r, k) == if Lookup(info, k) != "" then Lookup(info, k) else v
    ensures forall k' :: k' != k ==> Lookup(r, k') == Lookup(info, k')
  {
    if Lookup(info, k) == "" then Assign(info, k, v) else info
  }

  /** A key not yet present goes to the end; the others keep their values. */
  lemma AssignNew(info: Info, k: InfoKey, v: string)
    requires k !in Keys(info)
    ensures Keys(Assign(info, k, v)) == Keys(info) + [k]
  {
  }

  /** The Scholar part: the name only where no full name is set yet, then affiliation and interests. */
  function ScholarStep(info: Info, s: Option<ScholarData>): Info
  {
    if s.None? then info
    else
      var named := AssignIfEmpty(info, FullName, s.value.name);
      Assign(Assign(named, Affiliation, s.value.affiliation), ResearchInterests, Join(Take(s.value.interests, 5), ", "))
  }

  lemma ScholarStepKeys(info: Info, s: ScholarData)
    requires Affiliation !in Keys(info) && ResearchInterests !in Keys(info)
    ensures FullName in Keys(info) ==> Keys(ScholarStep(info, Some(s))) == Keys(info) + [Affiliation, ResearchInterests]
    ensures FullName !in Keys(info) ==> Keys(ScholarStep(info, Some(s))) == Keys(info) + [FullName, Affiliation, ResearchInterests]
  {
    var k0 := Keys(info);
    var named := AssignIfEmpty(info, FullName, s.name);
    var kn := Keys(named);
    assert Affiliation !in kn;
    var a := Assign(named, Affiliation, s.affiliation);
    AssignNew(named, Affiliation, s.affiliation);
    assert ResearchInterests !in kn + [Affiliation];
    AssignNew(a, ResearchInterests, Join(Take(s.interests, 5), ", "));
    AppendTwo(kn, Affiliation, ResearchInterests);
    if FullName !in k0 {
      AppendThree(k0, FullName, Affiliation, ResearchInterests);
    }
  }

  lemma AppendTwo<T>(a: seq<T>, x: T, y: T)
    ensures a + [x] + [y] == a + [x, y]
  {
  }

  lemma AppendThree<T>(a: seq<T>, x: T, y: T, z: T)
    ensures a + [x] + [y, z] == a + [x, y, z]
  {
  }

  /** The LinkedIn part: the title only where no occupation is set yet, then the company. */
  function LinkedInStep(info: Info, l: Option<LinkedInData>): Info
  {
    if l.None? then info
    else Assign(AssignIfEmpty(info, Occupation, l.value.title), Company, l.value.company)
  }

  lemma LinkedInStepKeys(info: Info, l: LinkedInData)
    requires Company !in Keys(info)
    ensures Occupation in Keys(info) ==> Keys(LinkedInStep(info, Some(l))) == Keys(info) + [Company]
    ensures Occupation !in Keys(info) ==> Keys(LinkedInStep(info, Some(l))) == Keys(info) + [Occupation, Company]
  {
    var occupied := AssignIfEmpty(info, Occupation, l.title);
    assert Company !in Keys(occupied);
    AssignNew(occupied, Company, l.company);
    assert LinkedInStep(info, Some(l)) == Assign(occupied, Company, l.company);
    if Occupation !in Keys(info) {
      Associative(Keys(info), [Occupation], [Company]);
    }
  }

  /** The keys after the Wikipedia and Scholar parts. */
  lemma WikiScholarKeys(d: Scraped)
    ensures Keys(ScholarStep(WikiStep(d.wikipedia), d.googleScholar)) == WikiScholarOrder(d)
  {
    var w := WikiStep(d.wikipedia);
    if d.googleScholar.Some? {
      ScholarStepKeys(w, d.googleScholar.value);
      if d.wikipedia.Some? {
        assert Keys(w)[0] == FullName;
      } else {
        assert Keys(w) == [];
      }
    }
  }

  /** The keys of the basic information come in the order the three sources first set them. */
  lemma BasicInfoKeys(d: Scraped)
    ensures Keys(BasicInfoOf(d)) == KeyOrder(d)
  {
    var sc := ScholarStep(WikiStep(d.wikipedia), d.googleScholar);
    WikiScholarKeys(d);
    if d.linkedin.Some? {
      WikiScholarOrderFacts(d);
      LinkedInStepKeys(sc, d.linkedin.value);
    }
  }

  /** Wikipedia and Scholar never set the company, and the occupation is set exactly when Wikipedia is present. */
  lemma WikiScholarOrderFacts(d: Scraped)
    ensures Company !in WikiScholarOrder(d)
    ensures Occupation in WikiScholarOrder(d) <==> d.wikipedia.Some?
  {
    if d.wikipedia.Some? {
      assert WikiScholarOrder(d)[1] == Occupation;
    }
  }

  /** The Scholar part sets its name only over an empty full name, and always its affiliation and interests. */
  lemma ScholarStepValues(info: Info, s: ScholarData, k: InfoKey)
    ensures Lookup(ScholarStep(info, Some(s)), k) ==
      match k
      case FullName => if Lookup(info, FullName) != "" then Lookup(info, FullName) else s.name
      case Affiliation => s.affiliation
      case ResearchInterests => Join(Take(s.interests, 5), ", ")
      case _ => Lookup(info, k)
  {
    var named := AssignIfEmpty(info, FullName, s.name);
    var a := Assign(named, Affiliation, s.affiliation);
    assert ScholarStep(info, Some(s)) == Assign(a, ResearchInterests, Join(Take(s.interests, 5), ", "));
  }

  /** The LinkedIn part sets its title only over an empty occupation, and always its company. */
  lemma LinkedInStepValues(info: Info, l: LinkedInData, k: InfoKey)
    ensures Lookup(LinkedInStep(info, Some(l)), k) ==
      match k
      case Occupation => if Lookup(info, Occupation) != "" then Lookup(info, Occupation) else l.title
      case Company => l.company
      case _ => Lookup(info, k)
  {
    var occupied := AssignIfEmpty(info, Occupation, l.title);
    assert LinkedInStep(info, Some(l)) == Assign(occupied, Company, l.company);
  }

  /** Every key of the basic information holds its expected value, and a missing key reads as "". */
  lemma BasicInfoValues(d: Scraped, k: InfoKey)
    ensures Lookup(BasicInfoOf(d), k) == Expected(d, k)
  {
    var w := WikiStep(d.wikipedia);
    var sc := ScholarStep(w, d.googleScholar);
    var v := Lookup(sc, k);
    if d.googleScholar.Some? {
      ScholarStepValues(w, d.googleScholar.value, k);
    }
    assert k != Occupation && k != Company ==> v == Expected(d, k);
    if d.linkedin.Some? {
      LinkedInStepValues(sc, d.linkedin.value, k);
    }
  }

  /** The rows of the info table: label and value of every non-empty value, in key order. */
  function Rows(info: Info): (rows: seq<seq<string>>)
    ensures |rows| <= |info|
    ensures rows == [] <==> forall i :: 0 <= i < |info| ==> info[i].1 == ""
    ensures forall i :: 0 <= i < |rows| ==> |rows[i]| == 2 && rows[i][1] != ""
  {
    if info == [] then []
    else
      var rest := Rows(info[1..]);
      assert (forall i :: 0 <= i < |info[1..]| ==> info[1..][i].1 == "") ==> forall i :: 1 <= i < |info| ==> info[i].1 == "";
      (if info[0].1 != "" then [[Label(info[0].0), info[0].1]] else []) + rest
  }

  /** `_create_info_table`: a table of the non-empty values, or None when every value is empty. */
  function InfoTable(info: Info): (t: Option<Flowable>)
    ensures t.None? <==> forall i :: 0 <= i < |info| ==> info[i].1 == ""
    ensures t.Some? ==> t.value == Table(Rows(info))
  {
    if Rows(info) == [] then None else Some(Table(Rows(info)))
  }

  lemma {:induction false} RowsSnoc(info: Info, x: (InfoKey, string))
    ensures Rows(info + [x]) == Rows(info) + (if x.1 != "" then [[Label(x.0), x.1]] else [])
  {
    if info == [] {
      assert [x][1..] == [];
    } else {
      assert (info + [x])[0] == info[0] && (info + [x])[1..] == info[1..] + [x];
      RowsSnoc(info[1..], x);
    }
  }

  /** The row loop of `_create_info_table`. */
  method CreateInfoTable(info: Info) returns (t: Option<Flowable>)
    ensures t == InfoTable(info)
  {
    var data: seq<seq<string>> := [];
    var i := 0;
    while i < |info|
      invariant 0 <= i <= |info|
      invariant data == Rows(info[..i])
    {
      RowsSnoc(info[..i], info[i]);
      assert info[..i] + [info[i]] == info[..i + 1];
      var (key, value) := info[i];
      if value != "" {
        data := data + [[Label(key), value]];
      }
      i := i + 1;
    }
    assert info[..i] == info;
    if data == [] {
      return None;
    }
    return Some(Table(data));
  }

  // ---------------------------------------------------------------- _create_title_page

  const Subtitle := "Comprehensive Information Profile for AI Replication"
  const Disclaimer := "<b>Disclaimer:</b> This profile is generated from publicly available information and is intended for educational and research purposes. All information has been collected from open sources and is subject to verification."

  function TitleHead(personName: string): seq<Flowable>
  {
    [Paragraph("Digital Twin Profile", CustomTitle), Spacer(100, 3600), Paragraph(personName, CustomTitle),
     Spacer(100, 2160), Paragraph(Subtitle, Heading2), Spacer(100, 3600)]
  }

  /** `date` is the formatted current date. */
  function TitleTail(date: string): seq<Flowable>
  {
    [Paragraph("Generated on: " + date, Caption), Spacer(100, 1440), Paragraph(Disclaimer, Caption)]
  }

  function Lift(fs: seq<Flowable>): (r: seq<Option<Flowable>>)
    ensures |r| == |fs| && forall i :: 0 <= i < |fs| ==> r[i] == Some(fs[i])
  {
    seq(|fs|, i requires 0 <= i < |fs| => Some(fs[i]))
  }

  /** The story of a title page as written: the info table, None included, whenever `info` has keys. */
  function StoryAsWritten(head: seq<Flowable>, info: Info, tail: seq<Flowable>): seq<Option<Flowable>>
  {
    Lift(head) + (if info != [] then [InfoTable(info), Some(Spacer(100, 2160))] else []) + Lift(tail)
  }

  /** The story of a title page as intended: the table only when there is one, the gap as written. */
  function Story(head: seq<Flowable>, info: Info, tail: seq<Flowable>): seq<Flowable>
  {
    head + (if info != [] then TableOf(info) + [Spacer(100, 2160)] else []) + tail
  }

  function TableOf(info: Info): (r: seq<Flowable>)
    ensures |r| <= 1 && forall i :: 0 <= i < |r| ==> r[i] == Table(Rows(info))
    ensures r == [] <==> InfoTable(info).None?
  {
    match InfoTable(info) case Some(t) => [t] case None => []
  }

  /**
   * `_create_title_page` as written: when the info dict has keys, whatever `_create_info_table`
   * returns is appended, None included.
   */
  function TitlePageAsWritten(personName: string, date: string, d: Scraped): seq<Option<Flowable>>
  {
    StoryAsWritten(TitleHead(personName), BasicInfoOf(d), TitleTail(date))
  }

  /** The title page as intended. */
  function TitlePage(personName: string, date: string, d: Scraped): seq<Flowable>
  {
    Story(TitleHead(personName), BasicInfoOf(d), TitleTail(date))
  }

  lemma StoryNone(head: seq<Flowable>, info: Info, tail: seq<Flowable>)
    ensures None in StoryAsWritten(head, info, tail) <==> info != [] && forall i :: 0 <= i < |info| ==> info[i].1 == ""
  {
    var h, t := Lift(head), Lift(tail);
    var mid := if info != [] then [InfoTable(info), Some(Spacer(100, 2160))] else [];
    assert None !in h && None !in t;
    if None in h + mid + t {
      assert None in mid;
    }
  }

  /** The story written has a None in it exactly when some source set the keys but every value is empty. */
  lemma TitlePageNone(personName: string, date: string, d: Scraped)
    ensures None in TitlePageAsWritten(personName, date, d) <==>
      BasicInfoOf(d) != [] && forall i :: 0 <= i < |BasicInfoOf(d)| ==> BasicInfoOf(d)[i].1 == ""
  {
    StoryNone(TitleHead(personName), BasicInfoOf(d), TitleTail(date));
  }

  /** A Wikipedia record with an empty title and occupation, and nothing else, puts None in the story. */
  lemma EmptyWikipediaBreaksTitlePage(personName: string, date: string)
    ensures None in TitlePageAsWritten(personName, date, Scraped(Some(WikiData("", "")), None, None, None, None, None))
  {
    var d := Scraped(Some(WikiData("", "")), None, None, None, None, None);
    var info := BasicInfoOf(d);
    assert Keys(info) == [FullName, Occupation];
    assert Lookup(info, FullName) == "" && Lookup(info, Occupation) == "";
    assert info[0].1 == Lookup(info, FullName);
    assert info[1..][0].1 == Lookup(info, Occupation);
    StoryNone(TitleHead(personName), info, TitleTail(date));
  }

  function Present(fs: seq<Option<Flowable>>): (r: seq<Flowable>)
  {
    if fs == [] then [] else (if fs[0].Some? then [fs[0].value] else []) + Present(fs[1..])
  }

  lemma {:induction false} PresentAppend(a: seq<Option<Flowable>>, b: seq<Option<Flowable>>)
    ensures Present(a + b) == Present(a) + Present(b)
  {
    if a != [] {
      assert (a + b)[0] == a[0] && (a + b)[1..] == a[1..] + b;
      PresentAppend(a[1..], b);
    } else {
      assert a + b == b;
    }
  }

  lemma {:induction false} PresentLift(fs: seq<Flowable>)
    ensures Present(Lift(fs)) == fs
  {
    if fs != [] {
      assert Lift(fs)[1..] == Lift(fs[1..]);
      PresentLift(fs[1..]);
    }
  }

  lemma StoryCorrected(head: seq<Flowable>, info: Info, tail: seq<Flowable>)
    ensures Story(head, info, tail) == Present(StoryAsWritten(head, info, tail))
  {
    var mid := if info != [] then [InfoTable(info), Some(Spacer(100, 2160))] else [];
    assert StoryAsWritten(head, info, tail) == Lift(head) + mid + Lift(tail);
    PresentAppend(Lift(head) + mid, Lift(tail));
    PresentAppend(Lift(head), mid);
    PresentLift(head);
    PresentLift(tail);
    var cmid := if info != [] then TableOf(info) + [Spacer(100, 2160)] else [];
    assert Story(head, info, tail) == head + cmid + tail;
    if info != [] {
      PresentAppend([InfoTable(info)], [Some(Spacer(100, 2160))]);
      assert [InfoTable(info)] + [Some(Spacer(100, 2160))] == mid;
      assert Present([InfoTable(info)]) == TableOf(info);
      assert Present([Some(Spacer(100, 2160))]) == [Spacer(100, 2160)];
    }
    assert Present(mid) == cmid;
  }

  /** The intended page is the written one with None left out. */
  lemma TitlePageCorrected(personName: string, date: string, d: Scraped)
    ensures TitlePage(personName, date, d) == Present(TitlePageAsWritten(personName, date, d))
  {
    StoryCorrected(TitleHead(personName), BasicInfoOf(d), TitleTail(date));
  }

  predicate NoTable(fs: seq<Flowable>) { forall i :: 0 <= i < |fs| ==> !fs[i].Table? }

  lemma StoryTable(head: seq<Flowable>, info: Info, tail: seq<Flowable>)
    requires NoTable(head) && NoTable(tail)
    ensures (exists i :: 0 <= i < |Story(head, info, tail)| && Story(head, info, tail)[i].Table?) <==>
      exists i :: 0 <= i < |info| && info[i].1 != ""
  {
    var page := Story(head, info, tail);
    var mid := if info != [] then TableOf(info) + [Spacer(100, 2160)] else [];
    assert page == head + mid + tail;
    forall i | 0 <= i < |page| && page[i].Table? ensures InfoTable(info).Some? {
      if i < |head| {
        assert false;
      } else if i >= |head| + |mid| {
        assert false;
      } else {
        assert page[i] == mid[i - |head|];
      }
    }
    if InfoTable(info).Some? {
      assert info != [];
      assert page[|head|] == InfoTable(info).value;
    }
  }

  /** The intended page holds a table exactly when some basic-information value is non-empty. */
  lemma TitlePageTable(personName: string, date: string, d: Scraped)
    ensures (exists i :: 0 <= i < |TitlePage(personName, date, d)| && TitlePage(personName, date, d)[i].Table?) <==>
      exists i :: 0 <= i < |BasicInfoOf(d)| && BasicInfoOf(d)[i].1 != ""
  {
    var h, t := TitleHead(personName), TitleTail(date);
    assert NoTable(h) && NoTable(t);
    StoryTable(h, BasicInfoOf(d), t);
    assert TitlePage(personName, date, d) == Story(h, BasicInfoOf(d), t);
  }

  // ---------------------------------------------------------------- the file name

  lemma {:induction false} ReplaceCharPointwise(s: string, c: char, d: char)
    ensures |ReplaceChar(s, c, [d])| == |s|
    ensures forall i :: 0 <= i < |s| ==> ReplaceChar(s, c, [d])[i] == if s[i] == c then d else s[i]
  {
    if s != [] {
      ReplaceCharPointwise(s[1..], c, d);
    }
  }

  /** `name.replace(' ', '_').replace('/', '_') + '_profile.pdf'`: no space or slash is left of the name. */
  function PdfFilename(personName: string): (r: string)
    ensures |r| == |personName| + 12 && r[|personName|..] == "_profile.pdf"
    ensures forall i :: 0 <= i < |personName| ==> r[i] == if personName[i] == ' ' || personName[i] == '/' then '_' else personName[i]
  {
    ReplaceCharPointwise(personName, ' ', '_');
    ReplaceCharPointwise(ReplaceChar(personName, ' ', "_"), '/', '_');
    ReplaceChar(ReplaceChar(personName, ' ', "_"), '/', "_") + "_profile.pdf"
  }
}
