/**
 * The markup the PDF generator hands to reportlab paragraphs: the light HTML escaping and
 * the markdown-to-markup substitution chain. Each regular expression of the chain is a
 * hand-written scanner with the leftmost, non-overlapping semantics of `re.sub`.
 */
module Markup {
  import opened Wrappers
  import opened Text

  predicate NoChar(s: string, c: char) { forall k :: 0 <= k < |s| ==> s[k] != c }

  /** `s.replace(c, rep)` for a one-character pattern. */
  function ReplaceChar(s: string, c: char, rep: string): string
  {
    if s == [] then [] else (if s[0] == c then rep else [s[0]]) + ReplaceChar(s[1..], c, rep)
  }

  lemma {:induction false} ReplaceCharAppend(a: string, b: string, c: char, rep: string)
    ensures ReplaceChar(a + b, c, rep) == ReplaceChar(a, c, rep) + ReplaceChar(b, c, rep)
  {
    if a != [] {
      assert (a + b)[0] == a[0] && (a + b)[1..] == a[1..] + b;
      ReplaceCharAppend(a[1..], b, c, rep);
    } else {
      assert a + b == b;
    }
  }

  /** Nothing to replace leaves the string as it is. */
  lemma {:induction false} ReplaceCharAbsent(s: string, c: char, rep: string)
    requires NoChar(s, c)
    ensures ReplaceChar(s, c, rep) == s
  {
    if s != [] {
      ReplaceCharAbsent(s[1..], c, rep);
    }
  }

  /** After the replacement no `c` is left, when `rep` has none. */
  lemma {:induction false} ReplaceCharRemoves(s: string, c: char, rep: string)
    requires NoChar(rep, c)
    ensures NoChar(ReplaceChar(s, c, rep), c)
  {
    if s != [] {
      ReplaceCharRemoves(s[1..], c, rep);
    }
  }

  /** A character other than `c` that neither `s` nor `rep` holds is not in the result. */
  lemma {:induction false} ReplaceCharKeepsOut(s: string, c: char, rep: string, d: char)
    requires NoChar(s, d) && NoChar(rep, d)
    ensures NoChar(ReplaceChar(s, c, rep), d)
  {
    if s != [] {
      ReplaceCharKeepsOut(s[1..], c, rep, d);
    }
  }

  // ---------------------------------------------------------------- _escape_html

  /** What the escaping makes of one character. */
  function EscapeChar(x: char): string
  {
    if x == '&' then "&amp;" else if x == '<' then "&lt;" else if x == '>' then "&gt;" else [x]
  }

  /** The escaping character by character: the reference the replacement chain is proved equal to. */
  function EscapeEach(s: string): string
  {
    if s == [] then [] else EscapeChar(s[0]) + EscapeEach(s[1..])
  }

  /** Reading the entities back: `&amp;`, `&lt;` and `&gt;` are the only places an `&` may stand. */
  function Unescape(s: string): (r: Option<string>)
    decreases |s|
  {
    if s == [] then Some([])
    else if s[0] != '&' then
      match Unescape(s[1..]) case None => None case Some(t) => Some([s[0]] + t)
    else if StartsWith(s, "&amp;") then
      match Unescape(s[5..]) case None => None case Some(t) => Some("&" + t)
    else if StartsWith(s, "&lt;") then
      match Unescape(s[4..]) case None => None case Some(t) => Some("<" + t)
    else if StartsWith(s, "&gt;") then
      match Unescape(s[4..]) case None => None case Some(t) => Some(">" + t)
    else None
  }

  /**
   * `_escape_html`: '&' first, then '<' and '>'. The result has neither '<' nor '>', and every
   * '&' in it starts one of the three entities, so reading them back gives the input: no
   * character is escaped twice.
   */
  function EscapeHtml(s: string): (r: string)
    ensures r == EscapeEach(s)
    ensures NoChar(r, '<') && NoChar(r, '>')
    ensures Unescape(r) == Some(s)
  {
    EscapeChain(s);
    EscapeEachNoAngles(s);
    UnescapeEscapeEach(s);
    ReplaceChar(ReplaceChar(ReplaceChar(s, '&', "&amp;"), '<', "&lt;"), '>', "&gt;")
  }

  lemma ReplaceCharOne(x: char, c: char, rep: string)
    ensures ReplaceChar([x], c, rep) == if x == c then rep else [x]
  {
    assert [x][1..] == [];
    assert ReplaceChar([], c, rep) == [];
  }

  lemma EscapeCharChain(x: char)
    ensures ReplaceChar(ReplaceChar(ReplaceChar([x], '&', "&amp;"), '<', "&lt;"), '>', "&gt;") == EscapeChar(x)
  {
    ReplaceCharOne(x, '&', "&amp;");
    if x == '&' {
      ReplaceCharAbsent("&amp;", '<', "&lt;");
      ReplaceCharAbsent("&amp;", '>', "&gt;");
    } else {
      ReplaceCharOne(x, '<', "&lt;");
      if x == '<' {
        ReplaceCharAbsent("&lt;", '>', "&gt;");
      } else {
        ReplaceCharOne(x, '>', "&gt;");
      }
    }
  }

  lemma {:induction false} EscapeChain(s: string)
    ensures ReplaceChar(ReplaceChar(ReplaceChar(s, '&', "&amp;"), '<', "&lt;"), '>', "&gt;") == EscapeEach(s)
  {
    if s != [] {
      var x, t := s[0], s[1..];
      assert s == [x] + t;
      ReplaceCharAppend([x], t, '&', "&amp;");
      var a, b := ReplaceChar([x], '&', "&amp;"), ReplaceChar(t, '&', "&amp;");
      ReplaceCharAppend(a, b, '<', "&lt;");
      ReplaceCharAppend(ReplaceChar(a, '<', "&lt;"), ReplaceChar(b, '<', "&lt;"), '>', "&gt;");
      EscapeCharChain(x);
      EscapeChain(t);
    }
  }

  lemma {:induction false} EscapeEachNoAngles(s: string)
    ensures NoChar(EscapeEach(s), '<') && NoChar(EscapeEach(s), '>')
  {
    if s != [] {
      EscapeEachNoAngles(s[1..]);
      var h := EscapeChar(s[0]);
      assert NoChar(h, '<') && NoChar(h, '>');
      assert EscapeEach(s) == h + EscapeEach(s[1..]);
    }
  }

  lemma {:induction false} UnescapeEscapeEach(s: string)
    ensures Unescape(EscapeEach(s)) == Some(s)
  {
    if s != [] {
      UnescapeEscapeEach(s[1..]);
      UnescapeOne(s[0], EscapeEach(s[1..]), s[1..]);
      assert s == [s[0]] + s[1..];
    }
  }

  /** An escaped character followed by text that reads back as `t` reads back as that character and `t`. */
  lemma UnescapeOne(x: char, rest: string, t: string)
    requires Unescape(rest) == Some(t)
    ensures Unescape(EscapeChar(x) + rest) == Some([x] + t)
  {
    var e := EscapeChar(x) + rest;
    if x == '&' {
      assert e[..5] == "&amp;" && e[5..] == rest;
    } else if x == '<' {
      assert e[..4] == "&lt;" && e[4..] == rest;
      assert e[1] == 'l';
    } else if x == '>' {
      assert e[..4] == "&gt;" && e[4..] == rest;
      assert e[1] == 'g';
    } else {
      assert e[0] == x && e[1..] == rest;
    }
  }

  // ---------------------------------------------------------------- _convert_markdown_to_reportlab

  /** For `\*\*(.*?)\*\*` opened before `k`: the first `**` at or after `k` on the same line. */
  function BoldClose(s: string, k: nat): (r: Option<nat>)
    ensures r.Some? ==> k <= r.value && r.value + 2 <= |s| && s[r.value] == '*' && s[r.value + 1] == '*'
    decreases |s| - k
  {
    if k + 1 < |s| && s[k] == '*' && s[k + 1] == '*' then Some(k)
    else if k < |s| && s[k] != '\n' then BoldClose(s, k + 1)
    else None
  }

  /** `re.sub(r'\*\*(.*?)\*\*', r'<b>\1</b>', s[i..])`. */
  function BoldFrom(s: string, i: nat): string
    requires i <= |s|
    decreases |s| - i
  {
    if i == |s| then []
    else if i + 1 < |s| && s[i] == '*' && s[i + 1] == '*' && BoldClose(s, i + 2).Some? then
      var k := BoldClose(s, i + 2).value;
      "<b>" + s[i + 2..k] + "</b>" + BoldFrom(s, k + 2)
    else [s[i]] + BoldFrom(s, i + 1)
  }

  /** For `\*(.*?)\*` opened before `k`: the first `*` at or after `k` on the same line. */
  function ItalicClose(s: string, k: nat): (r: Option<nat>)
    ensures r.Some? ==> k <= r.value < |s| && s[r.value] == '*'
    decreases |s| - k
  {
    if k < |s| && s[k] == '*' then Some(k)
    else if k < |s| && s[k] != '\n' then ItalicClose(s, k + 1)
    else None
  }

  /** `re.sub(r'\*(.*?)\*', r'<i>\1</i>', s[i..])`. */
  function ItalicFrom(s: string, i: nat): string
    requires i <= |s|
    decreases |s| - i
  {
    if i == |s| then []
    else if s[i] == '*' && ItalicClose(s, i + 1).Some? then
      var k := ItalicClose(s, i + 1).value;
      "<i>" + s[i + 1..k] + "</i>" + ItalicFrom(s, k + 1)
    else [s[i]] + ItalicFrom(s, i + 1)
  }

  /** Length of the run of `c` starting at `i`. */
  function RunOf(s: string, i: nat, c: char): (n: nat)
    requires i <= |s|
    ensures i + n <= |s| && forall j :: i <= j < i + n ==> s[j] == c
    ensures i + n < |s| ==> s[i + n] != c
    decreases |s| - i
  {
    if i == |s| || s[i] != c then 0 else 1 + RunOf(s, i + 1, c)
  }

  /** Length of the whitespace run starting at `i` (`\s*`, newlines included). */
  function SpaceRun(s: string, i: nat): (n: nat)
    requires i <= |s|
    ensures i + n <= |s| && forall j :: i <= j < i + n ==> IsSpace(s[j])
    ensures i + n < |s| ==> !IsSpace(s[i + n])
    decreases |s| - i
  {
    if i == |s| || !IsSpace(s[i]) then 0 else 1 + SpaceRun(s, i + 1)
  }

  /** The index of the first newline at or after `i`, or `|s|`: where `(.*)$` ends. */
  function LineEnd(s: string, i: nat): (e: nat)
    requires i <= |s|
    ensures i <= e <= |s| && (e < |s| ==> s[e] == '\n') && forall j :: i <= j < e ==> s[j] != '\n'
    decreases |s| - i
  {
    if i == |s| || s[i] == '\n' then i else LineEnd(s, i + 1)
  }

  /**
   * `re.sub(r'^#+\s*(.*)$', r'<b>\1</b>', s[i..], flags=re.MULTILINE)`: at a line start, the
   * `#` run and the whitespace after it (which may reach over newlines) are dropped and the
   * rest of that line is set in bold.
   */
  function HeaderFrom(s: string, i: nat): string
    requires i <= |s|
    decreases |s| - i
  {
    if i == |s| then []
    else if (i == 0 || s[i - 1] == '\n') && s[i] == '#' then
      var b := i + RunOf(s, i, '#');
      var t := b + SpaceRun(s, b);
      var e := LineEnd(s, t);
      "<b>" + s[t..e] + "</b>" + HeaderFrom(s, e)
    else [s[i]] + HeaderFrom(s, i + 1)
  }

  predicate NoDoubleStar(s: string) { forall k :: 0 <= k < |s| - 1 ==> !(s[k] == '*' && s[k + 1] == '*') }

  /** `re.sub(r'\*\*', '', s)`: every `**`, left to right, is dropped. No two stars are left side by side. */
  function DropStars(s: string): (r: string)
    ensures NoDoubleStar(r)
    ensures s != [] && s[0] != '*' ==> r != [] && r[0] == s[0]
    ensures NoChar(s, '\n') ==> NoChar(r, '\n')
    decreases |s|
  {
    if |s| >= 2 && s[0] == '*' && s[1] == '*' then DropStars(s[2..])
    else if s == [] then []
    else
      var rest := DropStars(s[1..]);
      assert s[0] == '*' ==> |s| == 1 || s[1] != '*';
      [s[0]] + rest
  }

  /**
   * `_convert_markdown_to_reportlab`: escape, bold, italic, headers, leftover `**`, and each
   * newline to `<br/>`.
   */
  function ConvertMarkdown(text: string): (r: string)
    ensures NoChar(r, '\n')
    ensures NoDoubleStar(r)
  {
    var escaped := EscapeHtml(text);
    var bold := BoldFrom(escaped, 0);
    var italic := ItalicFrom(bold, 0);
    var headers := HeaderFrom(italic, 0);
    var clean := DropStars(headers);
    ReplaceCharRemoves(clean, '\n', "<br/>");
    BreakKeepsSingleStars(clean);
    ReplaceChar(clean, '\n', "<br/>")
  }

  /** The first character of a replacement result. */
  lemma ReplaceCharHead(s: string, c: char, rep: string)
    requires s != [] && rep != []
    ensures ReplaceChar(s, c, rep) != [] && ReplaceChar(s, c, rep)[0] == (if s[0] == c then rep[0] else s[0])
  {
  }

  /** Turning newlines into `<br/>` brings no two stars together. */
  lemma {:induction false} BreakKeepsSingleStars(s: string)
    requires NoDoubleStar(s)
    ensures NoDoubleStar(ReplaceChar(s, '\n', "<br/>"))
  {
    if s != [] {
      var t := s[1..];
      assert NoDoubleStar(t) by {
        forall k | 0 <= k < |t| - 1 ensures !(t[k] == '*' && t[k + 1] == '*') {
          assert t[k] == s[k + 1] && t[k + 1] == s[k + 2];
        }
      }
      BreakKeepsSingleStars(t);
      var h := if s[0] == '\n' then "<br/>" else [s[0]];
      var rt := ReplaceChar(t, '\n', "<br/>");
      assert ReplaceChar(s, '\n', "<br/>") == h + rt;
      if t != [] {
        ReplaceCharHead(t, '\n', "<br/>");
        assert s[0] == '*' ==> t[0] != '*';
      }
      forall k | 0 <= k < |h + rt| - 1 ensures !((h + rt)[k] == '*' && (h + rt)[k + 1] == '*') {
        if k + 1 < |h| {
          assert (h + rt)[k] == h[k] && (h + rt)[k + 1] == h[k + 1];
        } else if k + 1 == |h| {
          assert (h + rt)[k] == h[k] && (h + rt)[k + 1] == rt[0];
        } else {
          assert (h + rt)[k] == rt[k - |h|] && (h + rt)[k + 1] == rt[k - |h| + 1];
        }
      }
    }
  }

  // ---------------------------------------------------------------- text without markup passes through

  lemma {:induction false} BoldPlain(s: string, i: nat)
    requires i <= |s| && NoChar(s, '*')
    ensures BoldFrom(s, i) == s[i..]
    decreases |s| - i
  {
    if i < |s| {
      BoldPlain(s, i + 1);
      assert s[i..] == [s[i]] + s[i + 1..];
    }
  }

  lemma {:induction false} ItalicPlain(s: string, i: nat)
    requires i <= |s| && NoChar(s, '*')
    ensures ItalicFrom(s, i) == s[i..]
    decreases |s| - i
  {
    if i < |s| {
      ItalicPlain(s, i + 1);
      assert s[i..] == [s[i]] + s[i + 1..];
    }
  }

  lemma {:induction false} HeaderPlain(s: string, i: nat)
    requires i <= |s| && NoChar(s, '#')
    ensures HeaderFrom(s, i) == s[i..]
    decreases |s| - i
  {
    if i < |s| {
      HeaderPlain(s, i + 1);
      assert s[i..] == [s[i]] + s[i + 1..];
    }
  }

  lemma {:induction false} DropStarsPlain(s: string)
    requires NoChar(s, '*')
    ensures DropStars(s) == s
  {
    if s != [] {
      DropStarsPlain(s[1..]);
    }
  }

  predicate Plain(t: string)
  {
    NoChar(t, '&') && NoChar(t, '<') && NoChar(t, '>') && NoChar(t, '*') && NoChar(t, '#') && NoChar(t, '\n')
  }

  /** A one-line text without markup characters comes out unchanged. */
  lemma ConvertPlain(t: string)
    requires Plain(t)
    ensures ConvertMarkdown(t) == t
  {
    ReplaceCharAbsent(t, '&', "&amp;");
    ReplaceCharAbsent(t, '<', "&lt;");
    ReplaceCharAbsent(t, '>', "&gt;");
    assert EscapeHtml(t) == t;
    BoldPlain(t, 0);
    ItalicPlain(t, 0);
    HeaderPlain(t, 0);
    DropStarsPlain(t);
    ReplaceCharAbsent(t, '\n', "<br/>");
  }

  // ---------------------------------------------------------------- a bold span

  lemma {:induction false} BoldCloseScan(s: string, k: nat, e: nat)
    requires k <= e && e + 2 <= |s| && s[e] == '*' && s[e + 1] == '*'
    requires forall j :: k <= j < e ==> s[j] != '*' && s[j] != '\n'
    ensures BoldClose(s, k) == Some(e)
    decreases e - k
  {
    if k < e {
      BoldCloseScan(s, k + 1, e);
    }
  }

  /** `**w**` on one line, with no star inside, becomes `<b>w</b>`. */
  lemma BoldSpan(w: string)
    requires NoChar(w, '*') && NoChar(w, '\n')
    ensures BoldFrom("**" + w + "**", 0) == "<b>" + w + "</b>"
  {
    var s := "**" + w + "**";
    var e := |w| + 2;
    assert forall j :: 2 <= j < e ==> s[j] == w[j - 2];
    BoldCloseScan(s, 2, e);
    assert s[2..e] == w;
    assert BoldFrom(s, e + 2) == [];
  }
}
