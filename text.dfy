/**
 * String helpers with the semantics of the Python built-ins the source calls:
 * `str.isspace`, `str.lower` (ASCII part), `str.find`, `str.split`, `str.join`,
 * `str.replace`, `str.strip`, slicing, and `sorted` on strings.
 */
module Text {
  import opened Wrappers

  /** Characters for which Python's `str.isspace()` holds (also what `\s` matches in a str pattern). */
  predicate IsSpace(c: char)
  {
    c == ' ' || ('\t' <= c <= '\r') || ('\U{1c}' <= c <= '\U{1f}') || c == '\U{85}' || c == '\U{a0}'
    || c == '\U{1680}' || ('\U{2000}' <= c <= '\U{200a}') || c == '\U{2028}' || c == '\U{2029}'
    || c == '\U{202f}' || c == '\U{205f}' || c == '\U{3000}'
  }

  predicate IsDigit(c: char) { '0' <= c <= '9' }

  predicate IsAsciiLetter(c: char) { ('a' <= c <= 'z') || ('A' <= c <= 'Z') }

  /** Python `str.isdigit()` restricted to ASCII digits: non-empty and all digits. */
  predicate IsDigits(s: string) { |s| > 0 && forall i :: 0 <= i < |s| ==> IsDigit(s[i]) }

  function LowerChar(c: char): char
  {
    if 'A' <= c <= 'Z' then (c as int + 32) as char else c
  }

  /** `s.lower()` on the ASCII range. */
  function Lower(s: string): (r: string)
    ensures |r| == |s|
    ensures forall i :: 0 <= i < |s| ==> r[i] == LowerChar(s[i])
  {
    if s == [] then [] else [LowerChar(s[0])] + Lower(s[1..])
  }

  /** `s[:n]` for a non-negative bound. */
  function Take<T>(s: seq<T>, n: nat): (r: seq<T>)
    ensures |r| == if n < |s| then n else |s|
    ensures r <= s
  {
    if n < |s| then s[..n] else s
  }

  /** Concatenation regrouped; stated so that long chains of appends need not rediscover it. */
  lemma Associative<T>(a: seq<T>, b: seq<T>, c: seq<T>)
    ensures (a + b) + c == a + (b + c)
  {
  }

  /** A sequence is its prefix followed by the rest. */
  lemma TakeDrop<T>(s: seq<T>, n: nat)
    requires n <= |s|
    ensures s[..n] + s[n..] == s
  {
  }

  predicate StartsWith(s: string, p: string) { |p| <= |s| && s[..|p|] == p }

  predicate EndsWith(s: string, p: string) { |p| <= |s| && s[|s| - |p|..] == p }

  /** `p` occurs in `s` starting at index `i`. */
  predicate OccursAt(s: string, p: string, i: int)
  {
    0 <= i && i + |p| <= |s| && s[i..i + |p|] == p
  }

  /** `s.find(p, from)`: the first index at or after `from` where `p` occurs, or -1. */
  function Find(s: string, p: string, from: nat): (r: int)
    ensures r == -1 || (from <= r && OccursAt(s, p, r))
    ensures r >= 0 ==> forall j :: from <= j < r ==> !OccursAt(s, p, j)
    ensures r == -1 ==> forall j :: from <= j ==> !OccursAt(s, p, j)
    decreases |s| - from
  {
    if from + |p| > |s| then -1
    else if s[from..from + |p|] == p then from
    else Find(s, p, from + 1)
  }

  /** `p in s`. */
  predicate Contains(s: string, p: string) { Find(s, p, 0) >= 0 }

  lemma ContainsIff(s: string, p: string)
    ensures Contains(s, p) <==> exists i :: OccursAt(s, p, i)
  {
    if Contains(s, p) {
      assert OccursAt(s, p, Find(s, p, 0));
    }
  }

  /** `sep.join(parts)`. */
  function Join(parts: seq<string>, sep: string): string
  {
    if |parts| == 0 then "" else if |parts| == 1 then parts[0] else parts[0] + sep + Join(parts[1..], sep)
  }

  /** Pieces of `s[from..]` cut at the non-overlapping occurrences of `sep`, scanning left to right. */
  function SplitFrom(s: string, sep: string, from: nat): (r: seq<string>)
    requires |sep| > 0 && from <= |s|
    ensures |r| > 0
    ensures Join(r, sep) == s[from..]
    decreases |s| - from
  {
    var k := Find(s, sep, from);
    if k < 0 then [s[from..]]
    else
      var rest := SplitFrom(s, sep, k + |sep|);
      assert s[from..] == s[from..k] + sep + s[k + |sep|..];
      [s[from..k]] + rest
  }

  /** `s.split(sep)` for a non-empty separator: joining the pieces with `sep` gives `s` back. */
  function Split(s: string, sep: string): (r: seq<string>)
    requires |sep| > 0
    ensures |r| > 0 && Join(r, sep) == s
  {
    SplitFrom(s, sep, 0)
  }

  lemma {:induction false} SplitFromPiecesFree(s: string, sep: string, from: nat)
    requires |sep| > 0 && from <= |s|
    ensures forall i :: 0 <= i < |SplitFrom(s, sep, from)| ==> !Contains(SplitFrom(s, sep, from)[i], sep)
    decreases |s| - from
  {
    var k := Find(s, sep, from);
    var r := SplitFrom(s, sep, from);
    if k < 0 {
      PieceFree(s, sep, from, |s|);
      assert s[from..|s|] == s[from..];
    } else {
      SplitFromPiecesFree(s, sep, k + |sep|);
      PieceFree(s, sep, from, k);
      forall i | 0 <= i < |r| ensures !Contains(r[i], sep) {
        if i > 0 { assert r[i] == SplitFrom(s, sep, k + |sep|)[i - 1]; }
      }
    }
  }

  /** A slice between two points with no occurrence of `p` starting inside it does not contain `p`. */
  lemma PieceFree(s: string, p: string, a: nat, b: nat)
    requires |p| > 0 && a <= b <= |s|
    requires forall j :: a <= j < b ==> !OccursAt(s, p, j)
    ensures !Contains(s[a..b], p)
  {
    var t := s[a..b];
    forall j | 0 <= j ensures !OccursAt(t, p, j) {
      if j < b - a && OccursAt(t, p, j) {
        SliceOccurs(s, p, a, b, j);
      }
    }
  }

  /** An occurrence inside a slice is an occurrence in the whole string, shifted by the slice's start. */
  lemma SliceOccurs(s: string, p: string, a: nat, b: nat, j: nat)
    requires a <= b <= |s| && OccursAt(s[a..b], p, j)
    ensures OccursAt(s, p, a + j)
  {
    forall k | 0 <= k < |p| ensures s[a + j + k] == p[k] {
      assert s[a..b][j..j + |p|][k] == p[k];
    }
    assert s[a + j..a + j + |p|] == p;
  }

  /** No piece of `s.split(sep)` contains `sep`. */
  lemma SplitPiecesFree(s: string, sep: string)
    requires |sep| > 0
    ensures forall i :: 0 <= i < |Split(s, sep)| ==> !Contains(Split(s, sep)[i], sep)
  {
    SplitFromPiecesFree(s, sep, 0);
  }

  lemma {:induction false} JoinSnoc(parts: seq<string>, x: string, sep: string)
    requires |parts| > 0
    ensures Join(parts + [x], sep) == Join(parts, sep) + sep + x
  {
    if |parts| > 1 {
      assert (parts + [x])[1..] == parts[1..] + [x];
      JoinSnoc(parts[1..], x, sep);
    }
  }

  /** The first `c` in pieces joined by `c`: none for one piece, else right after the first piece. */
  lemma FindInJoin(ps: seq<string>, c: char)
    requires |ps| > 0 && forall i :: 0 <= i < |ps| ==> c !in ps[i]
    ensures Find(Join(ps, [c]), [c], 0) == if |ps| == 1 then -1 else |ps[0]|
  {
    var s := Join(ps, [c]);
    assert s[0..] == s;
    if |ps| == 1 {
      FindNone(s, c, 0);
    } else {
      FindAfterPiece(s, c, 0, ps[0], Join(ps[1..], [c]));
    }
  }

  /** No `c` after `from`: the scan finds nothing. */
  lemma FindNone(s: string, c: char, from: nat)
    requires from <= |s| && c !in s[from..]
    ensures Find(s, [c], from) == -1
  {
    forall j | from <= j < |s| ensures !OccursAt(s, [c], j) {
      assert s[j] == s[from..][j - from];
    }
  }

  /** A piece free of `c` and then `c`: the scan stops right after the piece. */
  lemma FindAfterPiece(s: string, c: char, from: nat, p: string, rest: string)
    requires from <= |s| && s[from..] == p + [c] + rest && c !in p
    ensures Find(s, [c], from) == from + |p|
  {
    var a := |p|;
    assert s[from + a] == c;
    assert OccursAt(s, [c], from + a);
    forall j | from <= j < from + a ensures !OccursAt(s, [c], j) {
      assert s[j] == p[j - from];
    }
  }

  /** Joining pieces free of `c` with `c` loses nothing: equal joins come from equal pieces. */
  lemma {:induction false} JoinUnique(ps: seq<string>, qs: seq<string>, c: char)
    requires |ps| > 0 && forall i :: 0 <= i < |ps| ==> c !in ps[i]
    requires |qs| > 0 && forall i :: 0 <= i < |qs| ==> c !in qs[i]
    requires Join(ps, [c]) == Join(qs, [c])
    ensures ps == qs
    decreases |ps|
  {
    FindInJoin(ps, c);
    FindInJoin(qs, c);
    if |ps| == 1 {
      assert |qs| == 1 && ps[0] == qs[0];
    } else {
      var s, a := Join(ps, [c]), |ps[0]|;
      assert |qs| > 1 && |qs[0]| == a;
      assert s == ps[0] + [c] + Join(ps[1..], [c]) == qs[0] + [c] + Join(qs[1..], [c]);
      assert ps[0] == s[..a] == qs[0];
      assert Join(ps[1..], [c]) == s[a + 1..] == Join(qs[1..], [c]);
      JoinUnique(ps[1..], qs[1..], c);
      assert ps == [ps[0]] + ps[1..] && qs == [qs[0]] + qs[1..];
    }
  }

  /** A string in which `[c]` does not occur has no `c`. */
  lemma NoCharOf(t: string, c: char)
    requires !Contains(t, [c])
    ensures c !in t
  {
    ContainsIff(t, [c]);
    forall j | 0 <= j < |t| ensures t[j] != c {
      assert !OccursAt(t, [c], j) && t[j..j + 1] == [t[j]];
    }
  }

  /** `sep.join(ps).split(sep)` is `ps` for a one-character separator no piece contains. */
  lemma SplitJoin(ps: seq<string>, c: char)
    requires |ps| > 0 && forall i :: 0 <= i < |ps| ==> c !in ps[i]
    ensures Split(Join(ps, [c]), [c]) == ps
  {
    var s := Join(ps, [c]);
    var qs := Split(s, [c]);
    SplitPiecesFree(s, [c]);
    forall i | 0 <= i < |qs| ensures c !in qs[i] {
      NoCharOf(qs[i], c);
    }
    JoinUnique(qs, ps, c);
  }

  /** `b` put in front of each string. */
  function PrefixEach(b: string, xs: seq<string>): (r: seq<string>)
    ensures |r| == |xs| && forall i :: 0 <= i < |xs| ==> r[i] == b + xs[i]
  {
    seq(|xs|, i requires 0 <= i < |xs| => b + xs[i])
  }

  /** A prefix of the first piece comes out in front of the join. */
  lemma JoinHeadPrefix(b: string, x: string, q: seq<string>, a: string)
    ensures Join([b + x] + q, a) == b + Join([x] + q, a)
  {
    if q != [] {
      assert ([b + x] + q)[1..] == q && ([x] + q)[1..] == q;
      Associative(b, x, a);
      Associative(b, x + a, Join(q, a));
    }
  }

  /** Joining by `a + b` is joining by `a` after putting `b` in front of every piece but the first. */
  lemma {:induction false} JoinSplitSep(ns: seq<string>, a: string, b: string)
    requires |ns| > 0
    ensures Join(ns, a + b) == Join([ns[0]] + PrefixEach(b, ns[1..]), a)
  {
    if |ns| == 1 {
      assert [ns[0]] + PrefixEach(b, ns[1..]) == [ns[0]];
    } else {
      var q := PrefixEach(b, ns[2..]);
      JoinSplitSep(ns[1..], a, b);
      assert ns[1..][0] == ns[1] && ns[1..][1..] == ns[2..];
      assert PrefixEach(b, ns[1..]) == [b + ns[1]] + q;
      JoinHeadPrefix(b, ns[1], q, a);
      var l := [ns[0]] + PrefixEach(b, ns[1..]);
      assert l[0] == ns[0] && l[1..] == PrefixEach(b, ns[1..]);
      Associative(ns[0] + a, b, Join([ns[1]] + q, a));
      Associative(ns[0], a, b);
    }
  }

  /** A join starts with its first piece. */
  lemma JoinFirst(ps: seq<string>, sep: string)
    requires |ps| > 0
    ensures |Join(ps, sep)| >= |ps[0]| && Join(ps, sep)[..|ps[0]|] == ps[0]
  {
  }

  /** A stripped non-empty string after one space strips back to itself. */
  lemma StripAfterSpace(n: string)
    requires n != [] && Strip(n) == n
    ensures Strip(" " + n) == n
  {
    var s := " " + n;
    assert s[1..] == n;
    assert LeadingSpace(n) == 0;
    assert LeadingSpace(s) == 1;
    assert s[|s| - 1] == n[|n| - 1];
    assert TrailingSpace(s) == 0;
  }

  /** `s.split(sep)` has at least two pieces exactly when `sep` occurs in `s`. */
  lemma SplitMany(s: string, sep: string)
    requires |sep| > 0
    ensures |Split(s, sep)| >= 2 <==> Contains(s, sep)
  {
    var r := Split(s, sep);
    ContainsIff(s, sep);
    if |r| >= 2 {
      assert s == r[0] + sep + Join(r[1..], sep);
      assert OccursAt(s, sep, |r[0]|);
    } else {
      SplitPiecesFree(s, sep);
    }
  }

  /** With two pieces or more, `s` is the earlier pieces, `sep`, and the last piece. */
  lemma SplitLast(s: string, sep: string)
    requires |sep| > 0 && |Split(s, sep)| >= 2
    ensures s == Join(Split(s, sep)[..|Split(s, sep)| - 1], sep) + sep + Split(s, sep)[|Split(s, sep)| - 1]
  {
    var r := Split(s, sep);
    assert r == r[..|r| - 1] + [r[|r| - 1]];
    JoinSnoc(r[..|r| - 1], r[|r| - 1], sep);
  }

  /** `s.replace(old, new)` for a non-empty `old`: Python replaces non-overlapping occurrences left to right. */
  function Replace(s: string, pat: string, rep: string): string
    requires |pat| > 0
  {
    Join(Split(s, pat), rep)
  }

  /** Number of leading characters of `s` that are whitespace. */
  function LeadingSpace(s: string): (n: nat)
    ensures n <= |s|
    ensures forall i :: 0 <= i < n ==> IsSpace(s[i])
    ensures n < |s| ==> !IsSpace(s[n])
  {
    if s == [] || !IsSpace(s[0]) then 0 else 1 + LeadingSpace(s[1..])
  }

  /** Number of trailing characters of `s` that are whitespace. */
  function TrailingSpace(s: string): (n: nat)
    ensures n <= |s|
    ensures forall i :: |s| - n <= i < |s| ==> IsSpace(s[i])
    ensures n < |s| ==> !IsSpace(s[|s| - 1 - n])
  {
    if s == [] || !IsSpace(s[|s| - 1]) then 0 else 1 + TrailingSpace(s[..|s| - 1])
  }

  /** In a string with a non-whitespace character, the leading and trailing whitespace runs do not meet. */
  lemma SpaceRunsDisjoint(s: string)
    requires LeadingSpace(s) < |s|
    ensures LeadingSpace(s) < |s| - TrailingSpace(s)
  {
    var i := LeadingSpace(s);
    if i >= |s| - TrailingSpace(s) {
      assert false;
    }
  }

  /** `s.strip()`: the slice of `s` without its leading and trailing whitespace. */
  function Strip(s: string): (r: string)
    ensures |r| <= |s|
    ensures r == [] || (!IsSpace(r[0]) && !IsSpace(r[|r| - 1]))
    ensures r == [] || (LeadingSpace(s) + |r| <= |s| && s[LeadingSpace(s)..LeadingSpace(s) + |r|] == r)
    ensures (forall i :: 0 <= i < |s| ==> IsSpace(s[i])) <==> r == []
  {
    if LeadingSpace(s) == |s| then ""
    else
      SpaceRunsDisjoint(s);
      s[LeadingSpace(s)..|s| - TrailingSpace(s)]
  }

  /** The maximal runs of non-whitespace characters of `s`, in order: Python's `s.split()`. */
  function Words(s: string): (r: seq<string>)
    ensures forall i :: 0 <= i < |r| ==> |r[i]| > 0 && forall k :: 0 <= k < |r[i]| ==> !IsSpace(r[i][k])
    decreases |s|
  {
    var start := LeadingSpace(s);
    if start == |s| then []
    else
      var t := s[start..];
      var n := WordLength(t);
      [t[..n]] + Words(t[n..])
  }

  /** Length of the non-whitespace prefix of `s`. */
  function WordLength(s: string): (n: nat)
    ensures n <= |s|
    ensures forall i :: 0 <= i < n ==> !IsSpace(s[i])
    ensures n < |s| ==> IsSpace(s[n])
  {
    if s == [] || IsSpace(s[0]) then 0 else 1 + WordLength(s[1..])
  }

  /** `' '.join(s.split())`: every whitespace run becomes one space, none at either end. */
  function Collapse(s: string): string
  {
    Join(Words(s), " ")
  }

  /** Every whitespace character of `s` is a plain space. */
  predicate PlainSpaces(s: string) { forall k :: 0 <= k < |s| && IsSpace(s[k]) ==> s[k] == ' ' }

  lemma PlainSpacesConcat(a: string, b: string)
    requires PlainSpaces(a) && PlainSpaces(b)
    ensures PlainSpaces(a + b)
  {
    forall k | 0 <= k < |a + b| && IsSpace((a + b)[k]) ensures (a + b)[k] == ' ' {
      if k >= |a| { assert (a + b)[k] == b[k - |a|]; }
    }
  }

  /** Joining words that contain no whitespace with " " leaves no whitespace but plain spaces. */
  lemma {:induction false} JoinWordsSpaces(ws: seq<string>)
    requires forall i :: 0 <= i < |ws| ==> forall k :: 0 <= k < |ws[i]| ==> !IsSpace(ws[i][k])
    ensures PlainSpaces(Join(ws, " "))
  {
    if |ws| == 1 {
      assert PlainSpaces(ws[0]);
    } else if |ws| > 1 {
      JoinWordsSpaces(ws[1..]);
      assert PlainSpaces(ws[0]);
      PlainSpacesConcat(ws[0], " ");
      PlainSpacesConcat(ws[0] + " ", Join(ws[1..], " "));
    }
  }

  /** No two whitespace characters stand next to each other. */
  predicate SingleSpaced(s: string) { forall k :: 0 <= k < |s| - 1 ==> !(IsSpace(s[k]) && IsSpace(s[k + 1])) }

  /** Non-empty words without whitespace, joined with " ": single-spaced and starting with the first word. */
  lemma {:induction false} JoinWordsSingleSpaced(ws: seq<string>)
    requires forall i :: 0 <= i < |ws| ==> |ws[i]| > 0 && forall k :: 0 <= k < |ws[i]| ==> !IsSpace(ws[i][k])
    ensures SingleSpaced(Join(ws, " "))
    ensures |ws| > 0 ==> |Join(ws, " ")| > 0 && Join(ws, " ")[0] == ws[0][0]
  {
    if |ws| > 1 {
      JoinWordsSingleSpaced(ws[1..]);
      var a, j := ws[0], Join(ws[1..], " ");
      var t := a + " " + j;
      assert Join(ws, " ") == t;
      assert j[0] == ws[1][0];
      forall k | 0 <= k < |t| - 1 ensures !(IsSpace(t[k]) && IsSpace(t[k + 1])) {
        if k < |a| {
          assert t[k] == a[k];
        } else if k == |a| {
          assert t[k + 1] == j[0];
        } else {
          assert t[k] == j[k - |a| - 1] && t[k + 1] == j[k - |a|];
        }
      }
    }
  }

  /** `Collapse` leaves single plain spaces between words and no whitespace in front. */
  lemma CollapseShape(s: string)
    ensures PlainSpaces(Collapse(s)) && SingleSpaced(Collapse(s))
    ensures Collapse(s) == [] || !IsSpace(Collapse(s)[0])
  {
    JoinWordsSpaces(Words(s));
    JoinWordsSingleSpaced(Words(s));
  }

  /** The decimal digits of `n`, as Python's `str(n)` writes them. */
  function NatToString(n: nat): (r: string)
    ensures |r| > 0 && IsDigits(r)
  {
    if n < 10 then [DigitChar(n)] else NatToString(n / 10) + [DigitChar(n % 10)]
  }

  function DigitChar(d: nat): (c: char)
    requires d < 10
    ensures IsDigit(c)
  {
    ('0' as int + d) as char
  }

  /** The value of a decimal digit character; other characters count as 0. */
  function DigitValue(c: char): (d: nat)
    ensures d < 10
  {
    if IsDigit(c) then c as int - '0' as int else 0
  }

  /** `int(d)` for a string of decimal digits, the empty string giving 0. */
  function DigitsValue(d: string): nat
  {
    if d == [] then 0 else DigitsValue(d[..|d| - 1]) * 10 + DigitValue(d[|d| - 1])
  }

  /** Reading back what `NatToString` writes gives the number. */
  lemma {:induction false} DigitsValueOfNat(n: nat)
    ensures DigitsValue(NatToString(n)) == n
  {
    var s := NatToString(n);
    if n < 10 {
      assert s[..|s| - 1] == [];
    } else {
      assert s[..|s| - 1] == NatToString(n / 10);
      DigitsValueOfNat(n / 10);
    }
  }

  /** `str(i)` for any integer. */
  function IntToString(i: int): string
  {
    if i < 0 then "-" + NatToString(-i) else NatToString(i)
  }

  /** Python's `<=` on str: code-point lexicographic order, a prefix before its extensions. */
  predicate StrLeq(a: string, b: string)
  {
    a == [] || (b != [] && (a[0] < b[0] || (a[0] == b[0] && StrLeq(a[1..], b[1..]))))
  }

  lemma {:induction false} StrLeqReflexive(a: string)
    ensures StrLeq(a, a)
  {
    if a != [] { StrLeqReflexive(a[1..]); }
  }

  lemma {:induction false} StrLeqTotal(a: string, b: string)
    ensures StrLeq(a, b) || StrLeq(b, a)
  {
    if a != [] && b != [] && a[0] == b[0] { StrLeqTotal(a[1..], b[1..]); }
  }

  lemma {:induction false} StrLeqAntisymmetric(a: string, b: string)
    requires StrLeq(a, b) && StrLeq(b, a)
    ensures a == b
  {
    if a != [] && b != [] {
      StrLeqAntisymmetric(a[1..], b[1..]);
      assert a == [a[0]] + a[1..];
      assert b == [b[0]] + b[1..];
    }
  }

  lemma {:induction false} StrLeqTransitive(a: string, b: string, c: string)
    requires StrLeq(a, b) && StrLeq(b, c)
    ensures StrLeq(a, c)
  {
    if a != [] && b != [] && c != [] && a[0] == b[0] && b[0] == c[0] {
      StrLeqTransitive(a[1..], b[1..], c[1..]);
    }
  }

  predicate IsMinimum(m: string, s: set<string>) { m in s && forall x :: x in s ==> StrLeq(m, x) }

  lemma MinimumExists(s: set<string>)
    requires s != {}
    ensures exists m :: IsMinimum(m, s)
    decreases |s|
  {
    var x :| x in s;
    if s == {x} {
      StrLeqReflexive(x);
      assert IsMinimum(x, s);
    } else {
      MinimumExists(s - {x});
      var m :| IsMinimum(m, s - {x});
      StrLeqTotal(m, x);
      if StrLeq(m, x) {
        forall y | y in s ensures StrLeq(m, y) {
          if y != x { assert y in s - {x}; }
        }
        assert IsMinimum(m, s);
      } else {
        forall y | y in s ensures StrLeq(x, y) {
          if y == x { StrLeqReflexive(x); }
          else { assert y in s - {x}; StrLeqTransitive(x, m, y); }
        }
        assert IsMinimum(x, s);
      }
    }
  }

  lemma MinimumUnique()
    ensures forall s: set<string>, a, b :: IsMinimum(a, s) && IsMinimum(b, s) ==> a == b
  {
    forall s: set<string>, a, b | IsMinimum(a, s) && IsMinimum(b, s) ensures a == b {
      StrLeqAntisymmetric(a, b);
    }
  }

  predicate NoDup<T(==)>(r: seq<T>) { forall i, j :: 0 <= i < j < |r| ==> r[i] != r[j] }

  predicate SortedStrs(r: seq<string>) { forall i, j :: 0 <= i < j < |r| ==> StrLeq(r[i], r[j]) }

  /** `sorted(s)` for a set of strings: the elements in ascending order, each once. */
  function SortedSet(s: set<string>): (r: seq<string>)
    ensures |r| == |s|
    ensures forall x :: x in r <==> x in s
    ensures SortedStrs(r) && NoDup(r)
    decreases |s|
  {
    if s == {} then []
    else
      MinimumExists(s);
      MinimumUnique();
      var m :| IsMinimum(m, s);
      var rest := SortedSet(s - {m});
      SortedConsMinimum(m, s, rest);
      [m] + rest
  }

  /** Putting the minimum in front of the sorted rest gives the sorted whole. */
  lemma SortedConsMinimum(m: string, s: set<string>, rest: seq<string>)
    requires IsMinimum(m, s)
    requires |rest| == |s - {m}| && (forall x :: x in rest <==> x in s - {m}) && SortedStrs(rest) && NoDup(rest)
    ensures |[m] + rest| == |s| && (forall x :: x in [m] + rest <==> x in s)
    ensures SortedStrs([m] + rest) && NoDup([m] + rest)
  {
    var r := [m] + rest;
    forall i, j | 0 <= i < j < |r| ensures StrLeq(r[i], r[j]) && r[i] != r[j] {
      if i == 0 {
        assert r[j] == rest[j - 1] && r[j] in s - {m};
      } else {
        assert r[i] == rest[i - 1] && r[j] == rest[j - 1];
      }
    }
  }

}
