/**
 * The quotation finder both the analyzer and the Wikipedia scraper use:
 * `re.findall(r'"([^"]{lo,hi})"', s)`, the runs of `lo` to `hi` characters
 * other than `"` that stand between two `"`, scanning left to right and
 * resuming after each closing quote.
 */
module Quotes {

  predicate QuoteFree(q: string) { forall k :: 0 <= k < |q| ==> q[k] != '"' }

  /** `q` stands in `s` between the quote at index `p` and a closing quote. */
  predicate QuotedAt(s: string, q: string, p: int)
  {
    0 <= p && p + |q| + 2 <= |s| && s[p] == '"' && s[p + 1..p + 1 + |q|] == q && s[p + 1 + |q|] == '"'
  }

  /** `q` stands between two quotes of `s` at or after index `i`. */
  ghost predicate QuotedAfter(s: string, q: string, i: int) { exists p :: i <= p && QuotedAt(s, q, p) }

  /** Length of the run of non-quote characters of `s` that starts at index `i`. */
  function QuoteFreeRun(s: string, i: nat): (n: nat)
    requires i <= |s|
    ensures i + n <= |s|
    ensures forall k :: i <= k < i + n ==> s[k] != '"'
    ensures i + n < |s| ==> s[i + n] == '"'
    decreases |s| - i
  {
    if i == |s| || s[i] == '"' then 0 else 1 + QuoteFreeRun(s, i + 1)
  }

  /**
   * The matches found scanning from index `i`. A quote opens a match when the quote-free run
   * after it has between `lo` and `hi` characters and is closed by another quote; a longer,
   * shorter or unclosed run fails there and the scan moves one character on.
   */
  function QuotedFrom(s: string, lo: nat, hi: nat, i: nat): (r: seq<string>)
    requires i <= |s|
    ensures forall j :: 0 <= j < |r| ==> lo <= |r[j]| <= hi && QuoteFree(r[j])
    decreases |s| - i
  {
    if i == |s| then []
    else if s[i] == '"' then
      var n := QuoteFreeRun(s, i + 1);
      if lo <= n <= hi && i + 1 + n < |s| then [s[i + 1..i + 1 + n]] + QuotedFrom(s, lo, hi, i + 2 + n)
      else QuotedFrom(s, lo, hi, i + 1)
    else QuotedFrom(s, lo, hi, i + 1)
  }

  /** Every match found from index `i` stands between two quotes of `s` at or after `i`. */
  lemma {:induction false} QuotedFromOccurs(s: string, lo: nat, hi: nat, i: nat)
    requires i <= |s|
    ensures forall j :: 0 <= j < |QuotedFrom(s, lo, hi, i)| ==> QuotedAfter(s, QuotedFrom(s, lo, hi, i)[j], i)
    decreases |s| - i
  {
    if i < |s| {
      var n := QuoteFreeRun(s, i + 1);
      if s[i] == '"' && lo <= n <= hi && i + 1 + n < |s| {
        var q := s[i + 1..i + 1 + n];
        var rest := QuotedFrom(s, lo, hi, i + 2 + n);
        assert QuotedFrom(s, lo, hi, i) == [q] + rest;
        QuotedFromOccurs(s, lo, hi, i + 2 + n);
        AllAfterShift(s, rest, i, i + 2 + n);
        assert QuotedAt(s, q, i);
        ConsAfter(s, q, rest, i);
      } else {
        assert QuotedFrom(s, lo, hi, i) == QuotedFrom(s, lo, hi, i + 1);
        QuotedFromOccurs(s, lo, hi, i + 1);
        AllAfterShift(s, QuotedFrom(s, lo, hi, i + 1), i, i + 1);
      }
    }
  }

  lemma AllAfterShift(s: string, xs: seq<string>, i: int, i': int)
    requires i <= i'
    requires forall j :: 0 <= j < |xs| ==> QuotedAfter(s, xs[j], i')
    ensures forall j :: 0 <= j < |xs| ==> QuotedAfter(s, xs[j], i)
  {
    forall j | 0 <= j < |xs| ensures QuotedAfter(s, xs[j], i) {
      var p :| i' <= p && QuotedAt(s, xs[j], p);
      assert i <= p;
    }
  }

  lemma ConsAfter(s: string, q: string, xs: seq<string>, i: int)
    requires QuotedAt(s, q, i)
    requires forall j :: 0 <= j < |xs| ==> QuotedAfter(s, xs[j], i)
    ensures forall j :: 0 <= j < |[q] + xs| ==> QuotedAfter(s, ([q] + xs)[j], i)
  {
    forall j | 0 <= j < |[q] + xs| ensures QuotedAfter(s, ([q] + xs)[j], i) {
      if j == 0 {
        assert ([q] + xs)[j] == q;
      } else {
        assert ([q] + xs)[j] == xs[j - 1];
      }
    }
  }

  function Quoted(s: string, lo: nat, hi: nat): (r: seq<string>)
    ensures forall j :: 0 <= j < |r| ==> lo <= |r[j]| <= hi && QuoteFree(r[j])
    ensures forall j :: 0 <= j < |r| ==> QuotedAfter(s, r[j], 0)
  {
    QuotedFromOccurs(s, lo, hi, 0);
    QuotedFrom(s, lo, hi, 0)
  }


  lemma {:induction false} QuoteFreeRunOf(q: string, k: nat)
    requires QuoteFree(q) && k <= |q|
    ensures QuoteFreeRun("\"" + q + "\"", 1 + k) == |q| - k
    decreases |q| - k
  {
    var s := "\"" + q + "\"";
    if k < |q| {
      assert s[1 + k] == q[k];
      QuoteFreeRunOf(q, k + 1);
    } else {
      assert s[1 + k] == '"';
    }
  }

  /** Quoting a quote-free text of admissible length and scanning it gives back that text alone. */
  lemma QuotedRoundTrip(q: string, lo: nat, hi: nat)
    requires QuoteFree(q) && lo <= |q| <= hi
    ensures Quoted("\"" + q + "\"", lo, hi) == [q]
  {
    var s := "\"" + q + "\"";
    QuoteFreeRunOf(q, 0);
    assert s[1..1 + |q|] == q;
    assert QuotedFrom(s, lo, hi, |q| + 2) == [];
  }

  /** A text without a quote character holds no quotation. */
  lemma {:induction false} NoQuoteNoQuoted(s: string, lo: nat, hi: nat, i: nat)
    requires i <= |s| && QuoteFree(s)
    ensures QuotedFrom(s, lo, hi, i) == []
    decreases |s| - i
  {
    if i < |s| {
      NoQuoteNoQuoted(s, lo, hi, i + 1);
    }
  }
}
