/**
 The candidate scan both ladders run after a failed direct parse:
 `re.finditer(r'({(?:[^{}]|{[^{}]*})*})', result)`.

 `InPattern` is the language of that pattern, written as a grammar. The
 pattern can be matched deterministically: a `{` at the outer level opens a
 group that must close at the next brace, so backtracking never finds a
 second match. `CloseFrom` is that explicit scanner, tracking a nesting depth
 of 1 or 2, and `MatchAtIffPattern` proves it matches exactly the pattern's
 language. `ScanFrom` reproduces `finditer`: leftmost matches, left to
 right, each search resuming where the previous match ended.
 */
module BraceScan {
  import opened Text
  import opened JsonValues

  predicate NonBrace(c: char) {
    c != '{' && c != '}'
  }

  /** `[^{}]*` */
  predicate NoBraces(t: string) {
    forall k :: 0 <= k < |t| ==> NonBrace(t[k])
  }

  /** `(?:[^{}]|{[^{}]*})*`: a run of non-brace characters and flat `{...}` groups. */
  predicate IsBody(b: string)
    decreases |b|
  {
    || |b| == 0
    || (NonBrace(b[0]) && IsBody(b[1..]))
    || (b[0] == '{' && exists m :: 1 <= m < |b| && b[m] == '}' && NoBraces(b[1..m]) && IsBody(b[m + 1..]))
  }

  /** The strings the pattern `{(?:[^{}]|{[^{}]*})*}` matches in full. */
  predicate InPattern(t: string) {
    |t| >= 2 && t[0] == '{' && t[|t| - 1] == '}' && IsBody(t[1..|t| - 1])
  }

  /** Index of the first brace at or after `j`, or `|s|` when there is none. */
  function NextBrace(s: string, j: nat): (k: nat)
    requires j <= |s|
    ensures j <= k <= |s| && NoBraces(s[j..k])
    ensures k < |s| ==> !NonBrace(s[k])
    decreases |s| - j
  {
    if j == |s| || !NonBrace(s[j]) then j else NextBrace(s, j + 1)
  }

  /** Scanning from `j` inside an open `{` at nesting `depth` (1 or 2), the end
      (exclusive) of the `}` that closes depth 1; `None` when the text ends
      first or a third level would open. */
  function CloseFrom(s: string, j: nat, depth: nat): (r: Option<nat>)
    requires depth == 1 || depth == 2
    requires j <= |s|
    ensures r.Some? ==> j < r.value <= |s| && s[r.value - 1] == '}'
    decreases |s| - j
  {
    if j == |s| then None
    else if s[j] == '{' then (if depth == 2 then None else CloseFrom(s, j + 1, 2))
    else if s[j] == '}' then (if depth == 1 then Some(j + 1) else CloseFrom(s, j + 1, 1))
    else CloseFrom(s, j + 1, depth)
  }

  /** The end of the pattern's match starting exactly at `i`, if there is one. */
  function MatchAt(s: string, i: nat): Option<nat>
    requires i <= |s|
  {
    if i < |s| && s[i] == '{' then CloseFrom(s, i + 1, 1) else None
  }

  lemma {:induction false} NextBraceUnique(s: string, j: nat, k: nat)
    requires j <= k < |s| && NoBraces(s[j..k]) && !NonBrace(s[k])
    ensures NextBrace(s, j) == k
    decreases k - j
  {
    if j < k {
      assert s[j] == s[j..k][0];
      assert s[j + 1..k] == s[j..k][1..];
      NextBraceUnique(s, j + 1, k);
    }
  }

  /** At depth 2 the scanner looks only for the next brace: a `}` returns to depth 1. */
  lemma {:induction false} CloseAtDepth2(s: string, j: nat)
    requires j <= |s|
    ensures CloseFrom(s, j, 2) ==
              var m := NextBrace(s, j);
              if m < |s| && s[m] == '}' then CloseFrom(s, m + 1, 1) else None
    decreases |s| - j
  {
    if j < |s| && NonBrace(s[j]) {
      CloseAtDepth2(s, j + 1);
    }
  }

  /** At depth 1 the scanner stops at `e` exactly when `s[j..e-1]` is a pattern
      body closed by the `}` at `e - 1`. */
  lemma {:induction false} CloseIffBody(s: string, j: nat, e: nat)
    requires j <= |s|
    ensures CloseFrom(s, j, 1) == Some(e) <==> (j < e <= |s| && s[e - 1] == '}' && IsBody(s[j..e - 1]))
    decreases |s| - j, 1
  {
    if j == |s| {
    } else if NonBrace(s[j]) {
      CloseIffBody(s, j + 1, e);
      if j + 1 < e <= |s| {
        var b := s[j..e - 1];
        assert b[0] == s[j];
        assert b[1..] == s[j + 1..e - 1];
      }
    } else if s[j] == '}' {
      if j + 1 < e <= |s| {
        var b := s[j..e - 1];
        assert b[0] == '}';
      }
    } else {
      if CloseFrom(s, j, 1) == Some(e) {
        CloseOpenToBody(s, j, e);
      }
      if j < e <= |s| && s[e - 1] == '}' && IsBody(s[j..e - 1]) {
        BodyToCloseOpen(s, j, e);
      }
    }
  }

  /** An inner `{` closed by the scanner is the pattern's `{[^{}]*}` group. */
  lemma {:induction false} CloseOpenToBody(s: string, j: nat, e: nat)
    requires j < |s| && s[j] == '{'
    requires CloseFrom(s, j, 1) == Some(e)
    ensures j < e <= |s| && s[e - 1] == '}' && IsBody(s[j..e - 1])
    decreases |s| - j, 0
  {
    OpenAtDepth1(s, j);
    CloseAtDepth2(s, j + 1);
    var m := NextBrace(s, j + 1);
    CloseIffBody(s, m + 1, e);
    GroupIsBody(s, j, m, e);
  }

  /** Conversely, a body opening with a `{` group is closed by the scanner. */
  lemma {:induction false} BodyToCloseOpen(s: string, j: nat, e: nat)
    requires j < |s| && s[j] == '{'
    requires j < e <= |s| && s[e - 1] == '}' && IsBody(s[j..e - 1])
    ensures CloseFrom(s, j, 1) == Some(e)
    decreases |s| - j, 0
  {
    var m := BodyGroup(s, j, e);
    NextBraceUnique(s, j + 1, m);
    OpenAtDepth1(s, j);
    CloseAtDepth2(s, j + 1);
    CloseIffBody(s, m + 1, e);
  }

  lemma OpenAtDepth1(s: string, j: nat)
    requires j < |s| && s[j] == '{'
    ensures CloseFrom(s, j, 1) == CloseFrom(s, j + 1, 2)
  {
  }

  /** A group `s[j..m+1]` followed by a body is a body. */
  lemma GroupIsBody(s: string, j: nat, m: nat, e: nat)
    requires j < m < e - 1 && e <= |s|
    requires s[j] == '{' && s[m] == '}' && NoBraces(s[j + 1..m]) && IsBody(s[m + 1..e - 1])
    ensures IsBody(s[j..e - 1])
  {
    var b := s[j..e - 1];
    var w := m - j;
    SliceOfSlice(s, j, e - 1, 1, w);
    SliceOfSlice(s, j, e - 1, w + 1, |b|);
    assert b[0] == '{' && b[w] == '}';
    assert b[w + 1..] == b[w + 1..|b|];
  }

  /** A body that starts with `{` starts with a group closed at some `m`. */
  lemma BodyGroup(s: string, j: nat, e: nat) returns (m: nat)
    requires j < e <= |s| && s[j] == '{' && s[e - 1] == '}' && IsBody(s[j..e - 1])
    ensures j < m < e - 1 && s[m] == '}' && NoBraces(s[j + 1..m]) && IsBody(s[m + 1..e - 1])
  {
    var b := s[j..e - 1];
    var w := GroupOf(b);
    SliceOfSlice(s, j, e - 1, 1, w);
    SliceOfSlice(s, j, e - 1, w + 1, |b|);
    assert b[w + 1..] == b[w + 1..|b|];
    m := j + w;
    assert s[m] == b[w];
  }

  lemma GroupOf(b: string) returns (w: nat)
    requires |b| > 0 && b[0] == '{' && IsBody(b)
    ensures 1 <= w < |b| && b[w] == '}' && NoBraces(b[1..w]) && IsBody(b[w + 1..])
  {
    w :| 1 <= w < |b| && b[w] == '}' && NoBraces(b[1..w]) && IsBody(b[w + 1..]);
  }

  /** The scanner agrees with the regular expression: it matches at `i` up to
      `e` exactly when `s[i..e]` is in the pattern's language. */
  lemma MatchAtIffPattern(s: string, i: nat, e: nat)
    requires i <= |s|
    ensures MatchAt(s, i) == Some(e) <==> (i < e <= |s| && InPattern(s[i..e]))
  {
    if i < |s| && s[i] == '{' {
      CloseIffBody(s, i + 1, e);
      if i < e <= |s| && e - i >= 2 {
        var t := s[i..e];
        assert |t| == e - i && t[0] == s[i] && t[|t| - 1] == s[e - 1];
        assert t[1..|t| - 1] == s[i + 1..e][..e - i - 2];
        assert t[1..|t| - 1] == s[i + 1..e - 1];
        assert InPattern(t) <==> IsBody(s[i + 1..e - 1]) && s[e - 1] == '}';
      }
    }
  }

  /** A match span `[lo, hi)` of the scan. */
  datatype Span = Span(lo: nat, hi: nat)

  /** Every span is a genuine match of the pattern starting at or after `pos`. */
  predicate SpansMatch(s: string, pos: nat, spans: seq<Span>) {
    forall k :: 0 <= k < |spans| ==>
      pos <= spans[k].lo < spans[k].hi <= |s| && MatchAt(s, spans[k].lo) == Some(spans[k].hi)
  }

  /** Spans come in increasing order and do not overlap. */
  predicate SpansOrdered(spans: seq<Span>) {
    forall k :: 0 < k < |spans| ==> spans[k - 1].hi <= spans[k].lo
  }

  /** Every position from `pos` on where the pattern could match lies inside a span. */
  predicate SpansCover(s: string, pos: nat, spans: seq<Span>)
    requires pos <= |s|
  {
    forall i :: pos <= i < |s| && MatchAt(s, i).Some? ==>
      exists k :: 0 <= k < |spans| && spans[k].lo <= i < spans[k].hi
  }

  /** `spans` is what `re.finditer` yields from `pos`: genuine matches, in
      increasing order without overlap, and no match is skipped. */
  predicate Scanned(s: string, pos: nat, spans: seq<Span>)
    requires pos <= |s|
  {
    SpansMatch(s, pos, spans) && SpansOrdered(spans) && SpansCover(s, pos, spans)
  }

  /** `re.finditer` from `pos`: the leftmost match, then the search resumes at its end. */
  function ScanFrom(s: string, pos: nat): (r: seq<Span>)
    requires pos <= |s|
    ensures forall k :: 0 <= k < |r| ==> pos <= r[k].lo < r[k].hi <= |s|
    decreases |s| - pos
  {
    if pos == |s| then []
    else match MatchAt(s, pos)
      case Some(e) =>
        var rest := ScanFrom(s, e);
        assert forall k :: 0 < k < |rest| + 1 ==> ([Span(pos, e)] + rest)[k] == rest[k - 1];
        [Span(pos, e)] + rest
      case None => ScanFrom(s, pos + 1)
  }

  /** The scan from `pos` is exactly what `finditer` yields from there. */
  lemma {:induction false} ScanFromScanned(s: string, pos: nat)
    requires pos <= |s|
    ensures Scanned(s, pos, ScanFrom(s, pos))
    decreases |s| - pos
  {
    if pos < |s| {
      match MatchAt(s, pos)
      case Some(e) =>
        ScanFromScanned(s, e);
        ScannedCons(s, pos, e, ScanFrom(s, e));
      case None =>
        ScanFromScanned(s, pos + 1);
        ScannedSkip(s, pos, ScanFrom(s, pos + 1));
    }
  }

  lemma ScannedSkip(s: string, pos: nat, rest: seq<Span>)
    requires pos < |s| && MatchAt(s, pos).None?
    requires Scanned(s, pos + 1, rest)
    ensures Scanned(s, pos, rest)
  {
    assert SpansMatch(s, pos, rest);
    forall i | pos <= i < |s| && MatchAt(s, i).Some?
      ensures exists k :: 0 <= k < |rest| && rest[k].lo <= i < rest[k].hi
    {
      assert i != pos;
    }
  }

  lemma ScannedCons(s: string, pos: nat, e: nat, rest: seq<Span>)
    requires pos < |s| && MatchAt(s, pos) == Some(e)
    requires Scanned(s, e, rest)
    ensures Scanned(s, pos, [Span(pos, e)] + rest)
  {
    var r := [Span(pos, e)] + rest;
    assert forall k :: 0 < k < |r| ==> r[k] == rest[k - 1];
    assert SpansMatch(s, pos, r);
    assert SpansOrdered(r);
    ScannedConsCovers(s, pos, e, rest);
  }

  lemma ScannedConsCovers(s: string, pos: nat, e: nat, rest: seq<Span>)
    requires pos < e <= |s|
    requires SpansCover(s, e, rest)
    ensures SpansCover(s, pos, [Span(pos, e)] + rest)
  {
    var r := [Span(pos, e)] + rest;
    forall i | pos <= i < |s| && MatchAt(s, i).Some?
      ensures exists k :: 0 <= k < |r| && r[k].lo <= i < r[k].hi
    {
      if i < e {
        assert r[0].lo <= i < r[0].hi;
      } else {
        var k :| 0 <= k < |rest| && rest[k].lo <= i < rest[k].hi;
        assert r[k + 1] == rest[k];
      }
    }
  }

  /** The candidate substrings `match.group(1)`, in the order `finditer` yields them. */
  function Candidates(s: string): (r: seq<string>)
    ensures |r| == |ScanFrom(s, 0)|
    ensures forall k :: 0 <= k < |r| ==> r[k] == s[ScanFrom(s, 0)[k].lo..ScanFrom(s, 0)[k].hi]
    ensures forall k :: 0 <= k < |r| ==> InPattern(r[k])
  {
    var spans := ScanFrom(s, 0);
    ScanFromScanned(s, 0);
    var r := seq(|spans|, k requires 0 <= k < |spans| => s[spans[k].lo..spans[k].hi]);
    forall k | 0 <= k < |r|
      ensures InPattern(r[k])
    {
      MatchAtIffPattern(s, spans[k].lo, spans[k].hi);
    }
    r
  }

  /** Brace balance: `{` occurrences minus `}` occurrences. */
  function Depth(t: string): int {
    Count(t, '{') - Count(t, '}')
  }

  lemma DepthAppend(a: string, b: string)
    ensures Depth(a + b) == Depth(a) + Depth(b)
  {
    CountAppend(a, b, '{');
    CountAppend(a, b, '}');
  }

  lemma {:induction false} NoBracesDepth(t: string)
    requires NoBraces(t)
    ensures Depth(t) == 0
    decreases |t|
  {
    if |t| > 0 {
      assert NoBraces(t[1..]) by {
        assert forall k :: 0 <= k < |t| - 1 ==> t[1..][k] == t[k + 1];
      }
      NoBracesDepth(t[1..]);
    }
  }

  /** The depth facts a pattern body has: balanced, prefixes at depth 0 or 1. */
  predicate BodyDepthFacts(b: string) {
    Depth(b) == 0 && forall k :: 0 <= k <= |b| ==> 0 <= Depth(b[..k]) <= 1
  }

  /** A pattern body is balanced and never nests deeper than one level. */
  lemma {:induction false} BodyDepth(b: string)
    requires IsBody(b)
    ensures BodyDepthFacts(b)
    decreases |b|
  {
    if |b| == 0 {
      assert forall k :: 0 <= k <= |b| ==> b[..k] == [];
    } else if NonBrace(b[0]) {
      BodyDepth(b[1..]);
      PlainConsDepth(b);
    } else {
      var m :| 1 <= m < |b| && b[m] == '}' && NoBraces(b[1..m]) && IsBody(b[m + 1..]);
      BodyDepth(b[m + 1..]);
      GroupConsDepth(b, m);
    }
  }

  lemma PlainConsDepth(b: string)
    requires |b| > 0 && NonBrace(b[0])
    requires BodyDepthFacts(b[1..])
    ensures BodyDepthFacts(b)
  {
    var rest := b[1..];
    assert b == [b[0]] + rest;
    DepthAppend([b[0]], rest);
    forall k | 0 <= k <= |b|
      ensures 0 <= Depth(b[..k]) <= 1
    {
      if k > 0 {
        assert b[..k] == [b[0]] + rest[..k - 1];
        DepthAppend([b[0]], rest[..k - 1]);
      }
    }
  }

  lemma GroupConsDepth(b: string, m: nat)
    requires 1 <= m < |b| && b[0] == '{' && b[m] == '}' && NoBraces(b[1..m])
    requires BodyDepthFacts(b[m + 1..])
    ensures BodyDepthFacts(b)
  {
    var inner := b[1..m];
    var rest := b[m + 1..];
    NoBracesDepth(inner);
    assert Depth(['{']) == 1 && Depth(['}']) == -1;
    assert b[..m + 1] == ['{'] + inner + ['}'];
    DepthAppend(['{'] + inner, ['}']);
    DepthAppend(['{'], inner);
    assert b == b[..m + 1] + rest;
    DepthAppend(b[..m + 1], rest);
    forall k | 0 <= k <= |b|
      ensures 0 <= Depth(b[..k]) <= 1
    {
      if 1 <= k <= m {
        GroupPrefixDepth(b, m, k);
      } else if k > m + 1 {
        assert b[..k] == b[..m + 1] + rest[..k - m - 1];
        DepthAppend(b[..m + 1], rest[..k - m - 1]);
      }
    }
  }

  lemma GroupPrefixDepth(b: string, m: nat, k: nat)
    requires 1 <= k <= m < |b| && b[0] == '{' && NoBraces(b[1..m])
    ensures Depth(b[..k]) == 1
  {
    var inner := b[1..m];
    assert b[..k] == ['{'] + inner[..k - 1];
    assert NoBraces(inner[..k - 1]) by {
      assert forall x :: 0 <= x < k - 1 ==> inner[..k - 1][x] == inner[x];
    }
    NoBracesDepth(inner[..k - 1]);
    DepthAppend(['{'], inner[..k - 1]);
    assert Depth(['{']) == 1;
  }

  /** Every string the pattern matches starts with `{`, ends with `}`, is
      brace-balanced, and inside it the nesting depth stays between 1 and 2. */
  lemma PatternIsBalanced(t: string)
    requires InPattern(t)
    ensures t[0] == '{' && t[|t| - 1] == '}'
    ensures Depth(t) == 0
    ensures forall k :: 0 < k < |t| ==> 1 <= Depth(t[..k]) <= 2
  {
    var b := t[1..|t| - 1];
    BodyDepth(b);
    assert t == ['{'] + b + ['}'];
    DepthAppend(['{'] + b, ['}']);
    DepthAppend(['{'], b);
    forall k | 0 < k < |t|
      ensures 1 <= Depth(t[..k]) <= 2
    {
      assert t[..k] == ['{'] + b[..k - 1];
      DepthAppend(['{'], b[..k - 1]);
    }
  }

  /** Each of the scan's candidates is balanced with nesting depth at most 2.
      That the spans they come from are ordered and disjoint is
      `ScanFromScanned`. */
  lemma CandidatesAreBalanced(s: string)
    ensures forall k :: 0 <= k < |Candidates(s)| ==>
              var c := Candidates(s)[k];
              c[0] == '{' && c[|c| - 1] == '}' && Depth(c) == 0 &&
              forall x :: 0 < x < |c| ==> 1 <= Depth(c[..x]) <= 2
  {
    var cs := Candidates(s);
    forall k | 0 <= k < |cs|
      ensures var c := cs[k];
              c[0] == '{' && c[|c| - 1] == '}' && Depth(c) == 0 &&
              forall x :: 0 < x < |c| ==> 1 <= Depth(c[..x]) <= 2
    {
      PatternIsBalanced(cs[k]);
    }
  }

  /** Positions of brace-free prose before `from` are skipped without yielding anything. */
  lemma {:induction false} ScanSkipsProse(s: string, i: nat, from: nat)
    requires i <= from <= |s|
    requires forall x :: i <= x < from ==> NonBrace(s[x])
    ensures ScanFrom(s, i) == ScanFrom(s, from)
    decreases from - i
  {
    if i < from {
      ScanFromSkips(s, i);
      ScanSkipsProse(s, i + 1, from);
    }
  }

  /** No match can start at a character other than `{`. */
  lemma ScanFromSkips(s: string, i: nat)
    requires i < |s| && s[i] != '{'
    ensures ScanFrom(s, i) == ScanFrom(s, i + 1)
  {
    assert MatchAt(s, i).None?;
  }

  /** A reply of brace-free prose followed by a pattern-shaped object yields
      that object as its first candidate, whatever follows it. */
  lemma ProseThenObject(p: string, t: string, q: string)
    requires NoBraces(p)
    requires InPattern(t)
    ensures |Candidates(p + t + q)| >= 1 && Candidates(p + t + q)[0] == t
  {
    var s := p + t + q;
    assert forall x :: 0 <= x < |p| ==> s[x] == p[x];
    ScanSkipsProse(s, 0, |p|);
    assert s[|p|..|p| + |t|] == t;
    MatchAtIffPattern(s, |p|, |p| + |t|);
    assert ScanFrom(s, |p|)[0] == Span(|p|, |p| + |t|);
  }
}
