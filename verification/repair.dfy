/**
 The GUI text ladder's last resort: three textual rewrites of the whole reply,
 applied once each and in this order,
   1. `result.replace("'", '"')`
   2. `re.sub(r'(\w+):', r'"\1":', ...)`   quote bare keys
   3. `re.sub(r',\s*}', '}', ...)`          drop trailing commas
 before a single reparse. Each `re.sub` is written as the left-to-right,
 non-overlapping scan Python performs; neither pattern can backtrack into a
 different match (a shorter `\w+` or `\s*` leaves a word or space character,
 not the `:` or `}` the pattern needs next).
 */
module Repair {
  import opened Text

  predicate IsDoubleQuote(c: char) {
    c == '"'
  }

  predicate IsCommaOrSpace(c: char) {
    c == ',' || IsSpace(c)
  }

  /** The characters the repair may insert, rewrite or delete. */
  predicate IsRepairNoise(c: char) {
    c == '"' || c == '\'' || c == ',' || IsSpace(c)
  }

  /** Step 1: every single quote becomes a double quote. */
  function ReplaceQuotes(s: string): (r: string)
    ensures |r| == |s|
    ensures forall k :: 0 <= k < |s| ==> r[k] == (if s[k] == '\'' then '"' else s[k])
    decreases |s|
  {
    if |s| == 0 then [] else [if s[0] == '\'' then '"' else s[0]] + ReplaceQuotes(s[1..])
  }

  /** Length of the longest run of `\w` characters at the start of `s`. */
  function WordRun(s: string): (n: nat)
    ensures n <= |s|
    ensures forall k :: 0 <= k < n ==> IsWordChar(s[k])
    ensures n < |s| ==> !IsWordChar(s[n])
    decreases |s|
  {
    if |s| > 0 && IsWordChar(s[0]) then 1 + WordRun(s[1..]) else 0
  }

  /** Step 2: `re.sub(r'(\w+):', r'"\1":', s)`. A word run followed by `:` is
      wrapped in double quotes; any other word run is copied unchanged. */
  function QuoteKeys(s: string): string
    decreases |s|
  {
    if |s| == 0 then []
    else if IsWordChar(s[0]) then
      var n := WordRun(s);
      if n < |s| && s[n] == ':' then ['"'] + s[..n] + ['"', ':'] + QuoteKeys(s[n + 1..])
      else s[..n] + QuoteKeys(s[n..])
    else [s[0]] + QuoteKeys(s[1..])
  }

  /** Index just past the run of whitespace starting at `j`. */
  function SpaceRunEnd(s: string, j: nat): (k: nat)
    requires j <= |s|
    ensures j <= k <= |s| && Blank(s[j..k])
    ensures k < |s| ==> !IsSpace(s[k])
    decreases |s| - j
  {
    if j < |s| && IsSpace(s[j]) then SpaceRunEnd(s, j + 1) else j
  }

  /** Step 3: `re.sub(r',\s*}', '}', s)`. A comma followed only by whitespace
      before a `}` is removed together with that whitespace. */
  function DropTrailingCommas(s: string): string
    decreases |s|
  {
    if |s| == 0 then []
    else if s[0] == ',' then
      var k := SpaceRunEnd(s, 1);
      if k < |s| && s[k] == '}' then ['}'] + DropTrailingCommas(s[k + 1..])
      else [','] + DropTrailingCommas(s[1..])
    else [s[0]] + DropTrailingCommas(s[1..])
  }

  /** Replacing quotes only trades one quote character for another. */
  lemma {:induction false} ReplaceQuotesIsNoise(s: string)
    ensures Erase(ReplaceQuotes(s), IsRepairNoise) == Erase(s, IsRepairNoise)
    ensures Count(ReplaceQuotes(s), '\'') == 0
    decreases |s|
  {
    if |s| > 0 {
      ReplaceQuotesIsNoise(s[1..]);
      var c := if s[0] == '\'' then '"' else s[0];
      EraseAppend([c], ReplaceQuotes(s[1..]), IsRepairNoise);
      assert s == [s[0]] + s[1..];
      EraseAppend([s[0]], s[1..], IsRepairNoise);
    }
  }

  /** Quoting keys inserts double quotes and changes nothing else: the input
      survives in order inside the output, and what was added is only `"`. */
  lemma {:induction false} QuoteKeysOnlyAddsQuotes(s: string)
    ensures IsSubseq(s, QuoteKeys(s)) && |QuoteKeys(s)| >= |s|
    ensures Erase(QuoteKeys(s), IsDoubleQuote) == Erase(s, IsDoubleQuote)
    decreases |s|
  {
    QuoteKeysDeletesNothing(s);
    SubseqLength(s, QuoteKeys(s));
    if |s| == 0 {
    } else if IsWordChar(s[0]) {
      var n := WordRun(s);
      var w := s[..n];
      if n < |s| && s[n] == ':' {
        QuoteKeysOnlyAddsQuotes(s[n + 1..]);
        QuotedKeyErases(w, s[n + 1..], QuoteKeys(s[n + 1..]));
        assert s == w + [':'] + s[n + 1..];
      } else {
        QuoteKeysOnlyAddsQuotes(s[n..]);
        assert s == w + s[n..];
        EraseAppend(w, s[n..], IsDoubleQuote);
        EraseAppend(w, QuoteKeys(s[n..]), IsDoubleQuote);
      }
    } else {
      QuoteKeysOnlyAddsQuotes(s[1..]);
      assert s == [s[0]] + s[1..];
      EraseAppend([s[0]], s[1..], IsDoubleQuote);
    }
  }

  lemma {:induction false} QuoteKeysDeletesNothing(s: string)
    ensures IsSubseq(s, QuoteKeys(s))
    decreases |s|
  {
    if |s| == 0 {
    } else if IsWordChar(s[0]) {
      var n := WordRun(s);
      var w := s[..n];
      if n < |s| && s[n] == ':' {
        QuoteKeysDeletesNothing(s[n + 1..]);
        QuotedKeyKeeps(w, s[n + 1..], QuoteKeys(s[n + 1..]));
        assert s == w + [':'] + s[n + 1..];
      } else {
        QuoteKeysDeletesNothing(s[n..]);
        SubseqPrefix(w, s[n..], QuoteKeys(s[n..]));
        assert s == w + s[n..];
      }
    } else {
      QuoteKeysDeletesNothing(s[1..]);
      SubseqPrefix([s[0]], s[1..], QuoteKeys(s[1..]));
      assert s == [s[0]] + s[1..];
    }
  }

  lemma QuotedKeyKeeps(w: string, t: string, qt: string)
    requires IsSubseq(t, qt)
    ensures IsSubseq(w + [':'] + t, ['"'] + w + ['"', ':'] + qt)
  {
    SubseqPrefix([':'], t, qt);
    SubseqExtend([':'] + t, ['"'], [':'] + qt);
    SubseqPrefix(w, [':'] + t, ['"'] + ([':'] + qt));
    SubseqExtend(w + ([':'] + t), ['"'], w + (['"'] + ([':'] + qt)));
    assert w + [':'] + t == w + ([':'] + t);
    assert ['"'] + w + ['"', ':'] + qt == ['"'] + (w + (['"'] + ([':'] + qt)));
  }

  lemma QuotedKeyErases(w: string, t: string, qt: string)
    requires Erase(qt, IsDoubleQuote) == Erase(t, IsDoubleQuote)
    ensures Erase(['"'] + w + ['"', ':'] + qt, IsDoubleQuote) == Erase(w + [':'] + t, IsDoubleQuote)
  {
    assert ['"'] + w + ['"', ':'] + qt == ['"'] + (w + (['"'] + ([':'] + qt)));
    EraseDropHead('"', w + (['"'] + ([':'] + qt)), IsDoubleQuote);
    EraseAppend(w, ['"'] + ([':'] + qt), IsDoubleQuote);
    EraseDropHead('"', [':'] + qt, IsDoubleQuote);
    EraseKeepHead(':', qt, IsDoubleQuote);
    assert w + [':'] + t == w + ([':'] + t);
    EraseAppend(w, [':'] + t, IsDoubleQuote);
    EraseKeepHead(':', t, IsDoubleQuote);
  }

  lemma EraseDropHead(c: char, u: string, drop: char -> bool)
    requires drop(c)
    ensures Erase([c] + u, drop) == Erase(u, drop)
  {
    assert ([c] + u)[1..] == u;
  }

  lemma EraseKeepHead(c: char, u: string, drop: char -> bool)
    requires !drop(c)
    ensures Erase([c] + u, drop) == [c] + Erase(u, drop)
  {
    assert ([c] + u)[1..] == u;
  }

  lemma EraseOne(c: char, drop: char -> bool)
    ensures Erase([c], drop) == if drop(c) then [] else [c]
  {
    assert [c][1..] == [];
  }

  /** A bare key at the start of the text comes out quoted: `w:` becomes `"w":`. */
  lemma QuoteKeysQuotesBareKey(w: string, t: string)
    requires |w| > 0
    requires forall k :: 0 <= k < |w| ==> IsWordChar(w[k])
    ensures QuoteKeys(w + [':'] + t) == ['"'] + w + ['"', ':'] + QuoteKeys(t)
  {
    var s := w + [':'] + t;
    WordRunOf(w, [':'] + t);
    assert s == w + ([':'] + t);
    assert s[..|w|] == w;
    assert s[|w| + 1..] == t;
  }

  lemma {:induction false} WordRunOf(w: string, t: string)
    requires forall k :: 0 <= k < |w| ==> IsWordChar(w[k])
    requires |t| > 0 && !IsWordChar(t[0])
    ensures WordRun(w + t) == |w|
    decreases |w|
  {
    if |w| > 0 {
      assert (w + t)[1..] == w[1..] + t;
      WordRunOf(w[1..], t);
    } else {
      assert w + t == t;
    }
  }

  /** Dropping trailing commas deletes only commas and whitespace: the output
      is the input with characters deleted, and what was deleted is only
      commas and whitespace. */
  lemma {:induction false} DropOnlyCommasAndSpace(s: string)
    ensures IsSubseq(DropTrailingCommas(s), s) && |DropTrailingCommas(s)| <= |s|
    ensures Erase(DropTrailingCommas(s), IsCommaOrSpace) == Erase(s, IsCommaOrSpace)
    decreases |s|
  {
    DropTrailingCommasInsertsNothing(s);
    SubseqLength(DropTrailingCommas(s), s);
    if |s| == 0 {
    } else if s[0] == ',' {
      var k := SpaceRunEnd(s, 1);
      if k < |s| && s[k] == '}' {
        var t := s[k + 1..];
        DropOnlyCommasAndSpace(t);
        assert s == [','] + s[1..k] + ['}'] + t;
        TrailingCommaErases(s[1..k], t, DropTrailingCommas(t));
      } else {
        DropOnlyCommasAndSpace(s[1..]);
        assert s == [','] + s[1..];
        EraseCons(',', DropTrailingCommas(s[1..]), s[1..], IsCommaOrSpace);
      }
    } else {
      DropOnlyCommasAndSpace(s[1..]);
      assert s == [s[0]] + s[1..];
      EraseCons(s[0], DropTrailingCommas(s[1..]), s[1..], IsCommaOrSpace);
    }
  }

  lemma {:induction false} DropTrailingCommasInsertsNothing(s: string)
    ensures IsSubseq(DropTrailingCommas(s), s)
    decreases |s|
  {
    if |s| == 0 {
    } else if s[0] == ',' {
      var k := SpaceRunEnd(s, 1);
      if k < |s| && s[k] == '}' {
        var t := s[k + 1..];
        var dt := DropTrailingCommas(t);
        DropTrailingCommasInsertsNothing(t);
        SubseqPrefix(['}'], dt, t);
        SubseqExtend(['}'] + dt, s[..k], ['}'] + t);
        assert s == s[..k] + (['}'] + t);
      } else {
        DropTrailingCommasInsertsNothing(s[1..]);
        SubseqPrefix([','], DropTrailingCommas(s[1..]), s[1..]);
        assert s == [','] + s[1..];
      }
    } else {
      DropTrailingCommasInsertsNothing(s[1..]);
      SubseqPrefix([s[0]], DropTrailingCommas(s[1..]), s[1..]);
      assert s == [s[0]] + s[1..];
    }
  }

  lemma EraseCons(c: char, t: string, u: string, drop: char -> bool)
    requires Erase(t, drop) == Erase(u, drop)
    ensures Erase([c] + t, drop) == Erase([c] + u, drop)
  {
    EraseAppend([c], t, drop);
    EraseAppend([c], u, drop);
  }

  /** The comma and whitespace a trailing comma drops were noise anyway. */
  lemma TrailingCommaErases(w: string, t: string, dt: string)
    requires Blank(w)
    requires Erase(dt, IsCommaOrSpace) == Erase(t, IsCommaOrSpace)
    ensures Erase(['}'] + dt, IsCommaOrSpace) == Erase([','] + w + ['}'] + t, IsCommaOrSpace)
  {
    assert [','] + w + ['}'] + t == [','] + (w + (['}'] + t));
    EraseDropHead(',', w + (['}'] + t), IsCommaOrSpace);
    EraseBlank(w, IsCommaOrSpace);
    EraseAppend(w, ['}'] + t, IsCommaOrSpace);
    EraseKeepHead('}', t, IsCommaOrSpace);
    EraseKeepHead('}', dt, IsCommaOrSpace);
  }

  lemma {:induction false} EraseBlank(w: string, drop: char -> bool)
    requires Blank(w)
    requires forall c :: IsSpace(c) ==> drop(c)
    ensures Erase(w, drop) == []
    decreases |w|
  {
    if |w| > 0 {
      assert Blank(w[1..]) by {
        assert forall k :: 0 <= k < |w| - 1 ==> w[1..][k] == w[k + 1];
      }
      EraseBlank(w[1..], drop);
    }
  }

  /** A comma, then only whitespace, then `}`: all three collapse to the `}`. */
  lemma DropsTrailingComma(w: string, t: string)
    requires Blank(w)
    ensures DropTrailingCommas([','] + w + ['}'] + t) == ['}'] + DropTrailingCommas(t)
  {
    var s := [','] + w + ['}'] + t;
    SpaceRunOf(s, 1, |w| + 1);
    assert s[|w| + 2..] == t;
  }

  lemma {:induction false} SpaceRunOf(s: string, j: nat, k: nat)
    requires j <= k < |s|
    requires forall x :: j <= x < k ==> IsSpace(s[x])
    requires !IsSpace(s[k])
    ensures SpaceRunEnd(s, j) == k
    decreases k - j
  {
    if j < k {
      SpaceRunOf(s, j + 1, k);
    }
  }

  /** The whole repair, as the GUI applies it to the stripped reply. */
  function RepairText(s: string): (r: string)
    ensures '\'' !in r
    ensures Erase(r, IsRepairNoise) == Erase(s, IsRepairNoise)
    ensures Count(r, '{') == Count(s, '{')
    ensures Count(r, '}') == Count(s, '}')
    ensures Count(r, ':') == Count(s, ':')
  {
    var a := ReplaceQuotes(s);
    var b := QuoteKeys(a);
    var r := DropTrailingCommas(b);
    RepairFacts(s, a, b, r);
    r
  }

  lemma RepairFacts(s: string, a: string, b: string, r: string)
    requires a == ReplaceQuotes(s) && b == QuoteKeys(a) && r == DropTrailingCommas(b)
    ensures '\'' !in r
    ensures Erase(r, IsRepairNoise) == Erase(s, IsRepairNoise)
    ensures Count(r, '{') == Count(s, '{')
    ensures Count(r, '}') == Count(s, '}')
    ensures Count(r, ':') == Count(s, ':')
  {
    RepairIsNoise(s, a, b, r);
    NoiseKeepsCount(r, s, '{');
    NoiseKeepsCount(r, s, '}');
    NoiseKeepsCount(r, s, ':');
    RepairDropsSingleQuotes(s, a, b, r);
  }

  lemma RepairIsNoise(s: string, a: string, b: string, r: string)
    requires a == ReplaceQuotes(s) && b == QuoteKeys(a) && r == DropTrailingCommas(b)
    ensures Erase(r, IsRepairNoise) == Erase(s, IsRepairNoise)
  {
    ReplaceQuotesIsNoise(s);
    QuoteKeysOnlyAddsQuotes(a);
    DropOnlyCommasAndSpace(b);
    EraseCoarsen(b, a, IsDoubleQuote, IsRepairNoise);
    EraseCoarsen(r, b, IsCommaOrSpace, IsRepairNoise);
  }

  lemma NoiseKeepsCount(r: string, s: string, c: char)
    requires Erase(r, IsRepairNoise) == Erase(s, IsRepairNoise)
    requires !IsRepairNoise(c)
    ensures Count(r, c) == Count(s, c)
  {
    EraseKeepsCount(r, IsRepairNoise, c);
    EraseKeepsCount(s, IsRepairNoise, c);
  }

  lemma RepairDropsSingleQuotes(s: string, a: string, b: string, r: string)
    requires a == ReplaceQuotes(s) && b == QuoteKeys(a) && r == DropTrailingCommas(b)
    ensures '\'' !in r
  {
    ReplaceQuotesIsNoise(s);
    QuoteKeysOnlyAddsQuotes(a);
    DropOnlyCommasAndSpace(b);
    EraseKeepsCount(r, IsCommaOrSpace, '\'');
    EraseKeepsCount(b, IsCommaOrSpace, '\'');
    EraseKeepsCount(b, IsDoubleQuote, '\'');
    EraseKeepsCount(a, IsDoubleQuote, '\'');
    CountZero(r, '\'');
  }

  lemma {:induction false} CountZero(s: string, c: char)
    requires Count(s, c) == 0
    ensures c !in s
    decreases |s|
  {
    if |s| > 0 {
      CountZero(s[1..], c);
      assert s == [s[0]] + s[1..];
    }
  }
}
