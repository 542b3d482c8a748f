/**
 Python string primitives the pipeline relies on: `str.isspace`, `str.strip`,
 `str.split` with a one-character separator, the `in` substring test, and the
 character classes `\s` and `\w` of the two regular expressions it uses.
 */
module Text {

  /** `str.isspace()` for one character (also what `\s` matches in a str pattern). */
  predicate IsSpace(c: char) {
    || c == ' '
    || ('\t' <= c <= '\r')
    || ('\U{1C}' <= c <= '\U{1F}')
    || c == '\U{85}' || c == '\U{A0}' || c == '\U{1680}'
    || ('\U{2000}' <= c <= '\U{200A}')
    || c == '\U{2028}' || c == '\U{2029}' || c == '\U{202F}' || c == '\U{205F}' || c == '\U{3000}'
  }

  /** `\w`, restricted to ASCII letters, digits and underscore. */
  predicate IsWordChar(c: char) {
    ('a' <= c <= 'z') || ('A' <= c <= 'Z') || ('0' <= c <= '9') || c == '_'
  }

  /** Every character is whitespace: `s.strip()` is the empty string. */
  predicate Blank(s: string) {
    forall k :: 0 <= k < |s| ==> IsSpace(s[k])
  }

  /** Where `s.lstrip()` starts: the first non-whitespace index at or after `i`. */
  function StripStart(s: string, i: nat): (a: nat)
    requires i <= |s|
    ensures i <= a <= |s|
    ensures forall k :: i <= k < a ==> IsSpace(s[k])
    ensures a < |s| ==> !IsSpace(s[a])
    decreases |s| - i
  {
    if i < |s| && IsSpace(s[i]) then StripStart(s, i + 1) else i
  }

  /** Where `s.rstrip()` ends, looking no further left than `a`: the index
      just past the last non-whitespace character of `s[a..j]`, or `a`. */
  function StripEnd(s: string, a: nat, j: nat): (b: nat)
    requires a <= j <= |s|
    ensures a <= b <= j
    ensures forall k :: b <= k < j ==> IsSpace(s[k])
    ensures b > a ==> !IsSpace(s[b - 1])
    decreases j
  {
    if j > a && IsSpace(s[j - 1]) then StripEnd(s, a, j - 1) else j
  }

  /** `s.strip()`: the slice of `s` between its leading and trailing whitespace. */
  function Strip(s: string): (r: string)
    ensures |r| == 0 <==> Blank(s)
    ensures |r| > 0 ==> !IsSpace(r[0]) && !IsSpace(r[|r| - 1])
    ensures var a := StripStart(s, 0);
              a + |r| <= |s| && r == s[a..a + |r|] && Blank(s[..a]) && Blank(s[a + |r|..])
  {
    var a := StripStart(s, 0);
    var b := StripEnd(s, a, |s|);
    StripSlice(s, a, b);
    s[a..b]
  }

  /** With only whitespace before `a` and from `b` on, and non-whitespace at
      both ends of `s[a..b]` when it is not empty, that slice is empty exactly
      when `s` is blank. */
  lemma StripSlice(s: string, a: nat, b: nat)
    requires a <= b <= |s|
    requires forall k :: 0 <= k < a ==> IsSpace(s[k])
    requires a < |s| ==> !IsSpace(s[a])
    requires forall k :: b <= k < |s| ==> IsSpace(s[k])
    requires b > a ==> !IsSpace(s[b - 1])
    ensures b == a <==> Blank(s)
    ensures b > a ==> !IsSpace(s[a..b][0]) && !IsSpace(s[a..b][b - a - 1])
    ensures Blank(s[..a]) && Blank(s[b..])
  {
    assert Blank(s[..a]) by {
      assert forall k :: 0 <= k < a ==> s[..a][k] == s[k];
    }
    assert Blank(s[b..]) by {
      assert forall k :: 0 <= k < |s| - b ==> s[b..][k] == s[b + k];
    }
    if b > a {
      assert s[a..b][0] == s[a];
      assert s[a..b][b - a - 1] == s[b - 1];
    }
  }

  lemma BlankAppend(a: string, b: string)
    ensures Blank(a + b) <==> Blank(a) && Blank(b)
  {
    if Blank(a) && Blank(b) {
      forall k | 0 <= k < |a + b|
        ensures IsSpace((a + b)[k])
      {
        if k < |a| { assert (a + b)[k] == a[k]; } else { assert (a + b)[k] == b[k - |a|]; }
      }
    }
    if Blank(a + b) {
      forall k | 0 <= k < |b|
        ensures IsSpace(b[k])
      {
        assert (a + b)[|a| + k] == b[k];
      }
      forall k | 0 <= k < |a|
        ensures IsSpace(a[k])
      {
        assert (a + b)[k] == a[k];
      }
    }
  }

  /** A slice of a slice is a slice of the original. */
  lemma SliceOfSlice(s: string, a: nat, c: nat, i: nat, j: nat)
    requires a <= c <= |s| && i <= j <= c - a
    ensures s[a..c][i..j] == s[a + i..a + j]
  {
    assert forall k :: 0 <= k < j - i ==> s[a..c][i..j][k] == s[a + i + k];
  }

  /** Concatenation regroups; kept apart so that the solver meets it in a small context. */
  lemma AppendAssoc<T>(a: seq<T>, b: seq<T>, c: seq<T>)
    ensures a + (b + c) == (a + b) + c
  {
  }

  /** Number of occurrences of `c` in `s`. */
  function Count(s: string, c: char): nat
    decreases |s|
  {
    if |s| == 0 then 0 else (if s[0] == c then 1 else 0) + Count(s[1..], c)
  }

  lemma {:induction false} CountAppend(a: string, b: string, c: char)
    ensures Count(a + b, c) == Count(a, c) + Count(b, c)
    decreases |a|
  {
    if |a| > 0 {
      assert (a + b)[1..] == a[1..] + b;
      CountAppend(a[1..], b, c);
    } else {
      assert a + b == b;
    }
  }

  /** `s` with every character satisfying `drop` removed, order kept. */
  function Erase(s: string, drop: char -> bool): string
    decreases |s|
  {
    if |s| == 0 then [] else (if drop(s[0]) then [] else [s[0]]) + Erase(s[1..], drop)
  }

  lemma {:induction false} EraseAppend(a: string, b: string, drop: char -> bool)
    ensures Erase(a + b, drop) == Erase(a, drop) + Erase(b, drop)
    decreases |a|
  {
    if |a| > 0 {
      assert (a + b)[1..] == a[1..] + b;
      EraseAppend(a[1..], b, drop);
    } else {
      assert a + b == b;
    }
  }

  /** Erasing never changes how often a character that is kept occurs. */
  lemma {:induction false} EraseKeepsCount(s: string, drop: char -> bool, c: char)
    requires !drop(c)
    ensures Count(Erase(s, drop), c) == Count(s, c)
    decreases |s|
  {
    if |s| > 0 {
      EraseKeepsCount(s[1..], drop, c);
      CountAppend(if drop(s[0]) then [] else [s[0]], Erase(s[1..], drop), c);
    }
  }

  /** Erasing a superset after a subset is the same as erasing the superset. */
  lemma {:induction false} EraseAbsorb(s: string, small: char -> bool, big: char -> bool)
    requires forall c :: small(c) ==> big(c)
    ensures Erase(Erase(s, small), big) == Erase(s, big)
    decreases |s|
  {
    if |s| > 0 {
      EraseAbsorb(s[1..], small, big);
      EraseAppend(if small(s[0]) then [] else [s[0]], Erase(s[1..], small), big);
    }
  }

  /** Two strings equal up to `small`-characters are equal up to any larger class. */
  lemma EraseCoarsen(a: string, b: string, small: char -> bool, big: char -> bool)
    requires forall c :: small(c) ==> big(c)
    requires Erase(a, small) == Erase(b, small)
    ensures Erase(a, big) == Erase(b, big)
  {
    EraseAbsorb(a, small, big);
    EraseAbsorb(b, small, big);
  }

  /** `a` is `b` with some characters deleted and the rest kept in order. */
  predicate IsSubseq(a: string, b: string)
    decreases |b|
  {
    |a| == 0 || (|b| > 0 && ((a[0] == b[0] && IsSubseq(a[1..], b[1..])) || IsSubseq(a, b[1..])))
  }

  /** Characters put in front of the longer string only add deletions. */
  lemma {:induction false} SubseqExtend(a: string, w: string, b: string)
    requires IsSubseq(a, b)
    ensures IsSubseq(a, w + b)
    decreases |w|
  {
    if |w| > 0 {
      SubseqExtend(a, w[1..], b);
      assert (w + b)[1..] == w[1..] + b;
    } else {
      assert w + b == b;
    }
  }

  /** A common prefix keeps the subsequence relation. */
  lemma {:induction false} SubseqPrefix(w: string, a: string, b: string)
    requires IsSubseq(a, b)
    ensures IsSubseq(w + a, w + b)
    decreases |w|
  {
    if |w| > 0 {
      SubseqPrefix(w[1..], a, b);
      assert (w + a)[1..] == w[1..] + a;
      assert (w + b)[1..] == w[1..] + b;
    } else {
      assert w + a == a && w + b == b;
    }
  }

  /** A subsequence is never longer. */
  lemma {:induction false} SubseqLength(a: string, b: string)
    requires IsSubseq(a, b)
    ensures |a| <= |b|
    decreases |b|
  {
    if |a| > 0 {
      if a[0] == b[0] && IsSubseq(a[1..], b[1..]) {
        SubseqLength(a[1..], b[1..]);
      } else {
        SubseqLength(a, b[1..]);
      }
    }
  }

  /** Python's `sub in s` for strings. */
  predicate IsSubstring(sub: string, s: string)
    decreases |s|
  {
    |sub| <= |s| && (s[..|sub|] == sub || IsSubstring(sub, s[1..]))
  }

  /** `sub` occurs in `s` starting at position `i`. */
  predicate OccursAt(sub: string, s: string, i: int) {
    0 <= i && i + |sub| <= |s| && s[i..i + |sub|] == sub
  }

  /** `sub in s` holds exactly when `sub` occurs at some position of `s`. */
  lemma {:induction false} IsSubstringAt(sub: string, s: string)
    ensures IsSubstring(sub, s) <==> exists i :: OccursAt(sub, s, i)
    decreases |s|
  {
    if |sub| <= |s| && s[..|sub|] == sub {
      assert OccursAt(sub, s, 0);
    } else if |sub| <= |s| {
      IsSubstringAt(sub, s[1..]);
      if exists i :: OccursAt(sub, s, i) {
        var i :| OccursAt(sub, s, i);
        assert i > 0;
        assert s[1..][i - 1..i - 1 + |sub|] == sub;
        assert OccursAt(sub, s[1..], i - 1);
      }
      if IsSubstring(sub, s[1..]) {
        var i :| OccursAt(sub, s[1..], i);
        assert s[i + 1..i + 1 + |sub|] == sub;
        assert OccursAt(sub, s, i + 1);
      }
    }
  }

  /** `s.split(sep)` for a one-character separator: the pieces between separators. */
  function Split(s: string, sep: char): (r: seq<string>)
    ensures |r| == Count(s, sep) + 1
    ensures forall k :: 0 <= k < |r| ==> sep !in r[k]
    decreases |s|
  {
    if |s| == 0 then [[]]
    else
      var rest := Split(s[1..], sep);
      if s[0] == sep then [[]] + rest
      else [[s[0]] + rest[0]] + rest[1..]
  }

  /** `sep.join(pieces)`. */
  function Join(pieces: seq<string>, sep: char): string
    decreases |pieces|
  {
    if |pieces| == 0 then []
    else if |pieces| == 1 then pieces[0]
    else pieces[0] + [sep] + Join(pieces[1..], sep)
  }

  /** Splitting loses nothing: joining the pieces back gives the original string. */
  lemma {:induction false} JoinSplit(s: string, sep: char)
    ensures Join(Split(s, sep), sep) == s
    decreases |s|
  {
    if |s| > 0 {
      JoinSplit(s[1..], sep);
      var rest := Split(s[1..], sep);
      if s[0] == sep {
        assert Split(s, sep) == [[]] + rest;
        assert ([[]] + rest)[1..] == rest;
        assert s == [sep] + s[1..];
      } else {
        var r := Split(s, sep);
        assert r == [[s[0]] + rest[0]] + rest[1..];
        if |rest| == 1 {
          assert s == [s[0]] + s[1..];
        } else {
          assert r[1..] == rest[1..];
          assert s == [s[0]] + s[1..];
        }
      }
    }
  }
}
