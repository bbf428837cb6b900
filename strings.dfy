/**
 * The few JavaScript string operations the converter relies on, written out
 * for `string` = `seq<char>`: `indexOf`, `String.prototype.replace` with a
 * string pattern (first occurrence only), `trim`, and the character classes
 * that the regular expressions of the converter use (`\s`, `.`, `[0-9]`).
 */
module Strings {

  /** JavaScript's line terminators: the only characters `.` does not match. */
  predicate IsLineTerminator(c: char) {
    c == '\n' || c == '\r' || c == '\U{2028}' || c == '\U{2029}'
  }

  /** The class `\s` of JavaScript regular expressions (also what `trim` removes). */
  predicate IsSpace(c: char) {
    || c == ' ' || c == '\t' || c == '\n' || c == '\U{000B}' || c == '\U{000C}' || c == '\r'
    || c == '\U{00A0}' || c == '\U{1680}' || ('\U{2000}' <= c <= '\U{200A}')
    || c == '\U{2028}' || c == '\U{2029}' || c == '\U{202F}' || c == '\U{205F}'
    || c == '\U{3000}' || c == '\U{FEFF}'
  }

  predicate IsDigit(c: char) {
    '0' <= c <= '9'
  }

  /** `lit` occurs in `s` starting at index `i`. */
  predicate At(s: string, i: int, lit: string) {
    0 <= i && i + |lit| <= |s| && s[i..i + |lit|] == lit
  }

  /** `s.indexOf(lit) !== -1`, or a test of a regular expression that is a plain literal. */
  predicate Contains(s: string, lit: string) {
    IndexOf(s, lit, 0) != -1
  }

  /** The middle part of a concatenation occurs where it was put. */
  lemma AtConcat(a: string, b: string, c: string)
    ensures At(a + b + c, |a|, b)
  {
    assert (a + b + c)[|a|..|a| + |b|] == b;
  }

  lemma ContainsMiddle(a: string, b: string, c: string)
    ensures Contains(a + b + c, b)
  {
    AtConcat(a, b, c);
    ContainsAt(a + b + c, b, |a|);
  }

  /** `s.indexOf(lit, from)`: the first occurrence at or after `from`, or -1. */
  function IndexOf(s: string, lit: string, from: nat): (r: int)
    decreases |s| - from
    ensures r == -1 || (from <= r && At(s, r, lit))
    ensures r != -1 ==> forall k :: from <= k < r ==> !At(s, k, lit)
    ensures r == -1 ==> forall k :: from <= k ==> !At(s, k, lit)
  {
    if from + |lit| > |s| then -1
    else if At(s, from, lit) then from
    else IndexOf(s, lit, from + 1)
  }

  lemma ContainsMeans(s: string, lit: string)
    ensures Contains(s, lit) <==> exists i :: 0 <= i <= |s| && At(s, i, lit)
  {
  }

  lemma ContainsAt(s: string, lit: string, i: int)
    requires At(s, i, lit)
    ensures Contains(s, lit)
  {
  }

  /**
   * `s.replace(pat, rep)` with a string pattern: only the first occurrence is
   * replaced, and nothing happens when there is none.
   */
  function ReplaceFirst(s: string, pat: string, rep: string): (r: string)
    ensures !Contains(s, pat) ==> r == s
    ensures Contains(s, pat) ==> |r| == |s| - |pat| + |rep| && Contains(r, rep)
  {
    var i := IndexOf(s, pat, 0);
    if i == -1 then s
    else
      assert At(s[..i] + rep + s[i + |pat|..], i, rep);
      s[..i] + rep + s[i + |pat|..]
  }

  /** A text holding `a + b + c` holds `b`. */
  lemma ContainsInner(s: string, a: string, b: string, c: string)
    requires Contains(s, a + b + c)
    ensures Contains(s, b)
  {
    var t := a + b + c;
    var i := IndexOf(s, t, 0);
    assert At(s, i, t);
    forall k | 0 <= k < |b|
      ensures s[i + |a| + k] == b[k]
    {
      assert s[i + |a| + k] == s[i..i + |t|][|a| + k];
      assert t[|a| + k] == b[k];
    }
    assert s[i + |a|..i + |a| + |b|] == b;
    ContainsAt(s, b, i + |a|);
  }

  /** `s.replace(pat, rep)` splices `rep` in at the first occurrence of `pat`. */
  lemma ReplaceFirstSplices(s: string, pat: string, rep: string)
    requires Contains(s, pat)
    ensures 0 <= IndexOf(s, pat, 0) && At(s, IndexOf(s, pat, 0), pat)
    ensures ReplaceFirst(s, pat, rep) == s[..IndexOf(s, pat, 0)] + rep + s[IndexOf(s, pat, 0) + |pat|..]
  {
    var i := IndexOf(s, pat, 0);
    assert i != -1;
  }

  /** `s.replace(pat, ins + "$&")`: `ins` goes in front of the first occurrence of `pat`. */
  lemma InsertBefore(s: string, pat: string, ins: string)
    requires Contains(s, pat)
    ensures 0 <= IndexOf(s, pat, 0)
    ensures ReplaceFirst(s, pat, ins + pat) == s[..IndexOf(s, pat, 0)] + ins + s[IndexOf(s, pat, 0)..]
  {
    ReplaceFirstSplices(s, pat, ins + pat);
    SpliceBefore(s, IndexOf(s, pat, 0), pat, ins);
  }

  lemma SpliceBefore(s: string, i: int, pat: string, ins: string)
    requires At(s, i, pat)
    ensures s[..i] + (ins + pat) + s[i + |pat|..] == s[..i] + ins + s[i..]
  {
    assert s[i..] == s[i..i + |pat|] + s[i + |pat|..];
  }

  /** A text without `p` has no `p + q` either. */
  lemma NotContainedExtended(s: string, p: string, q: string)
    requires !Contains(s, p)
    ensures !Contains(s, p + q)
  {
    forall i | 0 <= i
      ensures !At(s, i, p + q)
    {
      if i + |p + q| <= |s| {
        assert !At(s, i, p);
        assert s[i..i + |p + q|][..|p|] == s[i..i + |p|];
        assert (p + q)[..|p|] == p;
      }
    }
  }

  /** A text that lacks one of the characters of `pat` does not hold `pat`. */
  lemma MissingCharNotContained(s: string, pat: string, j: int)
    requires 0 <= j < |pat| && pat[j] !in s
    ensures !Contains(s, pat)
  {
    forall i | 0 <= i
      ensures !At(s, i, pat)
    {
      if i + |pat| <= |s| {
        assert s[i..i + |pat|][j] == s[i + j];
      }
    }
  }

  /**
   * Gluing two texts without `pat` gives no `pat` when the characters at the
   * seam cannot be part of one.
   */
  lemma NotContainedConcat(a: string, b: string, pat: string)
    requires !Contains(a, pat) && !Contains(b, pat)
    requires (a != [] && a[|a| - 1] !in pat) || (b != [] && b[0] !in pat)
    ensures !Contains(a + b, pat)
  {
    var s := a + b;
    forall k | 0 <= k
      ensures !At(s, k, pat)
    {
      if k + |pat| <= |s| {
        if k + |pat| <= |a| {
          assert !At(a, k, pat);
          assert a[k..k + |pat|] == s[k..k + |pat|];
        } else if |a| <= k {
          assert !At(b, k - |a|, pat);
          assert b[k - |a|..k - |a| + |pat|] == s[k..k + |pat|];
        } else if a[|a| - 1] !in pat {
          assert s[k..k + |pat|][|a| - 1 - k] == a[|a| - 1];
        } else {
          assert s[k..k + |pat|][|a| - k] == b[0];
        }
      }
    }
  }

  /**
   * When `pat` opens `b` and does not occur in `a` or across the seam, the
   * first replacement in `a + b` is that one.
   */
  lemma ReplaceFirstAfter(a: string, b: string, pat: string, rep: string)
    requires At(b, 0, pat) && !Contains(a, pat)
    requires a == [] || a[|a| - 1] !in pat
    ensures ReplaceFirst(a + b, pat, rep) == a + rep + b[|pat|..]
  {
    var s := a + b;
    assert s[|a|..|a| + |pat|] == b[..|pat|];
    forall k | 0 <= k < |a|
      ensures !At(s, k, pat)
    {
      if k + |pat| <= |s| {
        if k + |pat| <= |a| {
          assert !At(a, k, pat);
          assert a[k..k + |pat|] == s[k..k + |pat|];
        } else {
          assert s[k..k + |pat|][|a| - 1 - k] == a[|a| - 1];
        }
      }
    }
    ReplaceFirstAt(s, pat, rep, |a|);
    assert s[..|a|] == a && s[|a| + |pat|..] == b[|pat|..];
  }

  /**
   * `pat` right after a short lead-in that cannot hold or straddle it is the
   * first one, when the text before the lead-in has none.
   */
  lemma ReplaceBehind(pre: string, lead: string, pat: string, post: string, rep: string, j: int)
    requires !Contains(pre, pat)
    requires 0 <= j < |pat| && pat[j] !in lead
    requires lead != [] && lead[0] !in pat && lead[|lead| - 1] !in pat
    ensures ReplaceFirst(pre + lead + pat + post, pat, rep) == pre + lead + rep + post
  {
    MissingCharNotContained(lead, pat, j);
    NotContainedConcat(pre, lead, pat);
    assert pre + lead + pat + post == (pre + lead) + (pat + post);
    ReplaceFirstAfter(pre + lead, pat + post, pat, rep);
    assert (pat + post)[|pat|..] == post;
  }

  /** Where the first occurrence is known, the replacement is at that place. */
  lemma ReplaceFirstAt(s: string, pat: string, rep: string, i: nat)
    requires At(s, i, pat)
    requires forall k :: 0 <= k < i ==> !At(s, k, pat)
    ensures ReplaceFirst(s, pat, rep) == s[..i] + rep + s[i + |pat|..]
  {
    assert IndexOf(s, pat, 0) == i;
  }

  /** The first index at or after `i` that is not `\s`, or |s|. */
  function SkipSpace(s: string, i: nat): (j: nat)
    requires i <= |s|
    decreases |s| - i
    ensures i <= j <= |s|
    ensures j < |s| ==> !IsSpace(s[j])
  {
    if i == |s| || !IsSpace(s[i]) then i else SkipSpace(s, i + 1)
  }

  /** Everything `SkipSpace` skips is `\s`. */
  lemma {:induction false} SkipSpaceSkipsSpace(s: string, i: nat)
    requires i <= |s|
    ensures forall k :: i <= k < SkipSpace(s, i) ==> IsSpace(s[k])
    decreases |s| - i
  {
    if i < |s| && IsSpace(s[i]) {
      SkipSpaceSkipsSpace(s, i + 1);
    }
  }

  /** The first line terminator at or after `i`, or |s|: how far `.*` can reach. */
  function LineEnd(s: string, i: nat): (j: nat)
    requires i <= |s|
    decreases |s| - i
    ensures i <= j <= |s|
    ensures j < |s| ==> IsLineTerminator(s[j])
  {
    if i == |s| || IsLineTerminator(s[i]) then i else LineEnd(s, i + 1)
  }

  /** `.*` from `i` can take every character up to `LineEnd(s, i)`. */
  lemma {:induction false} LineEndNoBreak(s: string, i: nat)
    requires i <= |s|
    ensures forall k :: i <= k < LineEnd(s, i) ==> !IsLineTerminator(s[k])
    decreases |s| - i
  {
    if i < |s| && !IsLineTerminator(s[i]) {
      LineEndNoBreak(s, i + 1);
    }
  }

  /** On a stretch without line terminators, `.*` reaches the end. */
  lemma {:induction false} LineEndAtEnd(s: string, i: nat)
    requires i <= |s|
    requires forall k :: i <= k < |s| ==> !IsLineTerminator(s[k])
    ensures LineEnd(s, i) == |s|
    decreases |s| - i
  {
    if i < |s| {
      LineEndAtEnd(s, i + 1);
    }
  }

  /** A literal whose `d`-th character `s` lacks does not occur in `s`. */
  lemma NotContainsChar(s: string, lit: string, d: nat)
    requires d < |lit| && lit[d] !in s
    ensures !Contains(s, lit)
  {
    forall i | 0 <= i && i + |lit| <= |s|
      ensures !At(s, i, lit)
    {
      assert s[i..i + |lit|][d] == s[i + d];
      assert s[i + d] in s;
    }
  }

  /** The value of a string of decimal digits, as `parseInt` reads it. */
  function DigitsValue(d: string): nat
    requires forall k :: 0 <= k < |d| ==> IsDigit(d[k])
  {
    if d == [] then 0
    else
      assert IsDigit(d[|d| - 1]);
      10 * DigitsValue(d[..|d| - 1]) + (d[|d| - 1] as int - '0' as int)
  }

  /** The concatenation of all lines, in order. */
  function Concat(lines: seq<string>): string
  {
    if lines == [] then "" else lines[0] + Concat(lines[1..])
  }

  lemma {:induction false} ConcatAppend(a: seq<string>, b: seq<string>)
    ensures Concat(a + b) == Concat(a) + Concat(b)
  {
    if a == [] {
      assert a + b == b;
    } else {
      assert (a + b)[1..] == a[1..] + b;
      ConcatAppend(a[1..], b);
    }
  }

  /** The smallest index `i`, not below `lo`, such that s[i..j] is all `\s`. */
  function SpaceBefore(s: string, j: nat, lo: nat): (i: nat)
    requires lo <= j <= |s|
    decreases j
    ensures lo <= i <= j
    ensures forall k :: i <= k < j ==> IsSpace(s[k])
    ensures i > lo ==> !IsSpace(s[i - 1])
  {
    if j == lo || !IsSpace(s[j - 1]) then j else SpaceBefore(s, j - 1, lo)
  }

  /** `s.trim()`: drops the `\s` characters at both ends. */
  function Trim(s: string): (r: string)
    ensures r == [] || (!IsSpace(r[0]) && !IsSpace(r[|r| - 1]))
    ensures r == s[SkipSpace(s, 0)..SpaceBefore(s, |s|, SkipSpace(s, 0))]
    ensures forall k :: 0 <= k < SkipSpace(s, 0) ==> IsSpace(s[k])
    ensures forall k :: SpaceBefore(s, |s|, SkipSpace(s, 0)) <= k < |s| ==> IsSpace(s[k])
  {
    SkipSpaceSkipsSpace(s, 0);
    var i := SkipSpace(s, 0);
    s[i..SpaceBefore(s, |s|, i)]
  }
}
