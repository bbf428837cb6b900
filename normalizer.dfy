/**
 * Pass 1 of the converter: lines holding several tags are cut so that, as far
 * as ten rounds allow, each line holds a single tag. A round is one call of
 * `splitMultipleTagLines`, which cuts each line at most once, at the first
 * place where `>` is followed by optional whitespace and `<`.
 */
module Normalizer {
  import opened Strings

  /** The regular expression `/>\s*</` matches at index `z` of `s`. */
  predicate BoundaryAt(s: string, z: int) {
    0 <= z < |s| && s[z] == '>' && SkipSpace(s, z + 1) < |s| && s[SkipSpace(s, z + 1)] == '<'
  }

  /** `/>\s*</.test(s)`: some boundary occurs in `s`. */
  predicate HasBoundary(s: string) {
    SearchBoundary(s, 0) != -1
  }

  lemma HasBoundaryMeans(s: string)
    ensures HasBoundary(s) <==> exists z :: 0 <= z < |s| && BoundaryAt(s, z)
  {
  }

  predicate NoBoundaries(lines: seq<string>) {
    forall i :: 0 <= i < |lines| ==> !HasBoundary(lines[i])
  }

  /** `s.search(/>\s*</)`, looking from `from` on: the first match, or -1. */
  function SearchBoundary(s: string, from: nat): (z: int)
    decreases |s| - from
    ensures z == -1 || (from <= z && BoundaryAt(s, z))
    ensures z != -1 ==> forall k :: from <= k < z ==> !BoundaryAt(s, k)
    ensures z == -1 ==> forall k :: from <= k < |s| ==> !BoundaryAt(s, k)
  {
    if from >= |s| then -1
    else if BoundaryAt(s, from) then from
    else SearchBoundary(s, from + 1)
  }

  lemma {:induction false} SkipSpacePrefix(s: string, n: nat, i: nat)
    requires i <= n <= |s|
    requires SkipSpace(s[..n], i) < n
    ensures SkipSpace(s, i) == SkipSpace(s[..n], i)
    decreases n - i
  {
    if IsSpace(s[i]) {
      SkipSpacePrefix(s, n, i + 1);
    }
  }

  lemma {:induction false} SkipSpaceSuffix(s: string, m: nat, i: nat)
    requires m <= i <= |s|
    ensures SkipSpace(s[m..], i - m) == SkipSpace(s, i) - m
    decreases |s| - i
  {
    if i < |s| && IsSpace(s[i]) {
      SkipSpaceSuffix(s, m, i + 1);
    }
  }

  /**
   * One line as `splitMultipleTagLines` leaves it: unchanged when it has no
   * boundary, otherwise cut once, just after the `>` of the first boundary.
   */
  function SplitLine(s: string): (pieces: seq<string>)
    ensures |pieces| == 1 || |pieces| == 2
  {
    var z := SearchBoundary(s, 0);
    if z == -1 then [s] else [s[..z + 1], s[z + 1..]]
  }

  /**
   * A line is cut exactly when it holds a boundary; the two pieces give the
   * line back when joined, the first ends in `>` and holds no boundary any
   * more, and the second starts, after optional whitespace, with `<`.
   */
  lemma SplitLineCutsAtFirstBoundary(s: string)
    ensures var pieces := SplitLine(s);
      && (|pieces| == 2 <==> HasBoundary(s))
      && Concat(pieces) == s
      && (|pieces| == 2 ==> pieces[0] != [] && pieces[0][|pieces[0]| - 1] == '>')
      && (|pieces| == 2 ==> !HasBoundary(pieces[0]))
      && (|pieces| == 2 ==> SkipSpace(pieces[1], 0) < |pieces[1]| && pieces[1][SkipSpace(pieces[1], 0)] == '<')
  {
    var z := SearchBoundary(s, 0);
    if z == -1 {
      assert Concat([s]) == s + Concat([]);
    } else {
      JoinPieces(s[..z + 1], s[z + 1..]);
      assert s[..z + 1] + s[z + 1..] == s;
      FirstPieceClean(s, z);
      SecondPieceOpens(s, z);
    }
  }

  lemma JoinPieces(x: string, y: string)
    ensures Concat([x, y]) == x + y
  {
    assert Concat([x, y]) == x + Concat([y]) == x + y + Concat([]);
  }

  /** The piece up to the first boundary's `>` holds no boundary. */
  lemma FirstPieceClean(s: string, z: nat)
    requires z == SearchBoundary(s, 0)
    ensures s[..z + 1][z] == '>' && !HasBoundary(s[..z + 1])
  {
    var x := s[..z + 1];
    forall q | 0 <= q < |x| ensures !BoundaryAt(x, q) {
      if BoundaryAt(x, q) {
        SkipSpacePrefix(s, z + 1, q + 1);
        assert BoundaryAt(s, q);
      }
    }
  }

  /** The piece after the first boundary's `>` starts, after whitespace, with `<`. */
  lemma SecondPieceOpens(s: string, z: nat)
    requires z == SearchBoundary(s, 0)
    ensures SkipSpace(s[z + 1..], 0) < |s[z + 1..]| && s[z + 1..][SkipSpace(s[z + 1..], 0)] == '<'
  {
    SkipSpaceSuffix(s, z + 1, z + 1);
  }

  /** One round: every line of the array through `SplitLine`, in order. */
  function SplitAll(lines: seq<string>): (r: seq<string>)
    ensures |lines| <= |r| <= 2 * |lines|
  {
    if lines == [] then [] else SplitLine(lines[0]) + SplitAll(lines[1..])
  }

  lemma {:induction false} SplitAllSnoc(lines: seq<string>, s: string)
    ensures SplitAll(lines + [s]) == SplitAll(lines) + SplitLine(s)
  {
    if lines == [] {
      assert lines + [s] == [s];
      assert SplitAll([s]) == SplitLine(s) + SplitAll([]);
    } else {
      assert (lines + [s])[1..] == lines[1..] + [s];
      SplitAllSnoc(lines[1..], s);
    }
  }

  /** A round keeps the text: its pieces concatenate back to the original lines. */
  lemma {:induction false} SplitAllKeepsText(lines: seq<string>)
    ensures Concat(SplitAll(lines)) == Concat(lines)
  {
    if lines != [] {
      SplitAllKeepsText(lines[1..]);
      SplitLineCutsAtFirstBoundary(lines[0]);
      ConcatAppend(SplitLine(lines[0]), SplitAll(lines[1..]));
    }
  }

  /** A round over lines without any boundary changes nothing. */
  lemma {:induction false} SplitAllStable(lines: seq<string>)
    requires NoBoundaries(lines)
    ensures SplitAll(lines) == lines
  {
    if lines != [] {
      SplitLineCutsAtFirstBoundary(lines[0]);
      SplitAllStable(lines[1..]);
    }
  }

  lemma Splice<T>(done: seq<T>, x: T, rest: seq<T>, pieces: seq<T>)
    ensures var before := done + [x] + rest;
      before[..|done|] + pieces + before[|done| + 1..] == done + pieces + rest
  {
    var before := done + [x] + rest;
    assert before[..|done|] == done;
    assert before[|done| + 1..] == rest;
  }

  /** `a.splice(i, 1, ...pieces)`: the element at index `i` replaced by `pieces`. */
  function SpliceAt<T>(a: seq<T>, i: nat, pieces: seq<T>): (r: seq<T>)
    requires i < |a|
    ensures |r| == |a| - 1 + |pieces|
    ensures r[..i] == a[..i] && r[i..i + |pieces|] == pieces && r[i + |pieces|..] == a[i + 1..]
  {
    a[..i] + pieces + a[i + 1..]
  }

  /** What the loop below does to the array when it visits the line at index `i`. */
  function CutAt(before: seq<string>, i: nat, z: int): seq<string>
    requires i < |before|
    requires -1 <= z < |before[i]|
  {
    if z == -1 then before else SpliceAt(before, i, [before[i][..z + 1], before[i][z + 1..]])
  }

  lemma NoBoundariesSnoc(lines: seq<string>, k: nat)
    requires k < |lines|
    ensures NoBoundaries(lines[..k + 1]) <==> NoBoundaries(lines[..k]) && !HasBoundary(lines[k])
  {
    assert forall j :: 0 <= j < k ==> lines[..k + 1][j] == lines[..k][j];
  }

  lemma CutAtSplitLine(before: seq<string>, i: nat)
    requires i < |before|
    ensures CutAt(before, i, SearchBoundary(before[i], 0)) == before[..i] + SplitLine(before[i]) + before[i + 1..]
  {
    if SearchBoundary(before[i], 0) == -1 {
      Recompose(before, i);
    }
  }

  lemma Recompose<T>(a: seq<T>, i: nat)
    requires i < |a|
    ensures a == a[..i] + [a[i]] + a[i + 1..]
  {
  }

  /**
   * One step of the loop below: with the lines before index `k` already
   * split, cutting the line at index `k` where the search finds its boundary
   * gives the array with the lines up to `k` split.
   */
  lemma SplitStep(lines: seq<string>, k: nat, before: seq<string>)
    requires k < |lines|
    requires before == SplitAll(lines[..k]) + lines[k..]
    ensures var i := |SplitAll(lines[..k])|;
      var z := SearchBoundary(lines[k], 0);
      && i < |before| && before[i] == lines[k]
      && CutAt(before, i, z) == SplitAll(lines[..k + 1]) + lines[k + 1..]
      && |SplitAll(lines[..k + 1])| == i + (if z == -1 then 1 else 2)
      && (NoBoundaries(lines[..k + 1]) <==> NoBoundaries(lines[..k]) && z == -1)
  {
    var done := SplitAll(lines[..k]);
    assert lines[..k + 1] == lines[..k] + [lines[k]];
    SplitAllSnoc(lines[..k], lines[k]);
    assert lines[k..] == [lines[k]] + lines[k + 1..];
    assert before == done + [lines[k]] + lines[k + 1..];
    Splice(done, lines[k], lines[k + 1..], SplitLine(lines[k]));
    CutAtSplitLine(before, |done|);
    NoBoundariesSnoc(lines, k);
  }

  /**
   * `splitMultipleTagLines`: each line with a boundary is replaced by its first
   * piece and the rest is spliced in after it and skipped; the result reports
   * whether any line was cut.
   */
  method SplitMultipleTagLines(lines: seq<string>) returns (result: seq<string>, found: bool)
    ensures result == SplitAll(lines)
    ensures found <==> !NoBoundaries(lines)
  {
    result, found := lines, false;
    var i := 0;
    ghost var k := 0;
    while i < |result|
      invariant 0 <= k <= |lines| && i == |SplitAll(lines[..k])|
      invariant result == SplitAll(lines[..k]) + lines[k..]
      invariant found <==> !NoBoundaries(lines[..k])
      decreases |lines| - k
    {
      SplitStep(lines, k, result);
      var z := SearchBoundary(result[i], 0);
      if z != -1 {
        result := CutAt(result, i, z);
        i, found := i + 1, true;
      }
      i, k := i + 1, k + 1;
    }
    assert lines[..k] == lines;
  }

  /** The array after at most `tries` rounds, stopping after the first round that cuts nothing. */
  function Normalized(lines: seq<string>, tries: nat): seq<string>
    requires tries >= 1
    decreases tries
  {
    if NoBoundaries(lines) then lines
    else if tries == 1 then SplitAll(lines)
    else Normalized(SplitAll(lines), tries - 1)
  }

  /** All `tries` rounds cut something: the converter gives up with a warning. */
  predicate GivesUp(lines: seq<string>, tries: nat)
    requires tries >= 1
    decreases tries
  {
    !NoBoundaries(lines) && (tries == 1 || GivesUp(SplitAll(lines), tries - 1))
  }

  /** However many rounds run, the text of the document is unchanged. */
  lemma {:induction false} NormalizedKeepsText(lines: seq<string>, tries: nat)
    requires tries >= 1
    ensures Concat(Normalized(lines, tries)) == Concat(lines)
    decreases tries
  {
    if !NoBoundaries(lines) {
      SplitAllKeepsText(lines);
      if tries > 1 {
        NormalizedKeepsText(SplitAll(lines), tries - 1);
      }
    }
  }

  /** Unless the converter gave up, no line of the result holds a boundary. */
  lemma {:induction false} NormalizedIsSingleTag(lines: seq<string>, tries: nat)
    requires tries >= 1
    requires !GivesUp(lines, tries)
    ensures NoBoundaries(Normalized(lines, tries))
    decreases tries
  {
    if !NoBoundaries(lines) && tries > 1 {
      var next := SplitAll(lines);
      RoundStep(lines, tries, next);
      NormalizedIsSingleTag(next, tries - 1);
    }
  }

  lemma RoundStep(lines: seq<string>, tries: nat, next: seq<string>)
    requires tries > 1 && !NoBoundaries(lines) && next == SplitAll(lines)
    ensures Normalized(lines, tries) == Normalized(next, tries - 1)
    ensures GivesUp(lines, tries) == GivesUp(next, tries - 1)
  {
  }

  /** Normalizing a normalized document is a no-op and never warns. */
  lemma NormalizedIdempotent(lines: seq<string>, tries: nat)
    requires tries >= 1
    requires NoBoundaries(lines)
    ensures Normalized(lines, tries) == lines && !GivesUp(lines, tries)
  {
  }

  /**
   * The first pass: up to `tries` rounds (the converter runs ten); when the
   * last round still cut a line, the warning "possible conversion problems"
   * is issued.
   */
  method Normalize(lines: seq<string>, tries: nat) returns (out: seq<string>, warned: bool)
    requires tries >= 1
    ensures out == Normalized(lines, tries)
    ensures warned == GivesUp(lines, tries)
    ensures Concat(out) == Concat(lines)
    ensures !warned ==> NoBoundaries(out)
  {
    NormalizedKeepsText(lines, tries);
    if !GivesUp(lines, tries) {
      NormalizedIsSingleTag(lines, tries);
    }
    out, warned := lines, false;
    var i := tries;
    var done := false;
    while !done
      invariant 1 <= i <= tries
      invariant !done ==> !warned && Normalized(out, i) == Normalized(lines, tries) && GivesUp(out, i) == GivesUp(lines, tries)
      invariant done ==> out == Normalized(lines, tries) && warned == GivesUp(lines, tries)
      decreases i, if done then 0 else 1
    {
      var next, found := SplitMultipleTagLines(out);
      if !found {
        done := true;
      } else if i <= 1 {
        out := next;
        warned, done := true, true;
      } else {
        out := next;
        i := i - 1;
      }
    }
  }
}
