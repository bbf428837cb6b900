/**
 * Pass 2 of the converter: the lines become records `[tag, text]`, a comment
 * naming the converter is inserted after the `<widget` line, and every
 * comment line, on one line or spread over several, is tagged as a comment so
 * that the later passes leave it alone.
 */
module Classifier {
  import opened Strings
  import opened Records
  import opened Patterns

  /** The records start numbered: record `i` is `[i, line i]`. */
  function Numbered(lines: seq<string>): (a: seq<Record>)
    ensures |a| == |lines|
    ensures forall i :: 0 <= i < |lines| ==> a[i].tag == Code(i) && a[i].text == lines[i]
  {
    seq(|lines|, i requires 0 <= i < |lines| => Record(Code(i), lines[i]))
  }

  method NumberLines(lines: seq<string>) returns (a: seq<Record>)
    ensures a == Numbered(lines)
  {
    a := [];
    var i := 0;
    while i < |lines|
      invariant i <= |lines| && |a| == i
      invariant forall j :: 0 <= j < i ==> a[j] == Record(Code(j), lines[j])
    {
      a := a + [Record(Code(i), lines[i])];
      i := i + 1;
    }
  }

  /** `/<widget.*>/.test(line)`: the record holds the opening `<widget` tag. */
  predicate IsWidgetOpen(s: string) {
    Spans(s, "<widget", ">")
  }

  /**
   * The comment record inserted after `<widget`. The name the converter is
   * run under and the local time are given, not computed.
   */
  function ProvenanceNote(creator: string, stamp: string): Record {
    Record(Comment, "<!-- This config.xml file created by " + creator + " at " + stamp + " -->")
  }

  /**
   * The `forEach` that inserts the note, from visit `index` on with `count`
   * visits left: the number of visits is fixed when the `forEach` starts,
   * although every insertion lengthens the array.
   */
  function Visit(a: seq<Record>, index: nat, count: nat, note: Record): seq<Record>
    decreases count
  {
    if count == 0 || index >= |a| then a
    else if IsWidgetOpen(a[index].text) then Visit(a[..index + 1] + [note] + a[index + 1..], index + 1, count - 1, note)
    else Visit(a, index + 1, count - 1, note)
  }

  function WithProvenance(a: seq<Record>, note: Record): seq<Record> {
    Visit(a, 0, |a|, note)
  }

  method InsertProvenance(a: seq<Record>, note: Record) returns (b: seq<Record>)
    ensures b == WithProvenance(a, note)
  {
    b := a;
    var index := 0;
    while index < |a|
      invariant index <= |a| <= |b|
      invariant Visit(b, index, |a| - index, note) == WithProvenance(a, note)
    {
      if IsWidgetOpen(b[index].text) {
        b := b[..index + 1] + [note] + b[index + 1..];
      }
      index := index + 1;
    }
  }

  /** Visits that meet no `<widget` line change nothing. */
  lemma {:induction false} VisitQuiet(a: seq<Record>, index: nat, count: nat, note: Record)
    requires forall j :: index <= j < index + count && j < |a| ==> !IsWidgetOpen(a[j].text)
    ensures Visit(a, index, count, note) == a
    decreases count
  {
    if count > 0 && index < |a| {
      VisitQuiet(a, index + 1, count - 1, note);
    }
  }

  /** Without a `<widget` line the note is not inserted. */
  lemma NoWidgetNoProvenance(a: seq<Record>, note: Record)
    requires forall j :: 0 <= j < |a| ==> !IsWidgetOpen(a[j].text)
    ensures WithProvenance(a, note) == a
  {
    VisitQuiet(a, 0, |a|, note);
  }

  /**
   * With a single `<widget` line, at index `p`, the note is inserted once,
   * directly after it, and every other record keeps its place relative to
   * the others.
   */
  lemma ProvenanceAfterWidget(a: seq<Record>, note: Record, p: nat)
    requires p < |a| && IsWidgetOpen(a[p].text) && !IsWidgetOpen(note.text)
    requires forall j :: 0 <= j < |a| && j != p ==> !IsWidgetOpen(a[j].text)
    ensures WithProvenance(a, note) == a[..p + 1] + [note] + a[p + 1..]
  {
    VisitSkip(a, 0, |a|, note, p);
    var b := a[..p + 1] + [note] + a[p + 1..];
    forall j | p + 1 <= j < p + 1 + (|a| - p - 1) && j < |b|
      ensures !IsWidgetOpen(b[j].text)
    {
      if j > p + 1 {
        assert b[j] == a[j - 1];
      }
    }
    VisitQuiet(b, p + 1, |a| - p - 1, note);
  }

  lemma {:induction false} VisitSkip(a: seq<Record>, index: nat, count: nat, note: Record, p: nat)
    requires index <= p < |a| && p < index + count && IsWidgetOpen(a[p].text)
    requires forall j :: index <= j < p ==> !IsWidgetOpen(a[j].text)
    ensures Visit(a, index, count, note) == Visit(a[..p + 1] + [note] + a[p + 1..], p + 1, count - (p - index) - 1, note)
    decreases p - index
  {
    if index < p {
      VisitSkip(a, index + 1, count - 1, note, p);
    }
  }

  /** A phrase of the XDK's own header comments, which the current edition removes. */
  predicate IsXdkBoilerplate(s: string) {
    Contains(s, "generated by the Intel XDK") || Contains(s, "change the contents of this file")
  }

  const RemovedComment := "<!-- original comment removed -->"

  /**
   * One record through the single-line comment step: a line matching
   * `<!--.*-->` becomes a comment; with `scrub` (the current edition) the
   * XDK's header comments are also replaced by a short note.
   */
  function MarkComment(r: Record, scrub: bool): Record {
    if !Spans(r.text, "<!--", "-->") then r
    else if scrub && IsXdkBoilerplate(r.text) then Record(Comment, RemovedComment)
    else Record(Comment, r.text)
  }

  function MarkedComments(a: seq<Record>, scrub: bool): (b: seq<Record>)
    ensures |b| == |a|
  {
    seq(|a|, i requires 0 <= i < |a| => MarkComment(a[i], scrub))
  }

  method MarkSingleLineComments(a: seq<Record>, scrub: bool) returns (b: seq<Record>)
    ensures b == MarkedComments(a, scrub)
  {
    b := a;
    var i := 0;
    while i < |b|
      invariant i <= |b| == |a|
      invariant forall j :: 0 <= j < i ==> b[j] == MarkComment(a[j], scrub)
      invariant forall j :: i <= j < |b| ==> b[j] == a[j]
    {
      if Spans(b[i].text, "<!--", "-->") {
        b := b[i := b[i].(tag := Comment)];
        if scrub && IsXdkBoilerplate(b[i].text) {
          b := b[i := b[i].(text := RemovedComment)];
        }
      }
      i := i + 1;
    }
  }

  /**
   * The step only ever tags as a comment: a record ends up a comment exactly
   * when it was one or holds a one-line comment. Its text changes only when
   * it is an XDK header comment and `scrub` is set, and with `scrub` every
   * one-line XDK header comment is replaced by the short note.
   */
  lemma MarkCommentTags(r: Record, scrub: bool)
    ensures MarkComment(r, scrub).tag == Comment <==> r.tag == Comment || Spans(r.text, "<!--", "-->")
    ensures MarkComment(r, scrub).text != r.text ==> scrub && IsXdkBoilerplate(r.text) && MarkComment(r, scrub).text == RemovedComment
    ensures !scrub ==> MarkComment(r, scrub).text == r.text
    ensures scrub && Spans(r.text, "<!--", "-->") && IsXdkBoilerplate(r.text) ==> MarkComment(r, scrub) == Record(Comment, RemovedComment)
    ensures Spans(r.text, "<!--", "-->") && !(scrub && IsXdkBoilerplate(r.text)) ==> MarkComment(r, scrub) == Record(Comment, r.text)
  {
  }

  /** Records `lo` up to (not including) `hi` tagged as comments; the rest unchanged. */
  function CommentOut(a: seq<Record>, lo: nat, hi: nat): (r: seq<Record>)
    requires lo <= hi <= |a|
    ensures |r| == |a|
    ensures forall j :: 0 <= j < |a| ==> r[j] == if lo <= j < hi then Record(Comment, a[j].text) else a[j]
  {
    seq(|a|, j requires 0 <= j < |a| => if lo <= j < hi then Record(Comment, a[j].text) else a[j])
  }

  /** The first record at or after `j` whose text holds `-->`, or -1. */
  function CloserFrom(a: seq<Record>, j: nat): (c: int)
    decreases |a| - j
    ensures c == -1 || (j <= c < |a| && Contains(a[c].text, "-->"))
    ensures c != -1 ==> forall q :: j <= q < c ==> !Contains(a[q].text, "-->")
    ensures c == -1 ==> forall q :: j <= q < |a| ==> !Contains(a[q].text, "-->")
  {
    if j >= |a| then -1
    else if Contains(a[j].text, "-->") then j
    else CloserFrom(a, j + 1)
  }

  /** A code record that opens a comment: the loop below starts a span there. */
  predicate Opens(r: Record) {
    r.tag != Comment && Contains(r.text, "<!--")
  }

  /**
   * The multi-line comment loop from record `i` on. An opener tags itself and
   * every record up to and including the next record holding `-->`, and the
   * loop goes on after that record. When no later record holds `-->`, the
   * loop reads the text of the record past the end and the converter stops
   * with an uncaught `TypeError`: None.
   */
  function MarkSpans(a: seq<Record>, i: nat): Option<seq<Record>>
    decreases |a| - i
  {
    if i >= |a| then Some(a)
    else if Opens(a[i]) then
      var c := CloserFrom(a, i + 1);
      if c == -1 then None else MarkSpans(CommentOut(a, i, c + 1), c + 1)
    else MarkSpans(a, i + 1)
  }

  /**
   * The inner `do ... while`: the opener at `o` and every record through the
   * next one holding `-->` are tagged as comments; None when the array ends
   * first.
   */
  method MarkThrough(a: seq<Record>, o: nat) returns (r: Option<seq<Record>>, c: int)
    requires o < |a|
    ensures c == CloserFrom(a, o + 1)
    ensures r == if c == -1 then None else Some(CommentOut(a, o, c + 1))
  {
    var b := a[o := a[o].(tag := Comment)];
    var i := o + 1;
    if i == |a| {
      return None, -1;
    }
    while !Contains(b[i].text, "-->")
      invariant o < i < |a| == |b|
      invariant b == CommentOut(a, o, i)
      invariant CloserFrom(a, o + 1) == CloserFrom(a, i)
      decreases |a| - i
    {
      b := b[i := b[i].(tag := Comment)];
      i := i + 1;
      if i == |a| {
        return None, -1;
      }
    }
    assert b[i].text == a[i].text;
    assert CloserFrom(a, i) == i;
    b := b[i := b[i].(tag := Comment)];
    assert b == CommentOut(a, o, i + 1);
    return Some(b), i;
  }

  method MarkMultiLineComments(a0: seq<Record>) returns (r: Option<seq<Record>>)
    ensures r == MarkSpans(a0, 0)
  {
    var a := a0;
    var i := 0;
    while i < |a|
      invariant |a| == |a0| && i <= |a|
      invariant MarkSpans(a, i) == MarkSpans(a0, 0)
    {
      if a[i].tag != Comment && Contains(a[i].text, "<!--") {
        var marked, c := MarkThrough(a, i);
        if marked.None? {
          return None;
        }
        a, i := marked.value, c;
      }
      i := i + 1;
    }
    return Some(a);
  }

  /**
   * Whatever the loop returns keeps every text, never untags a comment,
   * leaves the records before `i` alone, and leaves no code record from `i`
   * on that still opens a comment.
   */
  lemma MarkSpansSound(a: seq<Record>, i: nat)
    requires MarkSpans(a, i).Some?
    ensures var r := MarkSpans(a, i).value;
      && KeepsComments(a, r)
      && (forall j :: 0 <= j < |a| ==> r[j].text == a[j].text)
      && (forall j :: 0 <= j < i && j < |a| ==> r[j] == a[j])
      && (forall j :: i <= j < |r| ==> !Opens(r[j]))
  {
    MarkSpansKeeps(a, i);
    MarkSpansClears(a, i);
  }

  lemma {:induction false} MarkSpansKeeps(a: seq<Record>, i: nat)
    requires MarkSpans(a, i).Some?
    ensures var r := MarkSpans(a, i).value;
      && KeepsComments(a, r)
      && (forall j :: 0 <= j < |a| ==> r[j].text == a[j].text)
      && (forall j :: 0 <= j < i && j < |a| ==> r[j] == a[j])
    decreases |a| - i
  {
    if i < |a| {
      if Opens(a[i]) {
        MarkSpansKeeps(CommentOut(a, i, CloserFrom(a, i + 1) + 1), CloserFrom(a, i + 1) + 1);
      } else {
        MarkSpansKeeps(a, i + 1);
      }
    }
  }

  lemma {:induction false} MarkSpansClears(a: seq<Record>, i: nat)
    requires MarkSpans(a, i).Some?
    ensures |MarkSpans(a, i).value| == |a|
    ensures forall j :: i <= j < |a| ==> !Opens(MarkSpans(a, i).value[j])
    decreases |a| - i
  {
    if i < |a| {
      if Opens(a[i]) {
        var c := CloserFrom(a, i + 1);
        var b := CommentOut(a, i, c + 1);
        MarkSpansClears(b, c + 1);
        MarkSpansKeeps(b, c + 1);
      } else {
        MarkSpansClears(a, i + 1);
        MarkSpansKeeps(a, i + 1);
      }
    }
  }

  /** Without an opener from `i` on, the loop changes nothing. */
  lemma {:induction false} MarkSpansQuiet(a: seq<Record>, i: nat)
    requires forall j :: i <= j < |a| ==> !Opens(a[j])
    ensures MarkSpans(a, i) == Some(a)
    decreases |a| - i
  {
    if i < |a| {
      MarkSpansQuiet(a, i + 1);
    }
  }

  /**
   * Scanning from `from`, with a first opener at `o`, a later closer, and no
   * opener after that closer, the records from the opener through the first later record
   * holding `-->` become comments and nothing else changes (an opener inside
   * the comment is tagged with it).
   */
  lemma MarkSpansSingle(a: seq<Record>, from: nat, o: nat)
    requires from <= o < |a| && Opens(a[o]) && CloserFrom(a, o + 1) != -1
    requires forall j :: from <= j < o ==> !Opens(a[j])
    requires forall j :: CloserFrom(a, o + 1) < j < |a| ==> !Opens(a[j])
    ensures MarkSpans(a, from) == Some(CommentOut(a, o, CloserFrom(a, o + 1) + 1))
  {
    var c := CloserFrom(a, o + 1);
    MarkSpansReach(a, from, o);
    MarkSpansAtOpener(a, o);
    SingleTail(a, o, c + 1);
  }

  lemma SingleTail(a: seq<Record>, o: nat, e: nat)
    requires o < e <= |a|
    requires forall j :: e <= j < |a| ==> !Opens(a[j])
    ensures MarkSpans(CommentOut(a, o, e), e) == Some(CommentOut(a, o, e))
  {
    var b := CommentOut(a, o, e);
    assert forall j :: e <= j < |a| ==> b[j] == a[j];
    MarkSpansQuiet(b, e);
  }

  lemma MarkSpansAtOpener(a: seq<Record>, o: nat)
    requires o < |a| && Opens(a[o]) && CloserFrom(a, o + 1) != -1
    ensures MarkSpans(a, o) == MarkSpans(CommentOut(a, o, CloserFrom(a, o + 1) + 1), CloserFrom(a, o + 1) + 1)
  {
  }

  lemma {:induction false} MarkSpansReach(a: seq<Record>, i: nat, o: nat)
    requires i <= o < |a|
    requires forall j :: i <= j < o ==> !Opens(a[j])
    ensures MarkSpans(a, i) == MarkSpans(a, o)
    decreases o - i
  {
    if i < o {
      MarkSpansReach(a, i + 1, o);
    }
  }

  /** The opener at `o` is never closed: no later record holds `-->`. */
  predicate Unclosed(a: seq<Record>, o: int) {
    0 <= o < |a| && Opens(a[o]) && forall j :: o < j < |a| ==> !Contains(a[j].text, "-->")
  }

  /** The converter stops only because of an opener that is never closed. */
  lemma {:induction false} CrashNeedsUnclosed(a: seq<Record>, i: nat)
    requires MarkSpans(a, i) == None
    ensures exists o :: i <= o < |a| && Unclosed(a, o)
    decreases |a| - i
  {
    if Opens(a[i]) {
      var c := CloserFrom(a, i + 1);
      if c == -1 {
        assert Unclosed(a, i);
      } else {
        var b := CommentOut(a, i, c + 1);
        CrashNeedsUnclosed(b, c + 1);
        var o :| c + 1 <= o < |b| && Unclosed(b, o);
        assert Unclosed(a, o);
      }
    } else {
      CrashNeedsUnclosed(a, i + 1);
    }
  }

  /**
   * Conversely, an opener that is never closed, and is not itself the
   * closing line of an earlier span, stops the converter.
   */
  lemma {:induction false} UnclosedCrashes(a: seq<Record>, i: nat, o: nat)
    requires i <= o && Unclosed(a, o) && !Contains(a[o].text, "-->")
    ensures MarkSpans(a, i) == None
    decreases |a| - i
  {
    if i < o {
      if Opens(a[i]) {
        var c := CloserFrom(a, i + 1);
        if c != -1 {
          var b := CommentOut(a, i, c + 1);
          assert Unclosed(b, o);
          UnclosedCrashes(b, c + 1, o);
        }
      } else {
        UnclosedCrashes(a, i + 1, o);
      }
    }
  }
}
