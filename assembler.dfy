/**
 * The closing step of the current edition: three Android `config-file`
 * lines are spliced in front of the `</widget>` record, for PhoneGap Build.
 *
 * The script does this inside `forEach`, splicing in front of the record
 * being visited. `forEach` fixes the number of visits when it starts, and
 * the splice moves the visited record three places on, so it is met again
 * three visits later: when three or more records follow `</widget>`, the
 * lines are inserted more than once; and since the visits are counted
 * before the first splice, a `</widget>` record within three records of the
 * end of the input may never be visited. `AsWritten` models the loop as the
 * script runs it, and is what the converter's run uses; `Corrected` inserts
 * the lines once before each `</widget>` record, which is what the script
 * sets out to do.
 */
module Assembler {
  import opened Strings
  import opened Records
  import opened Patterns

  const ConfigOpen := "<config-file" + " platform=\"android\"" + " parent=\"/manifest/application\"" + " mode=\"merge\">"
  const Activity := "    <activity" + " android:launchMode=\"singleTop\"" + " />"
  const ConfigClose := "</config-file>"

  /** The three records spliced in; their tag is the number 0. */
  const Boilerplate := [Record(Code(0), ConfigOpen), Record(Code(0), Activity), Record(Code(0), ConfigClose)]

  /** `/<\/widget.*>/.test(record)`: the record's text holds `</widget` and, later on its line, `>`. */
  predicate ClosesWidget(r: Record) {
    Spans(r.text, "</widget", ">")
  }

  /** A text that lacks one of the characters of `open` has no match of `open.*close`. */
  lemma NoSpanWithout(s: string, open: string, close: string, d: nat)
    requires d < |open| && open[d] !in s
    ensures !Spans(s, open, close)
  {
    NotContainsChar(s, open, d);
    SpansFromMeans(s, open, close, 0);
  }

  lemma ConfigOpenIsQuiet()
    ensures !ClosesWidget(Record(Code(0), ConfigOpen))
  {
    assert 'w' !in ConfigOpen;
    NoSpanWithout(ConfigOpen, "</widget", ">", 2);
  }

  lemma ActivityIsQuiet()
    ensures !ClosesWidget(Record(Code(0), Activity))
  {
    assert 'w' !in Activity;
    NoSpanWithout(Activity, "</widget", ">", 2);
  }

  lemma ConfigCloseIsQuiet()
    ensures !ClosesWidget(Record(Code(0), ConfigClose))
  {
    assert 'w' !in ConfigClose;
    NoSpanWithout(ConfigClose, "</widget", ">", 2);
  }

  /** None of the inserted records closes the widget. */
  lemma BoilerplateIsQuiet()
    ensures forall i :: 0 <= i < |Boilerplate| ==> !ClosesWidget(Boilerplate[i])
  {
    ConfigOpenIsQuiet();
    ActivityIsQuiet();
    ConfigCloseIsQuiet();
  }

  /**
   * `forEach` from visit `k` on, when it makes `n` visits in all: the record
   * at index `k` of the array as it then stands is matched against
   * `</widget.*>`, and a match splices the lines in front of it.
   */
  function Visit(arr: seq<Record>, k: nat, n: nat): seq<Record>
    requires n <= |arr|
    decreases n - k
  {
    if k >= n then arr else Visit(Next(arr, k), k + 1, n)
  }

  /** One visit: the lines spliced in front of record `k` when it closes the widget. */
  function Next(arr: seq<Record>, k: nat): (r: seq<Record>)
    requires k < |arr|
    ensures |r| >= |arr|
  {
    if ClosesWidget(arr[k]) then arr[..k] + Boilerplate + arr[k..] else arr
  }

  /** The closing step as the script runs it. */
  function AsWritten(rs: seq<Record>): seq<Record> {
    Visit(rs, 0, |rs|)
  }

  /** A record, preceded by the lines when it closes the widget. */
  function Fixed(r: Record): seq<Record> {
    if ClosesWidget(r) then Boilerplate + [r] else [r]
  }

  /** The closing step as intended: the lines once before each `</widget>` record. */
  function Corrected(rs: seq<Record>): seq<Record>
    decreases |rs|
  {
    if rs == [] then [] else Corrected(rs[..|rs| - 1]) + Fixed(rs[|rs| - 1])
  }

  /** The number of `</widget>` records. */
  function Closers(rs: seq<Record>): nat
    decreases |rs|
  {
    if rs == [] then 0 else Closers(rs[..|rs| - 1]) + (if ClosesWidget(rs[|rs| - 1]) then 1 else 0)
  }

  lemma {:induction false} CorrectedAppend(a: seq<Record>, b: seq<Record>)
    ensures Corrected(a + b) == Corrected(a) + Corrected(b)
    decreases |b|
  {
    if b == [] {
      assert a + b == a;
    } else {
      var front := b[..|b| - 1];
      assert (a + b)[..|a + b| - 1] == a + front;
      CorrectedAppend(a, front);
    }
  }

  /** Without a `</widget>` record nothing is inserted. */
  lemma {:induction false} CorrectedQuiet(rs: seq<Record>)
    requires forall i :: 0 <= i < |rs| ==> !ClosesWidget(rs[i])
    ensures Corrected(rs) == rs
    decreases |rs|
  {
    if rs != [] {
      var front := rs[..|rs| - 1];
      CorrectedQuiet(front);
      assert Fixed(rs[|rs| - 1]) == [rs[|rs| - 1]];
      assert front + [rs[|rs| - 1]] == rs;
    }
  }

  /** Three lines per `</widget>` record, and no more. */
  lemma {:induction false} CorrectedLength(rs: seq<Record>)
    ensures |Corrected(rs)| == |rs| + 3 * Closers(rs)
    decreases |rs|
  {
    if rs != [] {
      CorrectedLength(rs[..|rs| - 1]);
    }
  }

  /** Every `</widget>` record comes straight after the three lines. */
  predicate Guarded(s: seq<Record>) {
    forall i :: 0 <= i < |s| && ClosesWidget(s[i]) ==> 3 <= i && s[i - 3..i] == Boilerplate
  }

  /** Within what `Fixed` makes of a record, only the record itself can close the widget, after the three lines. */
  lemma FixedCloser(r: Record, k: nat)
    requires k < |Fixed(r)| && ClosesWidget(Fixed(r)[k])
    ensures k == 3 && Fixed(r)[..3] == Boilerplate
  {
    BoilerplateIsQuiet();
    assert ClosesWidget(r) ==> Fixed(r) == Boilerplate + [r];
    assert !ClosesWidget(r) ==> Fixed(r) == [r];
  }

  lemma GuardedSnoc(front: seq<Record>, r: Record)
    requires Guarded(front)
    ensures Guarded(front + Fixed(r))
  {
    var out := front + Fixed(r);
    forall i | 0 <= i < |out| && ClosesWidget(out[i])
      ensures 3 <= i && out[i - 3..i] == Boilerplate
    {
      if i < |front| {
        assert out[i] == front[i];
        assert out[i - 3..i] == front[i - 3..i];
      } else {
        assert out[i] == Fixed(r)[i - |front|];
        FixedCloser(r, i - |front|);
        assert out[i - 3..i] == Fixed(r)[..3];
      }
    }
  }

  /**
   * Every `</widget>` record of the output comes straight after the three
   * lines.
   */
  lemma {:induction false} CorrectedPrecedes(rs: seq<Record>)
    ensures forall i :: 0 <= i < |Corrected(rs)| && ClosesWidget(Corrected(rs)[i]) ==>
      3 <= i && Corrected(rs)[i - 3..i] == Boilerplate
    decreases |rs|
  {
    if rs != [] {
      CorrectedPrecedes(rs[..|rs| - 1]);
      GuardedSnoc(Corrected(rs[..|rs| - 1]), rs[|rs| - 1]);
    }
  }

  /** Visits that meet no `</widget>` change nothing. */
  lemma {:induction false} VisitQuiet(arr: seq<Record>, k: nat, n: nat)
    requires n <= |arr|
    requires forall j :: k <= j < n ==> !ClosesWidget(arr[j])
    ensures Visit(arr, k, n) == arr
    decreases n - k
  {
    if k < n {
      VisitQuiet(arr, k + 1, n);
    }
  }

  /** The intended output for one record more: the previous output and what `Fixed` makes of that record. */
  lemma CorrectedCut(rs: seq<Record>, k: nat)
    requires 0 < k <= |rs|
    ensures Corrected(rs[..k]) == Corrected(rs[..k - 1]) + Fixed(rs[k - 1])
  {
    assert rs[..k][..k - 1] == rs[..k - 1];
  }

  lemma SliceSnoc(rs: seq<Record>, h: seq<Record>, w: nat, k: nat)
    requires w < k <= |rs|
    ensures h + rs[w..k] == (h + rs[w..k - 1]) + [rs[k - 1]]
  {
    assert rs[w..k] == rs[w..k - 1] + [rs[k - 1]];
  }

  /** Before the first `</widget>` record nothing is inserted. */
  lemma {:induction false} CorrectedBefore(rs: seq<Record>, k: nat)
    requires k <= |rs|
    requires forall j :: 0 <= j < k ==> !ClosesWidget(rs[j])
    ensures Corrected(rs[..k]) == rs[..k]
    decreases k
  {
    if k > 0 {
      CorrectedCut(rs, k);
      CorrectedBefore(rs, k - 1);
      SliceSnoc(rs, [], 0, k);
    }
  }

  lemma LastShape(rs: seq<Record>, w: nat)
    requires w == |rs| - 1
    ensures rs[..w] + (Boilerplate + [rs[w]]) == rs[..w] + Boilerplate + rs[w..]
  {
    assert rs[w..] == [rs[w]];
  }

  lemma SnocShape(rs: seq<Record>, w: nat)
    requires w < |rs| - 1
    ensures (rs[..|rs| - 1][..w] + Boilerplate + rs[..|rs| - 1][w..]) + [rs[|rs| - 1]] == rs[..w] + Boilerplate + rs[w..]
  {
    var front := rs[..|rs| - 1];
    assert front[..w] == rs[..w];
    assert front[w..] + [rs[|rs| - 1]] == rs[w..];
  }

  /** With one `</widget>` record, the intended output has the lines once, right in front of it. */
  lemma {:induction false} CorrectedSingle(rs: seq<Record>, w: nat)
    requires w < |rs| && ClosesWidget(rs[w])
    requires forall j :: 0 <= j < w ==> !ClosesWidget(rs[j])
    requires forall j :: w < j < |rs| ==> !ClosesWidget(rs[j])
    ensures Corrected(rs) == rs[..w] + Boilerplate + rs[w..]
    decreases |rs|
  {
    if w == |rs| - 1 {
      CorrectedBefore(rs, w);
      LastShape(rs, w);
    } else {
      CorrectedSingle(rs[..|rs| - 1], w);
      SnocShape(rs, w);
    }
  }

  /** The script's loop meets the `</widget>` record at index `w` and splices the lines in front of it. */
  lemma VisitFirstCloser(rs: seq<Record>, w: nat)
    requires w < |rs| && ClosesWidget(rs[w])
    requires forall j :: 0 <= j < w ==> !ClosesWidget(rs[j])
    ensures AsWritten(rs) == Visit(rs[..w] + Boilerplate + rs[w..], w + 1, |rs|)
  {
    VisitSkips(rs, 0, w, |rs|);
  }

  /** The two records after the first spliced line are the other two spliced lines, which the loop passes over. */
  lemma SpliceQuiet(h: seq<Record>, t: seq<Record>)
    ensures forall j :: |h| + 1 <= j < |h| + 3 ==> !ClosesWidget((h + Boilerplate + t)[j])
  {
    BoilerplateIsQuiet();
    var arr := h + Boilerplate + t;
    assert arr[|h| + 1] == Boilerplate[1] && arr[|h| + 2] == Boilerplate[2];
  }

  /** With one `</widget>` record and at most two records after it, the loop as written splices the lines in once. */
  lemma AsWrittenSingle(rs: seq<Record>, w: nat)
    requires w < |rs| && |rs| <= w + 3
    requires ClosesWidget(rs[w])
    requires forall j :: 0 <= j < w ==> !ClosesWidget(rs[j])
    ensures AsWritten(rs) == rs[..w] + Boilerplate + rs[w..]
  {
    var arr := rs[..w] + Boilerplate + rs[w..];
    VisitFirstCloser(rs, w);
    SpliceQuiet(rs[..w], rs[w..]);
    VisitQuiet(arr, w + 1, |rs|);
  }

  /**
   * The duplication: a `</widget>` record followed by three records that do
   * not close the widget gets the lines twice, where once was meant.
   */
  lemma AsWrittenDuplicates(c: Record, x: Record, y: Record, z: Record)
    requires ClosesWidget(c) && !ClosesWidget(x) && !ClosesWidget(y) && !ClosesWidget(z)
    ensures AsWritten([c, x, y, z]) == Boilerplate + Boilerplate + [c, x, y, z]
    ensures Corrected([c, x, y, z]) == Boilerplate + [c, x, y, z]
  {
    VisitedTwice([c, x, y, z]);
    CorrectedAtHead(c, x, y, z);
  }

  lemma VisitedTwice(rs: seq<Record>)
    requires |rs| == 4 && ClosesWidget(rs[0])
    ensures AsWritten(rs) == Boilerplate + Boilerplate + rs
  {
    var once := Boilerplate + rs;
    VisitFirstCloser(rs, 0);
    assert rs[..0] + Boilerplate + rs[0..] == once;
    SpliceQuiet([], rs);
    assert [] + Boilerplate + rs == once;
    VisitSkips(once, 1, 3, 4);
    SecondVisit(rs, once);
  }

  lemma CorrectedAtHead(c: Record, x: Record, y: Record, z: Record)
    requires ClosesWidget(c) && !ClosesWidget(x) && !ClosesWidget(y) && !ClosesWidget(z)
    ensures Corrected([c, x, y, z]) == Boilerplate + [c, x, y, z]
  {
    var rs := [c, x, y, z];
    CorrectedSingle(rs, 0);
    assert rs[..0] + Boilerplate + rs[0..] == Boilerplate + rs;
  }

  /** The `</widget>` record, pushed to index 3 by the first splice, is visited a second time. */
  lemma SecondVisit(rs: seq<Record>, once: seq<Record>)
    requires |rs| == 4 && ClosesWidget(rs[0]) && once == Boilerplate + rs
    ensures Visit(once, 3, 4) == Boilerplate + Boilerplate + rs
  {
    assert once[3] == rs[0];
    assert once[..3] + Boilerplate + once[3..] == Boilerplate + Boilerplate + rs;
  }

  /** `</widget>` closes the widget: an input for which the loop as written duplicates the lines. */
  lemma ClosingTagCloses()
    ensures ClosesWidget(Record(Code(0), "</widget>"))
    ensures !ClosesWidget(Record(Code(1), ""))
  {
    var s := "</widget>";
    assert At(s, 0, "</widget") && At(s, 8, ">");
    assert SpanAt(s, 0, "</widget", ">");
  }

  /** Visits before the first `</widget>` change nothing. */
  lemma {:induction false} VisitSkips(arr: seq<Record>, k: nat, w: nat, n: nat)
    requires k <= w < n <= |arr|
    requires forall j :: k <= j < w ==> !ClosesWidget(arr[j])
    ensures Visit(arr, k, n) == Visit(arr, w, n)
    decreases w - k
  {
    if k < w {
      VisitSkips(arr, k + 1, w, n);
    }
  }

  /** Each visit adds three records or none: `m` visits spliced. */
  lemma {:induction false} VisitLength(arr: seq<Record>, k: nat, n: nat) returns (m: nat)
    requires k <= n <= |arr|
    ensures m <= n - k && |Visit(arr, k, n)| == |arr| + 3 * m
    decreases n - k
  {
    if k == n {
      m := 0;
    } else if ClosesWidget(arr[k]) {
      var next := arr[..k] + Boilerplate + arr[k..];
      assert |next| == |arr| + 3;
      assert Visit(arr, k, n) == Visit(next, k + 1, n);
      var m' := VisitLength(next, k + 1, n);
      m := m' + 1;
    } else {
      assert Visit(arr, k, n) == Visit(arr, k + 1, n);
      m := VisitLength(arr, k + 1, n);
    }
  }

  lemma ThreeTimes(m: nat)
    ensures (3 * m) % 3 == 0
  {
  }

  /** `q` is the first record of `s` that closes the widget. */
  predicate FirstCloser(s: seq<Record>, q: nat) {
    q < |s| && ClosesWidget(s[q]) && forall j :: 0 <= j < q ==> !ClosesWidget(s[j])
  }

  /** The first closer of `s` is at `q`, straight after the three lines. */
  predicate Served(s: seq<Record>, q: nat) {
    FirstCloser(s, q) && 3 <= q && s[q - 3..q] == Boilerplate
  }

  /** A record that closes the widget has a first one at or before it. */
  lemma {:induction false} FirstOf(rs: seq<Record>, w: nat) returns (f: nat)
    requires w < |rs| && ClosesWidget(rs[w])
    ensures f <= w && FirstCloser(rs, f)
    decreases w
  {
    if j :| 0 <= j < w && ClosesWidget(rs[j]) {
      f := FirstOf(rs, j);
    } else {
      f := w;
    }
  }

  /** Splicing the lines in front of the first closer: it moves three places on, right after them. */
  lemma SpliceAtFirst(arr: seq<Record>, p: nat)
    requires FirstCloser(arr, p)
    ensures var out := arr[..p] + Boilerplate + arr[p..];
      Served(out, p + 3) && out[p + 3] == arr[p] && out[..p] == arr[..p]
  {
    BoilerplateIsQuiet();
    var out := arr[..p] + Boilerplate + arr[p..];
    forall j | 0 <= j < p + 3
      ensures !ClosesWidget(out[j])
    {
      if j < p {
        assert out[j] == arr[j];
      } else {
        assert out[j] == Boilerplate[j - p];
      }
    }
    assert out[p..p + 3] == Boilerplate;
  }

  /** Splicing the lines in after the first closer leaves it, and what precedes it, where they were. */
  lemma SpliceAfterFirst(arr: seq<Record>, p: nat, k: nat)
    requires Served(arr, p) && p < k <= |arr|
    ensures var out := arr[..k] + Boilerplate + arr[k..];
      Served(out, p) && out[p] == arr[p] && out[..p] == arr[..p]
  {
    var out := arr[..k] + Boilerplate + arr[k..];
    assert forall j :: 0 <= j < k ==> out[j] == arr[j];
    assert out[p - 3..p] == arr[p - 3..p];
    assert out[..p] == arr[..p];
  }

  /**
   * Once the first closer comes straight after the lines, later visits keep
   * it so: they splice in front of it again, or after it.
   */
  lemma {:induction false} VisitKeepsFirst(arr: seq<Record>, k: nat, n: nat, p: nat) returns (q: nat)
    requires n <= |arr| && Served(arr, p)
    ensures var out := Visit(arr, k, n);
      Served(out, q) && out[q] == arr[p] && p - 3 <= |out| && out[..p - 3] == arr[..p - 3]
    decreases n - k
  {
    if k >= n {
      q := p;
    } else {
      var p' := NextServes(arr, k, p);
      q := VisitKeepsFirst(Next(arr, k), k + 1, n, p');
      PrefixOfPrefix(Visit(arr, k, n), Next(arr, k), arr, p, p');
    }
  }

  /** One visit keeps the first closer straight after the lines, and what comes before them. */
  lemma NextServes(arr: seq<Record>, k: nat, p: nat) returns (p': nat)
    requires k < |arr| && Served(arr, p)
    ensures var next := Next(arr, k);
      Served(next, p') && next[p'] == arr[p] && p <= p' && next[..p] == arr[..p]
  {
    if !ClosesWidget(arr[k]) {
      p' := p;
    } else if k == p {
      SpliceAtFirst(arr, p);
      p' := p + 3;
    } else {
      SpliceAfterFirst(arr, p, k);
      p' := p;
    }
  }

  lemma PrefixOfPrefix(out: seq<Record>, next: seq<Record>, arr: seq<Record>, p: nat, p': nat)
    requires 3 <= p <= p' && p' - 3 <= |out| && p' <= |next| && p <= |arr|
    requires out[..p' - 3] == next[..p' - 3] && next[..p] == arr[..p]
    ensures out[..p - 3] == arr[..p - 3]
  {
    assert out[..p - 3] == out[..p' - 3][..p - 3];
    assert next[..p - 3] == next[..p' - 3][..p - 3] == next[..p][..p - 3];
    assert arr[..p - 3] == arr[..p][..p - 3];
  }

  /**
   * The loop as written always serves the first `</widget>` record: in its
   * output that record comes straight after the three lines, it is the
   * first record that closes the widget, and everything before it is kept.
   */
  lemma AsWrittenFirstGuarded(rs: seq<Record>, w: nat) returns (q: nat)
    requires FirstCloser(rs, w)
    ensures var out := AsWritten(rs);
      Served(out, q) && out[q] == rs[w] && w <= |out| && out[..w] == rs[..w]
  {
    var arr := rs[..w] + Boilerplate + rs[w..];
    VisitFirstCloser(rs, w);
    SpliceAtFirst(rs, w);
    q := VisitKeepsFirst(arr, w + 1, |rs|, w + 3);
    assert arr[..w] == rs[..w];
  }

  /** In the loop's output the first record matching `</widget.*>` comes straight after the three Android lines. */
  lemma AsWrittenFirstAndroid(rs: seq<Record>)
    ensures forall i: nat :: FirstCloser(AsWritten(rs), i) ==> 3 <= i && AsWritten(rs)[i - 3..i] == Boilerplate
  {
    if w :| 0 <= w < |rs| && ClosesWidget(rs[w]) {
      var f := FirstOf(rs, w);
      var q := AsWrittenFirstGuarded(rs, f);
      FirstCloserUnique(AsWritten(rs), q);
    } else {
      AsWrittenLength(rs);
      assert forall i: nat :: !FirstCloser(AsWritten(rs), i);
    }
  }

  lemma FirstCloserUnique(s: seq<Record>, q: nat)
    requires FirstCloser(s, q)
    ensures forall i: nat :: FirstCloser(s, i) ==> i == q
  {
  }

  /**
   * The loop as written adds three records per splice, at most one splice
   * per input record; it adds nothing without a `</widget>` record, and at
   * least the three lines with one.
   */
  lemma AsWrittenLength(rs: seq<Record>)
    ensures |rs| <= |AsWritten(rs)| <= |rs| + 3 * |rs|
    ensures (|AsWritten(rs)| - |rs|) % 3 == 0
    ensures (forall j :: 0 <= j < |rs| ==> !ClosesWidget(rs[j])) ==> AsWritten(rs) == rs
    ensures forall w :: 0 <= w < |rs| && ClosesWidget(rs[w]) ==> |AsWritten(rs)| >= |rs| + 3
  {
    var m := VisitLength(rs, 0, |rs|);
    ThreeTimes(m);
    if forall j :: 0 <= j < |rs| ==> !ClosesWidget(rs[j]) {
      VisitQuiet(rs, 0, |rs|);
    }
    forall w | 0 <= w < |rs| && ClosesWidget(rs[w])
      ensures |AsWritten(rs)| >= |rs| + 3
    {
      var f := FirstOf(rs, w);
      VisitFirstCloser(rs, f);
      var _ := VisitLength(rs[..f] + Boilerplate + rs[f..], f + 1, |rs|);
    }
  }

  /**
   * The other side of the fixed visit count: with two `</widget>` records in
   * a row, the loop ends before it reaches the second, which is left without
   * the lines, where the intended step serves both.
   */
  lemma AsWrittenMissesSecond(c: Record, d: Record)
    requires ClosesWidget(c) && ClosesWidget(d)
    ensures AsWritten([c, d]) == Boilerplate + [c, d]
    ensures !Guarded(AsWritten([c, d]))
    ensures Corrected([c, d]) == Boilerplate + [c] + Boilerplate + [d]
    ensures Guarded(Corrected([c, d]))
  {
    var rs := [c, d];
    var once := Boilerplate + rs;
    VisitFirstCloser(rs, 0);
    assert rs[..0] + Boilerplate + rs[0..] == once;
    SpliceQuiet([], rs);
    assert [] + Boilerplate + rs == once;
    assert Visit(once, 1, 2) == once;
    BoilerplateIsQuiet();
    assert once[4] == d && once[3] == c && once[1..4][2] == c;
    assert once[1..4] != Boilerplate;
    assert rs[..1] == [c];
    assert Corrected([c]) == Boilerplate + [c];
    CorrectedPrecedes(rs);
  }

  /** The loop as the script runs it: a fixed number of visits over a growing array. */
  method AssembleAsWritten(rs: seq<Record>) returns (out: seq<Record>)
    ensures out == AsWritten(rs)
  {
    out := rs;
    var n := |out|;
    for k := 0 to n
      invariant n <= |out|
      invariant Visit(out, k, n) == AsWritten(rs)
    {
      if ClosesWidget(out[k]) {
        out := out[..k] + Boilerplate + out[k..];
      }
    }
  }

  /** One more input record: the output grows by what `Fixed` makes of it, spliced in where the loop stands. */
  lemma CorrectedStep(rs: seq<Record>, j: nat, pre: seq<Record>)
    requires j < |rs| && pre == Corrected(rs[..j])
    ensures (pre + rs[j..])[|pre|] == rs[j]
    ensures ClosesWidget(rs[j]) ==>
      (pre + rs[j..])[..|pre|] + Boilerplate + (pre + rs[j..])[|pre|..] == Corrected(rs[..j + 1]) + rs[j + 1..]
      && |Corrected(rs[..j + 1])| == |pre| + 4
    ensures !ClosesWidget(rs[j]) ==>
      pre + rs[j..] == Corrected(rs[..j + 1]) + rs[j + 1..] && |Corrected(rs[..j + 1])| == |pre| + 1
  {
    CorrectedCut(rs, j + 1);
    StepShape(pre, rs, j);
  }

  lemma StepShape(pre: seq<Record>, rs: seq<Record>, j: nat)
    requires j < |rs|
    ensures (pre + rs[j..])[|pre|] == rs[j]
    ensures (pre + rs[j..])[..|pre|] + Boilerplate + (pre + rs[j..])[|pre|..] == pre + (Boilerplate + [rs[j]]) + rs[j + 1..]
    ensures pre + rs[j..] == pre + [rs[j]] + rs[j + 1..]
  {
    assert rs[j..] == [rs[j]] + rs[j + 1..];
    assert (pre + rs[j..])[..|pre|] == pre;
    assert (pre + rs[j..])[|pre|..] == rs[j..];
  }

  /** The intended loop: the lines spliced in once before each `</widget>` record, which is then passed over. */
  method Assemble(rs: seq<Record>) returns (out: seq<Record>)
    ensures out == Corrected(rs)
  {
    out := rs;
    var i := 0;
    ghost var j := 0;
    while i < |out|
      invariant 0 <= j <= |rs| && i == |Corrected(rs[..j])|
      invariant out == Corrected(rs[..j]) + rs[j..]
      decreases |out| - i
    {
      CorrectedStep(rs, j, out[..i]);
      if ClosesWidget(out[i]) {
        out := out[..i] + Boilerplate + out[i..];
        i := i + 3;
      }
      i, j := i + 1, j + 1;
    }
    assert rs[..j] == rs;
  }
}
