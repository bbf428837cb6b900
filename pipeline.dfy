/**
 * The converter from the end of input to the last line printed: the five
 * passes in order, the `.xdk` sidecar read between the fourth and the fifth,
 * and, in the current edition, the Android lines added by the closing loop
 * as the script runs it (`AsWritten`). `FinishedAsIntended` is the same run
 * with the closing step the script sets out to perform (`Corrected`).
 *
 * The current edition (`onFileClose`) takes the sidecar's file name from the
 * command line; the legacy edition (`onClose`) derives it from the first
 * `<name>` tag and adds no Android lines. The file system is the function
 * `load`; the converter's own name and the local time are given.
 */
module Pipeline {
  import opened Strings
  import opened Records
  import opened Patterns
  import opened Normalizer
  import opened Classifier
  import opened Rewriter
  import opened Converter
  import opened Aggregator
  import opened Enricher
  import opened Assembler

  /** What a run writes: the lines on standard output, None when the run stops with an uncaught exception, and the lines on standard error. */
  datatype Outcome = Outcome(output: Option<seq<string>>, errors: seq<string>)

  const TooManyTags := "WARNING: possible conversion problems; too many tags on a single-line."
  const NoSidecarName := "ERROR: no <project-name>.xdk filename provided."
  const Incomplete := "WARNING: " + "incomplete <plugin> tag conversion results."

  /** Passes 1 and 2: the lines split one tag to a line, numbered, stamped, and their comments tagged; None when a comment is never closed. */
  function Prepared(ed: Edition, input: seq<string>, creator: string, stamp: string): Option<seq<Record>> {
    var lines := Normalized(input, 10);
    var stamped := WithProvenance(Numbered(lines), ProvenanceNote(creator, stamp));
    MarkSpans(MarkedComments(stamped, ed == Current), 0)
  }

  /** The warning of pass 1, when ten rounds of splitting were not enough. */
  function Pass1Errors(input: seq<string>): seq<string> {
    if GivesUp(input, 10) then [TooManyTags] else []
  }

  /** The sidecar's name: the command-line argument, or in the legacy edition the latched `<name>` with `.xdk` appended. */
  function SidecarName(ed: Edition, arg: Option<string>, latched: Option<string>): Option<string> {
    if ed == Current then arg
    else if latched.Some? then Some(latched.value + ".xdk")
    else None
  }

  /** What a failed read suggests: the argument was wrong (current) or the `<name>` tag was (legacy). */
  function ReadHint(ed: Edition): string {
    if ed == Current then "; perhaps an invalid filename?" else "; perhaps an invalid <name> tag?"
  }

  /**
   * The plugins the sidecar lists, and what reading it wrote to standard
   * error. Plugins come only from a sidecar that was read; a read error is
   * reported with the file name and the edition's hint, then the error's
   * message; the incomplete-conversion warning is the current edition's, on
   * a missing name or a read error.
   */
  function ReadSidecar(ed: Edition, name: Option<string>, load: string -> Sidecar): (r: (seq<PluginRec>, seq<string>))
    ensures name.None? ==> r.0 == [] && r.1 == (if ed == Current then [NoSidecarName, Incomplete] else [])
    ensures r.0 != [] ==> name.Some? && load(name.value).Parsed?
    ensures name.Some? && load(name.value).Parsed? ==>
      r.1 == [] && r.0 == (if load(name.value).plugins.Some? then load(name.value).plugins.value else [])
    ensures name.Some? && load(name.value).Unreadable? ==>
      && r.0 == []
      && |r.1| == (if ed == Current then 3 else 2)
      && r.1[0] == "ERROR: readFileSync had trouble reading: " + name.value + ReadHint(ed)
      && r.1[1] == "  readFileSync error message: " + load(name.value).message
    ensures Incomplete in r.1 <==> ed == Current && (name.None? || load(name.value).Unreadable?)
  {
    if name.None? then
      ([], if ed == Current then [NoSidecarName, Incomplete] else [])
    else
      match load(name.value)
      case Unreadable(message) =>
        var first := "ERROR: readFileSync had trouble reading: " + name.value + ReadHint(ed);
        var second := "  readFileSync error message: " + message;
        assert first[0] == 'E' && second[0] == ' ' && Incomplete[0] == 'W';
        var lines := [first, second];
        ([], if ed == Current then lines + [Incomplete] else lines)
      case Parsed(plugins) =>
        (if plugins.Some? then plugins.value else [], [])
  }

  /** Passes 4 and 5 and the closing loop as the script runs it, from the records pass 3 produced. */
  function Finished(ed: Edition, converted: seq<Record>, plugins: seq<PluginRec>): seq<Record> {
    var enriched := EnrichedBy(plugins, Aggregated(converted));
    if ed == Current then AsWritten(enriched) else enriched
  }

  /** The same, with the closing step as intended: the Android lines once before each `</widget>` line. */
  function FinishedAsIntended(ed: Edition, converted: seq<Record>, plugins: seq<PluginRec>): seq<Record> {
    var enriched := EnrichedBy(plugins, Aggregated(converted));
    if ed == Current then Corrected(enriched) else enriched
  }

  /** Passes 3 to 5 and the closing step, from the records of pass 2; no output when a `tagConvert` call throws. */
  function Completed(ed: Edition, marked: seq<Record>, arg: Option<string>, load: string -> Sidecar): Outcome {
    match Convert(ed, marked)
    case None => Outcome(None, [])
    case Some(p) =>
      var sidecar := ReadSidecar(ed, SidecarName(ed, arg, ProjectName(marked)), load);
      Outcome(Some(Texts(Finished(ed, p.out, sidecar.0))), sidecar.1 + NotesOf(sidecar.0))
  }

  /** A whole run of edition `ed`. */
  function Run(ed: Edition, input: seq<string>, creator: string, stamp: string, arg: Option<string>, load: string -> Sidecar): Outcome {
    var prepared := Prepared(ed, input, creator, stamp);
    if prepared.None? then Outcome(None, Pass1Errors(input))
    else
      var rest := Completed(ed, prepared.value, arg, load);
      Outcome(rest.output, Pass1Errors(input) + rest.errors)
  }

  /**
   * A run stops exactly when a comment is never closed or a `tagConvert`
   * call throws; what pass 1 warned about is written whether or not it does.
   */
  lemma RunStops(ed: Edition, input: seq<string>, creator: string, stamp: string, arg: Option<string>, load: string -> Sidecar)
    ensures Run(ed, input, creator, stamp, arg, load).output.None? <==>
      Prepared(ed, input, creator, stamp).None? || Convert(ed, Prepared(ed, input, creator, stamp).value).None?
  {
  }

  /**
   * Without a sidecar name on the command line the current edition reports
   * it twice and leaves every `<plugin>` line as pass 3 wrote it.
   */
  lemma CompletedWithoutSidecar(marked: seq<Record>, load: string -> Sidecar)
    requires Convert(Current, marked).Some?
    ensures Completed(Current, marked, None, load).output == Some(Texts(AsWritten(Aggregated(Convert(Current, marked).value.out))))
    ensures Completed(Current, marked, None, load).errors == [NoSidecarName, Incomplete]
  {
  }

  /**
   * The output has a line for every record of pass 2 and one more when the
   * Crosswalk options were gathered; the legacy edition adds nothing to
   * that, and the intended closing step adds three lines per `</widget>`
   * line.
   */
  lemma FinishedLength(ed: Edition, converted: seq<Record>, plugins: seq<PluginRec>)
    ensures |Aggregated(converted)| == |converted| + (if Anchor(converted) > 0 then 1 else 0)
    ensures ed == Legacy ==> |Finished(ed, converted, plugins)| == |Aggregated(converted)|
    ensures |FinishedAsIntended(Current, converted, plugins)| ==
      |Aggregated(converted)| + 3 * Closers(EnrichedBy(plugins, Aggregated(converted)))
  {
    AggregatedLayout(converted);
    CorrectedLength(EnrichedBy(plugins, Aggregated(converted)));
  }

  /**
   * The current edition's closing loop, as the script runs it, adds three
   * lines per splice and at most one splice per line: nothing without a
   * `</widget>` line, and at least the three lines with one.
   */
  lemma FinishedAsWrittenLength(converted: seq<Record>, plugins: seq<PluginRec>)
    ensures (|Finished(Current, converted, plugins)| - |EnrichedBy(plugins, Aggregated(converted))|) % 3 == 0
    ensures var e := EnrichedBy(plugins, Aggregated(converted));
      var f := Finished(Current, converted, plugins);
      && |e| <= |f| <= |e| + 3 * |e|
      && ((forall j :: 0 <= j < |e| ==> !ClosesWidget(e[j])) ==> f == e)
      && (forall w :: 0 <= w < |e| && ClosesWidget(e[w]) ==> |f| >= |e| + 3)
  {
    AsWrittenLength(EnrichedBy(plugins, Aggregated(converted)));
  }

  /** Line `i` is the first of `out` matching `</widget.*>`. */
  predicate FirstClosingLine(out: seq<string>, i: int) {
    0 <= i < |out| && Spans(out[i], "</widget", ">") && forall j :: 0 <= j < i ==> !Spans(out[j], "</widget", ">")
  }

  /** The three lines before line `i` of `out` are the Android lines. */
  predicate AndroidBefore(out: seq<string>, i: int) {
    3 <= i <= |out| && out[i - 3] == ConfigOpen && out[i - 2] == Activity && out[i - 1] == ConfigClose
  }

  /**
   * In the current edition the first output line that closes the widget
   * always comes straight after the three Android lines.
   */
  lemma FinishedAndroidLines(converted: seq<Record>, plugins: seq<PluginRec>)
    ensures forall i :: FirstClosingLine(Texts(Finished(Current, converted, plugins)), i) ==>
      AndroidBefore(Texts(Finished(Current, converted, plugins)), i)
  {
    var rs := Finished(Current, converted, plugins);
    assert rs == AsWritten(EnrichedBy(plugins, Aggregated(converted)));
    AsWrittenFirstAndroid(EnrichedBy(plugins, Aggregated(converted)));
    var out := Texts(rs);
    forall i | FirstClosingLine(out, i)
      ensures AndroidBefore(out, i)
    {
      assert FirstCloser(rs, i);
      assert rs[i - 3] == rs[i - 3..i][0] && rs[i - 2] == rs[i - 3..i][1] && rs[i - 1] == rs[i - 3..i][2];
    }
  }

  /**
   * With the intended closing step every output line that closes the widget
   * comes straight after the three Android lines.
   */
  lemma FinishedAsIntendedAndroidLines(converted: seq<Record>, plugins: seq<PluginRec>)
    ensures var out := Texts(FinishedAsIntended(Current, converted, plugins));
      forall i :: 0 <= i < |out| && Spans(out[i], "</widget", ">") ==>
        3 <= i && out[i - 3] == ConfigOpen && out[i - 2] == Activity && out[i - 1] == ConfigClose
  {
    var rs := FinishedAsIntended(Current, converted, plugins);
    CorrectedPrecedes(EnrichedBy(plugins, Aggregated(converted)));
    var out := Texts(rs);
    forall i | 0 <= i < |out| && Spans(out[i], "</widget", ">")
      ensures 3 <= i && out[i - 3] == ConfigOpen && out[i - 2] == Activity && out[i - 1] == ConfigClose
    {
      assert ClosesWidget(rs[i]);
      assert rs[i - 3..i] == Boilerplate;
      assert rs[i - 3] == rs[i - 3..i][0] && rs[i - 2] == rs[i - 3..i][1] && rs[i - 1] == rs[i - 3..i][2];
    }
  }

  /**
   * In the usual case, one `</widget>` line with at most two lines after it,
   * the run as written and the run as intended agree: the Android lines are
   * added once, right before it.
   */
  lemma FinishedUsual(converted: seq<Record>, plugins: seq<PluginRec>, w: nat)
    requires var e := EnrichedBy(plugins, Aggregated(converted));
      w < |e| <= w + 3 && ClosesWidget(e[w]) && forall j :: 0 <= j < |e| && j != w ==> !ClosesWidget(e[j])
    ensures var e := EnrichedBy(plugins, Aggregated(converted));
      Finished(Current, converted, plugins) == FinishedAsIntended(Current, converted, plugins) == e[..w] + Boilerplate + e[w..]
  {
    var e := EnrichedBy(plugins, Aggregated(converted));
    AsWrittenSingle(e, w);
    CorrectedSingle(e, w);
  }

  /** Passes 1 and 2 as the script runs them. */
  method Prepare(ed: Edition, input: seq<string>, creator: string, stamp: string) returns (marked: Option<seq<Record>>, errors: seq<string>)
    ensures marked == Prepared(ed, input, creator, stamp) && errors == Pass1Errors(input)
  {
    var lines, warned := Normalize(input, 10);
    errors := if warned then [TooManyTags] else [];
    var a := NumberLines(lines);
    a := InsertProvenance(a, ProvenanceNote(creator, stamp));
    a := MarkSingleLineComments(a, ed == Current);
    marked := MarkMultiLineComments(a);
  }

  /** Passes 3 to 5 and, in the current edition, the closing loop as written; None when a `tagConvert` call throws. */
  method Complete(ed: Edition, marked: seq<Record>, arg: Option<string>, load: string -> Sidecar) returns (output: Option<seq<string>>, errors: seq<string>)
    ensures Outcome(output, errors) == Completed(ed, marked, arg, load)
  {
    var converted, nameTag := ConvertRecords(ed, marked);
    if converted.None? {
      return None, [];
    }
    var rs := Aggregate(converted.value);
    var name := if ed == Current then arg else if nameTag.Some? then Some(nameTag.value + ".xdk") else None;
    var sidecar := ReadSidecar(ed, name, load);
    var plugins, notes := sidecar.0, [];
    errors := sidecar.1;
    rs, notes := Enrich(plugins, rs);
    errors := errors + notes;
    if ed == Current {
      rs := AssembleAsWritten(rs);
    }
    output := Some(Texts(rs));
  }

  /** The current edition's run (`onFileClose`). */
  method OnFileClose(input: seq<string>, creator: string, stamp: string, arg: Option<string>, load: string -> Sidecar)
    returns (output: Option<seq<string>>, errors: seq<string>)
    ensures Outcome(output, errors) == Run(Current, input, creator, stamp, arg, load)
  {
    var marked;
    marked, errors := Prepare(Current, input, creator, stamp);
    if marked.None? {
      return None, errors;
    }
    var more;
    output, more := Complete(Current, marked.value, arg, load);
    errors := errors + more;
  }

  /** The legacy edition's run (`onClose`): the sidecar named after the first `<name>`, and no closing step. */
  method OnClose(input: seq<string>, creator: string, stamp: string, load: string -> Sidecar)
    returns (output: Option<seq<string>>, errors: seq<string>)
    ensures Outcome(output, errors) == Run(Legacy, input, creator, stamp, None, load)
  {
    var marked;
    marked, errors := Prepare(Legacy, input, creator, stamp);
    if marked.None? {
      return None, errors;
    }
    var more;
    output, more := Complete(Legacy, marked.value, None, load);
    errors := errors + more;
  }
}
