# xdk-to-cli, modelled in Dafny

`xdk-to-cli` turns an Intel XDK `intelxdk.config.*.xml` file into a
PhoneGap/Cordova `config.xml`. It reads the file line by line and then, when
the input ends, runs five passes over the array of lines:

1. split every line that holds more than one tag (`>\s*<`) until no line
   does, giving up with a warning after ten rounds (`splitMultipleTagLines`);
2. number the lines, insert a provenance comment after `<widget ...>`, and
   mark single-line and multi-line comments;
3. rewrite each non-comment line with `tagConvert`, a two-state line
   translator (the `widget` level and the inside of a multi-line
   `<intelxdk:plugin>`);
4. retire every `<intelxdk:crosswalk ... xwalk-command-line="...">` line and
   gather their options into one `xwalkCommandLine` preference;
5. read the project's `.xdk` sidecar (JSON) and annotate, or re-point at their
   git repository, the `<plugin>` lines of locally imported and repository
   plugins.

The current script (`xdk-to-cli.js`, `onFileClose`) then splices three
Android `config-file` lines in before `</widget>`, with a `forEach` that
can miss a second `</widget>` line or repeat the lines (see Findings). The older script
(`xdk-to-cli/app.js`, `onClose`) differs in a few rules and takes the
sidecar's name from the first `<name>` tag rather than the command line. Both
are modelled; `Rewriter.Edition` says which one a function follows (`Current`
or `Legacy`).

The modules follow the passes:

- `Strings`: the string operations (`indexOf`, first-occurrence `replace`,
  `\s` skipping, `trim`).
- `Records`: a pass-2 row `[tag, text]`, its tag being a line number or `C`.
- `Patterns`: the regular expressions, written as predicates and searches.
- `Normalizer`: pass 1.
- `Classifier`: pass 2.
- `Rewriter`: `tagConvert`.
- `Converter`: pass 3.
- `Aggregator`: pass 4.
- `Enricher`: pass 5.
- `Assembler`: the closing Android lines.
- `Pipeline`: the whole run.

The loops that rebuild or splice arrays are methods over `seq` values. Each
is proved equal to a function, and the properties are lemmas about those
functions.

Notes on the code:

- The CLI version table matches `6.5.0`, `6.2.0` and `5.4.1` in
  `xdk-to-cli.js`, and only `6.2.0` and `5.4.1` in `app.js`. Everything else
  falls back to `cli-5.2.0`.
- The closing step is modelled as the current script's `forEach` runs it
  (`Assembler.AsWritten`). That loop splices the Android lines in before
  the index it is visiting and stops at the array's original length. The
  comment above the loop only says the bits go at the very end; the model
  reads that intent as the lines once before each `</widget.*>` line
  (`Assembler.Corrected`, the intended variant, used by
  `Pipeline.FinishedAsIntended`). The two agree when there is one
  `</widget>` line with at most two lines after it (`Pipeline.FinishedUsual`).
- A missing attribute in a `<intelxdk:plugin>`, `<intelxdk:crosswalk>` or
  `minSdkVersion` line stops the run with an exception (no output). So does a
  multi-line comment that is never closed.

## Model

| member | source | states |
|---|---|---|
| Normalizer.SplitMultipleTagLines | xdk-to-cli.js:496-514 | one call splits each line at its first `>\s*<` (the list `SplitAll` builds), and reports true exactly when some line had such a boundary |
| Normalizer.SplitLineCutsAtFirstBoundary | xdk-to-cli/app.js:449-467 | a line is cut in two exactly when it has a boundary; the pieces concatenate back to the line, the first ends in `>` and has no boundary, and the second starts, after blanks, with `<` |
| Normalizer.SplitAllKeepsText | xdk-to-cli.js:496-514 | a splitting round never adds, drops or reorders characters |
| Normalizer.SplitAllStable | xdk-to-cli.js:496-514 | a splitting round leaves lines without a boundary unchanged |
| Normalizer.SplitStep | xdk-to-cli.js:499-511 | the loop invariant: after line k the array is the first k lines split plus the rest, and the index steps over the inserted piece |
| Normalizer.NormalizedKeepsText | xdk-to-cli.js:88-97 | the ten splitting rounds keep the text of the input |
| Normalizer.NormalizedIsSingleTag | xdk-to-cli.js:88-97 | unless pass 1 gives up, no line of its result has two tags |
| Normalizer.NormalizedIdempotent | xdk-to-cli.js:88-97 | input with one tag per line passes through pass 1 unchanged and without a warning |
| Normalizer.Normalize | xdk-to-cli/app.js:73-82 | pass 1 as the script runs it, for any number of rounds (the script allows ten): the lines it leaves are `Normalized`, with the warning exactly when the last round still split a line, and without the warning no line holds two tags |
| Classifier.NumberLines | xdk-to-cli.js:104-111 | row i of pass 2 is `[i, line i]`, for every line |
| Classifier.InsertProvenance | xdk-to-cli.js:118-124 | the `forEach` with its splice, as the function `WithProvenance` |
| Classifier.NoWidgetNoProvenance | xdk-to-cli/app.js:103-109 | without a `<widget...>` line no provenance comment is added |
| Classifier.ProvenanceAfterWidget | xdk-to-cli.js:118-124 | with one `<widget...>` line, the comment is inserted right after it and nothing else moves |
| Classifier.VisitSkip | xdk-to-cli.js:118-124 | the `forEach` passes over the rows before the first `<widget...>` and resumes at the inserted row, with its visit count fixed at the start |
| Classifier.MarkSingleLineComments | xdk-to-cli.js:130-138 | marks every row of pass 2 as `MarkComment` decides |
| Classifier.MarkCommentTags | xdk-to-cli.js:130-138 | a row becomes a comment exactly when it was one or holds `<!--.*-->`; its text changes only in the current edition, and only to the placeholder, for the two XDK boilerplate comments; such a one-line boilerplate comment always becomes the placeholder comment there, and any other one-line comment keeps its text |
| Classifier.MarkMultiLineComments | xdk-to-cli.js:146-154 | the `do ... while` loop that marks multi-line comments, as the function `MarkSpans` |
| Classifier.MarkSpansSound | xdk-to-cli.js:146-154 | marking keeps every comment mark and every text, and afterwards no unmarked row opens a comment |
| Classifier.MarkSpansQuiet | xdk-to-cli/app.js:127-135 | rows with no unmarked `<!--` are left as they are |
| Classifier.MarkSpansSingle | xdk-to-cli.js:146-154 | scanning from any row, when the first opening row has a closer after it and no row opens after that closer, the opening row and every row through the first later row holding `-->` become comments, and nothing else changes |
| Classifier.MarkSpansReach | xdk-to-cli.js:146-148 | the scan passes unmarked rows without `<!--` unchanged |
| Classifier.CrashNeedsUnclosed | xdk-to-cli.js:146-154 | the loop throws only when some comment opened on an unmarked row is never closed |
| Classifier.UnclosedCrashes | xdk-to-cli.js:146-154 | an opened comment that no later row closes makes the loop read past the end of the array |
| Rewriter.TagConvertFails | xdk-to-cli.js:376-426 | `tagConvert` throws exactly on a plugin line missing `intelxdk:value` or `intelxdk:version` (or with a line break in one of them), a Crosswalk line without a numeric or `shared` version, or a `minSdkVersion` line without a numeric value |
| Rewriter.TagConvertModes | xdk-to-cli.js:376-388 | the `widget` level switches to `plugin` exactly on a plugin tag that is not self-closing; the `plugin` level returns to `widget` exactly on `</intelxdk:plugin` (and not on a param) |
| Rewriter.TagConvertPassThrough | xdk-to-cli.js:450-476 | a line no rule matches is returned unchanged, at the same level |
| Rewriter.PluginParamRenamed | xdk-to-cli.js:460-465 | inside a plugin block, a parameter line `<intelxdk:param intelxdk:name="n" intelxdk:value="v"` (no other `intelxdk:` before it or in `n`; `v` is arbitrary) has its tag and both attributes renamed to `<variable name="n" value="v"`, stays at the plugin level, and keeps every other character |
| Rewriter.PluginCloseRenamed | xdk-to-cli.js:467-470 | inside a plugin block, a line with `</intelxdk:plugin` and no parameter tag (no `intelxdk:plugin` before it) becomes the same line with `</plugin`, and the level returns to `widget` |
| Rewriter.TagConvertKeepsRetiredLine | xdk-to-cli.js:355-448 | every rule that comments a line out or replaces it keeps the original line inside its output; the delete rule gives exactly the commented line, the `xwalk-version` rule the commented line plus the PhoneGap Build note, and the capabilities rule the `ERROR: unable to convert` comment around the line |
| Rewriter.CliLineKeepsLine | xdk-to-cli/app.js:330-337 | the CLI rule keeps the original tag as a comment |
| Rewriter.CrosswalkLineKeepsLine | xdk-to-cli.js:392-416 | the Crosswalk rule keeps the original tag as a comment |
| Rewriter.MinSdkLineKeepsLine | xdk-to-cli.js:420-426 | a raised minimum SDK keeps the original preference as a comment |
| Rewriter.CliTable | xdk-to-cli.js:362-373 | the CLI rule picks one of `cli-6.5.0`, `cli-6.2.0`, `cli-6.0.0` and `cli-5.2.0`; never `cli-6.5.0` in the legacy edition; `cli-5.2.0` when none of the three listed versions appears; and in the current edition the line always ends with the gradle preference |
| Rewriter.CliVersions | xdk-to-cli.js:362-373 | a `<intelxdk:cordova-cli>` line converts at the `widget` level to a line that starts with the `phonegap-version` preference: `6.5.0` gives `cli-6.5.0` in the current edition; otherwise `6.2.0` gives `cli-6.2.0`, `5.4.1` gives `cli-6.0.0`, and anything else, the legacy edition's `6.5.0` included, gives `cli-5.2.0` |
| Rewriter.CrosswalkTableIncreases | xdk-to-cli.js:392-416 | no plugin version is pinned exactly from Crosswalk 20 up; below that, a newer Crosswalk never gets an older plugin, and from 15 to 19 a strictly newer one |
| Rewriter.CrosswalkVersions | xdk-to-cli.js:392-416 | a `<intelxdk:crosswalk version>` line converts at the `widget` level to the commented line followed by: for `shared`, the `xwalkMode` shared preference and the unpinned plugin (legacy: pinned to `1.8.0`); for a number, the `xwalkMultipleApk` false preference and the plugin unpinned from 20 up, `1.8.0` for 19, `1.7.2` for 18, `1.6.1` for 17, `1.5.0` for 16 and `1.4.0` below |
| Rewriter.PluginLineShape | xdk-to-cli/app.js:340-352 | a converted plugin tag names the id from `intelxdk:value` and has the spec from `intelxdk:version`; it is closed with `/>` exactly when the XDK tag was, and left open otherwise |
| Rewriter.WidgetLineNamespaces | xdk-to-cli.js:347-351 | the widget rule replaces the first XDK namespace declaration by the three Cordova namespaces (current) or by nothing (legacy, shortening the line by exactly the declaration); a line without it is untouched in the legacy edition; in the current edition, with `ios-CFBundleVersion` or `android-versionCode` present, or no dotted `version`, nothing else changes, and otherwise the line gains `windows-packageVersion` with the first `version`'s value |
| Rewriter.WidgetLineWindowsVersion | xdk-to-cli.js:347-351 | in the current edition, when the namespace-replaced line names neither `ios-CFBundleVersion` nor `android-versionCode` and has a dotted `version="v"`, ` windows-packageVersion="v"` goes in right after the first such attribute and every other character of the line is kept |
| Rewriter.DeploymentGainsPlatform | xdk-to-cli.js:436-438 | a `deployment-target` preference gains `platform="ios" ` in front of its first `name="deployment-target"`, and nothing else in the line changes |
| Rewriter.PublisherRenamed | xdk-to-cli.js:440-443 | a `windows-publisher-display-name` preference has its first `windows-publisher-display-name` replaced by `WindowsStorePublisherName`, and nothing else in the line changes |
| Rewriter.MinSdkRaises | xdk-to-cli.js:420-426 | a minimum SDK of 15 or less is commented out and replaced by 16; a larger one is left unchanged |
| Converter.ConvertOneToOne | xdk-to-cli.js:158-167 | pass 3 keeps one row per row and every tag; comments are copied; each other row is `tagConvert` of its text at the level left by the rows before it |
| Converter.ConvertPrefix | xdk-to-cli.js:158-167 | pass 3 is a left-to-right scan: its output for a prefix is the prefix of its output |
| Converter.ConvertStopsForGood | xdk-to-cli.js:158-167 | once a `tagConvert` call throws, the whole pass does |
| Converter.ConvertPassThrough | xdk-to-cli.js:158-167 | input no rule matches passes through pass 3 unchanged |
| Converter.ProjectNameIsFirst | xdk-to-cli/app.js:149-154 | the latched sidecar name is the first non-empty capture of a non-comment row holding `<name>...</name>` (an empty `<name></name>` capture is falsy, so later rows are tried), and none when no row gives one |
| Converter.ConvertRecords | xdk-to-cli/app.js:140-157 | the pass-3 loop computes `Convert`, and in the legacy edition also the first `<name>` |
| Aggregator.AnchorIsFirst | xdk-to-cli.js:178-192 | `z` is the first row after row 0 carrying Crosswalk command-line options, or 0 when there is none |
| Aggregator.RetiredKeepsComments | xdk-to-cli.js:178-192 | pass 4 changes exactly the non-comment rows carrying command-line options, and keeps every comment |
| Aggregator.AggregatedLayout | xdk-to-cli.js:178-196 | when no row after row 0 carries options (`Anchor == 0`) pass 4 only retires rows; when one does (`Anchor > 0`) it inserts the single `xwalkCommandLine` preference at the first such row, with the retired rows before it and after it in their order |
| Aggregator.OptionsAppend | xdk-to-cli.js:178-192 | the options are gathered in row order |
| Aggregator.PreferenceValue | xdk-to-cli.js:193-196 | the joined value has no `"` and is trimmed at both ends |
| Aggregator.SweepStep | xdk-to-cli.js:178-192 | the loop invariant of the sweep: one row retired, its options appended, the anchor latched once |
| Aggregator.Sweep | xdk-to-cli.js:178-192 | the sweep loop computes the retired rows, the options and the anchor |
| Aggregator.Join | xdk-to-cli.js:193-195 | the joining loop appends every option with a trailing space |
| Aggregator.Aggregate | xdk-to-cli/app.js:167-185 | pass 4 as the script runs it |
| Enricher.PluginLineNamed | xdk-to-cli.js:268-273 | every `<plugin>` line pass 3 writes is found by the `<plugin\sname="id"` search of pass 5, with the id it was converted from |
| Enricher.LocalPatch | xdk-to-cli.js:258-277 | a local plugin appends the warning comment to exactly the non-comment lines naming it, which still name it afterwards |
| Enricher.RepoPatch | xdk-to-cli.js:278-299 | a repository plugin replaces the first `spec="..."` by its origin (and `#gitref` when there is one) and appends the note |
| Enricher.OtherOriginPatchesNothing | xdk-to-cli/app.js:240-281 | a plugin of any other origin changes nothing and writes nothing |
| Enricher.EnrichedKeepsShape | xdk-to-cli.js:239-301 | pass 5 keeps every row's tag and every comment row |
| Enricher.NamesPluginExtends | xdk-to-cli.js:273 | appending a comment to a line keeps the plugin search matching it |
| Enricher.EnrichStep | xdk-to-cli.js:240-301 | the loop invariant over the sidecar's plugins: each one patches the rows and adds its three diagnostics |
| Enricher.MarkLocal | xdk-to-cli.js:268-276 | the local-plugin loop computes `PatchAll` |
| Enricher.MarkRepo | xdk-to-cli.js:286-298 | the repository-plugin loop computes `PatchAll` |
| Enricher.Enrich | xdk-to-cli/app.js:236-283 | pass 5's plugin loop computes the patched rows and the diagnostics in order |
| Assembler.CorrectedLength | xdk-to-cli.js:305-314 | the closing step as intended adds exactly three lines for each `</widget>` line |
| Assembler.CorrectedPrecedes | xdk-to-cli.js:305-314 | with the closing step as intended, every `</widget>` line of the output comes right after the three Android lines |
| Assembler.CorrectedQuiet | xdk-to-cli.js:305-314 | without `</widget>` the closing step as intended changes nothing |
| Assembler.CorrectedSingle | xdk-to-cli.js:305-314 | with one `</widget>` line the closing step as intended inserts the Android lines right before it and changes nothing else |
| Assembler.Assemble | xdk-to-cli.js:305-314 | the closing step as intended: the Android lines once before each `</widget>` line |
| Assembler.AssembleAsWritten | xdk-to-cli.js:305-314 | the `forEach` with its splice before the current index, as the function `AsWritten` |
| Assembler.VisitSkips | xdk-to-cli.js:305-307 | the `forEach` passes over rows that do not close the widget |
| Assembler.AsWrittenSingle | xdk-to-cli.js:305-314 | with at most two rows after the first `</widget>`, the loop as written inserts the lines once, right before it, which is what `CorrectedSingle` gives for a single `</widget>` |
| Assembler.AsWrittenDuplicates | xdk-to-cli.js:305-314 | with three rows after `</widget>`, the loop as written inserts the Android lines twice, where the intended step inserts them once |
| Assembler.AsWrittenMissesSecond | xdk-to-cli.js:305-314 | with two `</widget>` lines in a row, the loop as written puts the Android lines before the first only, so the second is not guarded; the intended step guards both |
| Assembler.AsWrittenLength | xdk-to-cli.js:305-314 | the loop as written adds a multiple of three lines, at most three per input line; nothing without a `</widget>` line, and at least three with one |
| Assembler.AsWrittenFirstGuarded | xdk-to-cli.js:305-314 | the loop as written always guards the first `</widget>` line: it comes right after the Android lines, with every line before it unchanged |
| Assembler.AsWrittenFirstAndroid | xdk-to-cli.js:305-314 | in the loop's output, the first line matching `</widget.*>` comes right after the three Android lines |
| Pipeline.ReadSidecar | xdk-to-cli.js:205-223 | plugins come only from a sidecar that was named and parsed, and a parsed one writes no error; without a name the current edition reports it and the incomplete conversion, the legacy edition nothing; a read error writes the file name with the edition's hint (`invalid filename` current, `invalid <name> tag` legacy) and then the error's message; the incomplete-conversion warning appears exactly in the current edition on a missing name or a read error |
| Pipeline.RunStops | xdk-to-cli.js:68-323 | a run prints nothing exactly when a comment is never closed or a `tagConvert` call throws |
| Pipeline.CompletedWithoutSidecar | xdk-to-cli.js:208-223 | without a sidecar name the current edition writes its two diagnostics and prints the rows of pass 4 after the closing loop as written, every plugin line as pass 3 wrote it |
| Pipeline.FinishedLength | xdk-to-cli.js:178-314 | the output has a line per row of pass 3 and one more when a row after row 0 carries options (`Anchor > 0`), at the first such row; the legacy edition adds nothing to that, and the closing step as intended adds three per `</widget>` line |
| Pipeline.FinishedAsWrittenLength | xdk-to-cli.js:239-314 | the current edition's closing loop, as written, adds a multiple of three lines, at most three per line; nothing without a `</widget>` line, and at least three with one |
| Pipeline.FinishedAndroidLines | xdk-to-cli.js:305-320 | in the current edition the first printed line that closes the widget comes right after the three Android lines |
| Pipeline.FinishedAsIntendedAndroidLines | xdk-to-cli.js:305-320 | with the closing step as intended, every printed line that closes the widget comes right after the three Android lines |
| Pipeline.FinishedUsual | xdk-to-cli.js:305-314 | with one `</widget>` line and at most two lines after it, the run as written and the run as intended give the same rows, the Android lines right before `</widget>` |
| Pipeline.Prepare | xdk-to-cli.js:88-154 | passes 1 and 2 compute `Prepared`, with the pass-1 warning |
| Pipeline.Complete | xdk-to-cli.js:158-320 | passes 3 to 5 and the closing loop as written compute `Completed` |
| Pipeline.OnFileClose | xdk-to-cli.js:68-323 | the current script's run, its closing loop as written, computes `Run(Current, ...)` |
| Pipeline.OnClose | xdk-to-cli/app.js:57-292 | the older script's run computes `Run(Legacy, ...)` |

## Left out

- Reading standard input line by line, `console.log`, and `process.exit`
  are not modelled. The run starts from the array of lines read, and its
  result is the printed lines plus the lines written to standard error.
- The exit status is left out. `process.exitCode++` on an unset exit code
  yields `NaN`, and what the process then returns depends on the Node
  version.
- The file system and `JSON.parse` are the parameter `load`. It yields
  either an error message or the parsed `cordovaPlugins` array.
- The local time, and the script's file name in the provenance comment, are
  parameters.
- `index.js`, the Node version check and the module loader are not part of
  this model.
- Sidecar plugin entries are assumed to be objects. A missing `id`, `name`,
  `origin` or `originType` is given as the text JavaScript would print for
  it. A missing or empty `gitref` both read as `""`.
- Enricher.NamesPlugin reads the plugin id literally. Regular-expression
  metacharacters in an id are not interpreted.
- Enricher.RepoPatch treats `$` patterns in the replacement text literally.
- An uncaught exception is modelled as no output, without the stack trace
  Node prints.
- The regular expressions are modelled only for the shapes the script uses
  (listed in the `Patterns` module), not in general.

## Findings

| source | as written | input that shows it | evidently intended | confidence | as-written member | corrected member |
|---|---|---|---|---|---|---|
| xdk-to-cli.js:305-314 | `forEach` splices the three Android lines in before the current index, so `</widget>` moves three places on and is visited again once the loop's index reaches it | `</widget>` followed by three more lines (for example blank lines at the end of the file) | the Android lines inserted once, right before `</widget>` | not executed | Assembler.AsWrittenDuplicates | Assembler.CorrectedSingle |
| xdk-to-cli.js:305-314 | the `forEach` visits only the array's original length, and the splice before the first `</widget>` pushes the next line past that bound | two `</widget>` lines in a row at the end of the file | the Android lines before each `</widget>` line | not executed | Assembler.AsWrittenMissesSecond | Assembler.CorrectedPrecedes |
