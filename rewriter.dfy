/**
 * Pass 3 of the converter: `tagConvert`, a first-match-wins table of rules
 * that rewrites one XDK line into Cordova / PhoneGap Build form, with a
 * two-state mode (`widget`, or `plugin` inside an open `<intelxdk:plugin>`),
 * and the pass that applies it to every code record in order.
 *
 * The two editions of the converter differ in a few rules: `Current` is
 * xdk-to-cli.js, `Legacy` is xdk-to-cli/app.js.
 */
module Rewriter {
  import opened Strings
  import opened Records
  import opened Patterns

  datatype Edition = Current | Legacy

  /** `tagConvert.parseTag`. */
  datatype Mode = Widget | Plugin

  /** What one call of `tagConvert` leaves: the new mode and the converted line. */
  datatype Step = Step(mode: Mode, line: string)

  /** The rules of the `widget` mode, in the order they are tried. */
  datatype Rule =
    | WidgetRule | RemoveRule | CliRule | PluginRule | CrosswalkRule | MinSdkRule
    | XwalkVersionRule | DeploymentRule | PublisherRule | CapabilitiesRule | NoRule

  predicate IsRemoved(line: string) {
    Spans(line, "<intelxdk:version", ">") || Spans(line, "<intelxdk:provisioning", ">")
    || Preference(line, "debuggable", "")
  }

  /** The first rule whose test matches the line; the minimum SDK rule exists in the current edition only. */
  function RuleOf(ed: Edition, line: string): Rule {
    if Spans(line, "<widget", ">") then WidgetRule
    else if IsRemoved(line) then RemoveRule
    else if Spans(line, "<intelxdk:cordova-cli", ">") then CliRule
    else if Spans(line, "<intelxdk:plugin", ">") then PluginRule
    else if SpacedAttr(line, "<intelxdk:crosswalk", "version", ">") then CrosswalkRule
    else if ed == Current && Preference(line, "android-minSdkVersion", ">") then MinSdkRule
    else if OneSpaceAttr(line, "<preference", "name=\"xwalkVersion\"", ">") then XwalkVersionRule
    else if Preference(line, "deployment-target", ">") then DeploymentRule
    else if Preference(line, PublisherName, ">") then PublisherRule
    else if Preference(line, "windows-capabilities", ">") then CapabilitiesRule
    else NoRule
  }

  function Commented(line: string): string {
    "<!-- " + line + " -->"
  }

  const XdkNamespace := "xmlns:intelxdk=\"http://xdk.intel.com/ns/v1\" "
  const CordovaNamespaces :=
    "xmlns:gap=\"http://phonegap.com/ns/1.0\" xmlns:cdv=\"http://cordova.apache.org/ns/1.0\" "
    + "xmlns:android=\"http://schemas.android.com/apk/res/android\" "
  const VersionKey := "version=\""

  /** The version attribute, repeated as the Windows package version. */
  function WindowsVersion(v: string): string {
    VersionKey + v + "\" windows-packageVersion=\"" + v + "\""
  }

  /**
   * `<widget ...>`: the XDK namespace is replaced by the Cordova ones
   * (current) or dropped (legacy). The current edition also repeats a
   * dotted `version` as `windows-packageVersion` when the line names neither
   * an iOS nor an Android version.
   */
  function WidgetLine(ed: Edition, line: string): string {
    if ed == Legacy then ReplaceFirst(line, XdkNamespace, "")
    else
      var l := ReplaceFirst(line, XdkNamespace, CordovaNamespaces);
      if !Contains(l, "ios-CFBundleVersion") && !Contains(l, "android-versionCode")
      then ReplaceMatch(DottedNumber, l, VersionKey, WindowsVersion)
      else l
  }

  /** The PhoneGap CLI version for an XDK `cordova-cli` line. */
  function PhonegapCli(ed: Edition, line: string): string {
    if ed == Current && Contains(line, "version=\"6.5.0\"") then "cli-6.5.0"
    else if Contains(line, "version=\"6.2.0\"") then "cli-6.2.0"
    else if Contains(line, "version=\"5.4.1\"") then "cli-6.0.0"
    else "cli-5.2.0"
  }

  function PhonegapVersion(cli: string): string {
    "<preference name=\"phonegap-version\" value=\"" + cli + "\" />"
  }

  const GradlePreference := " <preference name=\"android-build-tool\" value=\"gradle\" /> "

  function CliLine(ed: Edition, line: string): string {
    PhonegapVersion(PhonegapCli(ed, line)) + CliTail(ed, line)
  }

  /** What follows the preference: the original line as a comment and, in the current edition, the gradle preference. */
  function CliTail(ed: Edition, line: string): string {
    if ed == Current then " <!-- " + line + " --> " + GradlePreference else Commented(line)
  }

  predicate NoLineBreak(v: string) {
    forall k :: 0 <= k < |v| ==> !IsLineTerminator(v[k])
  }

  const ValueKey := "intelxdk:value=\""
  const PluginVersionKey := "intelxdk:version=\""

  function PluginTag(id: string, spec: string): string {
    "<plugin name=\"" + id + "\" spec=\"" + spec + "\""
  }

  /**
   * `<intelxdk:plugin ...>` becomes `<plugin name="id" spec="version"`, closed
   * with `/>` when the XDK tag was, and otherwise left open with the mode
   * switched to `plugin`. Without both attributes, `match(...)[0]` is taken
   * of null; and the `".*"` that then reads each value back out of its match
   * finds nothing when the value holds a line terminator: both stop the
   * converter.
   */
  function PluginLine(line: string): Option<Step> {
    var id := Match(QuotedText, line, ValueKey);
    var spec := Match(QuotedText, line, PluginVersionKey);
    if id.None? || spec.None? || !NoLineBreak(id.value) || !NoLineBreak(spec.value) then None
    else if Spans(line, "<intelxdk:plugin", "/>") then Some(Step(Widget, PluginTag(id.value, spec.value) + " />"))
    else Some(Step(Plugin, PluginTag(id.value, spec.value) + " >"))
  }

  const CrosswalkPlugin := "<plugin name=\"cordova-plugin-crosswalk-webview\""

  /** The Crosswalk webview plugin version for a Crosswalk version number; none from 20 up. */
  function CrosswalkPluginVersion(n: nat): Option<string> {
    if n >= 20 then None
    else if n == 19 then Some("1.8.0")
    else if n == 18 then Some("1.7.2")
    else if n == 17 then Some("1.6.1")
    else if n == 16 then Some("1.5.0")
    else Some("1.4.0")
  }

  function CrosswalkPluginTag(version: Option<string>): string {
    if version.None? then CrosswalkPlugin + " />" else CrosswalkPlugin + " version=\"" + version.value + "\" />"
  }

  const SharedMode := "<preference name=\"xwalkMode\" value=\"shared\" /> "
  const SingleApk := "<preference name=\"xwalkMultipleApk\" value=\"false\" /> "

  /**
   * `<intelxdk:crosswalk version="...">`: the line is kept as a comment and
   * followed by the Crosswalk plugin for that version; `shared` selects the
   * shared mode instead of a single APK. Without a version of either form
   * the converter stops.
   */
  function CrosswalkLine(ed: Edition, line: string): Option<string> {
    match Match(DigitsOrShared, line, VersionKey)
    case None => None
    case Some(x) =>
      if x == "shared" then
        Some("<!-- " + line + " --> " + SharedMode
          + (if ed == Current then CrosswalkPlugin + " />" else CrosswalkPlugin + " spec=\"1.8.0\" />"))
      else
        Some("<!-- " + line + " --> " + SingleApk + CrosswalkPluginTag(CrosswalkPluginVersion(DigitsValue(x))))
  }

  /**
   * `<preference name="android-minSdkVersion" ...>` (current edition): a
   * value of 15 or less is commented out and replaced by 16; without a
   * numeric value the converter stops.
   */
  function MinSdkLine(line: string): Option<string> {
    match Match(Digits, line, "value=\"")
    case None => None
    case Some(x) =>
      if DigitsValue(x) <= 15
      then Some("<!-- " + line + " --> " + "<preference name=\"android-minSdkVersion\" value=\"16\" /> ")
      else Some(line)
  }

  const DeploymentName := "name=\"" + "deployment-target" + "\""

  /** One line in `widget` mode. */
  function WidgetStep(ed: Edition, line: string): Option<Step> {
    match RuleOf(ed, line)
    case WidgetRule => Some(Step(Widget, WidgetLine(ed, line)))
    case RemoveRule => Some(Step(Widget, Commented(line)))
    case CliRule => Some(Step(Widget, CliLine(ed, line)))
    case PluginRule => PluginLine(line)
    case CrosswalkRule =>
      var r := CrosswalkLine(ed, line);
      if r.None? then None else Some(Step(Widget, r.value))
    case MinSdkRule =>
      var r := MinSdkLine(line);
      if r.None? then None else Some(Step(Widget, r.value))
    case XwalkVersionRule =>
      Some(Step(Widget, "<!-- " + line + " --> " + "<!-- Does not work with Adobe PhoneGap Build -->"))
    case DeploymentRule =>
      Some(Step(Widget, ReplaceFirst(line, DeploymentName, "platform=\"ios\" " + DeploymentName)))
    case PublisherRule =>
      Some(Step(Widget, ReplaceFirst(line, PublisherName, "WindowsStorePublisherName")))
    case CapabilitiesRule => Some(Step(Widget, "<!-- ERROR: unable to convert: " + line + " -->"))
    case NoRule => Some(Step(Widget, line))
  }

  /** One line in `plugin` mode: parameters are renamed, and the closing tag ends the mode. */
  function PluginStep(line: string): Step {
    if Contains(line, "<intelxdk:param") then
      Step(Plugin, ReplaceFirst(ReplaceFirst(ReplaceFirst(line, "intelxdk:param", "variable"),
                                             "intelxdk:name", "name"), "intelxdk:value", "value"))
    else if Contains(line, "</intelxdk:plugin") then Step(Widget, ReplaceFirst(line, "intelxdk:plugin", "plugin"))
    else Step(Plugin, line)
  }

  /** `tagConvert(line)` with `parseTag` equal to `mode`; None when it throws. */
  function TagConvert(ed: Edition, mode: Mode, line: string): Option<Step> {
    if mode == Widget then WidgetStep(ed, line) else Some(PluginStep(line))
  }

  /**
   * `tagConvert` stops the converter exactly when, in `widget` mode, the
   * plugin rule misses an attribute or finds one spread over lines, or the
   * Crosswalk or minimum SDK rule finds no version or value to read.
   */
  lemma TagConvertFails(ed: Edition, mode: Mode, line: string)
    ensures TagConvert(ed, mode, line).None? <==>
      mode == Widget &&
      ((RuleOf(ed, line) == PluginRule
        && (Match(QuotedText, line, ValueKey).None? || Match(QuotedText, line, PluginVersionKey).None?
            || !NoLineBreak(Match(QuotedText, line, ValueKey).value)
            || !NoLineBreak(Match(QuotedText, line, PluginVersionKey).value)))
       || (RuleOf(ed, line) == CrosswalkRule && Match(DigitsOrShared, line, VersionKey).None?)
       || (RuleOf(ed, line) == MinSdkRule && Match(Digits, line, "value=\"").None?))
  {
  }

  /**
   * The mode changes only at the edges of a plugin block: an open
   * `<intelxdk:plugin>` that converts enters `plugin` mode, and in that mode
   * only a closing `</intelxdk:plugin` that is not a parameter line leaves it.
   */
  lemma TagConvertModes(ed: Edition, mode: Mode, line: string)
    requires TagConvert(ed, mode, line).Some?
    ensures mode == Widget ==>
      (TagConvert(ed, mode, line).value.mode == Plugin <==>
        RuleOf(ed, line) == PluginRule && !Spans(line, "<intelxdk:plugin", "/>"))
    ensures mode == Plugin ==>
      (TagConvert(ed, mode, line).value.mode == Widget <==>
        !Contains(line, "<intelxdk:param") && Contains(line, "</intelxdk:plugin"))
  {
  }

  /** A line that matches no rule, and a plain line inside a plugin block, pass through unchanged. */
  lemma TagConvertPassThrough(ed: Edition, mode: Mode, line: string)
    requires mode == Widget ==> RuleOf(ed, line) == NoRule
    requires mode == Plugin ==> !Contains(line, "<intelxdk:param") && !Contains(line, "</intelxdk:plugin")
    ensures TagConvert(ed, mode, line) == Some(Step(mode, line))
  {
  }

  /** Gluing two literals before a text is the same as writing them as one. */
  lemma Regrouped(pre: string, a: string, b: string, post: string)
    ensures pre + a + b + post == pre + (a + b) + post
  {
  }

  /**
   * Inside a plugin block a parameter line has its tag and its two
   * attributes renamed, `intelxdk:param` to `variable`, `intelxdk:name` to
   * `name` and `intelxdk:value` to `value`, and nothing else changes.
   */
  lemma PluginParamRenamed(ed: Edition, pre: string, n: string, v: string, post: string)
    requires !Contains(pre, "intelxdk:") && !Contains(n, "intelxdk:")
    ensures TagConvert(ed, Plugin, pre + "<intelxdk:param intelxdk:name=\"" + n + "\" intelxdk:value=\"" + v + "\"" + post)
      == Some(Step(Plugin, pre + "<variable name=\"" + n + "\" value=\"" + v + "\"" + post))
  {
    var line := pre + "<intelxdk:param intelxdk:name=\"" + n + "\" intelxdk:value=\"" + v + "\"" + post;
    var z1 := ParamRenames(pre, n, v, post);
    ContainsMiddle(pre, "<intelxdk:param", z1);
  }

  /** The three replacements of a parameter line, one after the other. */
  lemma ParamRenames(pre: string, n: string, v: string, post: string) returns (z1: string)
    requires !Contains(pre, "intelxdk:") && !Contains(n, "intelxdk:")
    ensures var line := pre + "<intelxdk:param intelxdk:name=\"" + n + "\" intelxdk:value=\"" + v + "\"" + post;
      && line == pre + "<intelxdk:param" + z1
      && ReplaceFirst(ReplaceFirst(ReplaceFirst(line, "intelxdk:param", "variable"), "intelxdk:name", "name"), "intelxdk:value", "value")
        == pre + "<variable name=\"" + n + "\" value=\"" + v + "\"" + post
  {
    ParamLiterals();
    z1 := " intelxdk:name=\"" + n + "\" intelxdk:value=\"" + v + "\"" + post;
    LeadSplit(pre, "<intelxdk:param", " intelxdk:name=\"", n, "\" intelxdk:value=\"", v, "\"", post);
    ParamTagRenamed(pre, z1);
    var z2 := "=\"" + n + "\" intelxdk:value=\"" + v + "\"" + post;
    LeadMerge(pre, "<variable", " intelxdk:name", "=\"", n, "\" intelxdk:value=\"", v, "\"", post);
    ParamNameRenamed(pre, z2);
    var q := pre + "<variable name=\"" + n;
    var z3 := "=\"" + v + "\"" + post;
    MidSplit(pre, "<variable name", "=\"", n, "\" intelxdk:value", "=\"", v, "\"", post);
    ParamPrefixClean(pre, n);
    ParamValueRenamed(q, z3);
    TailMerge(q, "\" value", "=\"", v, "\"", post);
  }

  lemma ParamLiterals()
    ensures "<intelxdk:param intelxdk:name=\"" == "<intelxdk:param" + " intelxdk:name=\""
    ensures " intelxdk:name=\"" == " intelxdk:name" + "=\""
    ensures "<variable" + " intelxdk:name" == "<variable intelxdk:name"
    ensures "\" intelxdk:value=\"" == "\" intelxdk:value" + "=\""
    ensures "<variable name" + "=\"" == "<variable name=\""
    ensures "\" value" + "=\"" == "\" value=\""
  {
    ParamNameAttrLiterals();
    ParamValueAttrLiterals();
  }

  lemma ParamNameAttrLiterals()
    ensures "<intelxdk:param intelxdk:name=\"" == "<intelxdk:param" + " intelxdk:name=\""
    ensures " intelxdk:name=\"" == " intelxdk:name" + "=\""
    ensures "<variable" + " intelxdk:name" == "<variable intelxdk:name"
  {
    ParamOpenLiteral();
  }

  lemma ParamOpenLiteral()
    ensures "<intelxdk:param intelxdk:name=\"" == "<intelxdk:param" + " intelxdk:name=\""
  {
  }

  lemma ParamValueAttrLiterals()
    ensures "\" intelxdk:value=\"" == "\" intelxdk:value" + "=\""
    ensures "<variable name" + "=\"" == "<variable name=\""
    ensures "\" value" + "=\"" == "\" value=\""
  {
  }

  lemma LeadSplit(p: string, a: string, b: string, n: string, c: string, v: string, d: string, post: string)
    ensures p + (a + b) + n + c + v + d + post == p + a + (b + n + c + v + d + post)
  {
  }

  lemma LeadMerge(p: string, a: string, b1: string, b2: string, n: string, c: string, v: string, d: string, post: string)
    ensures p + a + ((b1 + b2) + n + c + v + d + post) == p + (a + b1) + (b2 + n + c + v + d + post)
  {
  }

  lemma MidSplit(p: string, a: string, b: string, n: string, c1: string, c2: string, v: string, d: string, post: string)
    ensures p + a + (b + n + (c1 + c2) + v + d + post) == p + (a + b) + n + c1 + (c2 + v + d + post)
  {
  }

  lemma TailMerge(q: string, c: string, e: string, v: string, d: string, post: string)
    ensures q + c + (e + v + d + post) == q + (c + e) + v + d + post
  {
  }

  /** No `intelxdk:value` before the value attribute of a renamed parameter line. */
  lemma ParamPrefixClean(pre: string, n: string)
    requires !Contains(pre, "intelxdk:") && !Contains(n, "intelxdk:")
    ensures !Contains(pre + "<variable name=\"" + n, "intelxdk:value")
  {
    var pat := "intelxdk:value";
    assert "intelxdk:" + "value" == pat;
    NotContainedExtended(pre, "intelxdk:", "value");
    NotContainedExtended(n, "intelxdk:", "value");
    MissingCharNotContained("<variable name=\"", pat, 8);
    NotContainedConcat(pre, "<variable name=\"", pat);
    var a := pre + "<variable name=\"";
    assert a[|a| - 1] == '"';
    NotContainedConcat(a, n, pat);
  }

  lemma ParamTagRenamed(pre: string, z: string)
    requires !Contains(pre, "intelxdk:")
    ensures ReplaceFirst(pre + "<intelxdk:param" + z, "intelxdk:param", "variable") == pre + "<variable" + z
  {
    NotContainedExtended(pre, "intelxdk:", "param");
    ParamTagLiterals();
    ReplaceBehind(pre, "<", "intelxdk:param", z, "variable", 0);
    Regrouped(pre, "<", "intelxdk:param", z);
    Regrouped(pre, "<", "variable", z);
  }

  lemma ParamTagLiterals()
    ensures "intelxdk:" + "param" == "intelxdk:param"
    ensures "<" + "intelxdk:param" == "<intelxdk:param"
    ensures "<" + "variable" == "<variable"
  {
  }

  lemma ParamNameRenamed(pre: string, z: string)
    requires !Contains(pre, "intelxdk:")
    ensures ReplaceFirst(pre + "<variable intelxdk:name" + z, "intelxdk:name", "name") == pre + "<variable name" + z
  {
    NotContainedExtended(pre, "intelxdk:", "name");
    ParamNameLiterals();
    ReplaceBehind(pre, "<variable ", "intelxdk:name", z, "name", 8);
    Regrouped(pre, "<variable ", "intelxdk:name", z);
    Regrouped(pre, "<variable ", "name", z);
  }

  lemma ParamNameLiterals()
    ensures "intelxdk:" + "name" == "intelxdk:name"
    ensures "<variable " + "intelxdk:name" == "<variable intelxdk:name"
    ensures "<variable " + "name" == "<variable name"
  {
  }

  lemma ParamValueRenamed(q: string, z: string)
    requires !Contains(q, "intelxdk:value")
    ensures ReplaceFirst(q + "\" intelxdk:value" + z, "intelxdk:value", "value") == q + "\" value" + z
  {
    ParamValueLiterals();
    ReplaceBehind(q, "\" ", "intelxdk:value", z, "value", 8);
    Regrouped(q, "\" ", "intelxdk:value", z);
    Regrouped(q, "\" ", "value", z);
  }

  lemma ParamValueLiterals()
    ensures "\" " + "intelxdk:value" == "\" intelxdk:value"
    ensures "\" " + "value" == "\" value"
  {
  }

  /**
   * Inside a plugin block the closing tag becomes `</plugin` and the block
   * ends; the rest of the line is kept.
   */
  lemma PluginCloseRenamed(ed: Edition, pre: string, post: string)
    requires !Contains(pre + "</intelxdk:plugin" + post, "<intelxdk:param") && !Contains(pre, "intelxdk:plugin")
    ensures TagConvert(ed, Plugin, pre + "</intelxdk:plugin" + post) == Some(Step(Widget, pre + "</plugin" + post))
  {
    ContainsMiddle(pre, "</intelxdk:plugin", post);
    CloseTagRenamed(pre, post);
  }

  lemma CloseTagRenamed(pre: string, post: string)
    requires !Contains(pre, "intelxdk:plugin")
    ensures ReplaceFirst(pre + "</intelxdk:plugin" + post, "intelxdk:plugin", "plugin") == pre + "</plugin" + post
  {
    ReplaceBehind(pre, "</", "intelxdk:plugin", post, "plugin", 0);
    Regrouped(pre, "</", "intelxdk:plugin", post);
    Regrouped(pre, "</", "plugin", post);
    CloseLiterals();
  }

  lemma CloseLiterals()
    ensures "</" + "intelxdk:plugin" == "</intelxdk:plugin"
    ensures "</" + "plugin" == "</plugin"
  {
  }

  /**
   * The rules that retire a line keep it, verbatim, in the output: the
   * removed tags, the CLI version, Crosswalk, a low minimum SDK, the
   * Crosswalk version preference and the Windows capabilities.
   */
  lemma TagConvertKeepsRetiredLine(ed: Edition, line: string, out: string)
    requires TagConvert(ed, Widget, line) == Some(Step(Widget, out))
    requires || RuleOf(ed, line) == RemoveRule || RuleOf(ed, line) == CliRule || RuleOf(ed, line) == CrosswalkRule
             || RuleOf(ed, line) == XwalkVersionRule || RuleOf(ed, line) == CapabilitiesRule
             || (RuleOf(ed, line) == MinSdkRule && out != line)
    ensures Contains(out, line)
    ensures RuleOf(ed, line) == RemoveRule ==> out == Commented(line)
    ensures RuleOf(ed, line) == XwalkVersionRule ==> out == "<!-- " + line + " --> " + "<!-- Does not work with Adobe PhoneGap Build -->"
    ensures RuleOf(ed, line) == CapabilitiesRule ==> out == "<!-- ERROR: unable to convert: " + line + " -->"
  {
    match RuleOf(ed, line)
    case RemoveRule =>
      assert out == Commented(line);
      ContainsMiddle("<!-- ", line, " -->");
    case CliRule =>
      assert out == CliLine(ed, line);
      CliLineKeepsLine(ed, line);
    case CrosswalkRule =>
      assert CrosswalkLine(ed, line) == Some(out);
      CrosswalkLineKeepsLine(ed, line);
    case MinSdkRule =>
      assert MinSdkLine(line) == Some(out);
      MinSdkLineKeepsLine(line);
    case XwalkVersionRule =>
      assert out == "<!-- " + line + (" --> " + "<!-- Does not work with Adobe PhoneGap Build -->");
      ContainsMiddle("<!-- ", line, " --> " + "<!-- Does not work with Adobe PhoneGap Build -->");
    case CapabilitiesRule =>
      assert out == "<!-- ERROR: unable to convert: " + line + " -->";
      ContainsMiddle("<!-- ERROR: unable to convert: ", line, " -->");
  }

  lemma CliLineKeepsLine(ed: Edition, line: string)
    ensures Contains(CliLine(ed, line), line)
  {
    var p := PhonegapVersion(PhonegapCli(ed, line));
    if ed == Current {
      assert CliLine(ed, line) == p + (" <!-- " + line + " --> " + GradlePreference);
      KeepsAfter(p, " <!-- ", line, " --> ", GradlePreference);
    } else {
      assert CliLine(ed, line) == p + ("<!-- " + line + " -->");
      KeepsAfter(p, "<!-- ", line, " -->", "");
    }
  }

  /** A line put in the middle of a tail is still found once something is put before the tail. */
  lemma KeepsAfter(p: string, a: string, line: string, b: string, c: string)
    ensures Contains(p + (a + line + b + c), line)
    ensures Contains(p + (a + line + b), line)
  {
    assert p + (a + line + b + c) == (p + a) + line + (b + c);
    ContainsMiddle(p + a, line, b + c);
    assert p + (a + line + b) == (p + a) + line + b;
    ContainsMiddle(p + a, line, b);
  }

  lemma CrosswalkLineKeepsLine(ed: Edition, line: string)
    requires CrosswalkLine(ed, line).Some?
    ensures Contains(CrosswalkLine(ed, line).value, line)
  {
    var out := CrosswalkLine(ed, line).value;
    var rest := out[|"<!-- " + line|..];
    assert out == "<!-- " + line + rest;
    ContainsMiddle("<!-- ", line, rest);
  }

  lemma MinSdkLineKeepsLine(line: string)
    requires MinSdkLine(line).Some? && MinSdkLine(line).value != line
    ensures Contains(MinSdkLine(line).value, line)
  {
    var out := MinSdkLine(line).value;
    var rest := out[|"<!-- " + line|..];
    assert out == "<!-- " + line + rest;
    ContainsMiddle("<!-- ", line, rest);
  }

  /**
   * The CLI table gives one of four PhoneGap CLI versions, `cli-6.5.0` only
   * in the current edition, and `cli-5.2.0` for any version it does not
   * list; the current edition always appends the gradle preference.
   */
  lemma CliTable(ed: Edition, line: string)
    ensures PhonegapCli(ed, line) in ["cli-6.5.0", "cli-6.2.0", "cli-6.0.0", "cli-5.2.0"]
    ensures ed == Legacy ==> PhonegapCli(ed, line) != "cli-6.5.0"
    ensures !Contains(line, "version=\"6.5.0\"") && !Contains(line, "version=\"6.2.0\"") && !Contains(line, "version=\"5.4.1\"")
      ==> PhonegapCli(ed, line) == "cli-5.2.0"
    ensures ed == Current ==>
      var out := CliLine(ed, line);
      |out| >= |GradlePreference| && out[|out| - |GradlePreference|..] == GradlePreference
  {
    if ed == Legacy {
      assert "cli-6.2.0"[6] != "cli-6.5.0"[6] && "cli-6.0.0"[6] != "cli-6.5.0"[6] && "cli-5.2.0"[4] != "cli-6.5.0"[4];
    }
  }

  /**
   * A `cordova-cli` line becomes a `phonegap-version` preference: 6.5.0 gives
   * `cli-6.5.0` in the current edition only, then 6.2.0 gives `cli-6.2.0`,
   * 5.4.1 gives `cli-6.0.0`, and anything else (6.5.0 in the legacy edition
   * included) `cli-5.2.0`.
   */
  lemma CliVersions(ed: Edition, line: string)
    requires RuleOf(ed, line) == CliRule
    ensures TagConvert(ed, Widget, line) == Some(Step(Widget, CliLine(ed, line)))
    ensures var out := CliLine(ed, line);
      var latest := ed == Current && Contains(line, "version=\"6.5.0\"");
      && (latest ==> At(out, 0, PhonegapVersion("cli-6.5.0")))
      && (!latest && Contains(line, "version=\"6.2.0\"") ==> At(out, 0, PhonegapVersion("cli-6.2.0")))
      && (!latest && !Contains(line, "version=\"6.2.0\"") && Contains(line, "version=\"5.4.1\"")
          ==> At(out, 0, PhonegapVersion("cli-6.0.0")))
      && (!latest && !Contains(line, "version=\"6.2.0\"") && !Contains(line, "version=\"5.4.1\"")
          ==> At(out, 0, PhonegapVersion("cli-5.2.0")))
  {
    CliRuleStep(ed, line);
    CliLineStarts(ed, line);
  }

  lemma CliRuleStep(ed: Edition, line: string)
    requires RuleOf(ed, line) == CliRule
    ensures TagConvert(ed, Widget, line) == Some(Step(Widget, CliLine(ed, line)))
  {
  }

  lemma CliLineStarts(ed: Edition, line: string)
    ensures At(CliLine(ed, line), 0, PhonegapVersion(PhonegapCli(ed, line)))
  {
    AtConcat("", PhonegapVersion(PhonegapCli(ed, line)), CliTail(ed, line));
    assert "" + PhonegapVersion(PhonegapCli(ed, line)) + CliTail(ed, line) == CliLine(ed, line);
  }

  /** Lexicographic order on version texts of the same shape: `a` names an older version than `b`. */
  predicate Older(a: string, b: string)
    decreases |a|
  {
    |a| > 0 && |b| > 0 && (a[0] < b[0] || (a[0] == b[0] && Older(a[1..], b[1..])))
  }

  /**
   * The Crosswalk table never pairs a newer Crosswalk with an older plugin:
   * from 20 up no plugin version is pinned, and below that a higher version
   * number never gets an older plugin version.
   */
  lemma CrosswalkTableIncreases(n: nat, m: nat)
    requires n <= m
    ensures CrosswalkPluginVersion(n).None? <==> n >= 20
    ensures CrosswalkPluginVersion(n).None? ==> CrosswalkPluginVersion(m).None?
    ensures CrosswalkPluginVersion(m).Some? ==> !Older(CrosswalkPluginVersion(m).value, CrosswalkPluginVersion(n).value)
    ensures 15 <= n < m < 20 ==> Older(CrosswalkPluginVersion(n).value, CrosswalkPluginVersion(m).value)
  {
  }

  /**
   * A Crosswalk line is kept as a comment and followed by the Crosswalk
   * plugin: `shared` selects the shared mode (the legacy edition pins the
   * plugin to 1.8.0), and a version number selects a single APK and the
   * plugin version of the table: 19, 18, 17, 16 and anything lower give
   * 1.8.0, 1.7.2, 1.6.1, 1.5.0 and 1.4.0, and from 20 up none is pinned.
   */
  lemma CrosswalkVersions(ed: Edition, line: string)
    requires RuleOf(ed, line) == CrosswalkRule && Match(DigitsOrShared, line, VersionKey).Some?
    ensures CrosswalkLine(ed, line).Some? && TagConvert(ed, Widget, line) == Some(Step(Widget, CrosswalkLine(ed, line).value))
    ensures var x := Match(DigitsOrShared, line, VersionKey).value;
      var out := CrosswalkLine(ed, line);
      var head := "<!-- " + line + " --> ";
      if x == "shared" then
        && (ed == Current ==> out == Some(head + SharedMode + (CrosswalkPlugin + " />")))
        && (ed == Legacy ==> out == Some(head + SharedMode + (CrosswalkPlugin + " spec=\"1.8.0\" />")))
      else
        && AllDigits(x)
        && var n := DigitsValue(x);
        && (n >= 20 ==> out == Some(head + SingleApk + CrosswalkPluginTag(None)))
        && (n == 19 ==> out == Some(head + SingleApk + CrosswalkPluginTag(Some("1.8.0"))))
        && (n == 18 ==> out == Some(head + SingleApk + CrosswalkPluginTag(Some("1.7.2"))))
        && (n == 17 ==> out == Some(head + SingleApk + CrosswalkPluginTag(Some("1.6.1"))))
        && (n == 16 ==> out == Some(head + SingleApk + CrosswalkPluginTag(Some("1.5.0"))))
        && (n < 16 ==> out == Some(head + SingleApk + CrosswalkPluginTag(Some("1.4.0"))))
  {
    CrosswalkRuleStep(ed, line);
  }

  lemma CrosswalkRuleStep(ed: Edition, line: string)
    requires RuleOf(ed, line) == CrosswalkRule && CrosswalkLine(ed, line).Some?
    ensures TagConvert(ed, Widget, line) == Some(Step(Widget, CrosswalkLine(ed, line).value))
  {
  }

  /**
   * A converted `<intelxdk:plugin>` names the plugin by its `intelxdk:value`
   * and takes its `intelxdk:version` as spec; it stays self-closing when the
   * XDK tag was, and otherwise opens a plugin block.
   */
  lemma PluginLineShape(line: string)
    requires PluginLine(line).Some?
    ensures var id := Match(QuotedText, line, ValueKey).value;
      var spec := Match(QuotedText, line, PluginVersionKey).value;
      var st := PluginLine(line).value;
      && At(st.line, 0, PluginTag(id, spec))
      && (st.mode == Widget <==> Spans(line, "<intelxdk:plugin", "/>"))
      && (st.mode == Widget ==> st.line == PluginTag(id, spec) + " />")
      && (st.mode == Plugin ==> st.line == PluginTag(id, spec) + " >")
  {
    var id := Match(QuotedText, line, ValueKey).value;
    var spec := Match(QuotedText, line, PluginVersionKey).value;
    var t := PluginTag(id, spec);
    if Spans(line, "<intelxdk:plugin", "/>") {
      assert (t + " />")[..|t|] == t;
    } else {
      assert (t + " >")[..|t|] == t;
    }
  }

  /**
   * The widget rule replaces the first XDK namespace declaration: by the
   * Cordova ones in the current edition, by nothing in the legacy one; a
   * line without it keeps its text in the legacy edition. In the current
   * edition a line naming an iOS or an Android version is left at that, and
   * one naming neither repeats its first dotted `version` as the Windows
   * package version, or is left at that when it has none.
   */
  lemma WidgetLineNamespaces(line: string)
    ensures !Contains(line, XdkNamespace) ==> WidgetLine(Legacy, line) == line
    ensures Contains(line, XdkNamespace) ==> |WidgetLine(Legacy, line)| == |line| - |XdkNamespace|
    ensures var l := ReplaceFirst(line, XdkNamespace, CordovaNamespaces);
      && (Contains(line, XdkNamespace) ==> Contains(l, CordovaNamespaces))
      && (Contains(l, "ios-CFBundleVersion") || Contains(l, "android-versionCode") || Match(DottedNumber, l, VersionKey).None?
          ==> WidgetLine(Current, line) == l)
      && (!Contains(l, "ios-CFBundleVersion") && !Contains(l, "android-versionCode") && Match(DottedNumber, l, VersionKey).Some?
          ==> Contains(WidgetLine(Current, line), WindowsVersion(Match(DottedNumber, l, VersionKey).value)))
  {
    var l := ReplaceFirst(line, XdkNamespace, CordovaNamespaces);
    if !Contains(l, "ios-CFBundleVersion") && !Contains(l, "android-versionCode") {
      WindowsVersionAdded(l);
    }
  }

  /**
   * Where the first dotted `version="v"` of a line sits: `l[p..q]` is the
   * whole attribute, and no dotted version attribute starts before `p`.
   */
  lemma VersionAttr(l: string) returns (p: nat, q: nat)
    requires Match(DottedNumber, l, VersionKey).Some?
    ensures p == FirstMatch(DottedNumber, l, VersionKey, 0)
    ensures q == p + |VersionKey| + |Match(DottedNumber, l, VersionKey).value| + 1 <= |l|
    ensures l[p..q] == VersionKey + Match(DottedNumber, l, VersionKey).value + "\""
    ensures forall k :: 0 <= k < p ==> !MatchAt(DottedNumber, l, k, VersionKey)
  {
    p := FirstMatch(DottedNumber, l, VersionKey, 0);
    var v := Captured(DottedNumber, l, p, VersionKey);
    assert l[p..ValueEnd(l, p, VersionKey) + 1] == VersionKey + v + "\"";
    q := ValueEnd(l, p, VersionKey) + 1;
  }

  /** The first dotted `version="v"` of a line is followed by `windows-packageVersion="v"`. */
  lemma WindowsVersionAdded(l: string)
    ensures Match(DottedNumber, l, VersionKey).None? ==> ReplaceMatch(DottedNumber, l, VersionKey, WindowsVersion) == l
    ensures Match(DottedNumber, l, VersionKey).Some? ==>
      Contains(ReplaceMatch(DottedNumber, l, VersionKey, WindowsVersion), WindowsVersion(Match(DottedNumber, l, VersionKey).value))
  {
    var p := FirstMatch(DottedNumber, l, VersionKey, 0);
    if p != -1 {
      var v := Captured(DottedNumber, l, p, VersionKey);
      var rest := l[ValueEnd(l, p, VersionKey) + 1..];
      assert Match(DottedNumber, l, VersionKey) == Some(v);
      assert ReplaceMatch(DottedNumber, l, VersionKey, WindowsVersion) == l[..p] + WindowsVersion(v) + rest;
      ContainsMiddle(l[..p], WindowsVersion(v), rest);
    }
  }

  /**
   * Exactly: ` windows-packageVersion="v"` goes in right after the first
   * dotted `version="v"` (which ends at `q`), and nothing else changes.
   */
  lemma WindowsVersionInserted(l: string) returns (q: nat)
    requires Match(DottedNumber, l, VersionKey).Some?
    ensures q == FirstMatch(DottedNumber, l, VersionKey, 0) + |VersionKey| + |Match(DottedNumber, l, VersionKey).value| + 1 <= |l|
    ensures ReplaceMatch(DottedNumber, l, VersionKey, WindowsVersion)
      == l[..q] + " windows-packageVersion=\"" + Match(DottedNumber, l, VersionKey).value + "\"" + l[q..]
  {
    var p, q' := VersionAttr(l);
    q := q';
    var v := Match(DottedNumber, l, VersionKey).value;
    assert ReplaceMatch(DottedNumber, l, VersionKey, WindowsVersion) == l[..p] + WindowsVersion(v) + l[q..];
    WindowsVersionSplit(v);
    SpliceAfter(l, p, q, " windows-packageVersion=\"" + v + "\"");
  }

  /**
   * In the current edition, a widget line naming neither an iOS nor an
   * Android version gains ` windows-packageVersion="v"` right after its
   * first dotted `version="v"`; the rest of the namespace-replaced line `l`
   * is unchanged.
   */
  lemma WidgetLineWindowsVersion(line: string) returns (q: nat)
    requires var l := ReplaceFirst(line, XdkNamespace, CordovaNamespaces);
      !Contains(l, "ios-CFBundleVersion") && !Contains(l, "android-versionCode") && Match(DottedNumber, l, VersionKey).Some?
    ensures var l := ReplaceFirst(line, XdkNamespace, CordovaNamespaces);
      && q == FirstMatch(DottedNumber, l, VersionKey, 0) + |VersionKey| + |Match(DottedNumber, l, VersionKey).value| + 1 <= |l|
      && WidgetLine(Current, line) == l[..q] + " windows-packageVersion=\"" + Match(DottedNumber, l, VersionKey).value + "\"" + l[q..]
  {
    q := WindowsVersionInserted(ReplaceFirst(line, XdkNamespace, CordovaNamespaces));
  }

  lemma WindowsVersionSplit(v: string)
    ensures WindowsVersion(v) == VersionKey + v + "\"" + (" windows-packageVersion=\"" + v + "\"")
  {
    assert "\" windows-packageVersion=\"" == "\"" + " windows-packageVersion=\"";
  }

  /** Text put in after `l[p..q]`, spelled as a splice of the whole attribute. */
  lemma SpliceAfter(l: string, p: int, q: int, b: string)
    requires 0 <= p <= q <= |l|
    ensures l[..p] + (l[p..q] + b) + l[q..] == l[..q] + b + l[q..]
  {
    assert l[..q] == l[..p] + l[p..q];
  }

  /** A deployment-target preference holds the attribute it is recognised by. */
  lemma DeploymentNamed(line: string)
    requires Preference(line, "deployment-target", ">")
    ensures Contains(line, DeploymentName)
  {
    SpacedAttrContains(line, "<preference", DeploymentName, ">");
  }

  /**
   * The deployment target preference gains `platform="ios" ` in front of the
   * first `name="deployment-target"`, and is otherwise unchanged.
   */
  lemma DeploymentGainsPlatform(ed: Edition, line: string)
    requires RuleOf(ed, line) == DeploymentRule
    ensures TagConvert(ed, Widget, line).Some?
    ensures Contains(TagConvert(ed, Widget, line).value.line, "platform=\"ios\" " + DeploymentName)
    ensures 0 <= IndexOf(line, DeploymentName, 0)
    ensures forall k :: 0 <= k < IndexOf(line, DeploymentName, 0) ==> !At(line, k, DeploymentName)
    ensures TagConvert(ed, Widget, line)
      == Some(Step(Widget, line[..IndexOf(line, DeploymentName, 0)] + "platform=\"ios\" " + line[IndexOf(line, DeploymentName, 0)..]))
  {
    DeploymentNamed(line);
    InsertBefore(line, DeploymentName, "platform=\"ios\" ");
  }

  const PublisherName := "windows-publisher-display-name"

  /**
   * The Windows publisher preference has its first `windows-publisher-display-name`
   * renamed to `WindowsStorePublisherName`, and is otherwise unchanged.
   */
  lemma PublisherRenamed(ed: Edition, line: string)
    requires RuleOf(ed, line) == PublisherRule
    ensures 0 <= IndexOf(line, PublisherName, 0)
    ensures forall k :: 0 <= k < IndexOf(line, PublisherName, 0) ==> !At(line, k, PublisherName)
    ensures TagConvert(ed, Widget, line)
      == Some(Step(Widget, line[..IndexOf(line, PublisherName, 0)] + "WindowsStorePublisherName"
                           + line[IndexOf(line, PublisherName, 0) + |PublisherName|..]))
  {
    SpacedAttrContains(line, "<preference", "name=\"" + PublisherName + "\"", ">");
    ContainsInner(line, "name=\"", PublisherName, "\"");
    ReplaceFirstSplices(line, PublisherName, "WindowsStorePublisherName");
  }

  /** A minimum SDK of 15 or less is raised to 16; a higher one is left as it was. */
  lemma MinSdkRaises(line: string)
    requires MinSdkLine(line).Some?
    ensures DigitsValue(Match(Digits, line, "value=\"").value) > 15 <==> MinSdkLine(line).value == line
    ensures DigitsValue(Match(Digits, line, "value=\"").value) <= 15 ==>
      Contains(MinSdkLine(line).value, "<preference name=\"android-minSdkVersion\" value=\"16\" /> ")
  {
    var v := Match(Digits, line, "value=\"").value;
    if DigitsValue(v) <= 15 {
      var out := MinSdkLine(line).value;
      assert |out| > |line|;
      assert out == "<!-- " + line + " --> " + "<preference name=\"android-minSdkVersion\" value=\"16\" /> " + "";
      ContainsMiddle("<!-- " + line + " --> ", "<preference name=\"android-minSdkVersion\" value=\"16\" /> ", "");
    }
  }
}
