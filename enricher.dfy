/**
 * Pass 5 of the converter: the plugins listed in the project's `.xdk`
 * sidecar that were imported locally or taken from a git repository are
 * looked up among the converted `<plugin name="id" ...>` lines. A local
 * plugin's lines get a warning comment; a repository plugin's lines get
 * their `spec` pointed at the repository and a note. Three diagnostic lines
 * are written for each such plugin, whether or not a line names it.
 */
module Enricher {
  import opened Strings
  import opened Records
  import opened Patterns
  import opened Rewriter

  /**
   * One entry of the sidecar's `project.cordovaPlugins` array. A missing
   * property is the text JavaScript makes of it, except `gitref`, where a
   * missing or empty value both read as false and are written `""`.
   */
  datatype PluginRec = PluginRec(id: string, name: string, originType: OriginType, origin: string, gitref: string)

  /** `originType`, as far as the converter looks at it: `"local"`, `"repo"`, or anything else. */
  datatype OriginType = Local | Repo | Unlisted

  /**
   * What reading and parsing the sidecar gives: the exception's message, or
   * the plugin list when `project.cordovaPlugins` is present (None when the
   * parsed object has no such list).
   */
  datatype Sidecar = Unreadable(message: string) | Parsed(plugins: Option<seq<PluginRec>>)

  const LocalWarning := "  Locally imported plugins may not work if the plugin is private or modified."
  const RepoNote := "  If available via Cordova registry; consider changing to an NPM reference."
  const SpecKey := "spec=\""
  const LocalComment := "<!-- " + LocalWarning + " -->"
  const RepoComment := "<!-- " + RepoNote + " -->"

  /** `new RegExp('<plugin\\sname="' + id + '"')` matches `s`, the id read literally. */
  predicate NamesPlugin(s: string, id: string) {
    OneSpaceAttr(s, "<plugin", "name=\"" + id + "\"", "")
  }

  /** `spec="origin#gitref"`, or `spec="origin"` when `gitref` is false. */
  function RepoSpec(p: PluginRec): string {
    if p.gitref != "" then SpecKey + p.origin + "#" + p.gitref + "\"" else SpecKey + p.origin + "\""
  }

  /** The three lines written to the error stream for a plugin; none unless it is local or from a repository. */
  function Notes(p: PluginRec): seq<string> {
    if p.originType == Local then
      ["WARNING: regarding plugin '" + p.id + "' (" + p.name + "):",
       "  Plugin was imported locally and may not work with Adobe PhoneGap Build.",
       LocalWarning]
    else if p.originType == Repo then
      ["NOTE: regarding plugin '" + p.id + "' (" + p.name + "):",
       "  Plugin was added via a git repo, not the Cordova NPM plugin registry.",
       RepoNote]
    else []
  }

  /** `s.replace(/spec="([^"]+)"/, ...)`: the first spec pointed at the repository. */
  function Respec(p: PluginRec, s: string): string {
    ReplaceMatch(QuotedText, s, SpecKey, _ => RepoSpec(p))
  }

  /** A repository plugin's line: respecified, the note appended. */
  function RepoLine(p: PluginRec, s: string): string {
    Respec(p, s) + RepoComment
  }

  /** What one plugin does to one record. */
  function Patch(p: PluginRec, r: Record): Record {
    if r.tag == Comment || !NamesPlugin(r.text, p.id) then r
    else if p.originType == Local then Record(r.tag, r.text + LocalComment)
    else if p.originType == Repo then Record(r.tag, RepoLine(p, r.text))
    else r
  }

  function PatchAll(p: PluginRec, rs: seq<Record>): (qs: seq<Record>)
    ensures |qs| == |rs|
  {
    seq(|rs|, i requires 0 <= i < |rs| => Patch(p, rs[i]))
  }

  /** The records after every plugin of `ps`, in order, has patched them. */
  function EnrichedBy(ps: seq<PluginRec>, rs: seq<Record>): (qs: seq<Record>)
    decreases |ps|
    ensures |qs| == |rs|
  {
    if ps == [] then rs else PatchAll(ps[|ps| - 1], EnrichedBy(ps[..|ps| - 1], rs))
  }

  /** The diagnostics of every plugin of `ps`, in order. */
  function NotesOf(ps: seq<PluginRec>): seq<string>
    decreases |ps|
  {
    if ps == [] then [] else NotesOf(ps[..|ps| - 1]) + Notes(ps[|ps| - 1])
  }

  /** A plugin tag the rewriter produces is found by the plugin's own id. */
  lemma ConvertedPluginIsNamed(id: string, rest: string)
    ensures NamesPlugin("<plugin name=\"" + id + "\"" + rest, id)
  {
    var s := "<plugin name=\"" + id + "\"" + rest;
    assert s == "<plugin" + " " + ("name=\"" + id + "\"" + rest);
    assert s[..7] == "<plugin";
    assert s[8..8 + |"name=\"" + id + "\""|] == "name=\"" + id + "\"";
    assert OneSpaceAttrAt(s, 0, "<plugin", "name=\"" + id + "\"", "");
  }

  /** Every `<plugin>` line pass 3 writes is found by the id it was converted from. */
  lemma PluginLineNamed(line: string)
    requires PluginLine(line).Some?
    ensures NamesPlugin(PluginLine(line).value.line, Match(QuotedText, line, ValueKey).value)
  {
    var id := Match(QuotedText, line, ValueKey).value;
    var spec := Match(QuotedText, line, PluginVersionKey).value;
    PluginLineShape(line);
    var close := if PluginLine(line).value.mode == Widget then " />" else " >";
    TagNamed(id, spec, close);
  }

  lemma TagNamed(id: string, spec: string, close: string)
    ensures NamesPlugin(PluginTag(id, spec) + close, id)
  {
    assert PluginTag(id, spec) + close == "<plugin name=\"" + id + "\"" + (" spec=\"" + spec + "\"" + close);
    ConvertedPluginIsNamed(id, " spec=\"" + spec + "\"" + close);
  }

  /** Appending to a line keeps every plugin the line names. */
  lemma {:induction false} NamesPluginExtends(s: string, t: string, id: string, from: nat)
    requires OneSpaceAttrFrom(s, "<plugin", "name=\"" + id + "\"", "", from)
    ensures OneSpaceAttrFrom(s + t, "<plugin", "name=\"" + id + "\"", "", from)
    decreases |s| - from
  {
    var attr := "name=\"" + id + "\"";
    if OneSpaceAttrAt(s, from, "<plugin", attr, "") {
      assert (s + t)[from..from + 7] == s[from..from + 7];
      assert (s + t)[from + 8..from + 8 + |attr|] == s[from + 8..from + 8 + |attr|];
      assert OneSpaceAttrAt(s + t, from, "<plugin", attr, "");
    } else {
      NamesPluginExtends(s, t, id, from + 1);
    }
  }

  /**
   * A local plugin appends the warning to each code line that names it, and
   * the line still names it; a line that does not name it, or a comment, is
   * left alone.
   */
  lemma LocalPatch(p: PluginRec, r: Record)
    requires p.originType == Local
    ensures r.tag == Comment || !NamesPlugin(r.text, p.id) ==> Patch(p, r) == r
    ensures r.tag != Comment && NamesPlugin(r.text, p.id) ==>
      Patch(p, r) == Record(r.tag, r.text + LocalComment) && NamesPlugin(Patch(p, r).text, p.id)
  {
    if r.tag != Comment && NamesPlugin(r.text, p.id) {
      NamesPluginExtends(r.text, LocalComment, p.id, 0);
    }
  }

  /**
   * A repository plugin points the first `spec="..."` of a line at
   * `origin#gitref` (or `origin`), leaves the text around it as it was, and
   * appends the note; a line without a spec only gets the note.
   */
  lemma RepoPatch(p: PluginRec, s: string)
    ensures FirstMatch(QuotedText, s, SpecKey, 0) == -1 ==> RepoLine(p, s) == s + RepoComment
    ensures FirstMatch(QuotedText, s, SpecKey, 0) != -1 ==>
      var k := FirstMatch(QuotedText, s, SpecKey, 0);
      && RepoLine(p, s) == s[..k] + RepoSpec(p) + s[ValueEnd(s, k, SpecKey) + 1..] + RepoComment
      && Contains(RepoLine(p, s), RepoSpec(p))
  {
    var k := FirstMatch(QuotedText, s, SpecKey, 0);
    if k != -1 {
      var rest := s[ValueEnd(s, k, SpecKey) + 1..] + RepoComment;
      assert RepoLine(p, s) == s[..k] + RepoSpec(p) + rest;
      ContainsMiddle(s[..k], RepoSpec(p), rest);
    }
  }

  /** Plugins of any other origin change nothing. */
  lemma OtherOriginPatchesNothing(p: PluginRec, rs: seq<Record>)
    requires p.originType == Unlisted
    ensures PatchAll(p, rs) == rs && Notes(p) == []
  {
  }

  /**
   * Pass 5 keeps the records one to one: the same number, the same tags,
   * and comment records verbatim.
   */
  lemma {:induction false} EnrichedKeepsShape(ps: seq<PluginRec>, rs: seq<Record>)
    ensures forall i :: 0 <= i < |rs| ==> EnrichedBy(ps, rs)[i].tag == rs[i].tag
    ensures forall i :: 0 <= i < |rs| && rs[i].tag == Comment ==> EnrichedBy(ps, rs)[i] == rs[i]
    decreases |ps|
  {
    if ps != [] {
      EnrichedKeepsShape(ps[..|ps| - 1], rs);
    }
  }

  /** One plugin more: its patches on top of the earlier ones, its notes after theirs; an unlisted one adds neither. */
  lemma EnrichStep(ps: seq<PluginRec>, rs: seq<Record>, z: nat)
    requires z < |ps|
    ensures EnrichedBy(ps[..z + 1], rs) == PatchAll(ps[z], EnrichedBy(ps[..z], rs))
    ensures NotesOf(ps[..z + 1]) == NotesOf(ps[..z]) + Notes(ps[z])
    ensures ps[z].originType == Unlisted ==> PatchAll(ps[z], EnrichedBy(ps[..z], rs)) == EnrichedBy(ps[..z], rs) && Notes(ps[z]) == []
  {
    assert ps[..z + 1][..z] == ps[..z];
  }

  /** The loop for a local plugin: the warning appended to each code line that names it. */
  method MarkLocal(p: PluginRec, rs: seq<Record>) returns (out: seq<Record>)
    requires p.originType == Local
    ensures out == PatchAll(p, rs)
  {
    out := rs;
    for i := 0 to |out|
      invariant |out| == |rs|
      invariant forall j :: 0 <= j < i ==> out[j] == Patch(p, rs[j])
      invariant forall j :: i <= j < |rs| ==> out[j] == rs[j]
    {
      if out[i].tag != Comment && NamesPlugin(out[i].text, p.id) {
        out := out[i := Record(out[i].tag, out[i].text + LocalComment)];
      }
    }
  }

  /** The loop for a repository plugin: the spec replaced and the note appended on each code line that names it. */
  method MarkRepo(p: PluginRec, rs: seq<Record>) returns (out: seq<Record>)
    requires p.originType == Repo
    ensures out == PatchAll(p, rs)
  {
    out := rs;
    for i := 0 to |out|
      invariant |out| == |rs|
      invariant forall j :: 0 <= j < i ==> out[j] == Patch(p, rs[j])
      invariant forall j :: i <= j < |rs| ==> out[j] == rs[j]
    {
      assert Patch(p, rs[i]) == if rs[i].tag != Comment && NamesPlugin(rs[i].text, p.id) then Record(rs[i].tag, RepoLine(p, rs[i].text)) else rs[i];
      if out[i].tag != Comment && NamesPlugin(out[i].text, p.id) {
        var line := Respec(p, out[i].text);
        out := out[i := Record(out[i].tag, line + RepoComment)];
      }
    }
  }

  /** Pass 5 over the sidecar's plugins, in order: the patched records and the diagnostics. */
  method Enrich(ps: seq<PluginRec>, rs: seq<Record>) returns (out: seq<Record>, notes: seq<string>)
    ensures out == EnrichedBy(ps, rs) && notes == NotesOf(ps)
  {
    out, notes := rs, [];
    for z := 0 to |ps|
      invariant out == EnrichedBy(ps[..z], rs) && notes == NotesOf(ps[..z])
    {
      EnrichStep(ps, rs, z);
      var p := ps[z];
      if p.originType == Local {
        out := MarkLocal(p, out);
      } else if p.originType == Repo {
        out := MarkRepo(p, out);
      }
      notes := notes + Notes(p);
    }
    assert ps[..|ps|] == ps;
  }
}
