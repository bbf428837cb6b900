/**
 * Pass 4 of the converter: every code record that carries a Crosswalk
 * command-line option is turned into a comment, and the options, in order,
 * are gathered into one `xwalkCommandLine` preference inserted where the
 * first of them was. Index 0 is the "nothing found yet" mark, so a record
 * at index 0 never anchors the insertion.
 */
module Aggregator {
  import opened Strings
  import opened Records
  import opened Patterns

  /** The record is code and `<intelxdk:crosswalk.+xwalk-command-line="([^"]+)"` matches its text. */
  predicate HasOption(r: Record) {
    r.tag != Comment && CommandLineOption(r.text).Some?
  }

  /** A matching record becomes a comment, its first `--` broken up so the comment stays closed. */
  function Retire(r: Record): (q: Record)
    ensures !HasOption(r) ==> q == r
    ensures HasOption(r) ==> q.tag == Comment && Contains(q.text, ReplaceFirst(r.text, "--", "- -"))
  {
    if HasOption(r) then
      ContainsMiddle("<!-- ", ReplaceFirst(r.text, "--", "- -"), " -->");
      Record(Comment, "<!-- " + ReplaceFirst(r.text, "--", "- -") + " -->")
    else r
  }

  function Retired(rs: seq<Record>): (qs: seq<Record>)
    ensures |qs| == |rs|
  {
    seq(|rs|, i requires 0 <= i < |rs| => Retire(rs[i]))
  }

  /** The options found, in record order. */
  function Options(rs: seq<Record>): seq<string>
    decreases |rs|
  {
    if rs == [] then []
    else
      var r := rs[|rs| - 1];
      Options(rs[..|rs| - 1]) + (if HasOption(r) then [CommandLineOption(r.text).value] else [])
  }

  /** `z`: the first index above 0 that holds an option, or 0 when there is none. */
  function Anchor(rs: seq<Record>): (z: nat)
    decreases |rs|
    ensures z < |rs| || z == 0
  {
    if rs == [] then 0
    else
      var z := Anchor(rs[..|rs| - 1]);
      if z > 0 then z else if |rs| - 1 > 0 && HasOption(rs[|rs| - 1]) then |rs| - 1 else 0
  }

  /** The anchor is the first record above index 0 that holds an option. */
  lemma {:induction false} AnchorIsFirst(rs: seq<Record>)
    ensures Anchor(rs) > 0 ==> HasOption(rs[Anchor(rs)])
    ensures forall j :: 0 < j < |rs| && (Anchor(rs) == 0 || j < Anchor(rs)) ==> !HasOption(rs[j])
    decreases |rs|
  {
    if rs != [] {
      var front := rs[..|rs| - 1];
      AnchorIsFirst(front);
      assert forall j :: 0 <= j < |front| ==> front[j] == rs[j];
    }
  }

  /** Each option followed by one space, as the joining loop builds it. */
  function Spaced(opts: seq<string>): string
    decreases |opts|
  {
    if opts == [] then "" else Spaced(opts[..|opts| - 1]) + opts[|opts| - 1] + " "
  }

  function CommandLinePreference(opts: seq<string>): string {
    "<preference name=\"xwalkCommandLine\" value=\"" + Trim(Spaced(opts)) + "\"/>"
  }

  /** Pass 4 as a whole: the records retired, and the preference inserted at the anchor when it is above 0. */
  function Aggregated(rs: seq<Record>): seq<Record> {
    var z := Anchor(rs);
    if z > 0 then Retired(rs)[..z] + [Record(Code(z), CommandLinePreference(Options(rs)))] + Retired(rs)[z..]
    else Retired(rs)
  }

  /** Only records with an option are retired; their tags become comments and no tag leaves `Comment`. */
  lemma RetiredKeepsComments(rs: seq<Record>)
    ensures KeepsComments(rs, Retired(rs))
    ensures forall i :: 0 <= i < |rs| ==> (Retired(rs)[i] != rs[i] <==> HasOption(rs[i]))
  {
  }

  /**
   * Exactly one record is inserted, at the anchor, in front of the first
   * option; every other record keeps its place relative to the rest. With no
   * anchor the records are only retired.
   */
  lemma AggregatedLayout(rs: seq<Record>)
    ensures Anchor(rs) == 0 ==> Aggregated(rs) == Retired(rs)
    ensures Anchor(rs) > 0 ==>
      |Aggregated(rs)| == |rs| + 1
      && Aggregated(rs)[Anchor(rs)] == Record(Code(Anchor(rs)), CommandLinePreference(Options(rs)))
      && (forall i :: 0 <= i < Anchor(rs) ==> Aggregated(rs)[i] == Retire(rs[i]))
      && (forall i :: Anchor(rs) < i <= |rs| ==> Aggregated(rs)[i] == Retire(rs[i - 1]))
  {
    var z := Anchor(rs);
    if z > 0 {
      InsertLayout(Retired(rs), z, Record(Code(z), CommandLinePreference(Options(rs))));
    }
  }

  lemma InsertLayout(a: seq<Record>, z: nat, x: Record)
    requires z <= |a|
    ensures var b := a[..z] + [x] + a[z..];
      && |b| == |a| + 1 && b[z] == x
      && (forall i :: 0 <= i < z ==> b[i] == a[i])
      && (forall i :: z < i <= |a| ==> b[i] == a[i - 1])
  {
  }

  /** The options of two runs of records are the options of each, in order. */
  lemma {:induction false} OptionsAppend(a: seq<Record>, b: seq<Record>)
    ensures Options(a + b) == Options(a) + Options(b)
    decreases |b|
  {
    if b == [] {
      assert a + b == a;
    } else {
      var front := b[..|b| - 1];
      assert (a + b)[..|a + b| - 1] == a + front;
      OptionsAppend(a, front);
    }
  }

  /** Options hold no `"`, and so neither does the joined text. */
  lemma {:induction false} SpacedHasNoQuote(opts: seq<string>)
    requires forall k :: 0 <= k < |opts| ==> '"' !in opts[k]
    ensures '"' !in Spaced(opts)
    decreases |opts|
  {
    if opts != [] {
      SpacedHasNoQuote(opts[..|opts| - 1]);
    }
  }

  lemma {:induction false} OptionsHaveNoQuote(rs: seq<Record>)
    ensures forall k :: 0 <= k < |Options(rs)| ==> '"' !in Options(rs)[k]
    decreases |rs|
  {
    if rs != [] {
      OptionsHaveNoQuote(rs[..|rs| - 1]);
      var r := rs[|rs| - 1];
      if HasOption(r) {
        var v := CommandLineOption(r.text).value;
        assert forall k :: 0 <= k < |v| ==> v[k] != '"';
      }
    }
  }

  /**
   * The value of the inserted preference is the options joined by single
   * spaces and trimmed at both ends; it holds no `"`, so the attribute is
   * closed where the preference says.
   */
  lemma PreferenceValue(rs: seq<Record>)
    ensures var v := Trim(Spaced(Options(rs)));
      && '"' !in v
      && (v == [] || (!IsSpace(v[0]) && !IsSpace(v[|v| - 1])))
  {
    OptionsHaveNoQuote(rs);
    SpacedHasNoQuote(Options(rs));
    var s := Spaced(Options(rs));
    var v := Trim(s);
    assert forall k :: 0 <= k < |v| ==> v[k] in s;
  }

  /** One record of the sweep: how the retired records, the options and the anchor grow. */
  lemma SweepStep(rs: seq<Record>, i: nat)
    requires i < |rs|
    ensures Retired(rs[..i + 1]) + rs[i + 1..] == (Retired(rs[..i]) + rs[i..])[i := Retire(rs[i])]
    ensures Options(rs[..i + 1]) == Options(rs[..i]) + (if HasOption(rs[i]) then [CommandLineOption(rs[i].text).value] else [])
    ensures Anchor(rs[..i + 1]) == if Anchor(rs[..i]) > 0 then Anchor(rs[..i]) else if i > 0 && HasOption(rs[i]) then i else 0
  {
    assert rs[..i + 1][..i] == rs[..i];
  }

  /**
   * The sweep of pass 4: each record with an option is retired, its option
   * collected and the first index above 0 remembered.
   */
  method Sweep(rs: seq<Record>) returns (out: seq<Record>, y: seq<string>, z: nat)
    ensures out == Retired(rs) && y == Options(rs) && z == Anchor(rs)
  {
    out := rs;
    y, z := [], 0;
    var i := 0;
    while i < |out|
      invariant |out| == |rs| && 0 <= i <= |rs|
      invariant out == Retired(rs[..i]) + rs[i..]
      invariant y == Options(rs[..i])
      invariant z == Anchor(rs[..i])
    {
      SweepStep(rs, i);
      var r := out[i];
      assert r == rs[i];
      var q := r;
      if r.tag != Comment {
        var x := CommandLineOption(r.text);
        if x.Some? {
          if z == 0 {
            z := i;
          }
          q := Record(Comment, "<!-- " + ReplaceFirst(r.text, "--", "- -") + " -->");
          y := y + [x.value];
        }
      }
      assert q == Retire(rs[i]);
      out := out[i := q];
      i := i + 1;
    }
    assert rs[..i] == rs;
  }

  /** The joining loop: each option and a space, appended in order. */
  method Join(y: seq<string>) returns (x: string)
    ensures x == Spaced(y)
  {
    x := "";
    for j := 0 to |y|
      invariant x == Spaced(y[..j])
    {
      assert y[..j + 1][..j] == y[..j];
      x := x + y[j] + " ";
    }
    assert y[..|y|] == y;
  }

  /** Pass 4: the sweep, then, when the anchor is above 0, the joined options inserted there. */
  method Aggregate(rs: seq<Record>) returns (out: seq<Record>)
    ensures out == Aggregated(rs)
  {
    var y, z;
    out, y, z := Sweep(rs);
    if z > 0 {
      var x := Join(y);
      out := out[..z] + [Record(Code(z), "<preference name=\"xwalkCommandLine\" value=\"" + Trim(x) + "\"/>")] + out[z..];
    }
  }
}
