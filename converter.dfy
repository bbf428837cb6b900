/**
 * Pass 3 of the converter: every code record is run through `tagConvert`,
 * whose `parseTag` mode carries over from one line to the next; comment
 * records are copied. The legacy edition also latches the project name from
 * the first `<name>...</name>` it meets on a code line, read before the
 * rewrite.
 */
module Converter {
  import opened Strings
  import opened Records
  import opened Patterns
  import opened Rewriter

  /** The records converted so far and the mode `tagConvert` is left in. */
  datatype Pass = Pass(out: seq<Record>, mode: Mode)

  /** Pass 3 over `rs`, from the `widget` mode; None when a `tagConvert` call throws. */
  function Convert(ed: Edition, rs: seq<Record>): (r: Option<Pass>)
    decreases |rs|
    ensures r.Some? ==> |r.value.out| == |rs|
  {
    if rs == [] then Some(Pass([], Widget))
    else
      match Convert(ed, rs[..|rs| - 1])
      case None => None
      case Some(p) => Step(ed, p, rs[|rs| - 1])
  }

  /** One record of pass 3: a comment is copied, a code record's text goes through `tagConvert`. */
  function Step(ed: Edition, p: Pass, r: Record): Option<Pass> {
    if r.tag == Comment then Some(Pass(p.out + [r], p.mode))
    else
      match TagConvert(ed, p.mode, r.text)
      case None => None
      case Some(st) => Some(Pass(p.out + [Record(r.tag, st.line)], st.mode))
  }

  /** Pass 3 and the name latch over one more record. */
  lemma ConvertExtends(ed: Edition, rs: seq<Record>, i: nat)
    requires i < |rs|
    ensures Convert(ed, rs[..i + 1]) == if Convert(ed, rs[..i]).None? then None else Step(ed, Convert(ed, rs[..i]).value, rs[i])
    ensures ProjectName(rs[..i + 1]) == if ProjectName(rs[..i]).Some? then ProjectName(rs[..i]) else OfferedName(rs[i])
  {
    assert rs[..i + 1][..i] == rs[..i];
  }

  /** The name a code record offers: the capture of `<name>(.*)</name>` when it is not empty. */
  function OfferedName(r: Record): Option<string> {
    if r.tag == Comment then None
    else
      var n := NameTag(r.text);
      if n.Some? && n.value != "" then n else None
  }

  /** The latched project name: the first name offered, in record order. */
  function ProjectName(rs: seq<Record>): Option<string>
    decreases |rs|
  {
    if rs == [] then None
    else
      var p := ProjectName(rs[..|rs| - 1]);
      if p.Some? then p else OfferedName(rs[|rs| - 1])
  }

  /**
   * The latched name is the one offered by the first record that offers one,
   * and no name is latched when no record offers one.
   */
  lemma {:induction false} ProjectNameIsFirst(rs: seq<Record>)
    ensures ProjectName(rs).None? <==> forall i :: 0 <= i < |rs| ==> OfferedName(rs[i]).None?
    ensures ProjectName(rs).Some? ==>
      exists i :: 0 <= i < |rs| && ProjectName(rs) == OfferedName(rs[i])
        && forall j :: 0 <= j < i ==> OfferedName(rs[j]).None?
    decreases |rs|
  {
    if rs != [] {
      var front := rs[..|rs| - 1];
      ProjectNameIsFirst(front);
      assert forall i :: 0 <= i < |front| ==> front[i] == rs[i];
      if ProjectName(front).None? {
        assert forall i :: 0 <= i < |rs| - 1 ==> OfferedName(rs[i]).None?;
      }
    }
  }

  /** A pass that converts does so on every prefix, and the prefix's records come first. */
  lemma {:induction false} ConvertPrefix(ed: Edition, rs: seq<Record>, i: nat)
    requires i <= |rs| && Convert(ed, rs).Some?
    ensures Convert(ed, rs[..i]).Some?
    ensures Convert(ed, rs[..i]).value.out == Convert(ed, rs).value.out[..i]
    decreases |rs|
  {
    if i < |rs| {
      var front := rs[..|rs| - 1];
      assert front[..i] == rs[..i];
      ConvertPrefix(ed, front, i);
      assert Convert(ed, rs).value.out[..|rs| - 1] == Convert(ed, front).value.out;
    } else {
      assert rs[..i] == rs;
    }
  }

  /**
   * Pass 3 is one to one: the same number of records, the same tags, comment
   * records copied verbatim, and each code record's text converted by
   * `tagConvert` in the mode the records before it left.
   */
  lemma ConvertOneToOne(ed: Edition, rs: seq<Record>)
    requires Convert(ed, rs).Some?
    ensures |Convert(ed, rs).value.out| == |rs|
    ensures forall i :: 0 <= i < |rs| ==> Convert(ed, rs).value.out[i].tag == rs[i].tag
    ensures forall i :: 0 <= i < |rs| && rs[i].tag == Comment ==> Convert(ed, rs).value.out[i] == rs[i]
    ensures forall i :: 0 <= i < |rs| && rs[i].tag != Comment ==>
      Convert(ed, rs[..i]).Some? &&
      TagConvert(ed, Convert(ed, rs[..i]).value.mode, rs[i].text).Some? &&
      Convert(ed, rs).value.out[i].text == TagConvert(ed, Convert(ed, rs[..i]).value.mode, rs[i].text).value.line
  {
    var out := Convert(ed, rs).value.out;
    forall i | 0 <= i < |rs|
      ensures out[i].tag == rs[i].tag
      ensures rs[i].tag == Comment ==> out[i] == rs[i]
      ensures rs[i].tag != Comment ==>
        Convert(ed, rs[..i]).Some? &&
        TagConvert(ed, Convert(ed, rs[..i]).value.mode, rs[i].text).Some? &&
        out[i].text == TagConvert(ed, Convert(ed, rs[..i]).value.mode, rs[i].text).value.line
    {
      ConvertAt(ed, rs, i);
    }
  }

  lemma ConvertAt(ed: Edition, rs: seq<Record>, i: nat)
    requires i < |rs| && Convert(ed, rs).Some?
    ensures Convert(ed, rs).value.out[i].tag == rs[i].tag
    ensures rs[i].tag == Comment ==> Convert(ed, rs).value.out[i] == rs[i]
    ensures rs[i].tag != Comment ==>
      Convert(ed, rs[..i]).Some? &&
      TagConvert(ed, Convert(ed, rs[..i]).value.mode, rs[i].text).Some? &&
      Convert(ed, rs).value.out[i].text == TagConvert(ed, Convert(ed, rs[..i]).value.mode, rs[i].text).value.line
  {
    ConvertPrefix(ed, rs, i + 1);
    ConvertExtends(ed, rs, i);
    var out := Convert(ed, rs).value.out;
    assert out[..i + 1][i] == out[i];
  }

  /** A pass stops at the first record whose conversion throws, and nothing after it can undo that. */
  lemma {:induction false} ConvertStopsForGood(ed: Edition, rs: seq<Record>, i: nat)
    requires i <= |rs| && Convert(ed, rs[..i]).None?
    ensures Convert(ed, rs).None?
  {
    if Convert(ed, rs).Some? {
      ConvertPrefix(ed, rs, i);
    }
  }

  /** Records with no rule to apply, in `widget` mode throughout, come out unchanged. */
  lemma {:induction false} ConvertPassThrough(ed: Edition, rs: seq<Record>)
    requires forall i :: 0 <= i < |rs| && rs[i].tag != Comment ==> RuleOf(ed, rs[i].text) == NoRule
    ensures Convert(ed, rs) == Some(Pass(rs, Widget))
    decreases |rs|
  {
    if rs != [] {
      var front := rs[..|rs| - 1];
      ConvertPassThrough(ed, front);
      var r := rs[|rs| - 1];
      if r.tag != Comment {
        TagConvertPassThrough(ed, Widget, r.text);
      }
      assert front + [r] == rs;
    }
  }

  /**
   * The third pass, record by record, with the legacy edition's name latch.
   * It answers None exactly when some `tagConvert` call throws; the name is
   * only looked for in the legacy edition.
   */
  method ConvertRecords(ed: Edition, rs: seq<Record>) returns (out: Option<seq<Record>>, name: Option<string>)
    ensures out.None? <==> Convert(ed, rs).None?
    ensures out.Some? ==> out.value == Convert(ed, rs).value.out
    ensures out.Some? ==> name == (if ed == Legacy then ProjectName(rs) else None)
  {
    var acc: seq<Record> := [];
    var mode := Widget;
    name := None;
    var i := 0;
    while i < |rs|
      invariant 0 <= i <= |rs|
      invariant Convert(ed, rs[..i]) == Some(Pass(acc, mode))
      invariant name == (if ed == Legacy then ProjectName(rs[..i]) else None)
    {
      ConvertExtends(ed, rs, i);
      var r := rs[i];
      if r.tag == Comment {
        acc := acc + [r];
      } else {
        var st := TagConvert(ed, mode, r.text);
        if st.None? {
          ConvertStopsForGood(ed, rs, i + 1);
          return None, name;
        }
        acc, mode := acc + [Record(r.tag, st.value.line)], st.value.mode;
        if ed == Legacy && name.None? {
          var n := NameTag(r.text);
          if n.Some? && n.value != "" {
            name := n;
          }
        }
      }
      i := i + 1;
    }
    assert rs[..i] == rs;
    out := Some(acc);
  }
}
