/**
 * The regular expressions of the converter, each written out as a predicate
 * or a search over `string`. Only the shapes the converter uses are modelled:
 *
 *   - `open.*close` (`.` stops at a line terminator): `Spans`;
 *   - `head\s+attr.*close`: `SpacedAttr`; `head\sattr.*close`: `OneSpaceAttr`;
 *   - `key[^"]+"`, `key([0-9]+)"`, `key([0-9]+|shared)"` and
 *     `key([0-9]+(\.[0-9]+)*)"`: `MatchAt` with a `Capture` kind;
 *   - `<intelxdk:crosswalk.+xwalk-command-line="([^"]+)"`: `CommandLineOption`;
 *   - `<name>(.*)</name>`: `NameTag`.
 *
 * Searches return the leftmost match, as `String.prototype.match` and
 * `search` do; a greedy `.*` or `.+` takes the last place where the rest of
 * the expression matches.
 */
module Patterns {
  import opened Strings
  import opened Records

  /** The last index `k` in `[lo, hi]` where `lit` occurs, or -1. */
  function LastAt(s: string, lit: string, lo: int, hi: int): (k: int)
    decreases hi - lo
    ensures k == -1 || (lo <= k <= hi && At(s, k, lit))
    ensures k != -1 ==> forall q :: k < q <= hi ==> !At(s, q, lit)
    ensures k == -1 ==> forall q :: lo <= q <= hi ==> !At(s, q, lit)
  {
    if hi < lo then -1
    else if At(s, hi, lit) then hi
    else LastAt(s, lit, lo, hi - 1)
  }

  /** `.*lit` matches from index `i`: `lit` starts before the next line terminator. */
  predicate DotsThen(s: string, i: int, lit: string) {
    0 <= i <= |s| && LastAt(s, lit, i, LineEnd(s, i)) != -1
  }

  /** `open.*close` matches at index `i`. */
  predicate SpanAt(s: string, i: int, open: string, close: string) {
    At(s, i, open) && DotsThen(s, i + |open|, close)
  }

  /** `open.*close` matches at some index from `from` on. */
  predicate SpansFrom(s: string, open: string, close: string, from: nat)
    decreases |s| - from
  {
    from <= |s| && (SpanAt(s, from, open, close) || SpansFrom(s, open, close, from + 1))
  }

  /** `/open.*close/.test(s)`. */
  predicate Spans(s: string, open: string, close: string) {
    SpansFrom(s, open, close, 0)
  }

  lemma {:induction false} SpansFromMeans(s: string, open: string, close: string, from: nat)
    ensures SpansFrom(s, open, close, from) <==> exists i :: from <= i <= |s| && SpanAt(s, i, open, close)
    decreases |s| - from
  {
    if from <= |s| {
      SpansFromMeans(s, open, close, from + 1);
    }
  }

  /** `head\s+attr.*close` matches at index `i` (an empty `close` adds nothing). */
  predicate SpacedAttrAt(s: string, i: int, head: string, attr: string, close: string) {
    At(s, i, head) && SkipSpace(s, i + |head|) > i + |head|
    && At(s, SkipSpace(s, i + |head|), attr) && DotsThen(s, SkipSpace(s, i + |head|) + |attr|, close)
  }

  predicate SpacedAttrFrom(s: string, head: string, attr: string, close: string, from: nat)
    decreases |s| - from
  {
    from <= |s| && (SpacedAttrAt(s, from, head, attr, close) || SpacedAttrFrom(s, head, attr, close, from + 1))
  }

  /** `/head\s+attr.*close/.test(s)`. */
  predicate SpacedAttr(s: string, head: string, attr: string, close: string) {
    SpacedAttrFrom(s, head, attr, close, 0)
  }

  lemma {:induction false} SpacedAttrFromMeans(s: string, head: string, attr: string, close: string, from: nat)
    ensures SpacedAttrFrom(s, head, attr, close, from) <==> exists i :: from <= i <= |s| && SpacedAttrAt(s, i, head, attr, close)
    decreases |s| - from
  {
    if from <= |s| {
      SpacedAttrFromMeans(s, head, attr, close, from + 1);
    }
  }

  /** Wherever `head\s+attr.*close` matches, `attr` occurs. */
  lemma SpacedAttrContains(s: string, head: string, attr: string, close: string)
    requires SpacedAttr(s, head, attr, close)
    ensures Contains(s, attr)
  {
    SpacedAttrFromMeans(s, head, attr, close, 0);
    var i :| 0 <= i <= |s| && SpacedAttrAt(s, i, head, attr, close);
    ContainsAt(s, attr, SkipSpace(s, i + |head|));
  }

  /** `head\sattr.*close` matches at index `i`: exactly one `\s` between. */
  predicate OneSpaceAttrAt(s: string, i: int, head: string, attr: string, close: string) {
    At(s, i, head) && i + |head| < |s| && IsSpace(s[i + |head|])
    && At(s, i + |head| + 1, attr) && DotsThen(s, i + |head| + 1 + |attr|, close)
  }

  predicate OneSpaceAttrFrom(s: string, head: string, attr: string, close: string, from: nat)
    decreases |s| - from
  {
    from <= |s| && (OneSpaceAttrAt(s, from, head, attr, close) || OneSpaceAttrFrom(s, head, attr, close, from + 1))
  }

  /** `/head\sattr.*close/.test(s)`. */
  predicate OneSpaceAttr(s: string, head: string, attr: string, close: string) {
    OneSpaceAttrFrom(s, head, attr, close, 0)
  }

  lemma {:induction false} OneSpaceAttrFromMeans(s: string, head: string, attr: string, close: string, from: nat)
    ensures OneSpaceAttrFrom(s, head, attr, close, from) <==> exists i :: from <= i <= |s| && OneSpaceAttrAt(s, i, head, attr, close)
    decreases |s| - from
  {
    if from <= |s| {
      OneSpaceAttrFromMeans(s, head, attr, close, from + 1);
    }
  }

  /** `<preference\s+name="n".*close`. */
  predicate Preference(s: string, name: string, close: string) {
    SpacedAttr(s, "<preference", "name=\"" + name + "\"", close)
  }

  /** `t` is `[0-9]+(\.[0-9]+)*`: digit groups separated by single dots. */
  predicate IsDotted(t: string) {
    |t| > 0 && IsDigit(t[0])
    && forall k :: 0 <= k < |t| ==> IsDigit(t[k]) || (t[k] == '.' && k + 1 < |t| && IsDigit(t[k + 1]))
  }

  predicate AllDigits(t: string) {
    forall k :: 0 <= k < |t| ==> IsDigit(t[k])
  }

  /** The capture group of the quoted-attribute expressions. */
  datatype Capture =
    | QuotedText    // `[^"]+`
    | Digits        // `([0-9]+)`
    | DigitsOrShared // `([0-9]+|shared)`
    | DottedNumber  // `([0-9]+(\.[0-9]+)*)`

  predicate CaptureOk(kind: Capture, v: string) {
    match kind
    case QuotedText => true
    case Digits => AllDigits(v)
    case DigitsOrShared => AllDigits(v) || v == "shared"
    case DottedNumber => IsDotted(v)
  }

  /** Where the value that starts at `p + |key|` ends: the next `"`, or -1. */
  function ValueEnd(s: string, p: nat, key: string): int {
    IndexOf(s, "\"", p + |key|)
  }

  /**
   * `key`, then a capture of kind `kind`, then `"`, matches at index `p`. No
   * capture kind admits a `"`, so the capture runs up to the next `"`.
   */
  predicate MatchAt(kind: Capture, s: string, p: int, key: string) {
    At(s, p, key) && ValueEnd(s, p, key) > p + |key| && CaptureOk(kind, s[p + |key|..ValueEnd(s, p, key)])
  }

  /** The captured text of a match at `p`: nonempty, without `"`, of the right kind. */
  function Captured(kind: Capture, s: string, p: nat, key: string): (v: string)
    requires MatchAt(kind, s, p, key)
    ensures |v| > 0 && CaptureOk(kind, v)
    ensures forall k :: 0 <= k < |v| ==> v[k] != '"'
    ensures s[p..ValueEnd(s, p, key) + 1] == key + v + "\""
  {
    var e := ValueEnd(s, p, key);
    forall k | p + |key| <= k < e
      ensures s[k] != '"'
    {
      assert !At(s, k, "\"");
      assert s[k..k + 1] == [s[k]];
    }
    assert s[p..e + 1] == s[p..p + |key|] + s[p + |key|..e] + s[e..e + 1];
    s[p + |key|..e]
  }

  /** The leftmost match at or after `from`, or -1. */
  function FirstMatch(kind: Capture, s: string, key: string, from: nat): (p: int)
    decreases |s| - from
    ensures p == -1 || (from <= p && MatchAt(kind, s, p, key))
    ensures p != -1 ==> forall k :: from <= k < p ==> !MatchAt(kind, s, k, key)
    ensures p == -1 ==> forall k :: from <= k ==> !MatchAt(kind, s, k, key)
  {
    if from > |s| then -1
    else if MatchAt(kind, s, from, key) then from
    else FirstMatch(kind, s, key, from + 1)
  }

  /** `s.match(/key(capture)"/)`: the capture of the leftmost match, or None. */
  function Match(kind: Capture, s: string, key: string): Option<string> {
    var p := FirstMatch(kind, s, key, 0);
    if p == -1 then None else Some(Captured(kind, s, p, key))
  }

  /**
   * `s.replace(/key(capture)"/, r)` where the replacement text is computed
   * from the capture: only the leftmost match is replaced.
   */
  function ReplaceMatch(kind: Capture, s: string, key: string, rep: string -> string): (r: string)
    ensures FirstMatch(kind, s, key, 0) == -1 ==> r == s
  {
    var p := FirstMatch(kind, s, key, 0);
    if p == -1 then s
    else s[..p] + rep(Captured(kind, s, p, key)) + s[ValueEnd(s, p, key) + 1..]
  }

  /** `<name>(.*)</name>` matches with its `<name>` at index `st`. */
  predicate NameTagAt(s: string, st: int) {
    At(s, st, "<name>") && LastAt(s, "</name>", st + 6, LineEnd(s, st + 6)) != -1
  }

  function FirstNameTag(s: string, from: nat): (st: int)
    decreases |s| - from
    ensures st == -1 || (from <= st && NameTagAt(s, st))
    ensures st != -1 ==> forall k :: from <= k < st ==> !NameTagAt(s, k)
    ensures st == -1 ==> forall k :: from <= k ==> !NameTagAt(s, k)
  {
    if from > |s| then -1
    else if NameTagAt(s, from) then from
    else FirstNameTag(s, from + 1)
  }

  /**
   * `s.match(/<name>(.*)<\/name>/)[1]`: the text between the leftmost
   * `<name>` that is followed on the same line by `</name>`, and the last
   * such `</name>`.
   */
  function NameTag(s: string): Option<string> {
    var st := FirstNameTag(s, 0);
    if st == -1 then None
    else Some(s[st + 6..LastAt(s, "</name>", st + 6, LineEnd(s, st + 6))])
  }

  const CrosswalkHead := "<intelxdk:crosswalk"
  const CommandLineKey := "xwalk-command-line=\""

  /** The last `p` in `[lo, hi]` where `xwalk-command-line="[^"]+"` matches, or -1. */
  function LastOptionAt(s: string, lo: int, hi: int): (p: int)
    decreases hi - lo
    ensures p == -1 || (lo <= p <= hi && MatchAt(QuotedText, s, p, CommandLineKey))
    ensures p != -1 ==> forall q :: p < q <= hi ==> !MatchAt(QuotedText, s, q, CommandLineKey)
    ensures p == -1 ==> forall q :: lo <= q <= hi ==> !MatchAt(QuotedText, s, q, CommandLineKey)
  {
    if hi < lo then -1
    else if MatchAt(QuotedText, s, hi, CommandLineKey) then hi
    else LastOptionAt(s, lo, hi - 1)
  }

  /**
   * Where `.+xwalk-command-line="([^"]+)"` places the option when the match
   * starts at `st`: `.+` takes at least one character and stops at a line
   * terminator, and being greedy it takes the last place that works.
   */
  function OptionPlace(s: string, st: nat): int
    requires At(s, st, CrosswalkHead)
  {
    LastOptionAt(s, st + |CrosswalkHead| + 1, LineEnd(s, st + |CrosswalkHead|))
  }

  predicate CommandLineAt(s: string, st: int) {
    At(s, st, CrosswalkHead) && OptionPlace(s, st) != -1
  }

  function FirstCommandLine(s: string, from: nat): (st: int)
    decreases |s| - from
    ensures st == -1 || (from <= st && CommandLineAt(s, st))
    ensures st != -1 ==> forall k :: from <= k < st ==> !CommandLineAt(s, k)
    ensures st == -1 ==> forall k :: from <= k ==> !CommandLineAt(s, k)
  {
    if from > |s| then -1
    else if CommandLineAt(s, from) then from
    else FirstCommandLine(s, from + 1)
  }

  /** `s.match(/<intelxdk:crosswalk.+xwalk-command-line="([^"]+)"/)[1]`, or None. */
  function CommandLineOption(s: string): (r: Option<string>)
    ensures r.Some? ==> |r.value| > 0 && forall k :: 0 <= k < |r.value| ==> r.value[k] != '"'
  {
    var st := FirstCommandLine(s, 0);
    if st == -1 then None
    else Some(Captured(QuotedText, s, OptionPlace(s, st), CommandLineKey))
  }
}
