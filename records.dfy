/**
 * The record shape every pass of the converter reads and writes: the arrays
 * `[tag, text]` of passes 2 to 5, where the tag is either the marker 'C' for a
 * comment line or a number (the line's index when pass 2 numbered the lines,
 * or the insertion index or 0 for records the later passes add).
 */
module Records {

  datatype Option<T> = None | Some(value: T)

  datatype Tag = Comment | Code(index: nat)

  datatype Record = Record(tag: Tag, text: string)

  /** The text fields, in order: what the converter finally prints. */
  function Texts(rs: seq<Record>): (lines: seq<string>)
    ensures |lines| == |rs|
    ensures forall i :: 0 <= i < |rs| ==> lines[i] == rs[i].text
  {
    if rs == [] then [] else [rs[0].text] + Texts(rs[1..])
  }

  /** The number of records tagged as comments. */
  function CommentCount(rs: seq<Record>): nat
  {
    if rs == [] then 0 else (if rs[0].tag == Comment then 1 else 0) + CommentCount(rs[1..])
  }

  lemma {:induction false} CommentCountAppend(a: seq<Record>, b: seq<Record>)
    ensures CommentCount(a + b) == CommentCount(a) + CommentCount(b)
  {
    if a == [] {
      assert a + b == b;
    } else {
      assert (a + b)[1..] == a[1..] + b;
      CommentCountAppend(a[1..], b);
    }
  }

  /** Tags only ever move to `Comment`: `b` keeps every comment of `a`, record by record. */
  predicate KeepsComments(a: seq<Record>, b: seq<Record>)
  {
    |a| == |b| && forall i :: 0 <= i < |a| && a[i].tag == Comment ==> b[i].tag == Comment
  }

  lemma {:induction false} KeepsCommentsCount(a: seq<Record>, b: seq<Record>)
    requires KeepsComments(a, b)
    ensures CommentCount(a) <= CommentCount(b)
  {
    if a != [] {
      assert KeepsComments(a[1..], b[1..]);
      KeepsCommentsCount(a[1..], b[1..]);
    }
  }
}
