/**
 Exactly which pairs of concurrent operations the transformation reconciles.

 `transform` returns a pair unchanged when none of its branches applies: overlapping
 deletions, an insertion strictly inside a deletion, and every (deletion, insertion) pair
 in that argument order. `Commutable` is the guard that tells, from the two operations
 alone, whether such a pair nevertheless converges on every document.
 */
module TransformExactness {
  import opened OperationalTransform

  /** The two operations can be reconciled: a branch of `transform` covers them, or one of
      them has no effect, or both delete from the same position. */
  predicate Commutable(op1: Operation, op2: Operation) {
    Handled(op1, op2) ||
    match (op1.kind, op2.kind)
    case (Delete, Delete) => op1.position == op2.position || op1.length == 0 || op2.length == 0
    case (Insert, Delete) => op1.content == ""
    case (Delete, Insert) => op1.length == 0 || op2.content == ""
    case _ => true
  }

  ghost predicate ConvergesOn(doc: string, op1: Operation, op2: Operation) {
    Apply(Apply(doc, op1), Transform(op1, op2).1) == Apply(Apply(doc, op2), Transform(op1, op2).0)
  }

  /** Both clients end up with the same text, whatever document they started from. */
  ghost predicate ConvergesEverywhere(op1: Operation, op2: Operation) {
    forall doc: string :: Fits(|doc|, op1) && Fits(|doc|, op2) ==> ConvergesOn(doc, op1, op2)
  }

  /** The document of `n` letters `a`, except for a `b` at index `k`. */
  function Marked(n: nat, k: int): string {
    seq(n, i => if i == k then 'b' else 'a')
  }

  /** The document of `n` copies of a character other than `c`. */
  function Without(n: nat, c: char): string {
    seq(n, i => if c == 'a' then 'b' else 'a')
  }

  lemma OverlappingDeletesDiverge(op1: Operation, op2: Operation) returns (doc: string)
    requires WellFormed(op1) && WellFormed(op2)
    requires op1.kind.Delete? && op2.kind.Delete?
    requires op1.position < op2.position < op1.position + op1.length && op2.length > 0
    ensures Fits(|doc|, op1) && Fits(|doc|, op2)
    ensures Apply(Apply(doc, op1), op2) != Apply(Apply(doc, op2), op1)
  {
    var p, q := op1.position, op2.position;
    doc := Marked(p + op1.length + op2.length + 1, p + op1.length + op2.length);
    EditCuts(doc, op1, op1.content);
    EditCuts(doc, op2, op2.content);
    assert Apply(Apply(doc, op1), op2)[p] == doc[p + op1.length];
    assert Apply(Apply(doc, op2), op1)[p] == doc[p + op1.length + op2.length];
  }

  /** The character that the deletion, applied after the insertion, leaves at its own
      position, when the insertion was before the end of the deleted range. */
  lemma InsertThenDeleteAt(doc: string, ins: Operation, del: Operation)
    requires ins.kind.Insert? && del.kind.Delete?
    requires Fits(|doc|, ins) && Fits(|doc|, del)
    requires ins.position < del.position + del.length < |doc|
    ensures var q := del.position;
            var r := Apply(Apply(doc, ins), del);
            q < |r| &&
            r[q] == if q + del.length < ins.position + |ins.content|
                    then ins.content[q + del.length - ins.position]
                    else doc[q + del.length - |ins.content|]
  {
  }

  /** Deleting around an insertion point and inserting there do not commute. */
  lemma InsertInsideDeleteDiverges(ins: Operation, del: Operation) returns (doc: string)
    requires WellFormed(ins) && WellFormed(del)
    requires ins.kind.Insert? && del.kind.Delete?
    requires del.position < ins.position < del.position + del.length && ins.content != ""
    ensures Fits(|doc|, ins) && Fits(|doc|, del)
    ensures Apply(Apply(doc, ins), del) != Apply(Apply(doc, del), ins)
  {
    var p, q, e := ins.position, del.position, del.position + del.length;
    doc := if e < p + |ins.content| then Without(e + p + 1, ins.content[e - p]) else Marked(e + p + 1, e);
    InsertThenDeleteAt(doc, ins, del);
    EditCuts(doc, del, del.content);
    assert Apply(doc, del)[q] == doc[e];
    EditSplices(Apply(doc, del), ins, ins.content);
    assert Apply(Apply(doc, del), ins)[q] == doc[e];
  }

  /** An insertion at or before the start of the deletion: the deletion is not shifted. */
  lemma InsertBeforeDeleteDiverges(ins: Operation, del: Operation) returns (doc: string)
    requires WellFormed(ins) && WellFormed(del)
    requires ins.kind.Insert? && del.kind.Delete?
    requires ins.position <= del.position && del.length > 0 && ins.content != ""
    ensures Fits(|doc|, ins) && Fits(|doc|, del)
    ensures Apply(Apply(doc, ins), del) != Apply(Apply(doc, del), ins)
  {
    var p, q, n := ins.position, del.position, |ins.content|;
    if q < p + n {
      doc := Without(q + del.length, ins.content[n - 1]);
      var k := p + n - 1;
      EditSplices(doc, ins, ins.content);
      EditCuts(Apply(doc, ins), del, del.content);
      assert Apply(Apply(doc, ins), del)[k] == doc[p + del.length - 1];
      EditCuts(doc, del, del.content);
      EditSplices(Apply(doc, del), ins, ins.content);
      assert Apply(Apply(doc, del), ins)[k] == ins.content[n - 1];
    } else {
      doc := Marked(q + del.length + 1, q - n);
      EditSplices(doc, ins, ins.content);
      EditCuts(Apply(doc, ins), del, del.content);
      assert Apply(Apply(doc, ins), del)[q] == doc[q + del.length - n];
      EditCuts(doc, del, del.content);
      EditSplices(Apply(doc, del), ins, ins.content);
      assert Apply(Apply(doc, del), ins)[q] == doc[q - n];
    }
  }

  /** An insertion at or after the end of the deletion: the insertion is not shifted. */
  lemma InsertAfterDeleteDiverges(ins: Operation, del: Operation) returns (doc: string)
    requires WellFormed(ins) && WellFormed(del)
    requires ins.kind.Insert? && del.kind.Delete?
    requires del.position + del.length <= ins.position && del.length > 0 && ins.content != ""
    ensures Fits(|doc|, ins) && Fits(|doc|, del)
    ensures Apply(Apply(doc, ins), del) != Apply(Apply(doc, del), ins)
  {
    var p, q, m := ins.position, del.position, del.length;
    doc := Without(p + m, ins.content[0]);
    EditSplices(doc, ins, ins.content);
    EditCuts(Apply(doc, ins), del, del.content);
    assert Apply(Apply(doc, ins), del)[p - m] == ins.content[0];
    EditCuts(doc, del, del.content);
    EditSplices(Apply(doc, del), ins, ins.content);
    assert Apply(Apply(doc, del), ins)[p - m] == doc[p];
  }

  /** Every pair outside `Commutable` has a document on which the two clients end apart. */
  lemma UncommutableDiverges(op1: Operation, op2: Operation) returns (doc: string)
    requires WellFormed(op1) && WellFormed(op2) && !Commutable(op1, op2)
    ensures Fits(|doc|, op1) && Fits(|doc|, op2) && !ConvergesOn(doc, op1, op2)
  {
    match (op1.kind, op2.kind)
    case (Delete, Delete) =>
      if op1.position < op2.position {
        doc := OverlappingDeletesDiverge(op1, op2);
      } else {
        doc := OverlappingDeletesDiverge(op2, op1);
      }
    case (Insert, Delete) =>
      doc := InsertInsideDeleteDiverges(op1, op2);
    case (Delete, Insert) =>
      if op2.position <= op1.position {
        doc := InsertBeforeDeleteDiverges(op2, op1);
      } else if op2.position < op1.position + op1.length {
        doc := InsertInsideDeleteDiverges(op2, op1);
      } else {
        doc := InsertAfterDeleteDiverges(op2, op1);
      }
  }

  lemma SamePositionDeletesConverge(doc: string, op1: Operation, op2: Operation)
    requires op1.kind.Delete? && op2.kind.Delete? && op1.position == op2.position
    requires Fits(|doc|, op1) && Fits(|doc|, op2)
    ensures Apply(Apply(doc, op1), op2) == Apply(Apply(doc, op2), op1)
  {
  }

  /** An operation without effect leaves any document as it is. */
  lemma IdleEdit(doc: string, op: Operation)
    requires 0 <= op.position
    requires op.kind.Retain? || (op.kind.Insert? && op.content == "") || (op.kind.Delete? && op.length == 0)
    ensures Apply(doc, op) == doc
  {
  }

  lemma CommutableConverges(doc: string, op1: Operation, op2: Operation)
    requires Fits(|doc|, op1) && Fits(|doc|, op2) && Commutable(op1, op2)
    ensures ConvergesOn(doc, op1, op2)
  {
    if Handled(op1, op2) {
      EditsConverge(doc, op1, op1.content, op2, op2.content);
      TransformKeepsPayload(op1, op2);
      assert Apply(Apply(doc, op1), Transform(op1, op2).1) == Edit(Apply(doc, op1), Transform(op1, op2).1, op2.content);
      assert Apply(Apply(doc, op2), Transform(op1, op2).0) == Edit(Apply(doc, op2), Transform(op1, op2).0, op1.content);
    } else if op1.kind.Delete? && op2.kind.Delete? && op1.position == op2.position {
      SamePositionDeletesConverge(doc, op1, op2);
    } else if (op1.kind.Delete? && op1.length == 0) || (op1.kind.Insert? && op1.content == "") {
      IdleEdit(doc, op1);
      IdleEdit(Apply(doc, op2), op1);
    } else {
      IdleEdit(doc, op2);
      IdleEdit(Apply(doc, op1), op2);
    }
  }

  /** The transformation reconciles a pair on every document if and only if the pair is
      commutable. */
  lemma ConvergesEverywhereIffCommutable(op1: Operation, op2: Operation)
    requires WellFormed(op1) && WellFormed(op2)
    ensures ConvergesEverywhere(op1, op2) <==> Commutable(op1, op2)
  {
    if Commutable(op1, op2) {
      forall doc: string | Fits(|doc|, op1) && Fits(|doc|, op2)
        ensures ConvergesOn(doc, op1, op2)
      {
        CommutableConverges(doc, op1, op2);
      }
    } else {
      var doc := UncommutableDiverges(op1, op2);
    }
  }

  /** The smallest failing pair: a deletion that arrives after a concurrent insertion in
      front of it. The server calls `transform(deletion, insertion)`, which changes nothing,
      and the deletion removes the inserted character instead of its own. */
  lemma DeleteAfterInsertDiverges()
    ensures var del := Operation(Delete, 0, "", 1, "u", 0);
            var ins := Operation(Insert, 0, "x", 0, "v", 0);
            && !Commutable(del, ins)
            && Apply(Apply("a", ins), Transform(del, ins).0) == "a"
            && Apply(Apply("a", del), Transform(del, ins).1) == "x"
  {
  }
}
