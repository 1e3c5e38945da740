/**
 Intention preservation: where a rebased operation lands relative to the characters its
 author saw. The characters of the author's document carry their index as a label; text
 inserted meanwhile carries the label -1.
 */
module Intention {
  import opened OperationalTransform
  import opened CatchUp

  const INSERTED := -1

  function Labels(n: nat): seq<int> {
    seq(n, i => i)
  }

  /** The label of every character of the document after `ops`. */
  function Trace(labels: seq<int>, ops: seq<Operation>): seq<int>
    decreases |ops|
  {
    if ops == [] then labels
    else Trace(Edit(labels, ops[0], seq(|ops[0].content|, _ => INSERTED)), ops[1..])
  }

  /** A label tells which character of the author's document stands there. */
  ghost predicate Describes(labels: seq<int>, original: string, doc: string) {
    && |labels| == |doc|
    && (forall k :: 0 <= k < |labels| && labels[k] != INSERTED ==>
          0 <= labels[k] < |original| && doc[k] == original[labels[k]])
  }

  /** The author's characters keep their order. */
  ghost predicate Ordered(labels: seq<int>) {
    forall i, j :: 0 <= i < j < |labels| && labels[i] != INSERTED && labels[j] != INSERTED ==> labels[i] < labels[j]
  }

  lemma {:induction false} TraceDescribes(labels: seq<int>, original: string, doc: string, ops: seq<Operation>)
    requires Describes(labels, original, doc) && Ordered(labels) && FitsAll(doc, ops)
    ensures Describes(Trace(labels, ops), original, ApplyAll(doc, ops))
    ensures Ordered(Trace(labels, ops))
    decreases |ops|
  {
    if ops != [] {
      var op := ops[0];
      TraceStepDescribes(labels, original, doc, op);
      TraceStepOrdered(labels, op);
      TraceDescribes(Edit(labels, op, seq(|op.content|, _ => INSERTED)), original, Apply(doc, op), ops[1..]);
    }
  }

  lemma TraceStepDescribes(labels: seq<int>, original: string, doc: string, op: Operation)
    requires Describes(labels, original, doc) && Fits(|doc|, op)
    ensures Describes(Edit(labels, op, seq(|op.content|, _ => INSERTED)), original, Apply(doc, op))
  {
  }

  lemma TraceStepOrdered(labels: seq<int>, op: Operation)
    requires Ordered(labels) && Fits(|labels|, op)
    ensures Ordered(Edit(labels, op, seq(|op.content|, _ => INSERTED)))
  {
  }

  /** The author's characters left of the boundary `at` are those with a label below `p`. */
  ghost predicate Separates(labels: seq<int>, at: int, p: int) {
    && 0 <= at <= |labels|
    && forall k :: 0 <= k < |labels| && labels[k] != INSERTED ==> (k < at <==> labels[k] < p)
  }

  lemma SeparatesStep(labels: seq<int>, op: Operation, h: Operation, p: int)
    requires op.kind.Insert? && Fits(|labels|, h) && Handled(op, h)
    requires Separates(labels, op.position, p)
    ensures Separates(Edit(labels, h, seq(|h.content|, _ => INSERTED)), Transform(op, h).0.position, p)
  {
  }

  lemma {:induction false} SeparatesAll(doc: string, labels: seq<int>, op: Operation, history: seq<Operation>, p: int)
    requires op.kind.Insert? && |labels| == |doc| && FitsAll(doc, history) && Reconcilable(op, history)
    requires Separates(labels, op.position, p)
    ensures Separates(Trace(labels, history), Rebase(op, history).position, p)
    decreases |history|
  {
    if history != [] {
      var h := history[0];
      SeparatesStep(labels, op, h, p);
      EditLength(doc, h, h.content);
      EditLength(labels, h, seq(|h.content|, _ => INSERTED));
      TransformKeepsPayload(op, h);
      SeparatesAll(Apply(doc, h), Edit(labels, h, seq(|h.content|, _ => INSERTED)), Transform(op, h).0, history[1..],
                   p);
    }
  }

  /** An insertion made at `p` lands, after any history whose pairs are handled, exactly
      between what is left of the first `p` characters and what is left of the others. */
  lemma {:induction false} InsertKeepsIntention(doc: string, op: Operation, history: seq<Operation>)
    requires op.kind.Insert? && Fits(|doc|, op) && FitsAll(doc, history) && Reconcilable(op, history)
    ensures var labels := Trace(Labels(|doc|), history);
            && Describes(labels, doc, ApplyAll(doc, history)) && Ordered(labels)
            && Separates(labels, Rebase(op, history).position, op.position)
  {
    TraceDescribes(Labels(|doc|), doc, doc, history);
    SeparatesAll(doc, Labels(|doc|), op, history, op.position);
  }

  /** The `n` characters from `at` on are the author's characters `p`, `p + 1`, ... */
  ghost predicate Covers(labels: seq<int>, at: int, n: int, p: int) {
    && 0 <= at && 0 <= n && at + n <= |labels|
    && forall k :: at <= k < at + n ==> labels[k] == p + (k - at)
  }

  lemma CoversStep(labels: seq<int>, op: Operation, h: Operation, p: int)
    requires op.kind.Delete? && Fits(|labels|, h) && Handled(op, h)
    requires Covers(labels, op.position, op.length, p)
    ensures Covers(Edit(labels, h, seq(|h.content|, _ => INSERTED)), Transform(op, h).0.position, op.length, p)
  {
  }

  lemma {:induction false} CoversAll(doc: string, labels: seq<int>, op: Operation, history: seq<Operation>, p: int)
    requires op.kind.Delete? && |labels| == |doc| && FitsAll(doc, history) && Reconcilable(op, history)
    requires Covers(labels, op.position, op.length, p)
    ensures Covers(Trace(labels, history), Rebase(op, history).position, op.length, p)
    decreases |history|
  {
    if history != [] {
      var h := history[0];
      CoversStep(labels, op, h, p);
      EditLength(doc, h, h.content);
      EditLength(labels, h, seq(|h.content|, _ => INSERTED));
      TransformKeepsPayload(op, h);
      CoversAll(Apply(doc, h), Edit(labels, h, seq(|h.content|, _ => INSERTED)), Transform(op, h).0, history[1..], p);
    }
  }

  /** A deletion rebased over a history whose pairs are handled removes exactly the
      characters its author selected: all of them, and no others. */
  lemma {:induction false} DeleteKeepsIntention(doc: string, op: Operation, history: seq<Operation>)
    requires op.kind.Delete? && Fits(|doc|, op) && FitsAll(doc, history) && Reconcilable(op, history)
    ensures var labels := Trace(Labels(|doc|), history);
            var o := Rebase(op, history);
            && Describes(labels, doc, ApplyAll(doc, history)) && Ordered(labels)
            && o.length == op.length
            && Covers(labels, o.position, o.length, op.position)
  {
    TraceDescribes(Labels(|doc|), doc, doc, history);
    CoversAll(doc, Labels(|doc|), op, history, op.position);
    RebaseKeepsPayload(op, history);
  }
}
