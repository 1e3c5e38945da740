/**
 The catch-up loop of `handle_operation`: an operation made on an old revision is
 transformed over every operation it missed.
 */
module CatchUp {
  import opened OperationalTransform

  function ApplyAll(doc: string, ops: seq<Operation>): string
    decreases |ops|
  {
    if ops == [] then doc else ApplyAll(Apply(doc, ops[0]), ops[1..])
  }

  /** Each operation stays inside the document that the operations before it leave. */
  predicate FitsAll(doc: string, ops: seq<Operation>)
    decreases |ops|
  {
    ops == [] || (Fits(|doc|, ops[0]) && FitsAll(Apply(doc, ops[0]), ops[1..]))
  }

  /** The first components of the transformations: the operation the server applies. */
  function Rebase(op: Operation, history: seq<Operation>): Operation
    decreases |history|
  {
    if history == [] then op else Rebase(Transform(op, history[0]).0, history[1..])
  }

  /** The second components, which the server drops: what a client that already applied
      `op` has to apply for the history. */
  function Shifted(op: Operation, history: seq<Operation>): (ops: seq<Operation>)
    ensures |ops| == |history|
    decreases |history|
  {
    if history == [] then []
    else [Transform(op, history[0]).1] + Shifted(Transform(op, history[0]).0, history[1..])
  }

  /** Every transformation of the loop meets a branch of `transform`. */
  predicate Reconcilable(op: Operation, history: seq<Operation>)
    decreases |history|
  {
    history == [] || (Handled(op, history[0]) && Reconcilable(Transform(op, history[0]).0, history[1..]))
  }

  /** Catch-up convergence: a server that applied the history and then the rebased operation,
      and a client that applied its own operation and then the shifted history, hold the same
      document, and nobody ever applies an operation outside its document. */
  lemma {:induction false} CatchUpConverges(doc: string, op: Operation, history: seq<Operation>)
    requires Fits(|doc|, op) && FitsAll(doc, history) && Reconcilable(op, history)
    ensures Apply(ApplyAll(doc, history), Rebase(op, history)) == ApplyAll(Apply(doc, op), Shifted(op, history))
    ensures Fits(|ApplyAll(doc, history)|, Rebase(op, history))
    ensures FitsAll(Apply(doc, op), Shifted(op, history))
    decreases |history|
  {
    if history != [] {
      var h := history[0];
      var (o, h') := Transform(op, h);
      StepConverges(doc, op, h);
      CatchUpConverges(Apply(doc, h), o, history[1..]);
      var shifted := Shifted(op, history);
      assert shifted[0] == h' && shifted[1..] == Shifted(o, history[1..]);
    }
  }

  lemma StepFits(doc: string, op: Operation, h: Operation)
    requires Fits(|doc|, op) && Fits(|doc|, h) && Handled(op, h)
    ensures var (o, h') := Transform(op, h); Fits(|Apply(doc, h)|, o) && Fits(|Apply(doc, op)|, h')
  {
    TransformFits(|doc|, op, h);
    EditLength(doc, op, op.content);
    EditLength(doc, h, h.content);
  }

  lemma StepConverges(doc: string, op: Operation, h: Operation)
    requires Fits(|doc|, op) && Fits(|doc|, h) && Handled(op, h)
    ensures var (o, h') := Transform(op, h);
            && Apply(Apply(doc, h), o) == Apply(Apply(doc, op), h')
            && Fits(|Apply(doc, h)|, o) && Fits(|Apply(doc, op)|, h')
  {
    EditsConverge(doc, op, op.content, h, h.content);
    TransformKeepsPayload(op, h);
    StepFits(doc, op, h);
    var (o, h') := Transform(op, h);
    assert Apply(Apply(doc, h), o) == Edit(Apply(doc, h), o, op.content);
    assert Apply(Apply(doc, op), h') == Edit(Apply(doc, op), h', h.content);
  }

  /** The condition is sufficient only: a later operation can undo the effect of a pair that
      no branch handles. Here an insertion in front of the deleted character is such a pair,
      and another user's deletion of everything hides it. */
  lemma UnreconcilableMayConverge()
    ensures var op := Operation(Delete, 0, "", 1, "u", 0);
            var history := [Operation(Insert, 0, "x", 0, "v", 1), Operation(Delete, 0, "", 2, "v", 2)];
            && Fits(1, op) && FitsAll("a", history) && !Reconcilable(op, history)
            && Apply(ApplyAll("a", history), Rebase(op, history)) == ""
            && ApplyAll(Apply("a", op), Shifted(op, history)) == ""
  {
    var op := Operation(Delete, 0, "", 1, "u", 0);
    var a, b := Operation(Insert, 0, "x", 0, "v", 1), Operation(Delete, 0, "", 2, "v", 2);
    assert [a, b][1..] == [b] && [b][1..] == [];
    assert Apply("a", a) == "xa" && Apply("xa", b) == "" && Apply("", op) == "";
    assert Transform(op, a) == (op, a) && Transform(op, b) == (op, b);
    assert Shifted(op, [b]) == [b] && Shifted(op, [a, b]) == [a, b];
    assert ApplyAll("", [a, b]) == ApplyAll("x", [b]) == ApplyAll(Apply("x", b), []);
    assert ApplyAll("a", [a, b]) == ApplyAll("xa", [b]) == ApplyAll("", []);
    assert FitsAll("xa", [b]);
    assert Rebase(op, [b]) == op;
  }

  predicate AllInserts(ops: seq<Operation>) {
    forall op | op in ops :: op.kind.Insert?
  }

  /** Between insertions every transformation is a branch of `transform`. */
  lemma {:induction false} InsertsReconcile(op: Operation, history: seq<Operation>)
    requires op.kind.Insert? && AllInserts(history)
    ensures Reconcilable(op, history)
    ensures AllInserts(Shifted(op, history))
    decreases |history|
  {
    if history != [] {
      InsertsReconcile(Transform(op, history[0]).0, history[1..]);
    }
  }

  lemma {:induction false} RebaseKeepsPayload(op: Operation, history: seq<Operation>)
    ensures var o := Rebase(op, history);
            && o.kind == op.kind && o.userId == op.userId && o.revision == op.revision
            && (op.kind.Insert? ==> o.content == op.content)
            && (op.kind.Delete? ==> o.length == op.length)
            && AtMostMoved(op, o)
    decreases |history|
  {
    if history != [] {
      TransformKeepsPayload(op, history[0]);
      RebaseKeepsPayload(Transform(op, history[0]).0, history[1..]);
    }
  }

  lemma {:induction false} ApplyAllAppends(doc: string, ops: seq<Operation>, more: seq<Operation>)
    ensures ApplyAll(doc, ops + more) == ApplyAll(ApplyAll(doc, ops), more)
    ensures FitsAll(doc, ops + more) <==> FitsAll(doc, ops) && FitsAll(ApplyAll(doc, ops), more)
    decreases |ops|
  {
    if ops == [] {
      assert ops + more == more;
    } else {
      assert (ops + more)[1..] == ops[1..] + more;
      ApplyAllAppends(Apply(doc, ops[0]), ops[1..], more);
    }
  }
}
