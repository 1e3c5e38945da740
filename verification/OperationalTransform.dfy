/**
 The operational-transformation engine of the collaboration service:
 `OperationalTransform.transform` and `OperationalTransform.apply`.

 Positions, lengths and revisions are Python integers, so they may be negative or past
 the end of the document; slicing clamps them the way Python does.
 */
module OperationalTransform {

  datatype OperationType = Insert | Delete | Retain

  datatype Operation = Operation(
    kind: OperationType,
    position: int,
    content: string,
    length: int,
    userId: string,
    revision: int)

  /** The index that the slice bound `i` denotes in a Python sequence of length `n`. */
  function Clamp(n: nat, i: int): (k: nat)
    ensures k <= n
  {
    if i < 0 then (if n + i < 0 then 0 else n + i)
    else if i > n then n
    else i
  }

  /** `s[:i]` */
  function Take<T>(s: seq<T>, i: int): seq<T> {
    s[..Clamp(|s|, i)]
  }

  /** `s[i:]` */
  function Drop<T>(s: seq<T>, i: int): seq<T> {
    s[Clamp(|s|, i)..]
  }

  /** What `op` does to a sequence, with `text` standing for the characters it inserts.
      `Apply` is the instance at characters; the instances at labels follow single
      characters through a history. */
  function Edit<T>(doc: seq<T>, op: Operation, text: seq<T>): seq<T> {
    match op.kind
    case Insert => Take(doc, op.position) + text + Drop(doc, op.position)
    case Delete => Take(doc, op.position) + Drop(doc, op.position + op.length)
    case Retain => doc
  }

  function Apply(doc: string, op: Operation): string {
    Edit(doc, op, op.content)
  }

  /** `op` moved by `shift`, with the fields that the constructor calls of `transform`
      pass on: an insertion forgets its length, a deletion its content. */
  function Moved(op: Operation, shift: int): Operation {
    Operation(op.kind, op.position + shift,
              if op.kind.Insert? then op.content else "",
              if op.kind.Delete? then op.length else 0,
              op.userId, op.revision)
  }

  function Transform(op1: Operation, op2: Operation): (Operation, Operation) {
    match (op1.kind, op2.kind)
    case (Insert, Insert) =>
      if op1.position <= op2.position then (op1, Moved(op2, |op1.content|))
      else (Moved(op1, |op2.content|), op2)
    case (Delete, Delete) =>
      if op1.position >= op2.position + op2.length then (Moved(op1, -op2.length), op2)
      else if op2.position >= op1.position + op1.length then (op1, Moved(op2, -op1.length))
      else (op1, op2)
    case (Insert, Delete) =>
      if op1.position <= op2.position then (op1, Moved(op2, |op1.content|))
      else if op1.position >= op2.position + op2.length then (Moved(op1, -op2.length), op2)
      else (op1, op2)
    case _ => (op1, op2)
  }

  /** Neither position nor length is negative: the operation makes sense on some document. */
  predicate WellFormed(op: Operation) {
    match op.kind
    case Insert => 0 <= op.position
    case Delete => 0 <= op.position && 0 <= op.length
    case Retain => true
  }

  /** `op` stays inside a document of length `n`. */
  predicate Fits(n: nat, op: Operation) {
    match op.kind
    case Insert => 0 <= op.position <= n
    case Delete => 0 <= op.position && 0 <= op.length && op.position + op.length <= n
    case Retain => true
  }

  /** The document length after `op`, when it fits. */
  function LengthAfter(n: nat, op: Operation): (m: int)
    ensures Fits(n, op) ==> 0 <= m
  {
    match op.kind
    case Insert => n + |op.content|
    case Delete => n - op.length
    case Retain => n
  }

  /** The pairs for which `transform` has a branch of its own (a RETAIN needs none). */
  predicate Handled(op1: Operation, op2: Operation) {
    match (op1.kind, op2.kind)
    case (Insert, Insert) => true
    case (Delete, Delete) =>
      op1.position >= op2.position + op2.length || op2.position >= op1.position + op1.length
    case (Insert, Delete) =>
      op1.position <= op2.position || op1.position >= op2.position + op2.length
    case (Delete, Insert) => false
    case _ => true
  }

  lemma EditLength<T>(doc: seq<T>, op: Operation, text: seq<T>)
    requires Fits(|doc|, op)
    requires |text| == |op.content|
    ensures |Edit(doc, op, text)| == LengthAfter(|doc|, op)
  {
  }

  /** Both transformed operations stay inside the document they are meant for. */
  lemma TransformFits(n: nat, op1: Operation, op2: Operation)
    requires Fits(n, op1) && Fits(n, op2) && Handled(op1, op2)
    ensures Fits(LengthAfter(n, op1), Transform(op1, op2).1)
    ensures Fits(LengthAfter(n, op2), Transform(op1, op2).0)
  {
  }

  /** `o` is `op`, untouched or rebuilt at its present position without the field that its kind
      does not use. */
  predicate AtMostMoved(op: Operation, o: Operation) {
    || o == op
    || (op.kind.Insert? && o == op.(position := o.position, length := 0))
    || (op.kind.Delete? && o == op.(position := o.position, content := ""))
  }

  /** The transformation keeps what an operation inserts and how much it deletes, its author
      and its base revision; a moved operation loses the field that its kind does not use. */
  lemma TransformKeepsPayload(op1: Operation, op2: Operation)
    ensures var (a, b) := Transform(op1, op2);
            && a.kind == op1.kind && b.kind == op2.kind
            && a.userId == op1.userId && a.revision == op1.revision
            && b.userId == op2.userId && b.revision == op2.revision
            && (op1.kind.Insert? ==> a.content == op1.content)
            && (op2.kind.Insert? ==> b.content == op2.content)
            && (op1.kind.Delete? ==> a.length == op1.length)
            && (op2.kind.Delete? ==> b.length == op2.length)
            && AtMostMoved(op1, a) && AtMostMoved(op2, b)
  {
  }

  function Spliced<T>(doc: seq<T>, p: int, text: seq<T>): seq<T>
    requires 0 <= p <= |doc|
  {
    doc[..p] + text + doc[p..]
  }

  function Cut<T>(doc: seq<T>, p: int, n: int): seq<T>
    requires 0 <= p <= p + n <= |doc|
  {
    doc[..p] + doc[p + n..]
  }

  lemma SplicesCommute<T>(doc: seq<T>, p: int, t: seq<T>, q: int, u: seq<T>)
    requires 0 <= p <= q <= |doc|
    ensures Spliced(Spliced(doc, p, t), q + |t|, u) == Spliced(Spliced(doc, q, u), p, t)
  {
  }

  lemma CutsCommute<T>(doc: seq<T>, p: int, m: int, q: int, n: int)
    requires 0 <= p <= p + m <= q <= q + n <= |doc|
    ensures Cut(Cut(doc, p, m), q - m, n) == Cut(Cut(doc, q, n), p, m)
  {
  }

  lemma SpliceBeforeCut<T>(doc: seq<T>, p: int, t: seq<T>, q: int, n: int)
    requires 0 <= p <= q <= q + n <= |doc|
    ensures Cut(Spliced(doc, p, t), q + |t|, n) == Spliced(Cut(doc, q, n), p, t)
  {
  }

  lemma SpliceAfterCut<T>(doc: seq<T>, p: int, t: seq<T>, q: int, n: int)
    requires 0 <= q <= q + n <= p <= |doc|
    ensures Cut(Spliced(doc, p, t), q, n) == Spliced(Cut(doc, q, n), p - n, t)
  {
  }

  lemma EditSplices<T>(doc: seq<T>, op: Operation, text: seq<T>)
    requires op.kind.Insert? && Fits(|doc|, op)
    ensures Edit(doc, op, text) == Spliced(doc, op.position, text)
  {
  }

  lemma EditCuts<T>(doc: seq<T>, op: Operation, text: seq<T>)
    requires op.kind.Delete? && Fits(|doc|, op)
    ensures Edit(doc, op, text) == Cut(doc, op.position, op.length)
  {
  }

  /** Applying `op1` and then the transformed `op2` gives what applying `op2` and then the
      transformed `op1` gives. */
  ghost predicate Converge<T>(doc: seq<T>, op1: Operation, text1: seq<T>, op2: Operation, text2: seq<T>) {
    Edit(Edit(doc, op1, text1), Transform(op1, op2).1, text2)
    == Edit(Edit(doc, op2, text2), Transform(op1, op2).0, text1)
  }

  lemma InsertInsertConverge<T>(doc: seq<T>, op1: Operation, text1: seq<T>, op2: Operation, text2: seq<T>)
    requires op1.kind.Insert? && op2.kind.Insert?
    requires Fits(|doc|, op1) && Fits(|doc|, op2) && Handled(op1, op2)
    requires |text1| == |op1.content| && |text2| == |op2.content|
    ensures Converge(doc, op1, text1, op2, text2)
  {
    var (a, b) := Transform(op1, op2);
    EditSplices(doc, op1, text1);
    EditSplices(doc, op2, text2);
    EditSplices(Edit(doc, op1, text1), b, text2);
    EditSplices(Edit(doc, op2, text2), a, text1);
    if op1.position <= op2.position {
      SplicesCommute(doc, op1.position, text1, op2.position, text2);
    } else {
      SplicesCommute(doc, op2.position, text2, op1.position, text1);
    }
  }

  /** Two deletions one after the other, the later one moved to the left. */
  lemma DeletesCommute<T>(doc: seq<T>, op1: Operation, text1: seq<T>, op2: Operation, text2: seq<T>)
    requires op1.kind.Delete? && op2.kind.Delete? && Fits(|doc|, op1) && Fits(|doc|, op2)
    requires op1.position + op1.length <= op2.position
    ensures Edit(Edit(doc, op1, text1), Moved(op2, -op1.length), text2) == Edit(Edit(doc, op2, text2), op1, text1)
  {
    EditCuts(doc, op1, text1);
    EditCuts(doc, op2, text2);
    EditCuts(Edit(doc, op1, text1), Moved(op2, -op1.length), text2);
    EditCuts(Edit(doc, op2, text2), op1, text1);
    CutsCommute(doc, op1.position, op1.length, op2.position, op2.length);
  }

  lemma DeleteDeleteConverge<T>(doc: seq<T>, op1: Operation, text1: seq<T>, op2: Operation, text2: seq<T>)
    requires op1.kind.Delete? && op2.kind.Delete?
    requires Fits(|doc|, op1) && Fits(|doc|, op2) && Handled(op1, op2)
    ensures Converge(doc, op1, text1, op2, text2)
  {
    if op1.position >= op2.position + op2.length {
      DeletesCommute(doc, op2, text2, op1, text1);
    } else {
      DeletesCommute(doc, op1, text1, op2, text2);
    }
  }

  lemma InsertBeforeDelete<T>(doc: seq<T>, ins: Operation, text: seq<T>, del: Operation, none: seq<T>)
    requires ins.kind.Insert? && del.kind.Delete? && Fits(|doc|, ins) && Fits(|doc|, del)
    requires |text| == |ins.content| && ins.position <= del.position
    ensures Edit(Edit(doc, ins, text), Moved(del, |ins.content|), none) == Edit(Edit(doc, del, none), ins, text)
  {
    EditSplices(doc, ins, text);
    EditCuts(doc, del, none);
    EditCuts(Edit(doc, ins, text), Moved(del, |ins.content|), none);
    EditSplices(Edit(doc, del, none), ins, text);
    SpliceBeforeCut(doc, ins.position, text, del.position, del.length);
  }

  lemma InsertAfterDelete<T>(doc: seq<T>, ins: Operation, text: seq<T>, del: Operation, none: seq<T>)
    requires ins.kind.Insert? && del.kind.Delete? && Fits(|doc|, ins) && Fits(|doc|, del)
    requires |text| == |ins.content| && ins.position >= del.position + del.length
    ensures Edit(Edit(doc, ins, text), del, none) == Edit(Edit(doc, del, none), Moved(ins, -del.length), text)
  {
    EditSplices(doc, ins, text);
    EditCuts(doc, del, none);
    EditCuts(Edit(doc, ins, text), del, none);
    EditSplices(Edit(doc, del, none), Moved(ins, -del.length), text);
    SpliceAfterCut(doc, ins.position, text, del.position, del.length);
  }

  lemma InsertDeleteConverge<T>(doc: seq<T>, op1: Operation, text1: seq<T>, op2: Operation, text2: seq<T>)
    requires op1.kind.Insert? && op2.kind.Delete?
    requires Fits(|doc|, op1) && Fits(|doc|, op2) && Handled(op1, op2)
    requires |text1| == |op1.content|
    ensures Converge(doc, op1, text1, op2, text2)
  {
    if op1.position <= op2.position {
      InsertBeforeDelete(doc, op1, text1, op2, text2);
    } else {
      InsertAfterDelete(doc, op1, text1, op2, text2);
    }
  }

  /** Two operations made on the same document commute through `Transform`, down to the
      identity of every single character: the elements may be any labels, not just chars. */
  lemma EditsConverge<T>(doc: seq<T>, op1: Operation, text1: seq<T>, op2: Operation, text2: seq<T>)
    requires Fits(|doc|, op1) && Fits(|doc|, op2) && Handled(op1, op2)
    requires op1.kind.Insert? ==> |text1| == |op1.content|
    requires op2.kind.Insert? ==> |text2| == |op2.content|
    ensures Converge(doc, op1, text1, op2, text2)
  {
    match (op1.kind, op2.kind)
    case (Insert, Insert) => InsertInsertConverge(doc, op1, text1, op2, text2);
    case (Delete, Delete) => DeleteDeleteConverge(doc, op1, text1, op2, text2);
    case (Insert, Delete) => InsertDeleteConverge(doc, op1, text1, op2, text2);
    case _ =>
  }
}
