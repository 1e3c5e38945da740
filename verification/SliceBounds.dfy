/**
 Operations at any position: positions and lengths come from clients unchecked, and slices
 count negative ones from the end. Where an insertion lands, and exactly when a deletion makes
 the text longer.
 */
module SliceBounds {
  import opened OperationalTransform

  /** An insertion lands at its position, at the end if that is further, and that far before
      the end, or at the start, if it is negative. Nothing else changes. */
  lemma InsertionLands<T>(doc: seq<T>, op: Operation, text: seq<T>)
    requires op.kind.Insert?
    ensures var (n, p, r) := (|doc|, op.position, Edit(doc, op, text));
            && (0 <= p <= n ==> r == doc[..p] + text + doc[p..])
            && (n < p ==> r == doc + text)
            && (-n <= p < 0 ==> r == doc[..n + p] + text + doc[n + p..])
            && (p < -n ==> r == text + doc)
  {
    if op.position > |doc| {
      assert doc[|doc|..] == [];
    } else if op.position < -|doc| {
      assert doc[..0] == [];
    }
  }

  /** The range, as the slices read it, ends before it starts. */
  predicate Backwards(n: nat, p: int, m: int) {
    if 0 <= p then
      if 0 <= p + m then m < 0 && p + m < n else m + n < 0 && 0 < n && 0 < p
    else
      if 0 <= p + m then m < n else m < 0 && 0 < n + p
  }

  /** A deletion makes the text longer if and only if its range is read backwards; for lengths
      that are not negative: if it starts before the end of the text, counted from there, ends
      at or behind its start, and is shorter than the text. */
  lemma DeletionGrowsIff<T>(doc: seq<T>, op: Operation, text: seq<T>)
    requires op.kind.Delete?
    ensures |Edit(doc, op, text)| > |doc| <==> Backwards(|doc|, op.position, op.length)
    ensures op.length >= 0 ==>
      (Backwards(|doc|, op.position, op.length) <==> -op.length <= op.position < 0 && op.length < |doc|)
  {
  }

  /** What such a deletion does: the text up to its start, and then the text from its end. */
  lemma BackwardsDeletionDuplicates<T>(doc: seq<T>, op: Operation, text: seq<T>)
    requires op.kind.Delete? && op.length >= 0 && Backwards(|doc|, op.position, op.length)
    ensures 0 <= |doc| + op.position && 0 <= op.position + op.length <= |doc|
    ensures Edit(doc, op, text) == doc[..|doc| + op.position] + doc[op.position + op.length..]
    ensures |Edit(doc, op, text)| == 2 * |doc| - op.length
  {
  }
}
