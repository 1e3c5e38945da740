/**
 What the server makes of two concurrent edits: the text after both, character by character,
 for every pair of operations made on the same revision, also those that `transform` has no
 branch for; and exactly when such a pair comes out as its authors meant it.
 */
module LateEdits {
  import opened OperationalTransform
  import opened CatchUp
  import opened SessionLog

  /** Without a branch of its own, a pair comes back as it was. */
  lemma UnhandledUnchanged(op1: Operation, op2: Operation)
    requires !Handled(op1, op2) || op1.kind.Retain? || op2.kind.Retain?
    ensures Transform(op1, op2) == (op1, op2)
  {
  }

  function Least(a: int, b: int): int {
    if a < b then a else b
  }

  // ----- The text after both -----

  /** `h` inserted `u`, then a late insertion of `t` arrives: at one place it lands first. */
  function TwoInsertions<T>(doc: seq<T>, q: int, u: seq<T>, p: int, t: seq<T>): seq<T>
    requires 0 <= p <= |doc| && 0 <= q <= |doc|
  {
    if p <= q then doc[..p] + t + doc[p..q] + u + doc[q..] else doc[..q] + u + doc[q..p] + t + doc[p..]
  }

  /** A range was deleted, then a late insertion arrives. Strictly inside the range it is not
      moved: it lands behind characters that followed the range, or at the end. */
  function InsertionAfterDeletion<T>(doc: seq<T>, q: int, n: int, p: int, t: seq<T>): seq<T>
    requires 0 <= q <= q + n <= |doc| && 0 <= p <= |doc|
  {
    if p <= q then doc[..p] + t + doc[p..q] + doc[q + n..]
    else if p >= q + n then doc[..q] + doc[q + n..p] + t + doc[p..]
    else var k := Least(p + n, |doc|); doc[..q] + doc[q + n..k] + t + doc[k..]
  }

  /** A range was deleted, then a late deletion arrives. If the ranges overlap, the later one is
      not moved: it takes as many characters as were selected, but others. */
  function TwoDeletions<T>(doc: seq<T>, q: int, n: int, p: int, m: int): seq<T>
    requires 0 <= q <= q + n <= |doc| && 0 <= p <= p + m <= |doc|
  {
    if p >= q + n then doc[..q] + doc[q + n..p] + doc[p + m..]
    else if q >= p + m then doc[..p] + doc[p + m..q] + doc[q + n..]
    else if p <= q then doc[..p] + doc[Least(p + m + n, |doc|)..]
    else doc[..q] + doc[q + n..Least(p + n, |doc|)] + doc[Least(p + m + n, |doc|)..]
  }

  /** Text was inserted, then a late deletion arrives. It is never moved: from an insertion
      before its end it takes inserted characters in place of its own. */
  function DeletionAfterInsertion<T>(doc: seq<T>, q: int, u: seq<T>, p: int, m: int): seq<T>
    requires 0 <= q <= |doc| && 0 <= p <= p + m <= |doc|
  {
    if q >= p + m then doc[..p] + doc[p + m..q] + u + doc[q..]
    else if q > p then
      if p + m - q <= |u| then doc[..p] + u[p + m - q..] + doc[q..] else doc[..p] + doc[p + m - |u|..]
    else if p + m <= q + |u| then doc[..q] + u[..p - q] + u[p + m - q..] + doc[q..]
    else if p < q + |u| then doc[..q] + u[..p - q] + doc[p + m - |u|..]
    else doc[..q] + u + doc[q..p - |u|] + doc[p + m - |u|..]
  }

  /** The document after `h`, which inserted `u` if it is an insertion, and a late `op`, which
      inserts `t`. The elements are arbitrary labels of characters. */
  function Merged<T>(doc: seq<T>, h: Operation, u: seq<T>, op: Operation, t: seq<T>): seq<T>
    requires Fits(|doc|, h) && Fits(|doc|, op)
  {
    match (h.kind, op.kind)
    case (Insert, Insert) => TwoInsertions(doc, h.position, u, op.position, t)
    case (Delete, Insert) => InsertionAfterDeletion(doc, h.position, h.length, op.position, t)
    case (Delete, Delete) => TwoDeletions(doc, h.position, h.length, op.position, op.length)
    case (Insert, Delete) => DeletionAfterInsertion(doc, h.position, u, op.position, op.length)
    case (Insert, Retain) => doc[..h.position] + u + doc[h.position..]
    case (Delete, Retain) => doc[..h.position] + doc[h.position + h.length..]
    case (Retain, Insert) => doc[..op.position] + t + doc[op.position..]
    case (Retain, Delete) => doc[..op.position] + doc[op.position + op.length..]
    case (Retain, Retain) => doc
  }

  // The halves of the document that a late edit arrives at, left and right of its place.

  lemma HalvesBeforeCut<T>(doc: seq<T>, q: int, n: int, i: int)
    requires 0 <= i <= q <= q + n <= |doc|
    ensures Take(Cut(doc, q, n), i) == doc[..i]
    ensures Drop(Cut(doc, q, n), i) == doc[i..q] + doc[q + n..]
  {
  }

  lemma HalvesBeyondCut<T>(doc: seq<T>, q: int, n: int, i: int, k: int)
    requires 0 <= q <= q + n <= |doc| && q <= i && k == Least(i + n, |doc|)
    ensures Take(Cut(doc, q, n), i) == doc[..q] + doc[q + n..k]
    ensures Drop(Cut(doc, q, n), i) == doc[k..]
  {
  }

  lemma HalvesBeforeSplice<T>(doc: seq<T>, q: int, u: seq<T>, i: int)
    requires 0 <= i <= q <= |doc|
    ensures Take(Spliced(doc, q, u), i) == doc[..i]
    ensures Drop(Spliced(doc, q, u), i) == doc[i..q] + u + doc[q..]
  {
  }

  lemma HalvesWithinSplice<T>(doc: seq<T>, q: int, u: seq<T>, i: int)
    requires 0 <= q <= |doc| && q <= i <= q + |u|
    ensures Take(Spliced(doc, q, u), i) == doc[..q] + u[..i - q]
    ensures Drop(Spliced(doc, q, u), i) == u[i - q..] + doc[q..]
  {
  }

  lemma HalvesBeyondSplice<T>(doc: seq<T>, q: int, u: seq<T>, i: int)
    requires 0 <= q <= |doc| && q + |u| <= i <= |doc| + |u|
    ensures Take(Spliced(doc, q, u), i) == doc[..q] + u + doc[q..i - |u|]
    ensures Drop(Spliced(doc, q, u), i) == doc[i - |u|..]
  {
  }

  lemma Associates<T>(a: seq<T>, b: seq<T>, c: seq<T>)
    ensures a + (b + c) == a + b + c
  {
  }

  /** A deletion of `m` characters at `i`, wherever that is in `doc`. */
  function CutAt<T>(doc: seq<T>, i: int, m: int): seq<T> {
    Take(doc, i) + Drop(doc, i + m)
  }

  function InsertAt<T>(doc: seq<T>, i: int, t: seq<T>): seq<T> {
    Take(doc, i) + t + Drop(doc, i)
  }

  lemma InsertBeforeCutRange<T>(doc: seq<T>, q: int, n: int, p: int, t: seq<T>)
    requires 0 <= p <= q <= q + n <= |doc|
    ensures InsertAt(Cut(doc, q, n), p, t) == doc[..p] + t + doc[p..q] + doc[q + n..]
  {
    HalvesBeforeCut(doc, q, n, p);
  }

  lemma InsertBeyondCutRange<T>(doc: seq<T>, q: int, n: int, i: int, k: int, t: seq<T>)
    requires 0 <= q <= q + n <= |doc| && q <= i && k == Least(i + n, |doc|)
    ensures InsertAt(Cut(doc, q, n), i, t) == doc[..q] + doc[q + n..k] + t + doc[k..]
  {
    HalvesBeyondCut(doc, q, n, i, k);
  }

  lemma CutBeforeCut<T>(doc: seq<T>, q: int, n: int, p: int, m: int)
    requires 0 <= p <= p + m <= q <= q + n <= |doc|
    ensures CutAt(Cut(doc, q, n), p, m) == doc[..p] + doc[p + m..q] + doc[q + n..]
  {
    HalvesBeforeCut(doc, q, n, p);
    HalvesBeforeCut(doc, q, n, p + m);
  }

  lemma CutIntoCut<T>(doc: seq<T>, q: int, n: int, p: int, m: int)
    requires 0 <= p <= q <= q + n <= |doc| && q <= p + m
    ensures CutAt(Cut(doc, q, n), p, m) == doc[..p] + doc[Least(p + m + n, |doc|)..]
  {
    HalvesBeforeCut(doc, q, n, p);
    HalvesBeyondCut(doc, q, n, p + m, Least(p + m + n, |doc|));
  }

  lemma CutApartFromCut<T>(doc: seq<T>, q: int, n: int, p: int, m: int)
    requires 0 <= q <= q + n <= p <= p + m <= |doc|
    ensures CutAt(Cut(doc, q, n), p - n, m) == doc[..q] + doc[q + n..p] + doc[p + m..]
  {
    HalvesBeyondCut(doc, q, n, p - n, p);
    HalvesBeyondCut(doc, q, n, p - n + m, p + m);
  }

  lemma CutBeyondCut<T>(doc: seq<T>, q: int, n: int, i: int, m: int)
    requires 0 <= q <= q + n <= |doc| && q <= i && 0 <= m
    ensures CutAt(Cut(doc, q, n), i, m)
         == doc[..q] + doc[q + n..Least(i + n, |doc|)] + doc[Least(i + m + n, |doc|)..]
  {
    HalvesBeyondCut(doc, q, n, i, Least(i + n, |doc|));
    HalvesBeyondCut(doc, q, n, i + m, Least(i + m + n, |doc|));
  }

  lemma CutBeforeSplice<T>(doc: seq<T>, q: int, u: seq<T>, p: int, m: int)
    requires 0 <= p <= p + m <= q <= |doc|
    ensures CutAt(Spliced(doc, q, u), p, m) == doc[..p] + doc[p + m..q] + u + doc[q..]
  {
    HalvesBeforeSplice(doc, q, u, p);
    HalvesBeforeSplice(doc, q, u, p + m);
    Associates(doc[..p], doc[p + m..q] + u, doc[q..]);
    Associates(doc[..p], doc[p + m..q], u);
  }

  lemma CutIntoSplice<T>(doc: seq<T>, q: int, u: seq<T>, p: int, m: int)
    requires 0 <= p <= q < p + m <= |doc|
    ensures CutAt(Spliced(doc, q, u), p, m)
         == if p + m - q <= |u| then doc[..p] + u[p + m - q..] + doc[q..] else doc[..p] + doc[p + m - |u|..]
  {
    HalvesBeforeSplice(doc, q, u, p);
    if p + m - q <= |u| {
      HalvesWithinSplice(doc, q, u, p + m);
      Associates(doc[..p], u[p + m - q..], doc[q..]);
    } else {
      HalvesBeyondSplice(doc, q, u, p + m);
    }
  }

  lemma CutWithinSplice<T>(doc: seq<T>, q: int, u: seq<T>, p: int, m: int)
    requires 0 <= q <= p <= p + m <= |doc| && p <= q + |u|
    ensures CutAt(Spliced(doc, q, u), p, m)
         == if p + m <= q + |u| then doc[..q] + u[..p - q] + u[p + m - q..] + doc[q..]
            else doc[..q] + u[..p - q] + doc[p + m - |u|..]
  {
    HalvesWithinSplice(doc, q, u, p);
    if p + m <= q + |u| {
      HalvesWithinSplice(doc, q, u, p + m);
      Associates(doc[..q] + u[..p - q], u[p + m - q..], doc[q..]);
    } else {
      HalvesBeyondSplice(doc, q, u, p + m);
    }
  }

  lemma CutBeyondSplice<T>(doc: seq<T>, q: int, u: seq<T>, p: int, m: int)
    requires 0 <= q <= |doc| && q + |u| <= p <= p + m <= |doc|
    ensures CutAt(Spliced(doc, q, u), p, m) == doc[..q] + u + doc[q..p - |u|] + doc[p + m - |u|..]
  {
    HalvesBeyondSplice(doc, q, u, p);
    HalvesBeyondSplice(doc, q, u, p + m);
  }

  lemma CutThenInsert<T>(doc: seq<T>, q: int, n: int, p: int, t: seq<T>)
    requires 0 <= q <= q + n <= |doc| && 0 <= p <= |doc|
    ensures InsertAt(Cut(doc, q, n), if q < p && q + n <= p then p - n else p, t)
         == InsertionAfterDeletion(doc, q, n, p, t)
  {
    if p <= q {
      InsertBeforeCutRange(doc, q, n, p, t);
    } else if p >= q + n {
      InsertBeyondCutRange(doc, q, n, p - n, p, t);
    } else {
      InsertBeyondCutRange(doc, q, n, p, Least(p + n, |doc|), t);
    }
  }

  lemma CutThenCut<T>(doc: seq<T>, q: int, n: int, p: int, m: int)
    requires 0 <= q <= q + n <= |doc| && 0 <= p <= p + m <= |doc|
    ensures CutAt(Cut(doc, q, n), if q + n <= p then p - n else p, m) == TwoDeletions(doc, q, n, p, m)
  {
    if p >= q + n {
      CutApartFromCut(doc, q, n, p, m);
    } else if q >= p + m {
      CutBeforeCut(doc, q, n, p, m);
    } else if p <= q {
      CutIntoCut(doc, q, n, p, m);
    } else {
      CutBeyondCut(doc, q, n, p, m);
    }
  }

  lemma InsertThenCut<T>(doc: seq<T>, q: int, u: seq<T>, p: int, m: int)
    requires 0 <= q <= |doc| && 0 <= p <= p + m <= |doc|
    ensures CutAt(Spliced(doc, q, u), p, m) == DeletionAfterInsertion(doc, q, u, p, m)
  {
    if q >= p + m {
      CutBeforeSplice(doc, q, u, p, m);
    } else if q > p {
      CutIntoSplice(doc, q, u, p, m);
    } else if p < q + |u| {
      CutWithinSplice(doc, q, u, p, m);
    } else {
      CutBeyondSplice(doc, q, u, p, m);
    }
  }

  lemma EditsAt<T>(doc: seq<T>, op: Operation, text: seq<T>)
    ensures op.kind.Insert? ==> Edit(doc, op, text) == InsertAt(doc, op.position, text)
    ensures op.kind.Delete? ==> Edit(doc, op, text) == CutAt(doc, op.position, op.length)
  {
  }

  /** The position at which the late edit is applied. */
  lemma LatePosition(h: Operation, op: Operation)
    ensures var i := Transform(op, h).0.position;
            match (h.kind, op.kind)
            case (Insert, Insert) => i == if op.position <= h.position then op.position else op.position + |h.content|
            case (Delete, Insert) =>
              i == if h.position < op.position && h.position + h.length <= op.position then op.position - h.length
                   else op.position
            case (Delete, Delete) =>
              i == if h.position + h.length <= op.position then op.position - h.length else op.position
            case _ => i == op.position
  {
  }

  lemma InsertThenInsert<T>(doc: seq<T>, q: int, u: seq<T>, p: int, t: seq<T>)
    requires 0 <= q <= |doc| && 0 <= p <= |doc|
    ensures InsertAt(Spliced(doc, q, u), if p <= q then p else p + |u|, t) == TwoInsertions(doc, q, u, p, t)
  {
    if p <= q {
      HalvesBeforeSplice(doc, q, u, p);
      Associates(doc[..p] + t, doc[p..q] + u, doc[q..]);
      Associates(doc[..p] + t, doc[p..q], u);
    } else {
      HalvesBeyondSplice(doc, q, u, p + |u|);
    }
  }

  lemma MergesAfterInsertion<T>(doc: seq<T>, h: Operation, u: seq<T>, op: Operation, t: seq<T>)
    requires h.kind.Insert? && |u| == |h.content| && Fits(|doc|, h) && Fits(|doc|, op)
    ensures Edit(Edit(doc, h, u), Transform(op, h).0, t) == Merged(doc, h, u, op, t)
  {
    TransformKeepsPayload(op, h);
    LatePosition(h, op);
    EditSplices(doc, h, u);
    EditsAt(Spliced(doc, h.position, u), Transform(op, h).0, t);
    match op.kind
    case Insert => InsertThenInsert(doc, h.position, u, op.position, t);
    case Delete => InsertThenCut(doc, h.position, u, op.position, op.length);
    case Retain =>
  }

  lemma MergesAfterDeletion<T>(doc: seq<T>, h: Operation, u: seq<T>, op: Operation, t: seq<T>)
    requires h.kind.Delete? && Fits(|doc|, h) && Fits(|doc|, op)
    ensures Edit(Edit(doc, h, u), Transform(op, h).0, t) == Merged(doc, h, u, op, t)
  {
    TransformKeepsPayload(op, h);
    LatePosition(h, op);
    EditCuts(doc, h, u);
    EditsAt(Cut(doc, h.position, h.length), Transform(op, h).0, t);
    match op.kind
    case Insert => CutThenInsert(doc, h.position, h.length, op.position, t);
    case Delete => CutThenCut(doc, h.position, h.length, op.position, op.length);
    case Retain =>
  }

  /** On labelled characters: what the earlier edit and the transformed late one leave. */
  lemma LateEditMerges<T>(doc: seq<T>, h: Operation, u: seq<T>, op: Operation, t: seq<T>)
    requires Fits(|doc|, h) && Fits(|doc|, op)
    requires h.kind.Insert? ==> |u| == |h.content|
    ensures Edit(Edit(doc, h, u), Transform(op, h).0, t) == Merged(doc, h, u, op, t)
  {
    match h.kind
    case Insert => MergesAfterInsertion(doc, h, u, op, t);
    case Delete => MergesAfterDeletion(doc, h, u, op, t);
    case Retain => UnhandledUnchanged(op, h);
  }

  // ----- On the server -----

  /** `op` and `h` were both made on the text after `subs`, and `h` arrived first. */
  predicate Concurrent(content: string, subs: seq<Operation>, h: Operation, op: Operation) {
    && h.revision == |subs| && op.revision == |subs|
    && Fits(|Run(content, subs).content|, h) && Fits(|Run(content, subs).content|, op)
  }

  lemma TransformIgnoresNumber(op: Operation, h: Operation, r: int)
    ensures Transform(op, h.(revision := r)).0 == Transform(op, h).0
  {
  }

  lemma {:induction false} SecondIsRebasedOnFirst(content: string, subs: seq<Operation>, h: Operation, op: Operation)
    requires Concurrent(content, subs, h, op) && |subs| < HISTORY_LIMIT
    ensures var d := Run(content, subs + [h]);
            && d.content == Apply(Run(content, subs).content, h)
            && Integrated(d, op) == Transform(op, h).0.(revision := |subs| + 2)
  {
    HistoryIsLogSuffix(content, subs);
    LogAppends(content, subs, h);
    IntegratedIsRebased(content, subs + [h], op);
    SameEdit(Run(content, subs).content, Integrated(Run(content, subs), h), h);
    var missed := Missed(content, subs + [h], op);
    assert missed == [h.(revision := |subs| + 1)];
    TransformIgnoresNumber(op, h, |subs| + 1);
    assert Rebase(op, missed) == Rebase(Transform(op, missed[0]).0, []);
  }

  /** After any run, two operations made on the same revision leave exactly the text `Merged`
      of the text they were made on, as long as the log has not been trimmed. */
  lemma {:induction false} ServerMerges(content: string, subs: seq<Operation>, h: Operation, op: Operation)
    requires Concurrent(content, subs, h, op) && |subs| < HISTORY_LIMIT
    ensures Run(content, subs + [h, op]).content
         == Merged(Run(content, subs).content, h, h.content, op, op.content)
  {
    var text := Run(content, subs).content;
    SecondIsRebasedOnFirst(content, subs, h, op);
    LogAppends(content, subs + [h], op);
    assert subs + [h] + [op] == subs + [h, op];
    var o := Transform(op, h).0;
    SameEdit(Apply(text, h), Integrated(Run(content, subs + [h]), op), o);
    TransformKeepsPayload(op, h);
    assert Apply(Apply(text, h), o) == Edit(Apply(text, h), o, op.content);
    LateEditMerges(text, h, h.content, op, op.content);
  }

  /** Once the log has been trimmed, the late operation is applied as it came. */
  lemma {:induction false} ServerForgets(content: string, subs: seq<Operation>, h: Operation, op: Operation)
    requires Concurrent(content, subs, h, op) && |subs| >= HISTORY_LIMIT
    ensures Run(content, subs + [h, op]).content == Apply(Apply(Run(content, subs).content, h), op)
  {
    var text, d := Run(content, subs).content, Run(content, subs + [h]);
    HistoryIsLogSuffix(content, subs);
    HistoryIsLogSuffix(content, subs + [h]);
    RetainedStep(|subs| + 1);
    LogAppends(content, subs, h);
    LogAppends(content, subs + [h], op);
    assert subs + [h] + [op] == subs + [h, op];
    SameEdit(text, Integrated(Run(content, subs), h), h);
    assert Drop(d.history, |subs|) == [];
    SameEdit(Apply(text, h), Integrated(d, op), op);
  }

  // ----- As the authors meant it -----

  /** No label stands for two characters. */
  ghost predicate NoRepeats<T>(s: seq<T>) {
    forall i, j :: 0 <= i < j < |s| ==> s[i] != s[j]
  }

  function Most(a: int, b: int): int {
    if a < b then b else a
  }

  lemma OverlapFromLeft<T>(doc: seq<T>, q: int, n: int, p: int, m: int)
    requires 0 <= p <= q <= q + n <= |doc| && q < p + m <= |doc|
    ensures TwoDeletions(doc, q, n, p, m) == doc[..p] + doc[Most(p + m, q + n)..]
       <==> n == 0 || Most(p + m, q + n) == |doc|
  {
    var k, e := Least(p + m + n, |doc|), Most(p + m, q + n);
    if p < q + n {
      assert TwoDeletions(doc, q, n, p, m) == doc[..p] + doc[k..];
      assert |doc[..p] + doc[k..]| == p + |doc| - k && |doc[..p] + doc[e..]| == p + |doc| - e;
    }
  }

  lemma OverlapFromRight<T>(doc: seq<T>, q: int, n: int, p: int, m: int)
    requires 0 <= q < p < q + n <= |doc| && p <= p + m <= |doc| && NoRepeats(doc)
    ensures TwoDeletions(doc, q, n, p, m) == doc[..q] + doc[Most(p + m, q + n)..]
       <==> m == 0 || (p + m <= q + n && p + n >= |doc|)
  {
    var x, y := Least(p + n, |doc|), Least(p + m + n, |doc|);
    assert TwoDeletions(doc, q, n, p, m) == doc[..q] + doc[q + n..x] + doc[y..];
    if p + m <= q + n {
      assert |doc[..q] + doc[q + n..x] + doc[y..]| == |doc[..q] + doc[q + n..]| - (y - x);
      if x == y {
        assert doc[..q] + doc[q + n..x] + doc[y..] == doc[..q] + doc[q + n..];
      }
    } else {
      KeptBehindRange(doc, q, q + n, x, y, p + m);
    }
  }

  /** The character behind the first range stays, and it is not the one behind the second. */
  lemma KeptBehindRange<T>(doc: seq<T>, q: int, s: int, x: int, y: int, e: int)
    requires 0 <= q <= s < x <= y <= |doc| && s < e <= |doc| && NoRepeats(doc)
    ensures doc[..q] + doc[s..x] + doc[y..] != doc[..q] + doc[e..]
  {
    assert (doc[..q] + doc[s..x])[q] == doc[s];
    assert (doc[..q] + doc[s..x] + doc[y..])[q] == doc[s];
    if e < |doc| {
      assert (doc[..q] + doc[e..])[q] == doc[e];
    }
  }

  /** A late overlapping deletion leaves what both authors meant if and only if one of them
      selected nothing, or nothing is left behind the characters they selected that the late
      one could take instead. */
  lemma OverlapAsMeantIff<T>(doc: seq<T>, q: int, n: int, p: int, m: int)
    requires 0 <= q <= q + n <= |doc| && 0 <= p <= p + m <= |doc| && p < q + n && q < p + m && NoRepeats(doc)
    ensures TwoDeletions(doc, q, n, p, m) == doc[..Least(p, q)] + doc[Most(p + m, q + n)..]
       <==> || n == 0 || m == 0
            || (p <= q && Most(p + m, q + n) == |doc|)
            || (q < p && p + m <= q + n && p + n >= |doc|)
  {
    if p <= q {
      OverlapFromLeft(doc, q, n, p, m);
    } else {
      OverlapFromRight(doc, q, n, p, m);
    }
  }

  /** A late insertion strictly inside a deleted range lands as meant if and only if it inserts
      nothing or nothing follows the range. */
  lemma InsideAsMeantIff<T>(doc: seq<T>, q: int, n: int, p: int, t: seq<T>)
    requires 0 <= q < p < q + n <= |doc| && NoRepeats(doc + t)
    ensures InsertionAfterDeletion(doc, q, n, p, t) == doc[..q] + t + doc[q + n..] <==> t == [] || q + n == |doc|
  {
    var k := Least(p + n, |doc|);
    var server, meant := doc[..q] + doc[q + n..k] + t + doc[k..], doc[..q] + t + doc[q + n..];
    assert InsertionAfterDeletion(doc, q, n, p, t) == server;
    if t == [] || q + n == |doc| {
      assert server == meant;
    } else {
      assert server[q] == doc[q + n] == (doc + t)[q + n];
      assert meant[q] == t[0] == (doc + t)[|doc|];
    }
  }

  lemma AcrossInsertion<T>(doc: seq<T>, q: int, u: seq<T>, p: int, m: int)
    requires 0 <= p < q < p + m <= |doc| && NoRepeats(doc + u)
    ensures DeletionAfterInsertion(doc, q, u, p, m) == doc[..p] + u + doc[p + m..] <==> u == []
  {
    var server, meant := DeletionAfterInsertion(doc, q, u, p, m), doc[..p] + u + doc[p + m..];
    if u == [] {
      assert server == meant;
    } else {
      assert meant[p] == u[0] == (doc + u)[|doc|];
      if p + m - q < |u| {
        assert server[p] == u[p + m - q] == (doc + u)[|doc| + (p + m - q)];
      } else if p + m - q == |u| {
        assert server[p] == doc[q] == (doc + u)[q];
      } else {
        assert server[p] == doc[p + m - |u|] == (doc + u)[p + m - |u|];
      }
    }
  }

  /** Behind the insertion, the last character of the selected range stays. */
  lemma LastOfRangeStays<T>(doc: seq<T>, q: int, u: seq<T>, p: int, m: int)
    requires 0 <= q <= p < p + m <= |doc| && u != []
    ensures |DeletionAfterInsertion(doc, q, u, p, m)| == |doc| + |u| - m
    ensures DeletionAfterInsertion(doc, q, u, p, m)[p - 1 + |u|] == doc[p + m - 1]
  {
    InsertThenCut(doc, q, u, p, m);
    var s := Spliced(doc, q, u);
    assert CutAt(s, p, m) == s[..p] + s[p + m..];
    assert s[p - 1 + |u| + m] == doc[p + m - 1];
  }

  /** What the author of the deletion meant has another character there. */
  lemma LastOfRangeGone<T>(doc: seq<T>, q: int, u: seq<T>, p: int, m: int)
    requires 0 <= q <= p < p + m <= |doc| && u != [] && NoRepeats(doc + u)
    ensures var meant := doc[..q] + u + doc[q..p] + doc[p + m..];
            |meant| == |doc| + |u| - m && meant[p - 1 + |u|] != doc[p + m - 1]
  {
    var meant := doc[..q] + u + doc[q..p] + doc[p + m..];
    assert doc[p + m - 1] == (doc + u)[p + m - 1];
    if p > q {
      assert meant[p - 1 + |u|] == doc[p - 1] == (doc + u)[p - 1];
    } else {
      assert meant[p - 1 + |u|] == u[|u| - 1] == (doc + u)[|doc| + |u| - 1];
    }
  }

  lemma IdleBehindInsertion<T>(doc: seq<T>, q: int, u: seq<T>, p: int, m: int)
    requires 0 <= q <= p <= p + m <= |doc| && (u == [] || m == 0)
    ensures DeletionAfterInsertion(doc, q, u, p, m) == doc[..q] + u + doc[q..p] + doc[p + m..]
  {
    InsertThenCut(doc, q, u, p, m);
    assert CutAt(Spliced(doc, q, u), p, m) == doc[..q] + u + doc[q..p] + doc[p + m..];
  }

  lemma BehindInsertion<T>(doc: seq<T>, q: int, u: seq<T>, p: int, m: int)
    requires 0 <= q <= p <= p + m <= |doc| && q < p + m && NoRepeats(doc + u)
    ensures DeletionAfterInsertion(doc, q, u, p, m) == doc[..q] + u + doc[q..p] + doc[p + m..] <==> u == [] || m == 0
  {
    if u == [] || m == 0 {
      IdleBehindInsertion(doc, q, u, p, m);
    } else {
      LastOfRangeStays(doc, q, u, p, m);
      LastOfRangeGone(doc, q, u, p, m);
    }
  }

  /** A late deletion is carried out as meant over an insertion before its end if and only if one
      of the two has no effect. */
  lemma OverInsertionAsMeantIff<T>(doc: seq<T>, q: int, u: seq<T>, p: int, m: int)
    requires 0 <= q < p + m <= |doc| && 0 <= p && 0 <= m && NoRepeats(doc + u)
    ensures DeletionAfterInsertion(doc, q, u, p, m)
         == (if q > p then doc[..p] + u + doc[p + m..] else doc[..q] + u + doc[q..p] + doc[p + m..])
       <==> u == [] || m == 0
  {
    if q > p {
      AcrossInsertion(doc, q, u, p, m);
    } else {
      BehindInsertion(doc, q, u, p, m);
    }
  }
}
