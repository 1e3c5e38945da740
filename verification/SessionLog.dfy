/**
 The document of a collaboration session: its text, its revision number and the retained
 history, as `handle_operation` updates them over a whole run of submitted operations.
 */
module SessionLog {
  import opened OperationalTransform
  import opened CatchUp

  const HISTORY_LIMIT := 1000
  const HISTORY_KEPT := 500

  datatype Document = Document(content: string, revision: nat, history: seq<Operation>)

  /** The operation the server applies for the submitted `op`: rebased over
      `history[op.revision:]` if it was made on an older revision, and numbered. */
  function Integrated(d: Document, op: Operation): Operation {
    var o := if op.revision < d.revision then Rebase(op, Drop(d.history, op.revision)) else op;
    o.(revision := d.revision + 1)
  }

  function Trimmed(history: seq<Operation>): seq<Operation> {
    if |history| > HISTORY_LIMIT then Drop(history, -HISTORY_KEPT) else history
  }

  function Submit(d: Document, op: Operation): Document {
    var o := Integrated(d, op);
    Document(Apply(d.content, o), d.revision + 1, Trimmed(d.history + [o]))
  }

  function Fresh(content: string): Document {
    Document(content, 0, [])
  }

  /** The document after a run of submissions. */
  function Run(content: string, subs: seq<Operation>): Document
    decreases |subs|
  {
    if subs == [] then Fresh(content)
    else Submit(Run(content, subs[..|subs| - 1]), subs[|subs| - 1])
  }

  /** Every operation the server applied in the run, trimmed or not. */
  function Log(content: string, subs: seq<Operation>): (log: seq<Operation>)
    ensures |log| == |subs|
    decreases |subs|
  {
    if subs == [] then []
    else
      var before := subs[..|subs| - 1];
      Log(content, before) + [Integrated(Run(content, before), subs[|subs| - 1])]
  }

  /** The text at revision `v`. */
  function Snapshot(content: string, subs: seq<Operation>, v: nat): string
    requires v <= |subs|
  {
    ApplyAll(content, Log(content, subs)[..v])
  }

  /** How many operations the history holds at revision `r`. */
  function Retained(r: nat): nat {
    if r <= HISTORY_LIMIT then r
    else HISTORY_KEPT + (r - (HISTORY_LIMIT + 1)) % (HISTORY_LIMIT - HISTORY_KEPT + 1)
  }

  lemma RetainedStep(r: nat)
    ensures Retained(r) <= r
    ensures Retained(r) <= HISTORY_LIMIT
    ensures Retained(r + 1) == if Retained(r) + 1 > HISTORY_LIMIT then HISTORY_KEPT else Retained(r) + 1
  {
    if r > HISTORY_LIMIT {
      NextRemainder(r - (HISTORY_LIMIT + 1));
    }
  }

  lemma NextRemainder(n: nat)
    ensures (n + 1) % 501 == if n % 501 == 500 then 0 else n % 501 + 1
  {
  }

  /** Log, replay and trim: in every reachable session the history is the part of the log
      behind the revision `base`, entry `i` of the log made revision `i + 1`, the text is the
      replay of the log, and the revision alone determines how much history is left. */
  lemma {:induction false} HistoryIsLogSuffix(content: string, subs: seq<Operation>)
    ensures var d := Run(content, subs);
            var log := Log(content, subs);
            && d.revision == |subs|
            && |d.history| == Retained(|subs|)
            && d.history == log[|subs| - |d.history|..]
            && d.content == ApplyAll(content, log)
            && forall i :: 0 <= i < |log| ==> log[i].revision == i + 1
    decreases |subs|
  {
    if subs != [] {
      var before := subs[..|subs| - 1];
      HistoryIsLogSuffix(content, before);
      RetainedStep(|before|);
      var d, log := Run(content, before), Log(content, before);
      var o := Integrated(d, subs[|subs| - 1]);
      ApplyAllAppends(content, log, [o]);
      assert d.history + [o] == (log + [o])[|before| - |d.history|..];
    }
  }

  /** At revision `r` the history holds the last `r` operations up to a thousand of them, and then
      from 500 to 1000, the same number again every 501 revisions. */
  lemma {:induction false} HistoryLength(content: string, subs: seq<Operation>)
    ensures var (r, n) := (|subs|, |Run(content, subs).history|);
            && (r <= 1000 ==> n == r)
            && (r > 1000 ==> n == 500 + (r - 1001) % 501)
  {
    HistoryIsLogSuffix(content, subs);
  }

  lemma {:induction false} LogPrefix(content: string, subs: seq<Operation>, v: nat)
    requires v <= |subs|
    ensures Log(content, subs[..v]) == Log(content, subs)[..v]
    decreases |subs|
  {
    if v == |subs| {
      assert subs[..v] == subs;
    } else {
      var before := subs[..|subs| - 1];
      LogPrefix(content, before, v);
      assert before[..v] == subs[..v];
    }
  }

  /** What `base` means: the content is the history replayed on the snapshot where the
      history begins, and every earlier state of the run is a snapshot. */
  lemma {:induction false} ContentIsReplay(content: string, subs: seq<Operation>)
    ensures var d := Run(content, subs);
            var base := |subs| - |d.history|;
            && 0 <= base
            && d.content == ApplyAll(Snapshot(content, subs, base), d.history)
            && forall v :: 0 <= v <= |subs| ==> Run(content, subs[..v]).content == Snapshot(content, subs, v)
  {
    HistoryIsLogSuffix(content, subs);
    RetainedStep(|subs|);
    var log := Log(content, subs);
    var base := |subs| - |Run(content, subs).history|;
    assert log == log[..base] + log[base..];
    ApplyAllAppends(content, log[..base], log[base..]);
    forall v | 0 <= v <= |subs|
      ensures Run(content, subs[..v]).content == Snapshot(content, subs, v)
    {
      HistoryIsLogSuffix(content, subs[..v]);
      LogPrefix(content, subs, v);
    }
  }

  lemma RetainedAllIffUntrimmed(r: nat)
    ensures Retained(r) <= r
    ensures Retained(r) == r <==> r <= HISTORY_LIMIT
  {
  }

  lemma SliceOfSuffix(history: seq<Operation>, log: seq<Operation>, v: nat)
    requires v < |log| && |history| <= |log| && history == log[|log| - |history|..]
    ensures var slice := Drop(history, v);
            && |slice| <= |log| - v
            && slice == log[|log| - |slice|..]
            && (slice == log[v..] <==> |history| == |log|)
  {
  }

  /** The slice `history[v:]` is always the end of what a client at revision `v` missed; it
      is all of it if and only if nothing has been trimmed yet. */
  lemma {:induction false} CatchUpSliceIsMissedIffUntrimmed(content: string, subs: seq<Operation>, v: nat)
    requires v < |subs|
    ensures var slice := Drop(Run(content, subs).history, v);
            var log := Log(content, subs);
            && |slice| <= |log| - v
            && slice == log[|log| - |slice|..]
            && (slice == log[v..] <==> |subs| <= 1000)
  {
    HistoryIsLogSuffix(content, subs);
    RetainedAllIffUntrimmed(|subs|);
    SliceOfSuffix(Run(content, subs).history, Log(content, subs), v);
  }

  /** `op` was made on an existing revision and fits the text its author saw there. */
  predicate Proper(content: string, subs: seq<Operation>, op: Operation) {
    && 0 <= op.revision <= |subs|
    && Fits(|Snapshot(content, subs, op.revision)|, op)
  }

  /** The operations that the author of `op` had not seen. */
  function Missed(content: string, subs: seq<Operation>, op: Operation): seq<Operation>
    requires 0 <= op.revision <= |subs|
  {
    Log(content, subs)[op.revision..]
  }

  lemma {:induction false} IntegratedIsRebased(content: string, subs: seq<Operation>, op: Operation)
    requires 0 <= op.revision <= |subs|
    requires |subs| <= HISTORY_LIMIT || op.revision == |subs|
    ensures Integrated(Run(content, subs), op) == Rebase(op, Missed(content, subs, op)).(revision := |subs| + 1)
  {
    HistoryIsLogSuffix(content, subs);
    if op.revision < |subs| {
      CatchUpSliceIsMissedIffUntrimmed(content, subs, op.revision);
    }
  }

  lemma {:induction false} LogAppends(content: string, subs: seq<Operation>, op: Operation)
    ensures Run(content, subs + [op]) == Submit(Run(content, subs), op)
    ensures Log(content, subs + [op]) == Log(content, subs) + [Integrated(Run(content, subs), op)]
  {
  }

  /** Convergence of the server with a client: the client made `op` at revision `v`, applied
      it at once and then applies, shifted, everything it had missed. It ends with the text
      that the server has after integrating `op`. */
  lemma {:induction false} SubmitConverges(content: string, subs: seq<Operation>, op: Operation)
    requires Proper(content, subs, op)
    requires |subs| <= HISTORY_LIMIT || op.revision == |subs|
    requires FitsAll(content, Log(content, subs))
    requires Reconcilable(op, Missed(content, subs, op))
    ensures Run(content, subs + [op]).content
         == ApplyAll(Apply(Snapshot(content, subs, op.revision), op), Shifted(op, Missed(content, subs, op)))
    ensures FitsAll(content, Log(content, subs + [op]))
  {
    var log, v := Log(content, subs), op.revision;
    assert log == log[..v] + log[v..];
    ApplyAllAppends(content, log[..v], log[v..]);
    CatchUpConverges(Snapshot(content, subs, v), op, log[v..]);
    IntegratedIsRebased(content, subs, op);
    HistoryIsLogSuffix(content, subs);
    LogAppends(content, subs, op);
    var o := Integrated(Run(content, subs), op);
    SameEdit(Run(content, subs).content, o, Rebase(op, log[v..]));
    ApplyAllAppends(content, log, [o]);
    assert ApplyAll(content, log) == ApplyAll(Snapshot(content, subs, v), log[v..]);
    assert FitsAll(ApplyAll(content, log), [o]);
  }

  /** The revision number plays no part in what an operation does. */
  lemma SameEdit(doc: string, a: Operation, b: Operation)
    requires a == b.(revision := a.revision)
    ensures Apply(doc, a) == Apply(doc, b)
    ensures Fits(|doc|, a) <==> Fits(|doc|, b)
  {
  }

  /** A run in which every submission is proper and meets only handled pairs. */
  predicate Disciplined(content: string, subs: seq<Operation>)
    decreases |subs|
  {
    subs == [] ||
    var before, op := subs[..|subs| - 1], subs[|subs| - 1];
    && Disciplined(content, before)
    && (|before| <= HISTORY_LIMIT || op.revision == |before|)
    && Proper(content, before, op)
    && Reconcilable(op, Missed(content, before, op))
  }

  lemma {:induction false} LastFits(content: string, subs: seq<Operation>, op: Operation)
    requires Disciplined(content, subs + [op])
    requires FitsAll(content, Log(content, subs))
    ensures FitsAll(content, Log(content, subs + [op]))
  {
    assert (subs + [op])[..|subs|] == subs;
    SubmitConverges(content, subs, op);
  }

  /** In a disciplined run the server never applies an operation outside its document, so
      no slice is ever clamped and every submission converges. */
  lemma {:induction false} DisciplinedRunFits(content: string, subs: seq<Operation>)
    requires Disciplined(content, subs)
    ensures FitsAll(content, Log(content, subs))
    decreases |subs|
  {
    if subs != [] {
      var before, op := subs[..|subs| - 1], subs[|subs| - 1];
      assert subs == before + [op];
      DisciplinedRunFits(content, before);
      LastFits(content, before, op);
    }
  }

  predicate AllProper(content: string, subs: seq<Operation>) {
    forall i :: 0 <= i < |subs| ==> Proper(content, subs[..i], subs[i])
  }

  /** With insertions only there is no side condition: if every insertion fits the text its
      author saw and the log is untrimmed, the run is disciplined, hence convergent. */
  lemma {:induction false} InsertRunIsDisciplined(content: string, subs: seq<Operation>)
    requires AllInserts(subs) && AllProper(content, subs) && |subs| <= HISTORY_LIMIT + 1
    ensures Disciplined(content, subs)
    ensures AllInserts(Log(content, subs))
    decreases |subs|
  {
    if subs != [] {
      var before, op := subs[..|subs| - 1], subs[|subs| - 1];
      assert forall i :: 0 <= i < |before| ==> before[..i] == subs[..i];
      InsertRunIsDisciplined(content, before);
      assert Proper(content, before, op);
      InsertsReconcile(op, Missed(content, before, op));
      IntegratedIsRebased(content, before, op);
      RebaseKeepsPayload(op, Missed(content, before, op));
    }
  }

  /** Concurrent insertions of `texts` at position `p`, all made on revision `v`. */
  function Ties(p: int, v: int, texts: seq<string>, users: seq<string>): (ops: seq<Operation>)
    requires |texts| == |users|
    ensures |ops| == |texts|
  {
    seq(|texts|, i requires 0 <= i < |texts| => Operation(Insert, p, texts[i], 0, users[i], v))
  }

  /** The texts in reverse order of arrival. */
  function LastFirst(texts: seq<string>): string
    decreases |texts|
  {
    if texts == [] then "" else texts[|texts| - 1] + LastFirst(texts[..|texts| - 1])
  }

  lemma {:induction false} RebaseOverTies(op: Operation, history: seq<Operation>)
    requires op.kind.Insert?
    requires forall h | h in history :: h.kind.Insert? && h.position == op.position
    ensures Rebase(op, history) == op
    decreases |history|
  {
    if history != [] {
      RebaseOverTies(op, history[1..]);
    }
  }

  /** Everything logged after the first `v` operations inserts at position `p`. */
  ghost predicate LogInsertsAt(content: string, subs: seq<Operation>, v: nat, p: int) {
    && v <= |subs|
    && forall h | h in Log(content, subs)[v..] :: h.kind.Insert? && h.position == p
  }

  lemma {:induction false} TieStep(content: string, run: seq<Operation>, op: Operation)
    requires op.kind.Insert? && 0 <= op.revision <= |run| <= HISTORY_LIMIT
    requires LogInsertsAt(content, run, op.revision, op.position)
    ensures LogInsertsAt(content, run + [op], op.revision, op.position)
    ensures Run(content, run + [op]).content == Apply(Run(content, run).content, op)
  {
    LogAppends(content, run, op);
    IntegratedIsRebased(content, run, op);
    RebaseOverTies(op, Missed(content, run, op));
    var o := Integrated(Run(content, run), op);
    assert Log(content, run + [op])[op.revision..] == Log(content, run)[op.revision..] + [o];
    SameEdit(Run(content, run).content, o, op);
  }

  /** The submissions `subs` followed by the concurrent insertions. */
  function TieRun(subs: seq<Operation>, p: int, texts: seq<string>, users: seq<string>): seq<Operation>
    requires |texts| == |users|
  {
    subs + Ties(p, |subs|, texts, users)
  }

  lemma TieRunGrows(subs: seq<Operation>, p: int, texts: seq<string>, users: seq<string>)
    requires |texts| == |users| > 0
    ensures var n := |texts| - 1;
            TieRun(subs, p, texts, users)
            == TieRun(subs, p, texts[..n], users[..n]) + [Operation(Insert, p, texts[n], 0, users[n], |subs|)]
  {
  }

  lemma {:induction false} TiesInsertAt(content: string, subs: seq<Operation>, p: int, texts: seq<string>,
                                        users: seq<string>)
    requires |texts| == |users| && |subs| + |texts| <= HISTORY_LIMIT + 1
    ensures LogInsertsAt(content, TieRun(subs, p, texts, users), |subs|, p)
    decreases |texts|
  {
    if texts == [] {
      assert TieRun(subs, p, texts, users) == subs;
    } else {
      var n := |texts| - 1;
      TiesInsertAt(content, subs, p, texts[..n], users[..n]);
      TieStep(content, TieRun(subs, p, texts[..n], users[..n]), Operation(Insert, p, texts[n], 0, users[n], |subs|));
      TieRunGrows(subs, p, texts, users);
    }
  }

  /** Tie order: concurrent insertions at one position appear in reverse order of arrival. */
  lemma {:induction false} TiesLandLastFirst(content: string, subs: seq<Operation>, p: int, texts: seq<string>,
                                             users: seq<string>)
    requires |texts| == |users| && |subs| + |texts| <= HISTORY_LIMIT + 1
    requires 0 <= p <= |Run(content, subs).content|
    ensures var before := Run(content, subs).content;
            Run(content, TieRun(subs, p, texts, users)).content == before[..p] + LastFirst(texts) + before[p..]
    decreases |texts|
  {
    var before := Run(content, subs).content;
    if texts == [] {
      assert TieRun(subs, p, texts, users) == subs;
    } else {
      var n := |texts| - 1;
      TiesLandLastFirst(content, subs, p, texts[..n], users[..n]);
      TiesInsertAt(content, subs, p, texts[..n], users[..n]);
      TieStep(content, TieRun(subs, p, texts[..n], users[..n]), Operation(Insert, p, texts[n], 0, users[n], |subs|));
      SpliceInFront(before, p, LastFirst(texts[..n]), texts[n]);
      TieRunGrows(subs, p, texts, users);
    }
  }

  lemma SpliceInFront(s: string, p: int, t: string, u: string)
    requires 0 <= p <= |s|
    ensures var d := s[..p] + t + s[p..];
            Take(d, p) + u + Drop(d, p) == s[..p] + (u + t) + s[p..]
  {
  }

  // ----- What trimming costs -----

  /** Every submission made on revision `v` after a run of `r` submissions converges as
      `SubmitConverges` says, if it is proper and meets only handled pairs. */
  ghost predicate AllConverge(r: nat, v: nat) {
    forall content: string, subs: seq<Operation>, op: Operation |
      && |subs| == r && op.revision == v && Proper(content, subs, op)
      && FitsAll(content, Log(content, subs)) && Reconcilable(op, Missed(content, subs, op)) ::
      Run(content, subs + [op]).content == AuthorsText(content, subs, op)
  }

  /** The text of the author of `op` after applying it and then, shifted, all he had missed. */
  function AuthorsText(content: string, subs: seq<Operation>, op: Operation): string
    requires 0 <= op.revision <= |subs|
  {
    ApplyAll(Apply(Snapshot(content, subs, op.revision), op), Shifted(op, Missed(content, subs, op)))
  }

  /** One user types `n` characters at the front, each on the current revision. */
  function Typing(n: nat): (ops: seq<Operation>)
    ensures |ops| == n
  {
    seq(n, i requires 0 <= i < n => Keystroke(i))
  }

  function Keystroke(revision: nat): Operation {
    Operation(Insert, 0, "a", 0, "u", revision)
  }

  function Typed(n: nat): (text: string)
    ensures |text| == n
  {
    seq(n, _ => 'a')
  }

  predicate Keystrokes(ops: seq<Operation>) {
    forall i :: 0 <= i < |ops| ==> ops[i].(revision := 0) == Keystroke(0)
  }

  lemma TypingGrows(n: nat)
    ensures Typing(n + 1) == Typing(n) + [Keystroke(n)]
  {
  }

  lemma {:induction false} TypingLogsKeystrokes(content: string, n: nat)
    ensures Keystrokes(Log(content, Typing(n)))
  {
    if n > 0 {
      TypingLogsKeystrokes(content, n - 1);
      TypingGrows(n - 1);
      HistoryIsLogSuffix(content, Typing(n - 1));
      LogAppends(content, Typing(n - 1), Keystroke(n - 1));
    }
  }

  /** Keystrokes put their characters in front of any text. */
  lemma {:induction false} KeystrokesPrepend(text: string, ops: seq<Operation>)
    requires Keystrokes(ops)
    ensures ApplyAll(text, ops) == Typed(|ops|) + text
    ensures FitsAll(text, ops)
    decreases |ops|
  {
    if ops == [] {
      assert Typed(0) + text == text;
    } else {
      assert ops[0].content == "a" && ops[0].position == 0;
      assert Apply(text, ops[0]) == "a" + text;
      KeystrokesPrepend("a" + text, ops[1..]);
      assert Typed(|ops| - 1) + ("a" + text) == Typed(|ops|) + text;
    }
  }

  /** The second user inserts behind the first character he sees. */
  function LateInsert(revision: nat): Operation {
    Operation(Insert, 1, "b", 0, "v", revision)
  }

  function Pushed(op: Operation, n: nat): Operation {
    op.(position := op.position + n)
  }

  lemma {:induction false} KeystrokesPush(op: Operation, ops: seq<Operation>)
    requires Keystrokes(ops) && op.kind.Insert? && op.position > 0 && op.length == 0
    ensures Rebase(op, ops) == Pushed(op, |ops|)
    ensures Shifted(op, ops) == ops && Reconcilable(op, ops)
    decreases |ops|
  {
    if ops != [] {
      assert ops[0].content == "a" && ops[0].position == 0 && ops[0].kind.Insert?;
      assert Transform(op, ops[0]) == (Pushed(op, 1), ops[0]);
      KeystrokesPush(Pushed(op, 1), ops[1..]);
    }
  }

  /** The revision `v` of the typing run on the text `a`, and what its later reader missed. */
  lemma TypingFacts(r: nat, v: nat)
    requires v <= r
    ensures var subs, op := Typing(r), LateInsert(v);
            && Keystrokes(Log("a", subs)) && |Missed("a", subs, op)| == r - v
            && Snapshot("a", subs, v) == Typed(v + 1) && Run("a", subs).content == Typed(r + 1)
            && Proper("a", subs, op) && FitsAll("a", Log("a", subs)) && Reconcilable(op, Missed("a", subs, op))
  {
    var log := Log("a", Typing(r));
    TypingLogsKeystrokes("a", r);
    KeystrokesPrepend("a", log);
    KeystrokesPrepend("a", log[..v]);
    HistoryIsLogSuffix("a", Typing(r));
    assert Typed(v) + "a" == Typed(v + 1) && Typed(r) + "a" == Typed(r + 1);
    KeystrokesPush(LateInsert(v), log[v..]);
  }

  lemma InsertIntoTyped(n: nat, op: Operation)
    requires op.kind.Insert? && op.content == "b" && 0 <= op.position <= n
    ensures Apply(Typed(n), op) == Typed(op.position) + "b" + Typed(n - op.position)
  {
  }

  lemma AuthorsTextIs(r: nat, v: nat)
    requires v <= r
    ensures AuthorsText("a", Typing(r), LateInsert(v)) == Typed(r - v + 1) + "b" + Typed(v)
  {
    var missed := Missed("a", Typing(r), LateInsert(v));
    TypingFacts(r, v);
    InsertIntoTyped(v + 1, LateInsert(v));
    KeystrokesPush(LateInsert(v), missed);
    KeystrokesPrepend(Typed(1) + "b" + Typed(v), missed);
    TypedInFront(r - v, 1, "b" + Typed(v));
    assert Typed(1) + "b" + Typed(v) == Typed(1) + ("b" + Typed(v));
  }

  lemma TypedInFront(m: nat, n: nat, text: string)
    ensures Typed(m) + (Typed(n) + text) == Typed(m + n) + text
  {
  }

  lemma SubmitPushes(d: Document, op: Operation)
    requires op.revision < d.revision && op.kind.Insert? && op.position > 0 && op.length == 0
    requires Keystrokes(Drop(d.history, op.revision))
    ensures Submit(d, op).content == Apply(d.content, Pushed(op, |Drop(d.history, op.revision)|))
  {
    var slice := Drop(d.history, op.revision);
    KeystrokesPush(op, slice);
    SameEdit(d.content, Integrated(d, op), Pushed(op, |slice|));
  }

  lemma SliceIsWhole(log: seq<Operation>, v: nat, n: nat)
    requires v <= |log| && n <= |log| - v
    ensures log[|log| - n..] == log[v..] <==> n == |log| - v
  {
    assert |log[v..]| == |log| - v && |log[|log| - n..]| == n;
  }

  lemma SliceOfTyping(r: nat, v: nat) returns (n: nat)
    requires v < r
    ensures n == |Drop(Run("a", Typing(r)).history, v)| && n <= r - v
    ensures n == r - v <==> r <= HISTORY_LIMIT
    ensures Keystrokes(Drop(Run("a", Typing(r)).history, v))
  {
    var subs := Typing(r);
    n := |Drop(Run("a", subs).history, v)|;
    CatchUpSliceIsMissedIffUntrimmed("a", subs, v);
    TypingLogsKeystrokes("a", r);
    SliceIsWhole(Log("a", subs), v, n);
  }

  lemma LateSubmit(d: Document, r: nat, v: nat, n: nat)
    requires v < r == d.revision && d.content == Typed(r + 1)
    requires n == |Drop(d.history, v)| && n <= r - v && Keystrokes(Drop(d.history, v))
    ensures Submit(d, LateInsert(v)).content == Typed(n + 1) + "b" + Typed(r - n)
  {
    SubmitPushes(d, LateInsert(v));
    InsertIntoTyped(r + 1, Pushed(LateInsert(v), n));
  }

  lemma TypingText(r: nat)
    ensures Run("a", Typing(r)).content == Typed(r + 1) && Run("a", Typing(r)).revision == r
  {
    TypingFacts(r, r);
    HistoryIsLogSuffix("a", Typing(r));
  }

  /** The server pushes the insertion past as many keystrokes as the slice still holds. */
  lemma ServersTextIs(r: nat, v: nat, n: nat)
    requires v < r && n == |Drop(Run("a", Typing(r)).history, v)| && n <= r - v
    requires Keystrokes(Drop(Run("a", Typing(r)).history, v))
    ensures Run("a", Typing(r) + [LateInsert(v)]).content == Typed(n + 1) + "b" + Typed(r - n)
  {
    TypingText(r);
    LateSubmit(Run("a", Typing(r)), r, v, n);
    LogAppends("a", Typing(r), LateInsert(v));
  }

  lemma SameTextsIff(m: nat, n: nat, x: nat, y: nat)
    requires m <= n && m + x == n + y
    ensures Typed(m) + "b" + Typed(x) == Typed(n) + "b" + Typed(y) <==> m == n
  {
    if m < n {
      assert (Typed(m) + "b" + Typed(x))[m] == 'b';
      assert (Typed(n) + "b" + Typed(y))[m] == 'a';
    }
  }

  /** At every revision and every lag, the late insertion into the typing run converges if
      and only if nothing has been trimmed. */
  lemma LateInsertConvergesIffUntrimmed(r: nat, v: nat)
    requires v < r
    ensures Run("a", Typing(r) + [LateInsert(v)]).content == AuthorsText("a", Typing(r), LateInsert(v))
       <==> r <= 1000
  {
    var n := SliceOfTyping(r, v);
    ServersTextIs(r, v, n);
    AuthorsTextIs(r, v);
    SameTextsIff(n + 1, r - v + 1, r - n, v);
  }

  /** Convergence under trimming, exactly: submissions made on revision `v` after `r`
      submissions all converge if and only if the log is untrimmed or `v` is current. */
  lemma AllConvergeIffUntrimmedOrCurrent(r: nat, v: nat)
    requires v <= r
    ensures AllConverge(r, v) <==> r <= 1000 || v == r
  {
    if r <= HISTORY_LIMIT || v == r {
      forall content: string, subs: seq<Operation>, op: Operation |
        && |subs| == r && op.revision == v && Proper(content, subs, op)
        && FitsAll(content, Log(content, subs)) && Reconcilable(op, Missed(content, subs, op))
        ensures Run(content, subs + [op]).content == AuthorsText(content, subs, op)
      {
        SubmitConverges(content, subs, op);
      }
    } else {
      TypingFacts(r, v);
      LateInsertConvergesIffUntrimmed(r, v);
    }
  }
}
