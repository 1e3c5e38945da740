/**
 Broadcasting when a fixed set of participants is unreachable: the exact sequence of
 broadcasts, and how many there are.
 */
module DeadParticipants {
  import opened OrderedDict
  import opened Broadcast
  import opened BroadcastOutcome
  import opened Sets

  /** The network on which every send to a user in `dead` fails and every other arrives. */
  function Unreachable(dead: set<string>): Network {
    (n, u) => u in dead
  }

  /** The dead among the participants, in order of connection. */
  function DeadAmong(conns: Dict<Socket>, dead: set<string>): seq<string> {
    if conns == [] then []
    else if conns[0].0 in dead then [conns[0].0] + DeadAmong(conns[1..], dead)
    else DeadAmong(conns[1..], dead)
  }

  function Minus(users: seq<string>, userId: string): seq<string> {
    if users == [] then []
    else if users[0] == userId then Minus(users[1..], userId)
    else [users[0]] + Minus(users[1..], userId)
  }

  function Skipping(users: seq<string>, exclude: Option<string>): seq<string> {
    if exclude.Some? then Minus(users, exclude.value) else users
  }

  ghost predicate NoRepeats(users: seq<string>) {
    users == [] || (users[0] !in users[1..] && NoRepeats(users[1..]))
  }

  /** One broadcast for every user who is gone already when his turn to leave comes. */
  function LateDepartures(users: seq<string>): seq<Message> {
    seq(|users|, i requires 0 <= i < |users| => UserLeft(users[i], UNKNOWN))
  }

  /** The departures after a broadcast that failed for the users `failed` among the dead
      participants `dead`: the first one to leave uncovers all the others, and those of
      them that are still on the list leave once more under an unknown name. */
  function Cascade(cursors: Dict<CursorPosition>, dead: seq<string>, failed: seq<string>): seq<Message>
    requires forall u :: u in failed ==> u in dead
    decreases |dead|
  {
    if failed == [] then []
    else
      var rest := Minus(dead, failed[0]);
      MinusShrinks(dead, failed[0]);
      [UserLeft(failed[0], NameOf(cursors, failed[0]))] + Cascade(cursors, rest, rest) + LateDepartures(failed[1..])
  }

  lemma {:induction false} MinusShrinks(users: seq<string>, userId: string)
    ensures |Minus(users, userId)| <= |users|
    ensures userId in users ==> |Minus(users, userId)| < |users|
    ensures Elements(Minus(users, userId)) == Elements(users) - {userId}
  {
    if users != [] {
      MinusShrinks(users[1..], userId);
      assert Elements(users) == {users[0]} + Elements(users[1..]);
      if users[0] != userId {
        assert Elements(Minus(users, userId)) == {users[0]} + Elements(Minus(users[1..], userId));
      }
    }
  }

  lemma {:induction false} MinusExact(users: seq<string>, userId: string)
    requires NoRepeats(users)
    ensures NoRepeats(Minus(users, userId))
    ensures |Minus(users, userId)| == if userId in users then |users| - 1 else |users|
    ensures userId !in users ==> Minus(users, userId) == users
  {
    if users != [] {
      MinusExact(users[1..], userId);
      MinusShrinks(users[1..], userId);
      if users[0] != userId {
        assert Minus(users, userId)[1..] == Minus(users[1..], userId);
        assert users[0] !in Elements(Minus(users[1..], userId));
      }
    }
  }

  lemma {:induction false} MinusHead(users: seq<string>)
    requires users != [] && NoRepeats(users)
    ensures Minus(users, users[0]) == users[1..]
  {
    MinusExact(users[1..], users[0]);
  }

  lemma {:induction false} DeadAmongFacts(conns: Dict<Socket>, dead: set<string>)
    requires Distinct(conns)
    ensures Elements(DeadAmong(conns, dead)) == KeySet(conns) * dead
    ensures NoRepeats(DeadAmong(conns, dead))
  {
    if conns != [] {
      KeySetHead(conns);
      DeadAmongFacts(conns[1..], dead);
      if conns[0].0 in dead {
        var tail := DeadAmong(conns[1..], dead);
        assert DeadAmong(conns, dead)[1..] == tail;
        assert Elements(DeadAmong(conns, dead)) == {conns[0].0} + Elements(tail);
        assert conns[0].0 !in Elements(tail);
      }
    }
  }

  lemma {:induction false} DeadAmongPop(conns: Dict<Socket>, dead: set<string>, userId: string)
    ensures DeadAmong(Pop(conns, userId), dead) == Minus(DeadAmong(conns, dead), userId)
  {
    if conns != [] {
      DeadAmongPop(conns[1..], dead, userId);
      if conns[0].0 != userId {
        assert Pop(conns, userId)[1..] == Pop(conns[1..], userId);
      }
      if conns[0].0 in dead {
        assert DeadAmong(conns, dead)[1..] == DeadAmong(conns[1..], dead);
      }
    }
  }

  lemma SkippingCons(userId: string, users: seq<string>, exclude: Option<string>)
    ensures Skipping([userId] + users, exclude)
         == if exclude == Some(userId) then Skipping(users, exclude) else [userId] + Skipping(users, exclude)
  {
  }

  /** A pass fails for exactly the dead participants it does not skip. */
  lemma {:induction false} PassFailsForDead(dead: set<string>, conns: Dict<Socket>, message: Message,
                                            exclude: Option<string>, n: nat)
    ensures Pass(Unreachable(dead), conns, message, exclude, n).1 == Skipping(DeadAmong(conns, dead), exclude)
    decreases |conns|
  {
    if conns != [] {
      var u := conns[0].0;
      var (event, failed) := Attempt(Unreachable(dead), n, u, conns[0].1, message, exclude);
      var more := Pass(Unreachable(dead), conns[1..], message, exclude, n + |event|).1;
      PassFailsForDead(dead, conns[1..], message, exclude, n + |event|);
      assert failed == if u in dead && exclude != Some(u) then [u] else [];
      assert [] + more == more;
      SkippingCons(u, DeadAmong(conns[1..], dead), exclude);
    }
  }

  lemma {:induction false} FirstPassOnDead(dead: set<string>, hub: Hub, message: Message, exclude: Option<string>)
    requires Distinct(hub.connections)
    ensures var (first, failed, mid) := FirstPass(Unreachable(dead), hub, message, exclude);
            && failed == Skipping(DeadAmong(hub.connections, dead), exclude)
            && Rounds(mid.wire) == Rounds(hub.wire) + [message]
  {
    var (pass, failed) := Pass(Unreachable(dead), hub.connections, message, exclude, |hub.wire| + 1);
    PassFailsForDead(dead, hub.connections, message, exclude, |hub.wire| + 1);
    PassOutcome(Unreachable(dead), hub.connections, message, exclude, |hub.wire| + 1);
    PassRelays(hub.connections, message, exclude, pass, failed);
    EventsAppend(hub.wire, [Round(message)] + pass);
  }

  lemma NoElements(users: seq<string>)
    ensures Elements(users) == {} <==> users == []
  {
    if users != [] {
      assert users[0] in Elements(users);
    }
  }

  /** With nobody dead among the participants a broadcast is one round and changes nothing. */
  lemma {:induction false} QuietBroadcast(dead: set<string>, hub: Hub, message: Message, exclude: Option<string>)
    requires Distinct(hub.connections) && KeySet(hub.connections) !! dead
    ensures var hub' := BroadcastToSession(Unreachable(dead), hub, message, exclude);
            && hub' == hub.(wire := hub'.wire)
            && Rounds(hub'.wire) == Rounds(hub.wire) + [message]
  {
    DeadAmongFacts(hub.connections, dead);
    NoElements(DeadAmong(hub.connections, dead));
    FirstPassOnDead(dead, hub, message, exclude);
    BroadcastIsPassThenLeave(Unreachable(dead), hub, message, exclude);
  }

  lemma DepartedAbsent(hub: Hub, u: string)
    requires u !in KeySet(hub.connections) && u !in KeySet(hub.cursors) && u !in hub.userSessions
    ensures Departed(hub, u) == hub && NameOf(hub.cursors, u) == UNKNOWN
  {
    WithoutNone(hub.connections, {u});
    WithoutNone(hub.cursors, {u});
    LookupIffKey(hub.cursors, u);
    assert hub.userSessions - {u} == hub.userSessions;
  }

  /** Somebody who is gone already leaves once more. */
  lemma {:induction false} QuietLeave(dead: set<string>, hub: Hub, u: string)
    requires Distinct(hub.connections) && KeySet(hub.connections) !! dead
    requires u !in KeySet(hub.connections) && u !in KeySet(hub.cursors) && u !in hub.userSessions
    ensures var hub' := LeaveSession(Unreachable(dead), hub, u);
            && hub' == hub.(wire := hub'.wire)
            && Rounds(hub'.wire) == Rounds(hub.wire) + [UserLeft(u, UNKNOWN)]
  {
    DepartedAbsent(hub, u);
    QuietBroadcast(dead, hub, UserLeft(u, UNKNOWN), Some(u));
  }

  lemma {:induction false} QuietLeaves(dead: set<string>, hub: Hub, users: seq<string>, present: set<string>)
    requires Distinct(hub.connections) && KeySet(hub.connections) !! dead
    requires KeySet(hub.connections) <= present && forall u :: u in users ==> u in present
    requires forall u :: u in users ==>
      u !in KeySet(hub.connections) && u !in KeySet(hub.cursors) && u !in hub.userSessions
    ensures var hub' := LeaveAll(Unreachable(dead), hub, users, present);
            && hub' == hub.(wire := hub'.wire)
            && Rounds(hub'.wire) == Rounds(hub.wire) + LateDepartures(users)
    decreases |users|
  {
    if users != [] {
      var u := users[0];
      QuietLeave(dead, hub, u);
      QuietLeaves(dead, LeaveSession(Unreachable(dead), hub, u), users[1..], present);
      assert LateDepartures(users) == [UserLeft(u, UNKNOWN)] + LateDepartures(users[1..]);
    }
  }

  /** The users who are gone after the broadcast. */
  function Casualties(dead: seq<string>, failed: seq<string>): set<string> {
    if failed == [] then {} else Elements(dead)
  }

  lemma {:induction false} CascadeKeepsNames(cursors: Dict<CursorPosition>, gone: string, dead: seq<string>,
                                             failed: seq<string>)
    requires gone !in dead && forall u :: u in failed ==> u in dead
    ensures Cascade(Pop(cursors, gone), dead, failed) == Cascade(cursors, dead, failed)
    decreases |dead|
  {
    if failed != [] {
      LookupWithout(cursors, {gone}, failed[0]);
      MinusShrinks(dead, failed[0]);
      assert gone !in Elements(Minus(dead, failed[0]));
      CascadeKeepsNames(cursors, gone, Minus(dead, failed[0]), Minus(dead, failed[0]));
    }
  }

  lemma SkippingShrinks(users: seq<string>, exclude: Option<string>)
    ensures forall u :: u in Skipping(users, exclude) ==> u in users
  {
    if exclude.Some? {
      MinusShrinks(users, exclude.value);
      forall u | u in Skipping(users, exclude) ensures u in users {
        assert u in Elements(Minus(users, exclude.value));
        assert u in Elements(users);
      }
    }
  }

  /** The exact course of a broadcast with a fixed set of dead participants. */
  lemma {:induction false} BroadcastOverDead(dead: set<string>, hub: Hub, message: Message, exclude: Option<string>)
    requires Distinct(hub.connections)
    ensures var gone := DeadAmong(hub.connections, dead);
            var failed := Skipping(gone, exclude);
            var hub' := BroadcastToSession(Unreachable(dead), hub, message, exclude);
            && (forall u :: u in failed ==> u in gone)
            && Cleared(hub, hub', Casualties(gone, failed))
            && Rounds(hub'.wire) == Rounds(hub.wire) + ([message] + Cascade(hub.cursors, gone, failed))
    decreases |DeadAmong(hub.connections, dead)|, 2
  {
    var gone := DeadAmong(hub.connections, dead);
    var (first, failed, mid) := FirstPass(Unreachable(dead), hub, message, exclude);
    SkippingShrinks(gone, exclude);
    FirstPassOnDead(dead, hub, message, exclude);
    BroadcastIsPassThenLeave(Unreachable(dead), hub, message, exclude);
    if failed == [] {
      ClearedNobody(hub, mid.wire);
    } else {
      LeavesOverDead(dead, mid, failed, KeySet(hub.connections));
    }
  }

  /** All the failed participants leave in turn; the first of them takes the others along. */
  lemma {:induction false} LeavesOverDead(dead: set<string>, hub: Hub, failed: seq<string>, present: set<string>)
    requires Distinct(hub.connections)
    requires failed != [] && forall u :: u in failed ==> u in DeadAmong(hub.connections, dead)
    requires KeySet(hub.connections) <= present && forall u :: u in failed ==> u in present
    ensures var gone := DeadAmong(hub.connections, dead);
            var hub' := LeaveAll(Unreachable(dead), hub, failed, present);
            && Cleared(hub, hub', Elements(gone))
            && Rounds(hub'.wire) == Rounds(hub.wire) + Cascade(hub.cursors, gone, failed)
    decreases |DeadAmong(hub.connections, dead)|, 1
  {
    var gone := DeadAmong(hub.connections, dead);
    var u := failed[0];
    var left := Departed(hub, u);
    var after := LeaveSession(Unreachable(dead), hub, u);
    FirstDepartureOverDead(dead, hub, u);
    QuietAfterwards(dead, hub, after, failed[1..]);
    QuietLeaves(dead, after, failed[1..], present);
  }

  /** Once all the dead are gone, those still on the list are strangers. */
  lemma {:induction false} QuietAfterwards(dead: set<string>, hub: Hub, after: Hub, users: seq<string>)
    requires Distinct(hub.connections)
    requires Cleared(hub, after, Elements(DeadAmong(hub.connections, dead)))
    requires forall u :: u in users ==> u in DeadAmong(hub.connections, dead)
    ensures Distinct(after.connections) && KeySet(after.connections) !! dead
    ensures KeySet(after.connections) <= KeySet(hub.connections)
    ensures forall u :: u in users ==>
      u !in KeySet(after.connections) && u !in KeySet(after.cursors) && u !in after.userSessions
  {
    var gone := Elements(DeadAmong(hub.connections, dead));
    DeadAmongFacts(hub.connections, dead);
    WithoutDistinct(hub.connections, gone);
    WithoutKeys(hub.connections, gone);
    WithoutKeys(hub.cursors, gone);
    assert forall u :: u in users ==> u in gone;
  }

  /** The first departure after a failed broadcast uncovers all the other dead. */
  lemma {:induction false} FirstDepartureOverDead(dead: set<string>, hub: Hub, u: string)
    requires Distinct(hub.connections) && u in DeadAmong(hub.connections, dead)
    ensures var gone := DeadAmong(hub.connections, dead);
            var after := LeaveSession(Unreachable(dead), hub, u);
            && Cleared(hub, after, Elements(gone))
            && Rounds(after.wire) == Rounds(hub.wire)
               + ([UserLeft(u, NameOf(hub.cursors, u))] + Cascade(hub.cursors, Minus(gone, u), Minus(gone, u)))
    decreases |DeadAmong(hub.connections, dead)|, 0
  {
    var gone := DeadAmong(hub.connections, dead);
    var rest := Minus(gone, u);
    var left := Departed(hub, u);
    DeadAmongFacts(hub.connections, dead);
    DeadAmongPop(hub.connections, dead, u);
    MinusShrinks(gone, u);
    MinusExact(gone, u);
    assert u !in Elements(rest);
    MinusExact(rest, u);
    WithoutDistinct(hub.connections, {u});
    BroadcastOverDead(dead, left, UserLeft(u, NameOf(hub.cursors, u)), Some(u));
    CascadeKeepsNames(hub.cursors, u, rest, rest);
    assert Casualties(rest, rest) == Elements(rest);
    ClearedTwice(hub, left, LeaveSession(Unreachable(dead), hub, u), {u}, Elements(rest));
    assert {u} + Elements(rest) == Elements(gone);
  }

  lemma {:induction false} CascadeCount(cursors: Dict<CursorPosition>, dead: seq<string>)
    requires NoRepeats(dead)
    ensures 2 * |Cascade(cursors, dead, dead)| == |dead| * (|dead| + 1)
    decreases |dead|
  {
    if dead != [] {
      MinusHead(dead);
      CascadeCount(cursors, dead[1..]);
    }
  }

  lemma {:induction false} OthersCount(cursors: Dict<CursorPosition>, dead: seq<string>, others: seq<string>)
    requires NoRepeats(dead) && |others| == |dead| - 1 && forall u :: u in others ==> u in dead
    ensures 2 * |Cascade(cursors, dead, others)| == |others| * (|others| + 3)
  {
    if others != [] {
      var rest := Minus(dead, others[0]);
      MinusExact(dead, others[0]);
      CascadeCount(cursors, rest);
      assert |others| * (|others| + 3) == |others| * (|others| + 1) + 2 * |others|;
    }
  }

  /** The departures announced under a name. */
  function Named(messages: seq<Message>): nat {
    if messages == [] then 0
    else (if messages[0].UserLeft? && messages[0].username != UNKNOWN then 1 else 0) + Named(messages[1..])
  }

  lemma {:induction false} NamedAppends(a: seq<Message>, b: seq<Message>)
    ensures Named(a + b) == Named(a) + Named(b)
  {
    if a == [] {
      assert a + b == b;
    } else {
      assert (a + b)[1..] == a[1..] + b;
      NamedAppends(a[1..], b);
    }
  }

  lemma {:induction false} LateDeparturesUnnamed(users: seq<string>)
    ensures Named(LateDepartures(users)) == 0
  {
    if users != [] {
      LateDeparturesUnnamed(users[1..]);
      assert LateDepartures(users)[1..] == LateDepartures(users[1..]);
    }
  }

  /** How many of the users have a cursor with a name of its own. */
  function Known(cursors: Dict<CursorPosition>, users: seq<string>): (n: nat)
    ensures n <= |users|
    ensures (forall u :: u in users ==> NameOf(cursors, u) != UNKNOWN) ==> n == |users|
  {
    if users == [] then 0
    else Known(cursors, users[1..]) + if NameOf(cursors, users[0]) != UNKNOWN then 1 else 0
  }

  lemma {:induction false} KnownMinus(cursors: Dict<CursorPosition>, users: seq<string>, userId: string)
    requires NoRepeats(users) && userId in users
    ensures Known(cursors, users)
         == Known(cursors, Minus(users, userId)) + if NameOf(cursors, userId) != UNKNOWN then 1 else 0
  {
    if users[0] == userId {
      MinusHead(users);
    } else {
      KnownMinus(cursors, users[1..], userId);
      assert Minus(users, userId)[1..] == Minus(users[1..], userId);
    }
  }

  lemma {:induction false} CascadeNamed(cursors: Dict<CursorPosition>, dead: seq<string>, failed: seq<string>)
    requires NoRepeats(dead) && forall u :: u in failed ==> u in dead
    ensures Named(Cascade(cursors, dead, failed)) == if failed == [] then 0 else Known(cursors, dead)
    decreases |dead|
  {
    if failed != [] {
      var u := failed[0];
      var rest := Minus(dead, u);
      KnownMinus(cursors, dead, u);
      MinusShrinks(dead, u);
      MinusExact(dead, u);
      forall v | v in rest ensures v in dead {
        assert v in Elements(rest);
      }
      CascadeNamed(cursors, rest, rest);
      LateDeparturesUnnamed(failed[1..]);
      var first := [UserLeft(u, NameOf(cursors, u))];
      NamedAppends(first + Cascade(cursors, rest, rest), LateDepartures(failed[1..]));
      NamedAppends(first, Cascade(cursors, rest, rest));
    }
  }

  /** With `k` dead participants, none of them excluded, a broadcast ends with exactly the
      dead removed, after `k(k+1)/2` departure rounds. Each of them is named in exactly one
      round, if his cursor has a name other than the placeholder: then `k` carry a name. */
  lemma {:induction false} DeadAreRemoved(dead: set<string>, hub: Hub, message: Message, exclude: Option<string>)
    requires Distinct(hub.connections)
    requires exclude.Some? ==> exclude.value !in DeadAmong(hub.connections, dead)
    ensures var gone := DeadAmong(hub.connections, dead);
            var hub' := BroadcastToSession(Unreachable(dead), hub, message, exclude);
            var departures := Cascade(hub.cursors, gone, gone);
            && Elements(gone) == KeySet(hub.connections) * dead
            && Cleared(hub, hub', Elements(gone))
            && Rounds(hub'.wire) == Rounds(hub.wire) + ([message] + departures)
            && 2 * |departures| == |gone| * (|gone| + 1)
            && Named(departures) == Known(hub.cursors, gone)
  {
    var gone := DeadAmong(hub.connections, dead);
    DeadAmongFacts(hub.connections, dead);
    if exclude.Some? {
      MinusExact(gone, exclude.value);
    }
    BroadcastOverDead(dead, hub, message, exclude);
    assert Casualties(gone, gone) == Elements(gone);
    CascadeNamed(hub.cursors, gone, gone);
    CascadeCount(hub.cursors, gone);
  }

  /** If the excluded user is dead as well, nobody notices unless there are `k > 0` others;
      these uncover him, and there are `k(k+3)/2` departure rounds. */
  lemma {:induction false} DeadExcludedIsUncovered(dead: set<string>, hub: Hub, message: Message, excluded: string)
    requires Distinct(hub.connections)
    requires excluded in DeadAmong(hub.connections, dead)
    ensures var gone := DeadAmong(hub.connections, dead);
            var others := Minus(gone, excluded);
            var hub' := BroadcastToSession(Unreachable(dead), hub, message, Some(excluded));
            && (forall u :: u in others ==> u in gone)
            && var departures := Cascade(hub.cursors, gone, others);
            && |others| == |gone| - 1
            && Cleared(hub, hub', if others == [] then {} else Elements(gone))
            && Rounds(hub'.wire) == Rounds(hub.wire) + ([message] + departures)
            && 2 * |departures| == |others| * (|others| + 3)
            && Named(departures) == if others == [] then 0 else Known(hub.cursors, gone)
  {
    var gone := DeadAmong(hub.connections, dead);
    var others := Minus(gone, excluded);
    DeadAmongFacts(hub.connections, dead);
    MinusExact(gone, excluded);
    SkippingShrinks(gone, Some(excluded));
    BroadcastOverDead(dead, hub, message, Some(excluded));
    CascadeNamed(hub.cursors, gone, others);
    OthersCount(hub.cursors, gone, others);
  }
}
