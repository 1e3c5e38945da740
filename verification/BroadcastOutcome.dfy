/** What a broadcast achieves on an arbitrary network. */
module BroadcastOutcome {
  import opened OrderedDict
  import opened Broadcast
  import opened Sets

  /** The messages of the broadcasts, in order. */
  function Rounds(events: seq<Event>): seq<Message> {
    if events == [] then []
    else if events[0].Round? then [events[0].message] + Rounds(events[1..])
    else Rounds(events[1..])
  }

  /** The messages that arrived at a user's socket, in order. */
  function Received(events: seq<Event>, userId: string, socket: Socket): seq<Message> {
    if events == [] then []
    else if events[0].Sent? && events[0].userId == userId && events[0].socket == socket
    then [events[0].message] + Received(events[1..], userId, socket)
    else Received(events[1..], userId, socket)
  }

  /** The users to whom a send failed. */
  function Failures(events: seq<Event>): set<string> {
    if events == [] then {}
    else if events[0].Failed? then {events[0].userId} + Failures(events[1..])
    else Failures(events[1..])
  }

  lemma {:induction false} EventsAppend(a: seq<Event>, b: seq<Event>)
    ensures Rounds(a + b) == Rounds(a) + Rounds(b)
    ensures Failures(a + b) == Failures(a) + Failures(b)
    decreases |a|
  {
    if a == [] {
      assert a + b == b;
    } else {
      assert (a + b)[1..] == a[1..] + b;
      EventsAppend(a[1..], b);
    }
  }

  lemma {:induction false} ReceivedAppends(a: seq<Event>, b: seq<Event>, userId: string, socket: Socket)
    ensures Received(a + b, userId, socket) == Received(a, userId, socket) + Received(b, userId, socket)
    decreases |a|
  {
    if a == [] {
      assert a + b == b;
    } else {
      assert (a + b)[1..] == a[1..] + b;
      ReceivedAppends(a[1..], b, userId, socket);
    }
  }

  ghost predicate AllLeft(messages: seq<Message>) {
    forall i | 0 <= i < |messages| :: messages[i].UserLeft?
  }

  /** `after` is `before` with the users `gone` removed everywhere. */
  ghost predicate Cleared(before: Hub, after: Hub, gone: set<string>) {
    && after.connections == Without(before.connections, gone)
    && after.cursors == Without(before.cursors, gone)
    && after.userSessions == before.userSessions - gone
  }

  /** Every participant outside `gone` received every round, except that `skipped` did not
      get the first one. */
  ghost predicate Relayed(conns: Dict<Socket>, events: seq<Event>, gone: set<string>, skipped: Option<string>) {
    forall e | e in conns && e.0 !in gone ::
      Received(events, e.0, e.1)
      == if skipped == Some(e.0) && Rounds(events) != [] then Rounds(events)[1..] else Rounds(events)
  }

  /** The outcome of one pass of sends. */
  ghost predicate Passed(conns: Dict<Socket>, message: Message, exclude: Option<string>,
                         events: seq<Event>, failed: seq<string>) {
    && Rounds(events) == []
    && Failures(events) == Elements(failed) <= KeySet(conns)
    && (exclude.Some? ==> exclude.value !in failed)
    && (forall e | e in conns && e.0 !in failed ::
          Received(events, e.0, e.1) == if exclude == Some(e.0) then [] else [message])
    && (forall u: string, s: Socket | u !in KeySet(conns) :: Received(events, u, s) == [])
  }

  lemma {:induction false} PassedCons(fails: Network, n: nat, conns: Dict<Socket>, message: Message,
                                      exclude: Option<string>, events: seq<Event>, failed: seq<string>)
    requires conns != [] && Distinct(conns)
    requires Passed(conns[1..], message, exclude, events, failed)
    ensures var (first, f) := Attempt(fails, n, conns[0].0, conns[0].1, message, exclude);
            Passed(conns, message, exclude, first + events, f + failed)
  {
    var (first, f) := Attempt(fails, n, conns[0].0, conns[0].1, message, exclude);
    KeySetHead(conns);
    EventsAppend(first, events);
    assert Elements(f + failed) == Elements(f) + Elements(failed);
    assert Failures(first) == Elements(f);
    forall e | e in conns && e.0 !in f + failed
      ensures Received(first + events, e.0, e.1) == if exclude == Some(e.0) then [] else [message]
    {
      ReceivedAppends(first, events, e.0, e.1);
      if e != conns[0] {
        assert e in conns[1..];
        assert e.0 in KeySet(conns[1..]);
      }
    }
    forall u: string, s: Socket | u !in KeySet(conns)
      ensures Received(first + events, u, s) == []
    {
      ReceivedAppends(first, events, u, s);
    }
  }

  /** The events of a pass of sends that begins after `n` events, and whom it disconnects. */
  function Pass(fails: Network, conns: Dict<Socket>, message: Message, exclude: Option<string>, n: nat)
    : (seq<Event>, seq<string>)
    decreases |conns|
  {
    if conns == [] then ([], [])
    else
      var (event, failed) := Attempt(fails, n, conns[0].0, conns[0].1, message, exclude);
      var (events, more) := Pass(fails, conns[1..], message, exclude, n + |event|);
      (event + events, failed + more)
  }

  lemma {:induction false} SendAllIsPass(fails: Network, conns: Dict<Socket>, message: Message, exclude: Option<string>,
                                         wire: seq<Event>, disconnected: seq<string>)
    ensures var (events, failed) := Pass(fails, conns, message, exclude, |wire|);
            SendAll(fails, conns, message, exclude, wire, disconnected) == (wire + events, disconnected + failed)
    decreases |conns|
  {
    if conns == [] {
      assert wire + [] == wire && disconnected + [] == disconnected;
    } else {
      var (event, failed) := Attempt(fails, |wire|, conns[0].0, conns[0].1, message, exclude);
      SendAllIsPass(fails, conns[1..], message, exclude, wire + event, disconnected + failed);
      var (events, more) := Pass(fails, conns[1..], message, exclude, |wire + event|);
      assert wire + event + events == wire + (event + events);
      assert disconnected + failed + more == disconnected + (failed + more);
    }
  }

  lemma PassedNobody(message: Message, exclude: Option<string>)
    ensures Passed([], message, exclude, [], [])
  {
  }

  lemma PassCons(fails: Network, conns: Dict<Socket>, message: Message, exclude: Option<string>, n: nat)
    requires conns != []
    ensures var (first, f) := Attempt(fails, n, conns[0].0, conns[0].1, message, exclude);
            var (events, failed) := Pass(fails, conns[1..], message, exclude, n + |first|);
            Pass(fails, conns, message, exclude, n) == (first + events, f + failed)
  {
  }

  lemma PassedFirst(fails: Network, conns: Dict<Socket>, message: Message, exclude: Option<string>, n: nat)
    requires conns != [] && Distinct(conns)
    requires var next := n + |Attempt(fails, n, conns[0].0, conns[0].1, message, exclude).0|;
             var (events, failed) := Pass(fails, conns[1..], message, exclude, next);
             Passed(conns[1..], message, exclude, events, failed)
    ensures var (events, failed) := Pass(fails, conns, message, exclude, n);
            Passed(conns, message, exclude, events, failed)
  {
    var next := n + |Attempt(fails, n, conns[0].0, conns[0].1, message, exclude).0|;
    var rest := Pass(fails, conns[1..], message, exclude, next);
    PassedCons(fails, n, conns, message, exclude, rest.0, rest.1);
    PassCons(fails, conns, message, exclude, n);
  }

  lemma {:induction false} DistinctTail(conns: Dict<Socket>)
    requires conns != [] && Distinct(conns)
    ensures Distinct(conns[1..])
  {
  }

  lemma {:induction false} PassOutcome(fails: Network, conns: Dict<Socket>, message: Message,
                                       exclude: Option<string>, n: nat)
    requires Distinct(conns)
    ensures var (events, failed) := Pass(fails, conns, message, exclude, n);
            Passed(conns, message, exclude, events, failed)
    decreases |conns|
  {
    if conns == [] {
      PassedNobody(message, exclude);
    } else {
      var first := Attempt(fails, n, conns[0].0, conns[0].1, message, exclude).0;
      DistinctTail(conns);
      PassOutcome(fails, conns[1..], message, exclude, n + |first|);
      PassedFirst(fails, conns, message, exclude, n);
    }
  }

  lemma ClearedTwice(a: Hub, b: Hub, c: Hub, g: set<string>, h: set<string>)
    requires Cleared(a, b, g) && Cleared(b, c, h)
    ensures Cleared(a, c, g + h)
  {
    WithoutWithout(a.connections, g, h);
    WithoutWithout(a.cursors, g, h);
  }

  lemma ClearedNobody(hub: Hub, wire: seq<Event>)
    ensures Cleared(hub, hub.(wire := wire), {})
  {
    WithoutNone(hub.connections, {});
    WithoutNone(hub.cursors, {});
  }

  /** The rounds of two consecutive stretches of events reach those who stay. */
  lemma {:induction false} RelayedTwice(conns: Dict<Socket>, a: seq<Event>, b: seq<Event>, gone: set<string>,
                                        skipped: Option<string>)
    requires Rounds(a) != [] || skipped == None
    requires Relayed(conns, a, gone, skipped) && Relayed(conns, b, gone, None)
    ensures Relayed(conns, a + b, gone, skipped)
  {
    EventsAppend(a, b);
    forall e | e in conns && e.0 !in gone
      ensures Received(a + b, e.0, e.1)
           == if skipped == Some(e.0) && Rounds(a + b) != [] then Rounds(a + b)[1..] else Rounds(a + b)
    {
      ReceivedAppends(a, b, e.0, e.1);
      RelayedOne(Received(a, e.0, e.1), Rounds(a), Rounds(b), skipped == Some(e.0));
    }
  }

  lemma RelayedOne(received: seq<Message>, a: seq<Message>, b: seq<Message>, skip: bool)
    requires skip ==> a != []
    requires received == if skip then a[1..] else a
    ensures received + b == if skip then (a + b)[1..] else a + b
  {
  }

  /** Fewer participants, more absentees: less to show. */
  lemma RelayedLess(conns: Dict<Socket>, events: seq<Event>, gone: set<string>, more: set<string>,
                    skipped: Option<string>)
    requires Relayed(conns, events, gone, skipped) && gone <= more
    ensures Relayed(conns, events, more, skipped)
  {
  }

  lemma {:induction false} RelayedBefore(conns: Dict<Socket>, events: seq<Event>, g: set<string>, h: set<string>)
    requires Relayed(Without(conns, g), events, h, None)
    ensures Relayed(conns, events, g + h, None)
  {
    WithoutKeys(conns, g);
    forall e | e in conns && e.0 !in g + h
      ensures Received(events, e.0, e.1) == Rounds(events)
    {
      assert e in Without(conns, g);
    }
  }

  /** The outcome of a departure or a series of departures. */
  ghost predicate LeftOutcome(before: Hub, after: Hub, leaving: set<string>, events: seq<Event>) {
    && after.wire == before.wire + events
    && Failures(events) <= KeySet(before.connections)
    && Cleared(before, after, leaving + Failures(events))
    && AllLeft(Rounds(events))
    && Relayed(before.connections, events, leaving + Failures(events), None)
  }

  /** The outcome of a broadcast: exactly the users to whom a send failed are gone, and
      everyone who is still there got every message in order. */
  ghost predicate BroadcastOutcome(before: Hub, after: Hub, message: Message, exclude: Option<string>,
                                   events: seq<Event>) {
    && after.wire == before.wire + events
    && Failures(events) <= KeySet(before.connections)
    && Cleared(before, after, Failures(events))
    && Rounds(events) != [] && Rounds(events)[0] == message && AllLeft(Rounds(events)[1..])
    && Relayed(before.connections, events, Failures(events), exclude)
  }

  /** The first pass of a broadcast: the round is announced and the sends are made. */
  lemma PassRelays(conns: Dict<Socket>, message: Message, exclude: Option<string>, events: seq<Event>,
                   failed: seq<string>)
    requires Passed(conns, message, exclude, events, failed)
    ensures var all := [Round(message)] + events;
            && Rounds(all) == [message]
            && Failures(all) == Elements(failed)
            && Relayed(conns, all, Elements(failed), exclude)
  {
  }

  /** The events of a broadcast's own sends, whom they disconnect, and the hub after them. */
  function FirstPass(fails: Network, hub: Hub, message: Message, exclude: Option<string>)
    : (seq<Event>, seq<string>, Hub)
  {
    var (pass, failed) := Pass(fails, hub.connections, message, exclude, |hub.wire| + 1);
    var first := [Round(message)] + pass;
    (first, failed, hub.(wire := hub.wire + first))
  }

  lemma {:induction false} BroadcastIsPassThenLeave(fails: Network, hub: Hub, message: Message, exclude: Option<string>)
    ensures var (first, failed, mid) := FirstPass(fails, hub, message, exclude);
            && (forall u :: u in failed ==> u in KeySet(hub.connections))
            && BroadcastToSession(fails, hub, message, exclude) == LeaveAll(fails, mid, failed, KeySet(hub.connections))
  {
    var (first, failed, mid) := FirstPass(fails, hub, message, exclude);
    var wire := hub.wire + [Round(message)];
    SendAllIsPass(fails, hub.connections, message, exclude, wire, []);
    DisconnectedAreConnected(fails, hub.connections, message, exclude, wire, []);
    assert wire + Pass(fails, hub.connections, message, exclude, |wire|).0 == mid.wire;
    assert [] + failed == failed;
  }

  lemma {:induction false} BroadcastReaches(fails: Network, hub: Hub, message: Message, exclude: Option<string>)
    returns (events: seq<Event>)
    requires Distinct(hub.connections)
    ensures BroadcastOutcome(hub, BroadcastToSession(fails, hub, message, exclude), message, exclude, events)
    decreases KeySet(hub.connections), 1, 0
  {
    var (first, failed, mid) := FirstPass(fails, hub, message, exclude);
    BroadcastIsPassThenLeave(fails, hub, message, exclude);
    PassOutcome(fails, hub.connections, message, exclude, |hub.wire| + 1);
    var pass := Pass(fails, hub.connections, message, exclude, |hub.wire| + 1).0;
    PassRelays(hub.connections, message, exclude, pass, failed);
    var rest := LeaveAllReaches(fails, mid, failed, KeySet(hub.connections));
    events := first + rest;
    BroadcastComposes(hub, BroadcastToSession(fails, hub, message, exclude), message, exclude, first, failed, rest);
  }

  lemma {:induction false} BroadcastComposes(hub: Hub, after: Hub, message: Message, exclude: Option<string>,
                                             first: seq<Event>, failed: seq<string>, rest: seq<Event>)
    requires Rounds(first) == [message] && Failures(first) == Elements(failed) <= KeySet(hub.connections)
    requires Relayed(hub.connections, first, Elements(failed), exclude)
    requires LeftOutcome(hub.(wire := hub.wire + first), after, Elements(failed), rest)
    ensures BroadcastOutcome(hub, after, message, exclude, first + rest)
  {
    BroadcastRelays(hub.connections, exclude, first, Elements(failed), rest);
    BroadcastShape(hub, message, first, rest);
  }

  lemma {:induction false} BroadcastShape(hub: Hub, message: Message, first: seq<Event>, rest: seq<Event>)
    requires Rounds(first) == [message]
    ensures hub.wire + first + rest == hub.wire + (first + rest)
    ensures Failures(first + rest) == Failures(first) + Failures(rest)
    ensures Rounds(first + rest) != [] && Rounds(first + rest)[0] == message
    ensures Rounds(first + rest)[1..] == Rounds(rest)
  {
    EventsAppend(first, rest);
    MessageFirst(message, Rounds(rest));
    assert hub.wire + first + rest == hub.wire + (first + rest);
  }

  lemma MessageFirst(message: Message, rest: seq<Message>)
    ensures ([message] + rest)[0] == message && ([message] + rest)[1..] == rest
  {
  }

  lemma {:induction false} BroadcastRelays(conns: Dict<Socket>, exclude: Option<string>, first: seq<Event>,
                                           failed: set<string>, rest: seq<Event>)
    requires Rounds(first) != [] && Relayed(conns, first, failed, exclude)
    requires Relayed(conns, rest, failed + Failures(rest), None)
    ensures Relayed(conns, first + rest, failed + Failures(rest), exclude)
  {
    RelayedLess(conns, first, failed, failed + Failures(rest), exclude);
    RelayedTwice(conns, first, rest, failed + Failures(rest), exclude);
  }

  lemma {:induction false} LeaveAllReaches(fails: Network, hub: Hub, disconnected: seq<string>, present: set<string>)
    returns (events: seq<Event>)
    requires Distinct(hub.connections)
    requires KeySet(hub.connections) <= present
    requires forall u :: u in disconnected ==> u in present
    ensures LeftOutcome(hub, LeaveAll(fails, hub, disconnected, present), Elements(disconnected), events)
    decreases present, 0, |disconnected|
  {
    if disconnected == [] {
      events := [];
      ClearedNobody(hub, hub.wire);
      assert hub.wire + events == hub.wire;
      assert Elements(disconnected) + Failures(events) == {};
    } else {
      var u := disconnected[0];
      WithoutKeys(hub.connections, {u});
      var a := LeaveReaches(fails, hub, u);
      var mid := LeaveSession(fails, hub, u);
      WithoutDistinct(hub.connections, {u} + Failures(a));
      var b := LeaveAllReaches(fails, mid, disconnected[1..], present);
      events := a + b;
      LeftComposes(hub, mid, LeaveAll(fails, hub, disconnected, present), {u}, a, Elements(disconnected[1..]), b);
      assert Elements(disconnected) == {u} + Elements(disconnected[1..]);
    }
  }

  lemma {:induction false} LeftRelays(conns: Dict<Socket>, a: seq<Event>, g: set<string>, b: seq<Event>, h: set<string>)
    requires Relayed(conns, a, g, None) && Relayed(Without(conns, g), b, h, None)
    ensures Relayed(conns, a + b, g + h, None)
  {
    RelayedLess(conns, a, g, g + h, None);
    RelayedBefore(conns, b, g, h);
    RelayedTwice(conns, a, b, g + h, None);
  }

  lemma AllLeftAppends(a: seq<Message>, b: seq<Message>)
    requires AllLeft(a) && AllLeft(b)
    ensures AllLeft(a + b)
  {
  }

  lemma LeftClears(x: Hub, y: Hub, z: Hub, g: set<string>, h: set<string>)
    requires Cleared(x, y, g) && Cleared(y, z, h)
    ensures Cleared(x, z, g + h) && KeySet(y.connections) <= KeySet(x.connections)
  {
    ClearedTwice(x, y, z, g, h);
    WithoutKeys(x.connections, g);
  }

  lemma Regroup(g: set<string>, a: set<string>, h: set<string>, b: set<string>)
    ensures (g + a) + (h + b) == (g + h) + (a + b)
  {
  }

  lemma LeftComposes(x: Hub, y: Hub, z: Hub, g: set<string>, a: seq<Event>, h: set<string>, b: seq<Event>)
    requires LeftOutcome(x, y, g, a) && LeftOutcome(y, z, h, b)
    ensures LeftOutcome(x, z, g + h, a + b)
  {
    LeftRelays(x.connections, a, g + Failures(a), b, h + Failures(b));
    LeftClears(x, y, z, g + Failures(a), h + Failures(b));
    EventsAppend(a, b);
    AllLeftAppends(Rounds(a), Rounds(b));
    Regroup(g, Failures(a), h, Failures(b));
    assert z.wire == x.wire + (a + b);
  }

  lemma {:induction false} LeaveReaches(fails: Network, hub: Hub, userId: string)
    returns (events: seq<Event>)
    requires Distinct(hub.connections)
    ensures LeftOutcome(hub, LeaveSession(fails, hub, userId), {userId}, events)
    ensures Rounds(events) != [] && Rounds(events)[0] == UserLeft(userId, NameOf(hub.cursors, userId))
    decreases KeySet(Pop(hub.connections, userId)), 2, 0
  {
    var mid := Departed(hub, userId);
    var message := UserLeft(userId, NameOf(hub.cursors, userId));
    WithoutDistinct(hub.connections, {userId});
    WithoutKeys(hub.connections, {userId});
    events := BroadcastReaches(fails, mid, message, Some(userId));
    ClearedTwice(hub, mid, LeaveSession(fails, hub, userId), {userId}, Failures(events));
    assert Rounds(events) == [message] + Rounds(events)[1..];
    forall e | e in hub.connections && e.0 !in {userId} + Failures(events)
      ensures Received(events, e.0, e.1) == Rounds(events)
    {
      assert e in mid.connections;
    }
  }
}
