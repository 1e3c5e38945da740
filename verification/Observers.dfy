/**
 What a participant sees: starting from its `session_state` message, applying each broadcast
 operation and at once its own edits, made on the revision it holds, it has the server's text
 at every revision while it is connected.
 */
module Observers {
  import opened OperationalTransform
  import opened OrderedDict
  import opened SessionLog
  import opened Broadcast
  import opened BroadcastOutcome
  import opened Collaboration
  import opened Registry

  /** An observer's text and revision, once it has been told. */
  type Replica = Option<(string, nat)>

  /** An observer adopts a state message and applies an operation that carries the next
      revision number; any other operation would leave it without a valid text. */
  function Observe(replica: Replica, message: Message): Replica {
    match message
    case SessionState(content, revision, _) => Some((content, revision))
    case OperationApplied(op, revision) =>
      if replica.Some? && revision == replica.value.1 + 1 then Some((Apply(replica.value.0, op), revision)) else None
    case _ => replica
  }

  function Replay(replica: Replica, messages: seq<Message>): Replica
    decreases |messages|
  {
    if messages == [] then replica else Replay(Observe(replica, messages[0]), messages[1..])
  }

  lemma {:induction false} ReplayAppends(replica: Replica, a: seq<Message>, b: seq<Message>)
    ensures Replay(replica, a + b) == Replay(Replay(replica, a), b)
    decreases |a|
  {
    if a == [] {
      assert a + b == b;
    } else {
      assert (a + b)[1..] == a[1..] + b;
      ReplayAppends(Observe(replica, a[0]), a[1..], b);
    }
  }

  lemma {:induction false} ReplayIgnoresDepartures(replica: Replica, messages: seq<Message>)
    requires AllLeft(messages)
    ensures Replay(replica, messages) == replica
    decreases |messages|
  {
    if messages != [] {
      assert messages[0] in messages;
      ReplayIgnoresDepartures(replica, messages[1..]);
    }
  }

  /** A participant: its user and socket, and what it held when `from` events had happened.
      From then on it learns only what arrives at its socket. */
  datatype Participant = Participant(userId: string, socket: Socket, base: Replica, from: nat)

  /** Somebody who is about to join. */
  function Newcomer(userId: string, socket: Socket): Participant {
    Participant(userId, socket, None, 0)
  }

  /** What the participant holds after everything it has received. */
  function Held(wire: seq<Event>, p: Participant): Replica {
    if p.from <= |wire| then Replay(p.base, Received(wire[p.from..], p.userId, p.socket)) else p.base
  }

  lemma {:induction false} HeldAfter(wire: seq<Event>, events: seq<Event>, p: Participant)
    requires p.from <= |wire|
    ensures Held(wire + events, p) == Replay(Held(wire, p), Received(events, p.userId, p.socket))
  {
    assert (wire + events)[p.from..] == wire[p.from..] + events;
    ReceivedAppends(wire[p.from..], events, p.userId, p.socket);
    ReplayAppends(p.base, Received(wire[p.from..], p.userId, p.socket), Received(events, p.userId, p.socket));
  }

  // ----- Nothing is sent to a socket that is not connected -----

  lemma {:induction false} PassSparesStrangers(fails: Network, conns: Dict<Socket>, message: Message,
                                               exclude: Option<string>,
                                               n: nat, userId: string, socket: Socket)
    requires (userId, socket) !in conns
    ensures Received(Pass(fails, conns, message, exclude, n).0, userId, socket) == []
    decreases |conns|
  {
    if conns != [] {
      var (event, _) := Attempt(fails, n, conns[0].0, conns[0].1, message, exclude);
      PassSparesStrangers(fails, conns[1..], message, exclude, n + |event|, userId, socket);
      assert conns[0] in conns;
      ReceivedAppends(event, Pass(fails, conns[1..], message, exclude, n + |event|).0, userId, socket);
    }
  }

  lemma {:induction false} BroadcastSparesStrangers(fails: Network, hub: Hub, message: Message, exclude: Option<string>,
                                                    userId: string, socket: Socket)
    requires (userId, socket) !in hub.connections
    ensures var hub' := BroadcastToSession(fails, hub, message, exclude);
            && Received(hub'.wire, userId, socket) == Received(hub.wire, userId, socket)
            && (userId, socket) !in hub'.connections
    decreases KeySet(hub.connections), 1, 0
  {
    var (first, failed, mid) := FirstPass(fails, hub, message, exclude);
    var pass := Pass(fails, hub.connections, message, exclude, |hub.wire| + 1).0;
    PassSparesStrangers(fails, hub.connections, message, exclude, |hub.wire| + 1, userId, socket);
    ReceivedAppends(hub.wire, first, userId, socket);
    ReceivedAppends([Round(message)], pass, userId, socket);
    BroadcastIsPassThenLeave(fails, hub, message, exclude);
    LeavesSpareStrangers(fails, mid, failed, KeySet(hub.connections), userId, socket);
  }

  lemma {:induction false} LeavesSpareStrangers(fails: Network, hub: Hub, disconnected: seq<string>,
                                                present: set<string>,
                                                userId: string, socket: Socket)
    requires KeySet(hub.connections) <= present
    requires forall u :: u in disconnected ==> u in present
    requires (userId, socket) !in hub.connections
    ensures var hub' := LeaveAll(fails, hub, disconnected, present);
            && Received(hub'.wire, userId, socket) == Received(hub.wire, userId, socket)
            && (userId, socket) !in hub'.connections
    decreases present, 0, |disconnected|
  {
    if disconnected != [] {
      WithoutKeys(hub.connections, {disconnected[0]});
      LeaveSparesStrangers(fails, hub, disconnected[0], userId, socket);
      LeavesSpareStrangers(fails, LeaveSession(fails, hub, disconnected[0]), disconnected[1..], present, userId,
                           socket);
    }
  }

  lemma {:induction false} LeaveSparesStrangers(fails: Network, hub: Hub, leaving: string, userId: string,
                                                socket: Socket)
    requires (userId, socket) !in Pop(hub.connections, leaving)
    ensures var hub' := LeaveSession(fails, hub, leaving);
            && Received(hub'.wire, userId, socket) == Received(hub.wire, userId, socket)
            && (userId, socket) !in hub'.connections
    decreases KeySet(Pop(hub.connections, leaving)), 2, 0
  {
    WithoutKeys(hub.connections, {leaving});
    BroadcastSparesStrangers(fails, Departed(hub, leaving), UserLeft(leaving, NameOf(hub.cursors, leaving)),
                             Some(leaving), userId, socket);
  }

  // ----- A participant of one session -----

  ghost predicate ConnectedBy(w: World, sid: int, p: Participant) {
    sid in w.rooms && (p.userId, p.socket) in w.rooms[sid].connections
  }

  /** What the participant holds is the server's text and revision. */
  ghost predicate HoldsText(w: World, sid: int, p: Participant)
    requires sid in w.rooms
  {
    && p.from <= |w.wire|
    && Held(w.wire, p) == Some((w.rooms[sid].doc.content, w.rooms[sid].doc.revision))
  }

  /** The socket belongs to no session but `sid`; while it is connected there, the participant
      holds the server's text. */
  ghost predicate Agrees(w: World, sid: int, p: Participant) {
    && (forall other :: other != sid ==> !ConnectedBy(w, other, p))
    && (ConnectedBy(w, sid, p) ==> HoldsText(w, sid, p))
  }

  /** The user makes no edit in the session and the socket is not used again. */
  predicate Silent(step: Step, sid: int, p: Participant) {
    match step
    case Connect(_, u, _, s, _) => u != p.userId || s != p.socket
    case Edit(room, u, _, _) => room != sid || u != p.userId
    case _ => true
  }

  /** What a broadcast sends to a participant that is still connected afterwards. */
  lemma AnnounceSends(fails: Network, w: World, sid: int, message: Message, exclude: Option<string>, p: Participant)
    returns (events: seq<Event>)
    requires Inv(w) && sid in w.rooms
    requires ConnectedBy(Announce(fails, w, sid, message, exclude), sid, p)
    ensures ConnectedBy(w, sid, p)
    ensures Announce(fails, w, sid, message, exclude).wire == w.wire + events
    ensures Rounds(events) != [] && Rounds(events) == [message] + Rounds(events)[1..] && AllLeft(Rounds(events)[1..])
    ensures Received(events, p.userId, p.socket)
         == if exclude == Some(p.userId) then Rounds(events)[1..] else Rounds(events)
  {
    var hub := HubOf(w, sid);
    events := BroadcastReaches(fails, hub, message, exclude);
    WithoutKeys(hub.connections, Failures(events));
    assert (p.userId, p.socket) in hub.connections && p.userId !in Failures(events);
  }

  lemma {:induction false} ReplayFirst(replica: Replica, message: Message, departures: seq<Message>)
    requires AllLeft(departures)
    ensures Replay(replica, [message] + departures) == Observe(replica, message)
  {
    assert ([message] + departures)[1..] == departures;
    ReplayIgnoresDepartures(Observe(replica, message), departures);
  }

  /** A broadcast in `sid` hands its message, and nothing else that matters, to an observer
      that is still connected afterwards. */
  lemma AnnounceReachesObserver(fails: Network, w: World, sid: int, message: Message, exclude: Option<string>,
                                p: Participant)
    requires Inv(w) && sid in w.rooms && exclude != Some(p.userId) && p.from <= |w.wire|
    requires ConnectedBy(Announce(fails, w, sid, message, exclude), sid, p)
    ensures p.from <= |Announce(fails, w, sid, message, exclude).wire|
    ensures Held(Announce(fails, w, sid, message, exclude).wire, p) == Observe(Held(w.wire, p), message)
  {
    var events := AnnounceSends(fails, w, sid, message, exclude, p);
    HeldAfter(w.wire, events, p);
    ReplayFirst(Held(w.wire, p), message, Rounds(events)[1..]);
  }

  lemma LeaveReachesObserver(fails: Network, w: World, sid: int, leaving: string, p: Participant)
    requires Inv(w) && sid in w.rooms && (ConnectedBy(w, sid, p) ==> p.from <= |w.wire|)
    requires ConnectedBy(Leave(fails, w, sid, leaving), sid, p)
    ensures ConnectedBy(w, sid, p) && p.from <= |Leave(fails, w, sid, leaving).wire|
    ensures Held(Leave(fails, w, sid, leaving).wire, p) == Held(w.wire, p)
  {
    var hub := HubOf(w, sid);
    var events := LeaveReaches(fails, hub, leaving);
    WithoutKeys(hub.connections, {leaving} + Failures(events));
    assert (p.userId, p.socket) in hub.connections && p.userId !in {leaving} + Failures(events);
    HeldAfter(w.wire, events, p);
    ReplayIgnoresDepartures(Held(w.wire, p), Rounds(events));
  }

  /** Messages that do not change what an observer holds. */
  predicate Neutral(message: Message) {
    !message.SessionState? && !message.OperationApplied?
  }

  lemma {:induction false} NothingHeard(wire: seq<Event>, events: seq<Event>, p: Participant)
    requires p.from <= |wire|
    requires Received(wire + events, p.userId, p.socket) == Received(wire, p.userId, p.socket)
    ensures Held(wire + events, p) == Held(wire, p)
  {
    ReceivedAppends(wire, events, p.userId, p.socket);
    HeldAfter(wire, events, p);
  }

  /** Nothing that happens in another session matters. */
  lemma ElsewhereAgrees(w: World, w': World, other: int, hub': Hub, events: seq<Event>, sid: int, p: Participant)
    requires Agrees(w, sid, p) && other != sid && other in w.rooms
    requires hub'.wire == w.wire + events
    requires Received(hub'.wire, p.userId, p.socket) == Received(w.wire, p.userId, p.socket)
    requires (p.userId, p.socket) !in hub'.connections
    requires w' == WithHub(w, other, hub')
    ensures Agrees(w', sid, p)
  {
    forall room | room != sid ensures !ConnectedBy(w', room, p) {
      assert !ConnectedBy(w, room, p);
    }
    if ConnectedBy(w', sid, p) {
      assert ConnectedBy(w, sid, p);
      NothingHeard(w.wire, events, p);
    }
  }

  lemma NeutralAnnounceAgrees(fails: Network, w: World, room: int, message: Message, exclude: Option<string>,
                              sid: int, p: Participant)
    requires Inv(w) && room in w.rooms && Neutral(message)
    requires Agrees(w, sid, p)
    ensures Agrees(Announce(fails, w, room, message, exclude), sid, p)
  {
    var w' := Announce(fails, w, room, message, exclude);
    var hub' := BroadcastToSession(fails, HubOf(w, room), message, exclude);
    if room != sid {
      assert !ConnectedBy(w, room, p);
      BroadcastSparesStrangers(fails, HubOf(w, room), message, exclude, p.userId, p.socket);
      var events := BroadcastReaches(fails, HubOf(w, room), message, exclude);
      ElsewhereAgrees(w, w', room, hub', events, sid, p);
    } else {
      forall other | other != sid ensures !ConnectedBy(w', other, p) {
        assert !ConnectedBy(w, other, p);
      }
      if ConnectedBy(w', sid, p) {
        var events := AnnounceSends(fails, w, sid, message, exclude, p);
        if exclude == Some(p.userId) {
          ExcludedHoldsOn(fails, w, sid, message, p);
        } else {
          AnnounceReachesObserver(fails, w, sid, message, exclude, p);
        }
      }
    }
  }

  lemma ExcludedHoldsOn(fails: Network, w: World, sid: int, message: Message, p: Participant)
    requires Inv(w) && sid in w.rooms && p.from <= |w.wire|
    requires ConnectedBy(Announce(fails, w, sid, message, Some(p.userId)), sid, p)
    ensures p.from <= |Announce(fails, w, sid, message, Some(p.userId)).wire|
    ensures Held(Announce(fails, w, sid, message, Some(p.userId)).wire, p) == Held(w.wire, p)
  {
    var events := AnnounceSends(fails, w, sid, message, Some(p.userId), p);
    HeldAfter(w.wire, events, p);
    ReplayIgnoresDepartures(Held(w.wire, p), Rounds(events)[1..]);
  }

  lemma LeaveAgrees(fails: Network, w: World, room: int, leaving: string, sid: int, p: Participant)
    requires Inv(w) && Agrees(w, sid, p)
    ensures Agrees(Leave(fails, w, room, leaving), sid, p)
  {
    if room in w.rooms {
      var w' := Leave(fails, w, room, leaving);
      if room != sid {
        assert !ConnectedBy(w, room, p);
        WithoutKeys(w.rooms[room].connections, {leaving});
        LeaveSparesStrangers(fails, HubOf(w, room), leaving, p.userId, p.socket);
        var events := LeaveReaches(fails, HubOf(w, room), leaving);
        ElsewhereAgrees(w, w', room, LeaveSession(fails, HubOf(w, room), leaving), events, sid, p);
      } else {
        forall other | other != sid ensures !ConnectedBy(w', other, p) {
          assert !ConnectedBy(w, other, p);
        }
        if ConnectedBy(w', sid, p) {
          LeaveReachesObserver(fails, w, sid, leaving, p);
        }
      }
    }
  }

  /** A change that keeps everybody's connections and, in `sid`, the document. */
  lemma SameTextAgrees(w: World, w': World, sid: int, p: Participant)
    requires Agrees(w, sid, p) && w'.wire == w.wire
    requires forall other :: ConnectedBy(w', other, p) ==> ConnectedBy(w, other, p)
    requires ConnectedBy(w', sid, p) ==> w'.rooms[sid].doc == w.rooms[sid].doc
    ensures Agrees(w', sid, p)
  {
  }

  lemma EnterAgrees(w: World, room: int, newcomer: string, name: string, s: Socket, sid: int, p: Participant)
    requires Inv(w) && room in w.rooms && Agrees(w, sid, p) && (newcomer != p.userId || s != p.socket)
    ensures Agrees(Enter(w, room, newcomer, name, s), sid, p)
  {
    PutEntries(w.rooms[room].connections, newcomer, s);
    SameTextAgrees(w, Enter(w, room, newcomer, name, s), sid, p);
  }

  lemma RegisteredAgrees(w: World, room: int, newcomer: string, name: string, s: Socket, now: real,
                         sid: int, p: Participant)
    requires Inv(w) && Agrees(w, sid, p) && (newcomer != p.userId || s != p.socket)
    requires |GetOrCreate(w, room, "", now).rooms[room].connections| < MAX_USERS_PER_SESSION
    ensures var w2 := Enter(GetOrCreate(w, room, "", now), room, newcomer, name, s);
            Inv(w2) && room in w2.rooms && Agrees(w2, sid, p)
  {
    var w1 := GetOrCreate(w, room, "", now);
    GetOrCreateKeepsInv(w, room, now);
    SameTextAgrees(w, w1, sid, p);
    EnterKeepsInv(w1, room, newcomer, name, s);
    EnterAgrees(w1, room, newcomer, name, s, sid, p);
  }

  lemma JoinAgrees(fails: Network, w: World, room: int, newcomer: string, name: string, s: Socket, now: real,
                   sid: int, p: Participant)
    requires Inv(w) && Agrees(w, sid, p) && (newcomer != p.userId || s != p.socket)
    ensures Agrees(Join(fails, w, room, newcomer, name, s, now).0, sid, p)
  {
    var w1 := GetOrCreate(w, room, "", now);
    if |w1.rooms[room].connections| >= MAX_USERS_PER_SESSION {
      SameTextAgrees(w, w1, sid, p);
    } else {
      RegisteredAgrees(w, room, newcomer, name, s, now, sid, p);
      var w2 := Enter(w1, room, newcomer, name, s);
      var joined := UserJoined(newcomer, name, UserList(w2.rooms[room].cursors));
      NeutralAnnounceAgrees(fails, w2, room, joined, None, sid, p);
      var w3 := Announce(fails, w2, room, joined, None);
      WelcomeAgrees(fails, w3, room, newcomer, s, sid, p);
    }
  }

  lemma WelcomeAgrees(fails: Network, w: World, room: int, newcomer: string, s: Socket, sid: int, p: Participant)
    requires room in w.rooms && Agrees(w, sid, p) && (newcomer != p.userId || s != p.socket)
    ensures Agrees(Welcome(fails, w, room, newcomer, s).0, sid, p)
  {
    var w' := Welcome(fails, w, room, newcomer, s).0;
    var event := w'.wire[|w.wire|..];
    assert w'.wire == w.wire + event;
    assert forall other :: ConnectedBy(w', other, p) == ConnectedBy(w, other, p);
    if ConnectedBy(w, sid, p) {
      HeldAfter(w.wire, event, p);
    }
  }

  /** The room as an edit leaves it before anybody is told. */
  lemma EditedKeeps(w: World, room: int, op: Operation, now: real, p: Participant)
    requires Inv(w) && room in w.rooms
    ensures Inv(Edited(w, room, op, now))
    ensures forall other :: ConnectedBy(Edited(w, room, op, now), other, p) == ConnectedBy(w, other, p)
  {
    SubmitReachable(w.rooms[room].doc, op);
    RoomChangeKeepsInv(w, room, Edited(w, room, op, now).rooms[room]);
  }

  lemma EditElsewhereAgrees(fails: Network, w: World, room: int, op: Operation, now: real, message: Message,
                            exclude: Option<string>, sid: int, p: Participant)
    requires Inv(w) && room in w.rooms && room != sid && Agrees(w, sid, p)
    ensures Agrees(Announce(fails, Edited(w, room, op, now), room, message, exclude), sid, p)
  {
    var w1 := Edited(w, room, op, now);
    EditedKeeps(w, room, op, now, p);
    SameTextAgrees(w, w1, sid, p);
    assert !ConnectedBy(w1, room, p);
    BroadcastSparesStrangers(fails, HubOf(w1, room), message, exclude, p.userId, p.socket);
    var events := BroadcastReaches(fails, HubOf(w1, room), message, exclude);
    ElsewhereAgrees(w1, Announce(fails, w1, room, message, exclude), room,
                    BroadcastToSession(fails, HubOf(w1, room), message, exclude), events, sid, p);
  }

  /** A broadcast of the message that an observer needs to catch up with its room. */
  lemma AnnounceHereAgrees(fails: Network, w: World, sid: int, message: Message, exclude: Option<string>,
                           p: Participant)
    requires Inv(w) && sid in w.rooms && exclude != Some(p.userId)
    requires forall other :: other != sid ==> !ConnectedBy(w, other, p)
    requires ConnectedBy(w, sid, p) ==>
      p.from <= |w.wire| &&
      Observe(Held(w.wire, p), message) == Some((w.rooms[sid].doc.content, w.rooms[sid].doc.revision))
    ensures Agrees(Announce(fails, w, sid, message, exclude), sid, p)
  {
    var w' := Announce(fails, w, sid, message, exclude);
    forall other | other != sid ensures !ConnectedBy(w', other, p) {
      assert !ConnectedBy(w, other, p);
    }
    if ConnectedBy(w', sid, p) {
      var events := AnnounceSends(fails, w, sid, message, exclude, p);
      AnnounceReachesObserver(fails, w, sid, message, exclude, p);
    }
  }

  lemma EditHereAgrees(fails: Network, w: World, sid: int, op: Operation, now: real, author: string, p: Participant)
    requires Inv(w) && sid in w.rooms && author != p.userId && Agrees(w, sid, p)
    ensures var doc := w.rooms[sid].doc;
            var message := OperationApplied(Integrated(doc, op), doc.revision + 1);
            Agrees(Announce(fails, Edited(w, sid, op, now), sid, message, Some(author)), sid, p)
  {
    var doc := w.rooms[sid].doc;
    var message := OperationApplied(Integrated(doc, op), doc.revision + 1);
    var w1 := Edited(w, sid, op, now);
    EditedKeeps(w, sid, op, now, p);
    if ConnectedBy(w1, sid, p) {
      assert Held(w1.wire, p) == Some((doc.content, doc.revision));
    }
    AnnounceHereAgrees(fails, w1, sid, message, Some(author), p);
  }

  lemma EditAgrees(fails: Network, w: World, room: int, author: string, request: Request, now: real,
                   sid: int, p: Participant)
    requires Inv(w) && Agrees(w, sid, p) && (room != sid || author != p.userId)
    ensures Agrees(HandleOperation(fails, w, room, author, request, now).0, sid, p)
  {
    if room in w.rooms {
      var doc := w.rooms[room].doc;
      var op := OperationOf(request, author, doc.revision);
      var message := OperationApplied(Integrated(doc, op), doc.revision + 1);
      assert HandleOperation(fails, w, room, author, request, now).0
          == Announce(fails, Edited(w, room, op, now), room, message, Some(author));
      if room == sid {
        EditHereAgrees(fails, w, sid, op, now, author, p);
      } else {
        EditElsewhereAgrees(fails, w, room, op, now, message, Some(author), sid, p);
      }
    }
  }

  lemma CursorAgrees(fails: Network, w: World, room: int, mover: string, line: int, column: int,
                     s: Option<int>, e: Option<int>, sid: int, p: Participant)
    requires Inv(w) && Agrees(w, sid, p)
    ensures Agrees(UpdateCursor(fails, w, room, mover, line, column, s, e), sid, p)
  {
    if room in w.rooms && Lookup(w.rooms[room].cursors, mover).Some? {
      var cursor := Lookup(w.rooms[room].cursors, mover).value;
      var moved := cursor.(line := line, column := column, selectionStart := s, selectionEnd := e);
      var w1 := w.(rooms := w.rooms[room := w.rooms[room].(cursors := Put(w.rooms[room].cursors, mover, moved))]);
      LookupIffKey(w.rooms[room].cursors, mover);
      PutEntries(w.rooms[room].cursors, mover, moved);
      RoomChangeKeepsInv(w, room, w1.rooms[room]);
      assert forall other :: ConnectedBy(w1, other, p) == ConnectedBy(w, other, p);
      SameTextAgrees(w, w1, sid, p);
      NeutralAnnounceAgrees(fails, w1, room, CursorUpdate(moved.(userId := mover)), Some(mover), sid, p);
    }
  }

  lemma SilentStepAgrees(fails: Network, w: World, step: Step, sid: int, p: Participant)
    requires Inv(w) && Agrees(w, sid, p) && Silent(step, sid, p)
    ensures Agrees(Perform(fails, w, step), sid, p)
  {
    match step
    case Connect(room, u, name, s, now) =>
      JoinAgrees(fails, w, room, u, name, s, now, sid, p);
      JoinKeepsInv(fails, w, room, u, name, s, now);
      LeaveAgrees(fails, Join(fails, w, room, u, name, s, now).0, room, u, sid, p);
    case Disconnect(room, u) => LeaveAgrees(fails, w, room, u, sid, p);
    case Edit(room, u, request, now) =>
      EditAgrees(fails, w, room, u, request, now, sid, p);
      HandleOperationKeepsInv(fails, w, room, u, request, now);
      LeaveAgrees(fails, HandleOperation(fails, w, room, u, request, now).0, room, u, sid, p);
    case MoveCursor(room, u, line, column, s, e) => CursorAgrees(fails, w, room, u, line, column, s, e, sid, p);
    case CleanUp(now) => SameTextAgrees(w, Cleanup(w, now), sid, p);
  }

  // ----- A participant that edits -----

  /** An edit of the participant's own in the session. */
  predicate OwnEdit(step: Step, sid: int, p: Participant) {
    step.Edit? && step.sid == sid && step.userId == p.userId
  }

  /** The socket is not used again, and while it is connected every edit of the user's is made
      on the revision that the participant holds. */
  ghost predicate Current(w: World, step: Step, sid: int, p: Participant) {
    if OwnEdit(step, sid, p) then
      ConnectedBy(w, sid, p) && step.request.revision.Some? ==>
        Held(w.wire, p).Some? && step.request.revision.value == Held(w.wire, p).value.1
    else Silent(step, sid, p)
  }

  /** The participant applies an edit of its own at once and counts one revision. */
  function Acting(w: World, step: Step, sid: int, p: Participant): Participant {
    if OwnEdit(step, sid, p) && Held(w.wire, p).Some? then
      var (text, revision) := Held(w.wire, p).value;
      p.(base := Some((Apply(text, OperationOf(step.request, p.userId, revision)), revision + 1)), from := |w.wire|)
    else p
  }

  lemma OwnEditIsNotRebased(doc: Document, op: Operation)
    requires op.revision == doc.revision
    ensures SessionLog.Submit(doc, op).content == Apply(doc.content, op)
    ensures SessionLog.Submit(doc, op).revision == doc.revision + 1
  {
    SameEdit(doc.content, Integrated(doc, op), op);
  }

  /** Right after the server has applied the edit, before it tells the others. */
  lemma OwnEditAgrees(w: World, sid: int, request: Request, now: real, p: Participant)
    requires Inv(w) && sid in w.rooms && Agrees(w, sid, p)
    requires Current(w, Edit(sid, p.userId, request, now), sid, p)
    ensures var op := OperationOf(request, p.userId, w.rooms[sid].doc.revision);
            Agrees(Edited(w, sid, op, now), sid, Acting(w, Edit(sid, p.userId, request, now), sid, p))
  {
    var doc := w.rooms[sid].doc;
    var op := OperationOf(request, p.userId, doc.revision);
    var w1 := Edited(w, sid, op, now);
    var p1 := Acting(w, Edit(sid, p.userId, request, now), sid, p);
    EditedKeeps(w, sid, op, now, p);
    assert forall other :: ConnectedBy(w1, other, p1) == ConnectedBy(w1, other, p);
    if ConnectedBy(w1, sid, p1) {
      OwnEditIsNotRebased(doc, op);
      assert w1.wire[p1.from..] == [];
    }
  }

  lemma OwnEditStepAgrees(fails: Network, w: World, sid: int, request: Request, now: real, p: Participant)
    requires Inv(w) && Agrees(w, sid, p) && Current(w, Edit(sid, p.userId, request, now), sid, p)
    ensures var step := Edit(sid, p.userId, request, now);
            Agrees(Perform(fails, w, step), sid, Acting(w, step, sid, p))
  {
    var p1 := Acting(w, Edit(sid, p.userId, request, now), sid, p);
    if sid in w.rooms {
      var doc := w.rooms[sid].doc;
      var op := OperationOf(request, p.userId, doc.revision);
      var w1 := Edited(w, sid, op, now);
      var message := OperationApplied(Integrated(doc, op), doc.revision + 1);
      OwnEditAgrees(w, sid, request, now, p);
      EditedKeeps(w, sid, op, now, p);
      ExcludedAnnounceAgrees(fails, w1, sid, message, p1);
    } else {
      assert forall other :: ConnectedBy(w, other, p1) == ConnectedBy(w, other, p);
    }
  }

  /** The author of a message is told nothing that matters. */
  lemma ExcludedAnnounceAgrees(fails: Network, w: World, sid: int, message: Message, p: Participant)
    requires Inv(w) && sid in w.rooms && Agrees(w, sid, p)
    ensures Agrees(Announce(fails, w, sid, message, Some(p.userId)), sid, p)
  {
    var w' := Announce(fails, w, sid, message, Some(p.userId));
    forall other | other != sid ensures !ConnectedBy(w', other, p) {
      assert !ConnectedBy(w, other, p);
    }
    if ConnectedBy(w', sid, p) {
      var events := AnnounceSends(fails, w, sid, message, Some(p.userId), p);
      ExcludedHoldsOn(fails, w, sid, message, p);
    }
  }

  lemma PerformAgrees(fails: Network, w: World, step: Step, sid: int, p: Participant)
    requires Inv(w) && Agrees(w, sid, p) && Current(w, step, sid, p)
    ensures Agrees(Perform(fails, w, step), sid, Acting(w, step, sid, p))
  {
    if OwnEdit(step, sid, p) {
      OwnEditStepAgrees(fails, w, sid, step.request, step.now, p);
    } else {
      SilentStepAgrees(fails, w, step, sid, p);
    }
  }

  /** Every step of the run is current for the participant as the steps before have left it. */
  ghost predicate AllCurrent(fails: Network, w: World, steps: seq<Step>, sid: int, p: Participant)
    decreases |steps|
  {
    || steps == []
    || (&& Current(w, steps[0], sid, p)
        && AllCurrent(fails, Perform(fails, w, steps[0]), steps[1..], sid, Acting(w, steps[0], sid, p)))
  }

  /** The participant after all its own edits of the run. */
  function ActingAll(fails: Network, w: World, steps: seq<Step>, sid: int, p: Participant): Participant
    decreases |steps|
  {
    if steps == [] then p
    else ActingAll(fails, Perform(fails, w, steps[0]), steps[1..], sid, Acting(w, steps[0], sid, p))
  }

  lemma {:induction false} CurrentRunAgrees(fails: Network, w: World, steps: seq<Step>, sid: int, p: Participant)
    requires Inv(w) && Agrees(w, sid, p) && AllCurrent(fails, w, steps, sid, p)
    ensures Agrees(PerformAll(fails, w, steps), sid, ActingAll(fails, w, steps, sid, p))
    decreases |steps|
  {
    if steps != [] {
      PerformAgrees(fails, w, steps[0], sid, p);
      PerformKeepsInv(fails, w, steps[0]);
      CurrentRunAgrees(fails, Perform(fails, w, steps[0]), steps[1..], sid, Acting(w, steps[0], sid, p));
    }
  }

  // ----- Joining -----

  lemma {:induction false} ReceivedHere(userId: string, socket: Socket, message: Message)
    ensures Received([Sent(userId, socket, message)], userId, socket) == [message]
    ensures forall replica :: Replay(replica, [message]) == Observe(replica, message)
  {
  }

  /** From the state message on, the newcomer holds the server's text. */
  lemma NewcomerAgrees(fails: Network, w: World, sid: int, userId: string, name: string, socket: Socket, now: real)
    requires Inv(w) && forall other :: !ConnectedBy(w, other, Newcomer(userId, socket))
    requires Join(fails, w, sid, userId, name, socket, now).1 == Done
    ensures Agrees(Join(fails, w, sid, userId, name, socket, now).0, sid, Newcomer(userId, socket))
  {
    var p := Newcomer(userId, socket);
    var w1 := GetOrCreate(w, sid, "", now);
    GetOrCreateKeepsInv(w, sid, now);
    var w2 := Enter(w1, sid, userId, name, socket);
    EnterKeepsInv(w1, sid, userId, name, socket);
    var joined := UserJoined(userId, name, UserList(w2.rooms[sid].cursors));
    var w3 := Announce(fails, w2, sid, joined, None);
    var w4 := Welcome(fails, w3, sid, userId, socket).0;
    var state := StateMessage(w3.rooms[sid], userId);
    assert w4.wire == w3.wire + [Sent(userId, socket, state)];
    HeldAfter(w3.wire, [Sent(userId, socket, state)], p);
    ReceivedHere(userId, socket, state);
    forall other | other != sid ensures !ConnectedBy(w4, other, p) {
      assert !ConnectedBy(w, other, p);
    }
  }

  /** Agreement: a participant that joins, makes every edit on the revision it holds, applies it
      at once and otherwise applies what it receives, holds, after any steps of anybody else and
      on any network, exactly the server's text and revision, for as long as it is connected by
      the socket it joined with. */
  lemma {:induction false} ParticipantAgreement(fails: Network, w: World, sid: int, userId: string, name: string,
                                                socket: Socket, now: real, steps: seq<Step>)
    requires Inv(w) && forall other :: !ConnectedBy(w, other, Newcomer(userId, socket))
    requires Join(fails, w, sid, userId, name, socket, now).1 == Done
    requires AllCurrent(fails, Join(fails, w, sid, userId, name, socket, now).0, steps, sid, Newcomer(userId, socket))
    ensures var joined := Perform(fails, w, Connect(sid, userId, name, socket, now));
            var w' := PerformAll(fails, joined, steps);
            var p := ActingAll(fails, joined, steps, sid, Newcomer(userId, socket));
            ConnectedBy(w', sid, p) ==>
              Held(w'.wire, p) == Some((w'.rooms[sid].doc.content, w'.rooms[sid].doc.revision))
  {
    NewcomerAgrees(fails, w, sid, userId, name, socket, now);
    JoinKeepsInv(fails, w, sid, userId, name, socket, now);
    CurrentRunAgrees(fails, Join(fails, w, sid, userId, name, socket, now).0, steps, sid, Newcomer(userId, socket));
  }

  // ----- A participant that only observes -----

  predicate AllSilent(steps: seq<Step>, sid: int, p: Participant) {
    forall step | step in steps :: Silent(step, sid, p)
  }

  lemma {:induction false} SilentIsCurrent(fails: Network, w: World, steps: seq<Step>, sid: int, p: Participant)
    requires AllSilent(steps, sid, p)
    ensures AllCurrent(fails, w, steps, sid, p) && ActingAll(fails, w, steps, sid, p) == p
    decreases |steps|
  {
    if steps != [] {
      assert steps[0] in steps;
      SilentIsCurrent(fails, Perform(fails, w, steps[0]), steps[1..], sid, p);
    }
  }

  lemma {:induction false} SilentRunAgrees(fails: Network, w: World, steps: seq<Step>, sid: int, p: Participant)
    requires Inv(w) && Agrees(w, sid, p) && AllSilent(steps, sid, p)
    ensures Agrees(PerformAll(fails, w, steps), sid, p)
  {
    SilentIsCurrent(fails, w, steps, sid, p);
    CurrentRunAgrees(fails, w, steps, sid, p);
  }

  /** Observer agreement: the same for a participant that sends no edits. */
  lemma {:induction false} ObserverAgreement(fails: Network, w: World, sid: int, userId: string, name: string,
                                             socket: Socket, now: real, steps: seq<Step>)
    requires Inv(w) && forall other :: !ConnectedBy(w, other, Newcomer(userId, socket))
    requires Join(fails, w, sid, userId, name, socket, now).1 == Done
    requires AllSilent(steps, sid, Newcomer(userId, socket))
    ensures var w' := PerformAll(fails, Perform(fails, w, Connect(sid, userId, name, socket, now)), steps);
            ConnectedBy(w', sid, Newcomer(userId, socket)) ==>
              Replay(None, Received(w'.wire, userId, socket))
              == Some((w'.rooms[sid].doc.content, w'.rooms[sid].doc.revision))
  {
    var joined := Perform(fails, w, Connect(sid, userId, name, socket, now));
    SilentIsCurrent(fails, joined, steps, sid, Newcomer(userId, socket));
    ParticipantAgreement(fails, w, sid, userId, name, socket, now, steps);
    var wire := PerformAll(fails, joined, steps).wire;
    assert wire[0..] == wire;
  }
}
