/**
 The registry of users and sessions in the other direction: exactly when every connected
 user stays registered in the session he is connected in.
 */
module Registration {
  import opened OrderedDict
  import opened Broadcast
  import opened BroadcastOutcome
  import opened Collaboration
  import opened Registry
  import DeadParticipants
  import SessionLog

  /** Everybody who is connected in a session is registered there. */
  ghost predicate TwoWay(w: World) {
    forall sid, u :: Present(w, u, sid) ==> u in w.userSessions && w.userSessions[u] == sid
  }

  ghost predicate ConnectedElsewhere(w: World, sid: int, userId: string) {
    exists other :: other != sid && Present(w, userId, other)
  }

  /** A user who is connected in another session connects, or leaves an existing session. */
  ghost predicate Foreign(w: World, step: Step) {
    match step
    case Connect(sid, u, _, _, _) => ConnectedElsewhere(w, sid, u)
    case Disconnect(sid, u) => sid in w.rooms && ConnectedElsewhere(w, sid, u)
    case _ => false
  }

  // ----- Steps that keep everybody registered -----

  /** Removing users who are connected in no other session keeps the others registered. */
  lemma ClearedKeepsTwoWay(w: World, sid: int, hub': Hub, gone: set<string>)
    requires TwoWay(w) && sid in w.rooms && Cleared(HubOf(w, sid), hub', gone)
    requires forall u :: u in gone ==> !ConnectedElsewhere(w, sid, u)
    ensures TwoWay(WithHub(w, sid, hub'))
  {
    var w' := WithHub(w, sid, hub');
    WithoutKeys(w.rooms[sid].connections, gone);
    forall other, u | Present(w', u, other) ensures u in w'.userSessions && w'.userSessions[u] == other {
      assert Present(w, u, other);
    }
  }

  lemma AnnounceKeepsTwoWay(fails: Network, w: World, sid: int, message: Message, exclude: Option<string>)
    requires Inv(w) && TwoWay(w) && sid in w.rooms
    ensures TwoWay(Announce(fails, w, sid, message, exclude))
  {
    var events := BroadcastReaches(fails, HubOf(w, sid), message, exclude);
    forall u | u in Failures(events) ensures !ConnectedElsewhere(w, sid, u) {
      assert Present(w, u, sid);
    }
    ClearedKeepsTwoWay(w, sid, BroadcastToSession(fails, HubOf(w, sid), message, exclude), Failures(events));
  }

  lemma LeaveKeepsTwoWay(fails: Network, w: World, sid: int, userId: string)
    requires Inv(w) && TwoWay(w) && (sid in w.rooms ==> !ConnectedElsewhere(w, sid, userId))
    ensures TwoWay(Leave(fails, w, sid, userId))
  {
    if sid in w.rooms {
      var events := LeaveReaches(fails, HubOf(w, sid), userId);
      forall u | u in {userId} + Failures(events) ensures !ConnectedElsewhere(w, sid, u) {
        if u != userId {
          assert Present(w, u, sid);
        }
      }
      ClearedKeepsTwoWay(w, sid, LeaveSession(fails, HubOf(w, sid), userId), {userId} + Failures(events));
    }
  }

  lemma GetOrCreateKeepsTwoWay(w: World, sid: int, content: string, now: real)
    requires TwoWay(w)
    ensures TwoWay(GetOrCreate(w, sid, content, now))
    ensures forall u, other :: Present(GetOrCreate(w, sid, content, now), u, other) <==> Present(w, u, other)
  {
    var w' := GetOrCreate(w, sid, content, now);
    forall u, other ensures Present(w', u, other) <==> Present(w, u, other) {
      if other == sid && sid !in w.rooms {
        assert KeySet(w'.rooms[sid].connections) == {};
      }
    }
  }

  lemma EnterKeepsTwoWay(w: World, sid: int, userId: string, username: string, socket: Socket)
    requires Inv(w) && TwoWay(w) && sid in w.rooms && !ConnectedElsewhere(w, sid, userId)
    ensures TwoWay(Enter(w, sid, userId, username, socket))
    ensures !ConnectedElsewhere(Enter(w, sid, userId, username, socket), sid, userId)
  {
    var w' := Enter(w, sid, userId, username, socket);
    PutEntries(w.rooms[sid].connections, userId, socket);
    forall other, u | Present(w', u, other) ensures u in w'.userSessions && w'.userSessions[u] == other {
      if u == userId {
        assert other != sid ==> Present(w, u, other);
      } else {
        assert Present(w, u, other);
      }
    }
    forall other | other != sid ensures !Present(w', userId, other) {
      assert !Present(w, userId, other);
    }
  }

  /** A change of one room that keeps its connections, or a change of the wire only. */
  lemma SameConnectionsKeepTwoWay(w: World, w': World)
    requires TwoWay(w) && w'.userSessions == w.userSessions
    requires forall u, sid :: Present(w', u, sid) <==> Present(w, u, sid)
    ensures TwoWay(w')
  {
  }

  lemma JoinKeepsTwoWay(fails: Network, w: World, sid: int, userId: string, username: string, socket: Socket, now: real)
    requires Inv(w) && TwoWay(w) && !ConnectedElsewhere(w, sid, userId)
    ensures TwoWay(Join(fails, w, sid, userId, username, socket, now).0)
  {
    var w1 := GetOrCreate(w, sid, "", now);
    GetOrCreateKeepsInv(w, sid, now);
    GetOrCreateKeepsTwoWay(w, sid, "", now);
    if |w1.rooms[sid].connections| < MAX_USERS_PER_SESSION {
      var w2 := Enter(w1, sid, userId, username, socket);
      EnterKeepsInv(w1, sid, userId, username, socket);
      EnterKeepsTwoWay(w1, sid, userId, username, socket);
      var joined := UserJoined(userId, username, UserList(w2.rooms[sid].cursors));
      AnnounceKeepsTwoWay(fails, w2, sid, joined, None);
      var w3 := Announce(fails, w2, sid, joined, None);
      SameConnectionsKeepTwoWay(w3, Welcome(fails, w3, sid, userId, socket).0);
    }
  }

  lemma HandleOperationKeepsTwoWay(fails: Network, w: World, sid: int, userId: string, request: Request, now: real)
    requires Inv(w) && TwoWay(w) && sid in w.rooms
    ensures TwoWay(HandleOperation(fails, w, sid, userId, request, now).0)
  {
    var room := w.rooms[sid];
    var op := OperationOf(request, userId, room.doc.revision);
    var w1 := Edited(w, sid, op, now);
    SubmitReachable(room.doc, op);
    RoomChangeKeepsInv(w, sid, w1.rooms[sid]);
    SameConnectionsKeepTwoWay(w, w1);
    AnnounceKeepsTwoWay(fails, w1, sid, OperationApplied(SessionLog.Integrated(room.doc, op), room.doc.revision + 1),
                        Some(userId));
  }

  lemma UpdateCursorKeepsTwoWay(fails: Network, w: World, sid: int, userId: string, line: int, column: int,
                                selectionStart: Option<int>, selectionEnd: Option<int>)
    requires Inv(w) && TwoWay(w)
    ensures TwoWay(UpdateCursor(fails, w, sid, userId, line, column, selectionStart, selectionEnd))
  {
    if sid in w.rooms && Lookup(w.rooms[sid].cursors, userId).Some? {
      var cursor := Lookup(w.rooms[sid].cursors, userId).value;
      var moved := cursor.(line := line, column := column, selectionStart := selectionStart,
                           selectionEnd := selectionEnd);
      var room := w.rooms[sid].(cursors := Put(w.rooms[sid].cursors, userId, moved));
      var w1 := w.(rooms := w.rooms[sid := room]);
      LookupIffKey(w.rooms[sid].cursors, userId);
      PutEntries(w.rooms[sid].cursors, userId, moved);
      RoomChangeKeepsInv(w, sid, room);
      SameConnectionsKeepTwoWay(w, w1);
      AnnounceKeepsTwoWay(fails, w1, sid, CursorUpdate(moved.(userId := userId)), Some(userId));
    }
  }

  lemma CleanupKeepsTwoWay(w: World, now: real)
    requires TwoWay(w)
    ensures TwoWay(Cleanup(w, now))
  {
    forall sid, u | Present(Cleanup(w, now), u, sid) ensures Present(w, u, sid) {
    }
  }

  lemma ConnectKeepsTwoWay(fails: Network, w: World, sid: int, userId: string, username: string, socket: Socket,
                           now: real)
    requires Inv(w) && TwoWay(w) && !ConnectedElsewhere(w, sid, userId)
    ensures TwoWay(Perform(fails, w, Connect(sid, userId, username, socket, now)))
  {
    var (w', outcome) := Join(fails, w, sid, userId, username, socket, now);
    JoinKeepsInv(fails, w, sid, userId, username, socket, now);
    JoinKeepsTwoWay(fails, w, sid, userId, username, socket, now);
    JoinSparesOthers(fails, w, sid, userId, username, socket, now);
    if outcome != Done {
      LeaveKeepsTwoWay(fails, w', sid, userId);
    }
  }

  // ----- Steps that do not -----

  /** Every room but `sid` is as it was. */
  ghost predicate OthersSpared(w: World, w': World, sid: int) {
    forall other :: other != sid ==>
      && (other in w'.rooms <==> other in w.rooms)
      && (other in w.rooms ==> w'.rooms[other] == w.rooms[other])
  }

  lemma SparedElsewhere(w: World, w': World, sid: int, userId: string)
    requires OthersSpared(w, w', sid)
    ensures ConnectedElsewhere(w', sid, userId) <==> ConnectedElsewhere(w, sid, userId)
  {
    if other :| other != sid && Present(w, userId, other) {
      assert Present(w', userId, other);
    }
    if other :| other != sid && Present(w', userId, other) {
      assert Present(w, userId, other);
    }
  }

  lemma JoinSparesOthers(fails: Network, w: World, sid: int, userId: string, username: string, socket: Socket,
                         now: real)
    ensures var w' := Join(fails, w, sid, userId, username, socket, now).0;
            && sid in w'.rooms && OthersSpared(w, w', sid)
            && (ConnectedElsewhere(w', sid, userId) <==> ConnectedElsewhere(w, sid, userId))
  {
    SparedElsewhere(w, Join(fails, w, sid, userId, username, socket, now).0, sid, userId);
  }

  /** The user is registered in no session but `sid`. */
  predicate ClaimedBy(w: World, sid: int, userId: string) {
    userId in w.userSessions ==> w.userSessions[userId] == sid
  }

  lemma ClaimedIsNotTwoWay(w: World, sid: int, userId: string)
    requires ClaimedBy(w, sid, userId) && ConnectedElsewhere(w, sid, userId)
    ensures !TwoWay(w)
  {
  }

  lemma LeaveClaims(fails: Network, w: World, sid: int, userId: string)
    requires Inv(w) && sid in w.rooms
    ensures userId !in Leave(fails, w, sid, userId).userSessions
    ensures OthersSpared(w, Leave(fails, w, sid, userId), sid)
  {
    var events := LeaveReaches(fails, HubOf(w, sid), userId);
  }

  lemma AnnounceClaims(fails: Network, w: World, sid: int, message: Message, exclude: Option<string>, userId: string)
    requires Inv(w) && sid in w.rooms && ClaimedBy(w, sid, userId)
    ensures ClaimedBy(Announce(fails, w, sid, message, exclude), sid, userId)
  {
    var events := BroadcastReaches(fails, HubOf(w, sid), message, exclude);
  }

  lemma JoinClaims(fails: Network, w: World, sid: int, userId: string, username: string, socket: Socket, now: real)
    requires Inv(w)
    ensures var (w', outcome) := Join(fails, w, sid, userId, username, socket, now);
            outcome == Done ==> ClaimedBy(w', sid, userId)
  {
    var w1 := GetOrCreate(w, sid, "", now);
    GetOrCreateKeepsInv(w, sid, now);
    if |w1.rooms[sid].connections| < MAX_USERS_PER_SESSION {
      var w2 := Enter(w1, sid, userId, username, socket);
      EnterKeepsInv(w1, sid, userId, username, socket);
      AnnounceClaims(fails, w2, sid, UserJoined(userId, username, UserList(w2.rooms[sid].cursors)), None, userId);
    }
  }

  lemma ConnectClaims(fails: Network, w: World, sid: int, userId: string, username: string, socket: Socket, now: real)
    requires Inv(w)
    ensures var w' := Perform(fails, w, Connect(sid, userId, username, socket, now));
            && ClaimedBy(w', sid, userId)
            && (ConnectedElsewhere(w', sid, userId) <==> ConnectedElsewhere(w, sid, userId))
  {
    var (w1, outcome) := Join(fails, w, sid, userId, username, socket, now);
    JoinKeepsInv(fails, w, sid, userId, username, socket, now);
    JoinClaims(fails, w, sid, userId, username, socket, now);
    JoinSparesOthers(fails, w, sid, userId, username, socket, now);
    if outcome != Done {
      LeaveClaims(fails, w1, sid, userId);
      SparedElsewhere(w1, Leave(fails, w1, sid, userId), sid, userId);
    }
  }

  lemma ForeignBreaksTwoWay(fails: Network, w: World, step: Step)
    requires Inv(w) && Foreign(w, step)
    ensures !TwoWay(Perform(fails, w, step))
  {
    var w' := Perform(fails, w, step);
    if step.Connect? {
      ConnectClaims(fails, w, step.sid, step.userId, step.username, step.socket, step.now);
    } else {
      LeaveClaims(fails, w, step.sid, step.userId);
      SparedElsewhere(w, w', step.sid, step.userId);
    }
    ClaimedIsNotTwoWay(w', step.sid, step.userId);
  }

  /** On every network, a step keeps everybody registered where he is connected if and only
      if it is not foreign. */
  lemma StepKeepsTwoWayIffNotForeign(fails: Network, w: World, step: Step)
    requires Inv(w) && TwoWay(w)
    ensures TwoWay(Perform(fails, w, step)) <==> !Foreign(w, step)
  {
    if Foreign(w, step) {
      ForeignBreaksTwoWay(fails, w, step);
    } else {
      match step
      case Connect(sid, u, name, socket, now) => ConnectKeepsTwoWay(fails, w, sid, u, name, socket, now);
      case Disconnect(sid, u) => LeaveKeepsTwoWay(fails, w, sid, u);
      case Edit(sid, u, request, now) =>
        if sid in w.rooms {
          HandleOperationKeepsTwoWay(fails, w, sid, u, request, now);
        }
      case MoveCursor(sid, u, line, column, s, e) => UpdateCursorKeepsTwoWay(fails, w, sid, u, line, column, s, e);
      case CleanUp(now) => CleanupKeepsTwoWay(w, now);
    }
  }

  // ----- Runs -----

  /** Everybody is registered where he is connected, now and after every step. */
  ghost predicate AlwaysTwoWay(fails: Network, w: World, steps: seq<Step>)
    decreases |steps|
  {
    TwoWay(w) && (steps == [] || AlwaysTwoWay(fails, Perform(fails, w, steps[0]), steps[1..]))
  }

  ghost predicate NeverForeign(fails: Network, w: World, steps: seq<Step>)
    decreases |steps|
  {
    steps == [] || (!Foreign(w, steps[0]) && NeverForeign(fails, Perform(fails, w, steps[0]), steps[1..]))
  }

  /** In every run, on every network: everybody is registered where he is connected at every
      moment if and only if nobody who is connected in one session connects to another one or
      leaves another one. */
  lemma {:induction false} AlwaysTwoWayIffNeverForeign(fails: Network, w: World, steps: seq<Step>)
    requires Inv(w) && TwoWay(w)
    ensures AlwaysTwoWay(fails, w, steps) <==> NeverForeign(fails, w, steps)
    decreases |steps|
  {
    if steps != [] {
      StepKeepsTwoWayIffNotForeign(fails, w, steps[0]);
      if !Foreign(w, steps[0]) {
        PerformKeepsInv(fails, w, steps[0]);
        AlwaysTwoWayIffNeverForeign(fails, Perform(fails, w, steps[0]), steps[1..]);
      }
    }
  }

  lemma EmptyIsTwoWay()
    ensures Inv(EMPTY) && TwoWay(EMPTY)
  {
  }

  // ----- A run that loses a registration -----

  /** The network that delivers everything. */
  function Reliable(): Network {
    DeadParticipants.Unreachable({})
  }

  /** On a reliable network a join that finds room leaves the user connected. */
  lemma ReliableConnect(w: World, sid: int, userId: string, username: string, socket: Socket, now: real)
    requires Inv(w) && sid !in w.rooms
    ensures Present(Perform(Reliable(), w, Connect(sid, userId, username, socket, now)), userId, sid)
  {
    var w1 := GetOrCreate(w, sid, "", now);
    GetOrCreateKeepsInv(w, sid, now);
    var w2 := Enter(w1, sid, userId, username, socket);
    EnterKeepsInv(w1, sid, userId, username, socket);
    PutEntries(w1.rooms[sid].connections, userId, socket);
    var joined := UserJoined(userId, username, UserList(w2.rooms[sid].cursors));
    DeadParticipants.QuietBroadcast({}, HubOf(w2, sid), joined, None);
  }

  /** One user in two sessions: after leaving the second he is connected in the first, and
      registered nowhere. */
  lemma ConnectedButUnregistered()
    ensures var w := PerformAll(Reliable(), EMPTY, [Connect(1, "u", "U", 0, 0.0), Connect(2, "u", "U", 1, 0.0),
                                                    Disconnect(2, "u")]);
            Present(w, "u", 1) && "u" !in w.userSessions
  {
    var a, b, c := Connect(1, "u", "U", 0, 0.0), Connect(2, "u", "U", 1, 0.0), Disconnect(2, "u");
    var w1 := Perform(Reliable(), EMPTY, a);
    var w2 := Perform(Reliable(), w1, b);
    EmptyIsTwoWay();
    PerformKeepsInv(Reliable(), EMPTY, a);
    PerformKeepsInv(Reliable(), w1, b);
    ReliableConnect(EMPTY, 1, "u", "U", 0, 0.0);
    JoinSparesOthers(Reliable(), w1, 2, "u", "U", 1, 0.0);
    assert OthersSpared(w1, w2, 2);
    LeaveClaims(Reliable(), w2, 2, "u");
    assert PerformAll(Reliable(), EMPTY, [a, b, c]) == Perform(Reliable(), w2, c) by {
      ThreeSteps(EMPTY, a, b, c);
    }
  }

  lemma {:induction false} ThreeSteps(w: World, a: Step, b: Step, c: Step)
    ensures PerformAll(Reliable(), w, [a, b, c])
         == Perform(Reliable(), Perform(Reliable(), Perform(Reliable(), w, a), b), c)
  {
    assert [a, b, c][1..] == [b, c] && [b, c][1..] == [c] && [c][1..] == [];
    var w2 := Perform(Reliable(), Perform(Reliable(), w, a), b);
    assert PerformAll(Reliable(), w2, [c]) == PerformAll(Reliable(), Perform(Reliable(), w2, c), []);
  }
}
