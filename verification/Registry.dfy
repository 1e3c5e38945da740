/** What every step of the collaboration service keeps. */
module Registry {
  import opened OperationalTransform
  import opened OrderedDict
  import opened SessionLog
  import opened Broadcast
  import opened BroadcastOutcome
  import opened Collaboration

  ghost predicate Reachable(doc: Document) {
    exists subs: seq<Operation> :: doc == Run("", subs)
  }

  ghost predicate RoomInv(room: Room) {
    && Distinct(room.connections) && Distinct(room.cursors)
    && KeySet(room.connections) == KeySet(room.cursors)
    && |room.connections| <= MAX_USERS_PER_SESSION
    && Reachable(room.doc)
  }

  ghost predicate Present(w: World, userId: string, sid: int) {
    sid in w.rooms && userId in KeySet(w.rooms[sid].connections)
  }

  /** Connections and cursors have the same keys and at most ten of them, the document is the
      outcome of a run of submissions, and a user's session is one he is connected in. */
  ghost predicate Inv(w: World) {
    && (forall sid :: sid in w.rooms ==> RoomInv(w.rooms[sid]))
    && (forall u :: u in w.userSessions ==> Present(w, u, w.userSessions[u]))
  }

  lemma ClearedRoom(room: Room, hub: Hub, hub': Hub, gone: set<string>)
    requires RoomInv(room) && hub.connections == room.connections && hub.cursors == room.cursors
    requires Cleared(hub, hub', gone)
    ensures RoomInv(room.(connections := hub'.connections, cursors := hub'.cursors))
  {
    WithoutDistinct(room.connections, gone);
    WithoutDistinct(room.cursors, gone);
    WithoutKeys(room.connections, gone);
    WithoutKeys(room.cursors, gone);
    WithoutLength(room.connections, gone);
  }

  lemma ClearedKeepsInv(w: World, sid: int, hub': Hub, gone: set<string>)
    requires Inv(w) && sid in w.rooms && Cleared(HubOf(w, sid), hub', gone)
    ensures Inv(WithHub(w, sid, hub'))
  {
    var w' := WithHub(w, sid, hub');
    ClearedRoom(w.rooms[sid], HubOf(w, sid), hub', gone);
    WithoutKeys(w.rooms[sid].connections, gone);
    forall u | u in w'.userSessions ensures Present(w', u, w'.userSessions[u]) {
      assert Present(w, u, w.userSessions[u]);
    }
  }

  lemma AnnounceKeepsInv(fails: Network, w: World, sid: int, message: Message, exclude: Option<string>)
    requires Inv(w) && sid in w.rooms
    ensures Inv(Announce(fails, w, sid, message, exclude))
  {
    var events := BroadcastReaches(fails, HubOf(w, sid), message, exclude);
    ClearedKeepsInv(w, sid, BroadcastToSession(fails, HubOf(w, sid), message, exclude), Failures(events));
  }

  lemma LeaveKeepsInv(fails: Network, w: World, sid: int, userId: string)
    requires Inv(w)
    ensures Inv(Leave(fails, w, sid, userId))
  {
    if sid in w.rooms {
      var events := LeaveReaches(fails, HubOf(w, sid), userId);
      ClearedKeepsInv(w, sid, LeaveSession(fails, HubOf(w, sid), userId), {userId} + Failures(events));
    }
  }

  lemma RoomChangeKeepsInv(w: World, sid: int, room: Room)
    requires Inv(w) && sid in w.rooms && RoomInv(room)
    requires KeySet(w.rooms[sid].connections) <= KeySet(room.connections)
    ensures Inv(w.(rooms := w.rooms[sid := room]))
  {
  }

  lemma GetOrCreateKeepsInv(w: World, sid: int, now: real)
    requires Inv(w)
    ensures Inv(GetOrCreate(w, sid, "", now))
  {
    var w' := GetOrCreate(w, sid, "", now);
    if sid !in w.rooms {
      assert Fresh("") == Run("", []);
      assert RoomInv(w'.rooms[sid]);
      forall u | u in w'.userSessions ensures Present(w', u, w'.userSessions[u]) {
        assert Present(w, u, w.userSessions[u]);
      }
    }
  }

  lemma EnterKeepsInv(w: World, sid: int, userId: string, username: string, socket: Socket)
    requires Inv(w) && sid in w.rooms && |w.rooms[sid].connections| < MAX_USERS_PER_SESSION
    ensures Inv(Enter(w, sid, userId, username, socket))
  {
    var room, w' := w.rooms[sid], Enter(w, sid, userId, username, socket);
    PutEntries(room.connections, userId, socket);
    PutLength(room.connections, userId, socket);
    PutEntries(room.cursors, userId, CursorPosition(userId, username, 0, 0, None, None,
                                                    COLORS[|room.cursors| % |COLORS|]));
    assert RoomInv(w'.rooms[sid]);
    forall u | u in w'.userSessions ensures Present(w', u, w'.userSessions[u]) {
      if u != userId {
        assert Present(w, u, w.userSessions[u]);
      }
    }
  }

  lemma JoinKeepsInv(fails: Network, w: World, sid: int, userId: string, username: string, socket: Socket, now: real)
    requires Inv(w)
    ensures Inv(Join(fails, w, sid, userId, username, socket, now).0)
  {
    var w1 := GetOrCreate(w, sid, "", now);
    GetOrCreateKeepsInv(w, sid, now);
    if |w1.rooms[sid].connections| < MAX_USERS_PER_SESSION {
      var w2 := Enter(w1, sid, userId, username, socket);
      EnterKeepsInv(w1, sid, userId, username, socket);
      var joined := UserJoined(userId, username, UserList(w2.rooms[sid].cursors));
      AnnounceKeepsInv(fails, w2, sid, joined, None);
      var w3 := Announce(fails, w2, sid, joined, None);
      var w4 := Welcome(fails, w3, sid, userId, socket).0;
      forall u | u in w4.userSessions ensures Present(w4, u, w4.userSessions[u]) {
        assert Present(w3, u, w3.userSessions[u]);
      }
    }
  }

  lemma SubmitReachable(doc: Document, op: Operation)
    requires Reachable(doc)
    ensures Reachable(SessionLog.Submit(doc, op))
  {
    var subs :| doc == Run("", subs);
    LogAppends("", subs, op);
  }

  lemma HandleOperationKeepsInv(fails: Network, w: World, sid: int, userId: string, request: Request, now: real)
    requires Inv(w)
    ensures Inv(HandleOperation(fails, w, sid, userId, request, now).0)
  {
    if sid in w.rooms {
      var room := w.rooms[sid];
      var op := OperationOf(request, userId, room.doc.revision);
      SubmitReachable(room.doc, op);
      RoomChangeKeepsInv(w, sid, room.(doc := SessionLog.Submit(room.doc, op), lastActivity := now));
      AnnounceKeepsInv(fails, Edited(w, sid, op, now), sid,
                       OperationApplied(Integrated(room.doc, op), room.doc.revision + 1), Some(userId));
    }
  }

  lemma UpdateCursorKeepsInv(fails: Network, w: World, sid: int, userId: string, line: int, column: int,
                             selectionStart: Option<int>, selectionEnd: Option<int>)
    requires Inv(w)
    ensures Inv(UpdateCursor(fails, w, sid, userId, line, column, selectionStart, selectionEnd))
  {
    if sid in w.rooms && Lookup(w.rooms[sid].cursors, userId).Some? {
      var cursor := Lookup(w.rooms[sid].cursors, userId).value;
      var moved := cursor.(line := line, column := column, selectionStart := selectionStart,
                           selectionEnd := selectionEnd);
      var room := w.rooms[sid].(cursors := Put(w.rooms[sid].cursors, userId, moved));
      LookupIffKey(w.rooms[sid].cursors, userId);
      PutEntries(w.rooms[sid].cursors, userId, moved);
      RoomChangeKeepsInv(w, sid, room);
      AnnounceKeepsInv(fails, w.(rooms := w.rooms[sid := room]), sid, CursorUpdate(moved.(userId := userId)),
                       Some(userId));
    }
  }

  /** Clean-up drops no session that anybody is connected in. */
  lemma CleanupKeepsInv(w: World, now: real)
    requires Inv(w)
    ensures Inv(Cleanup(w, now))
    ensures forall sid :: sid in w.rooms && sid !in Cleanup(w, now).rooms ==> w.rooms[sid].connections == []
  {
  }

  lemma PerformKeepsInv(fails: Network, w: World, step: Step)
    requires Inv(w)
    ensures Inv(Perform(fails, w, step))
  {
    match step
    case Connect(sid, u, name, socket, now) =>
      JoinKeepsInv(fails, w, sid, u, name, socket, now);
      LeaveKeepsInv(fails, Join(fails, w, sid, u, name, socket, now).0, sid, u);
    case Disconnect(sid, u) => LeaveKeepsInv(fails, w, sid, u);
    case Edit(sid, u, request, now) =>
      HandleOperationKeepsInv(fails, w, sid, u, request, now);
      LeaveKeepsInv(fails, HandleOperation(fails, w, sid, u, request, now).0, sid, u);
    case MoveCursor(sid, u, line, column, s, e) => UpdateCursorKeepsInv(fails, w, sid, u, line, column, s, e);
    case CleanUp(now) => CleanupKeepsInv(w, now);
  }

  lemma EmptyHasInv()
    ensures Inv(EMPTY)
  {
  }

  /** The registry invariant holds after every run of the service, on every network. */
  lemma {:induction false} RunKeepsInv(fails: Network, w: World, steps: seq<Step>)
    requires Inv(w)
    ensures Inv(PerformAll(fails, w, steps))
    decreases |steps|
  {
    if steps != [] {
      PerformKeepsInv(fails, w, steps[0]);
      RunKeepsInv(fails, Perform(fails, w, steps[0]), steps[1..]);
    }
  }
}
