/** The session objects of the collaboration service and the handlers that update them. */
module CollaborationManagers {
  import opened OperationalTransform
  import opened OrderedDict
  import opened CatchUp
  import opened SessionLog
  import opened Broadcast
  import opened Collaboration

  class CollaborationSession {
    const scriptId: int
    var content: string
    var revision: nat
    var connections: Dict<Socket>
    var cursors: Dict<CursorPosition>
    var history: seq<Operation>
    var lastActivity: real

    constructor (scriptId: int, content: string, now: real)
      ensures this.scriptId == scriptId
      ensures Value() == Room(Fresh(content), [], [], now)
    {
      this.scriptId := scriptId;
      this.content := content;
      revision := 0;
      connections, cursors, history := [], [], [];
      lastActivity := now;
    }

    ghost function Value(): Room
      reads this
    {
      Room(Document(content, revision, history), connections, cursors, lastActivity)
    }
  }

  lemma WithHubTwice(w: World, sid: int, a: Hub, b: Hub)
    requires sid in w.rooms
    ensures WithHub(WithHub(w, sid, a), sid, b) == WithHub(w, sid, b)
  {
  }

  lemma {:induction false} LeaveOnHub(fails: Network, w: World, sid: int, hub: Hub, userId: string)
    requires sid in w.rooms
    ensures Leave(fails, WithHub(w, sid, hub), sid, userId)
         == WithHub(w, sid, Broadcast.LeaveSession(fails, hub, userId))
  {
  }

  lemma LeaveAnnouncesDeparture(fails: Network, w: World, sid: int, userId: string)
    requires sid in w.rooms
    ensures Leave(fails, w, sid, userId)
         == Announce(fails, WithHub(w, sid, Departed(HubOf(w, sid), userId)), sid,
                     UserLeft(userId, NameOf(w.rooms[sid].cursors, userId)), Some(userId))
  {
  }

  class CollaborationManager {
    var sessions: map<int, CollaborationSession>
    var userSessions: map<string, int>
    /** Stands for the network: what has been sent so far, and which sends fail. */
    var wire: seq<Event>
    const fails: Network

    constructor (fails: Network)
      ensures this.fails == fails && Valid() && Value() == EMPTY
    {
      this.fails := fails;
      sessions, userSessions, wire := map[], map[], [];
      new;
      assert Value().rooms == map[];
    }

    /** Sessions are filed under their own script id, so no two entries are one object. */
    ghost predicate Valid()
      reads this, sessions.Values
    {
      forall sid :: sid in sessions ==> sessions[sid].scriptId == sid
    }

    ghost function Value(): World
      reads this, sessions.Values
    {
      World(map sid | sid in sessions :: sessions[sid].Value(), userSessions, wire)
    }

    /** Changing one session object changes one room. */
    twostate lemma OneRoomChanged(session: CollaborationSession)
      requires old(Valid()) && sessions == old(sessions)
      requires session.scriptId in sessions && sessions[session.scriptId] == session
      requires forall other :: other in sessions.Values && other != session ==> unchanged(other)
      ensures Valid()
      ensures Value() == World(old(Value()).rooms[session.scriptId := session.Value()], userSessions, wire)
    {
      var rooms := old(Value()).rooms[session.scriptId := session.Value()];
      assert Value().rooms.Keys == rooms.Keys;
      forall sid | sid in rooms ensures Value().rooms[sid] == rooms[sid] {
        if sid != session.scriptId {
          assert sessions[sid] in sessions.Values && sessions[sid] != session;
        }
      }
      assert Value().rooms == rooms;
    }

    method GetOrCreateSession(scriptId: int, initialContent: string, now: real) returns (session: CollaborationSession)
      requires Valid()
      modifies this`sessions
      ensures Valid() && scriptId in sessions && sessions[scriptId] == session
      ensures forall sid :: sid in old(sessions) ==> sid in sessions && sessions[sid] == old(sessions)[sid]
      ensures old(scriptId !in sessions) ==>
        fresh(session) && session.Value() == Room(Document(initialContent, 0, []), [], [], now)
      ensures Value() == GetOrCreate(old(Value()), scriptId, initialContent, now)
    {
      if scriptId !in sessions {
        var created := new CollaborationSession(scriptId, initialContent, now);
        sessions := sessions[scriptId := created];
        assert Value().rooms == GetOrCreate(old(Value()), scriptId, initialContent, now).rooms;
      }
      session := sessions[scriptId];
    }

    /** The first loop of the broadcast: one send to every participant but `exclude`. */
    method SendToAll(connections: Dict<Socket>, message: Message, exclude: Option<string>)
      returns (disconnected: seq<string>)
      modifies this`wire
      ensures (wire, disconnected) == SendAll(fails, connections, message, exclude, old(wire), [])
    {
      disconnected := [];
      for i := 0 to |connections|
        invariant SendAll(fails, connections[i..], message, exclude, wire, disconnected)
               == SendAll(fails, connections, message, exclude, old(wire), [])
      {
        var (userId, socket) := connections[i];
        assert connections[i..][1..] == connections[i + 1..];
        assert wire + [] == wire && disconnected + [] == disconnected;
        if exclude == Some(userId) {
          continue;
        }
        if fails(|wire|, userId) {
          wire := wire + [Failed(userId, socket, message)];
          disconnected := disconnected + [userId];
        } else {
          wire := wire + [Sent(userId, socket, message)];
        }
      }
    }

    method BroadcastToSession(session: CollaborationSession, message: Message, exclude: Option<string>)
      requires Valid() && session.scriptId in sessions && sessions[session.scriptId] == session
      modifies this`userSessions, this`wire, session
      ensures Valid()
      ensures Value() == Announce(fails, old(Value()), session.scriptId, message, exclude)
      decreases KeySet(session.connections), 1, 0
    {
      wire := wire + [Round(message)];
      ghost var announced := wire;
      var disconnected := SendToAll(session.connections, message, exclude);
      DisconnectedAreConnected(fails, session.connections, message, exclude, announced, []);
      ghost var sent := Hub(session.connections, session.cursors, userSessions, wire);
      assert Value() == WithHub(old(Value()), session.scriptId, sent);
      DisconnectAll(session, disconnected, KeySet(session.connections));
      WithHubTwice(old(Value()), session.scriptId, sent,
                   LeaveAll(fails, sent, disconnected, KeySet(old(session.connections))));
    }

    /** The second loop of the broadcast: everybody whose send failed leaves. */
    method DisconnectAll(session: CollaborationSession, disconnected: seq<string>, ghost present: set<string>)
      requires Valid() && session.scriptId in sessions && sessions[session.scriptId] == session
      requires KeySet(session.connections) <= present && forall u :: u in disconnected ==> u in present
      modifies this`userSessions, this`wire, session
      ensures Valid()
      ensures Value() == WithHub(old(Value()), session.scriptId,
                                 LeaveAll(fails, HubOf(old(Value()), session.scriptId), disconnected, present))
      decreases present, 0, |disconnected|
    {
      ghost var sid := session.scriptId;
      ghost var before := Value();
      ghost var hub := HubOf(before, sid);
      assert WithHub(before, sid, hub) == before;
      for j := 0 to |disconnected|
        invariant Valid()
        invariant KeySet(hub.connections) <= present
        invariant Value() == WithHub(before, sid, hub)
        invariant LeaveAll(fails, hub, disconnected[j..], present)
               == LeaveAll(fails, HubOf(before, sid), disconnected, present)
      {
        assert disconnected[j..][1..] == disconnected[j + 1..];
        WithoutKeys(hub.connections, {disconnected[j]});
        assert Value().rooms[sid].connections == hub.connections;
        LeaveSession(session.scriptId, disconnected[j]);
        LeaveOnHub(fails, before, sid, hub, disconnected[j]);
        hub := Broadcast.LeaveSession(fails, hub, disconnected[j]);
      }
    }

    method LeaveSession(scriptId: int, userId: string)
      requires Valid()
      modifies this`userSessions, this`wire, if scriptId in sessions then {sessions[scriptId]} else {}
      ensures Valid()
      ensures Value() == Leave(fails, old(Value()), scriptId, userId)
      decreases if scriptId in sessions then KeySet(Pop(sessions[scriptId].connections, userId)) else {}, 2, 0
    {
      if scriptId !in sessions {
        return;
      }
      var session := sessions[scriptId];
      var name := NameOf(session.cursors, userId);
      LeaveAnnouncesDeparture(fails, Value(), scriptId, userId);
      session.connections := Pop(session.connections, userId);
      session.cursors := Pop(session.cursors, userId);
      userSessions := userSessions - {userId};
      OneRoomChanged(session);
      BroadcastToSession(session, UserLeft(userId, name), Some(userId));
    }

    method SendState(session: CollaborationSession, userId: string, socket: Socket) returns (outcome: Outcome)
      requires Valid() && session.scriptId in sessions && sessions[session.scriptId] == session
      modifies this`wire
      ensures Valid()
      ensures (Value(), outcome) == Welcome(fails, old(Value()), session.scriptId, userId, socket)
    {
      var state := SessionState(session.content, session.revision, OtherCursors(session.cursors, userId));
      if fails(|wire|, userId) {
        wire := wire + [Failed(userId, socket, state)];
        outcome := SendFailed;
      } else {
        wire := wire + [Sent(userId, socket, state)];
        outcome := Done;
      }
      assert Value().rooms == old(Value()).rooms;
    }

    method JoinSession(scriptId: int, userId: string, username: string, socket: Socket, now: real)
      returns (outcome: Outcome)
      requires Valid()
      modifies this, if scriptId in sessions then {sessions[scriptId]} else {}
      ensures Valid()
      ensures (Value(), outcome) == Join(fails, old(Value()), scriptId, userId, username, socket, now)
    {
      var session := GetOrCreateSession(scriptId, "", now);
      if |session.connections| >= MAX_USERS_PER_SESSION {
        outcome := SessionFull;
        return;
      }
      Register(session, userId, username, socket);
      BroadcastToSession(session, UserJoined(userId, username, UserList(session.cursors)), None);
      outcome := SendState(session, userId, socket);
    }

    method Register(session: CollaborationSession, userId: string, username: string, socket: Socket)
      requires Valid() && session.scriptId in sessions && sessions[session.scriptId] == session
      modifies this`userSessions, session
      ensures Valid()
      ensures Value() == Enter(old(Value()), session.scriptId, userId, username, socket)
    {
      session.connections := Put(session.connections, userId, socket);
      userSessions := userSessions[userId := session.scriptId];
      var color := COLORS[|session.cursors| % |COLORS|];
      session.cursors := Put(session.cursors, userId, CursorPosition(userId, username, 0, 0, None, None, color));
      OneRoomChanged(session);
    }

    /** The catch-up loop, the edit, the numbering, the trimming and the broadcast. */
    method HandleOperation(scriptId: int, userId: string, request: Request, now: real) returns (outcome: Outcome)
      requires Valid()
      modifies this`userSessions, this`wire, if scriptId in sessions then {sessions[scriptId]} else {}
      ensures Valid()
      ensures (Value(), outcome) == Collaboration.HandleOperation(fails, old(Value()), scriptId, userId, request, now)
    {
      if scriptId !in sessions {
        return SessionNotFound;
      }
      var session := sessions[scriptId];
      var submitted := OperationOf(request, userId, session.revision);
      var operation := IntegrateEdit(session, submitted, now);
      OneRoomChanged(session);
      BroadcastToSession(session, OperationApplied(operation, session.revision), Some(userId));
      outcome := Done;
    }

    method IntegrateEdit(session: CollaborationSession, submitted: Operation, now: real) returns (operation: Operation)
      modifies session
      ensures session.Value() == old(session.Value()).(doc := Submit(old(session.Value().doc), submitted),
                                                       lastActivity := now)
      ensures operation == Integrated(old(session.Value().doc), submitted)
    {
      operation := submitted;
      if operation.revision < session.revision {
        var missed := Drop(session.history, operation.revision);
        for i := 0 to |missed|
          invariant Rebase(operation, missed[i..]) == Rebase(submitted, missed)
        {
          assert missed[i..][1..] == missed[i + 1..];
          operation := Transform(operation, missed[i]).0;
        }
      }
      session.content := Apply(session.content, operation);
      session.revision := session.revision + 1;
      operation := operation.(revision := session.revision);
      session.history := session.history + [operation];
      session.lastActivity := now;
      if |session.history| > HISTORY_LIMIT {
        session.history := Drop(session.history, -HISTORY_KEPT);
      }
    }

    method UpdateCursor(scriptId: int, userId: string, line: int, column: int,
                        selectionStart: Option<int>, selectionEnd: Option<int>)
      requires Valid()
      modifies this`userSessions, this`wire, if scriptId in sessions then {sessions[scriptId]} else {}
      ensures Valid()
      ensures Value() == Collaboration.UpdateCursor(fails, old(Value()), scriptId, userId, line, column,
                                                    selectionStart, selectionEnd)
    {
      if scriptId !in sessions {
        return;
      }
      var session := sessions[scriptId];
      match Lookup(session.cursors, userId)
      case None =>
      case Some(cursor) =>
        var moved := cursor.(line := line, column := column, selectionStart := selectionStart,
                             selectionEnd := selectionEnd);
        session.cursors := Put(session.cursors, userId, moved);
        OneRoomChanged(session);
        BroadcastToSession(session, CursorUpdate(moved.(userId := userId)), Some(userId));
    }

    method CleanupInactiveSessions(now: real)
      requires Valid()
      modifies this`sessions
      ensures Valid()
      ensures Value() == Cleanup(old(Value()), now)
    {
      var inactive := set sid | sid in sessions &&
        now - sessions[sid].lastActivity > SESSION_TIMEOUT_SECONDS && sessions[sid].connections == [];
      sessions := sessions - inactive;
      ghost var rooms := Cleanup(old(Value()), now).rooms;
      forall sid ensures sid in sessions <==> sid in rooms {
        if sid in old(sessions) {
          assert old(Value()).rooms[sid] == old(sessions[sid].Value());
        }
      }
      assert Value().rooms.Keys == rooms.Keys;
      assert forall sid :: sid in rooms ==> Value().rooms[sid] == rooms[sid];
      assert Value().rooms == rooms;
    }
  }
}
