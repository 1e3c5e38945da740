/** What a join tells those who are there and the newcomer: who takes part, and where they are. */
module Arrivals {
  import opened OrderedDict
  import opened SessionLog
  import opened Broadcast
  import opened BroadcastOutcome
  import opened Collaboration
  import opened Registry
  import opened Presence

  /** Every cursor is filed under the user whose cursor it is. */
  ghost predicate Own(cursors: Dict<CursorPosition>) {
    forall e | e in cursors :: e.1.userId == e.0
  }

  ghost predicate AllOwn(w: World) {
    forall sid | sid in w.rooms :: Own(w.rooms[sid].cursors)
  }

  lemma {:induction false} WithoutStaysOwn(cursors: Dict<CursorPosition>, gone: set<string>)
    requires Own(cursors)
    ensures Own(Without(cursors, gone))
  {
    WithoutKeys(cursors, gone);
  }

  lemma AnnounceStaysOwn(fails: Network, w: World, sid: int, message: Message, exclude: Option<string>)
    requires Inv(w) && AllOwn(w) && sid in w.rooms
    ensures AllOwn(Announce(fails, w, sid, message, exclude))
  {
    var events := BroadcastReaches(fails, HubOf(w, sid), message, exclude);
    WithoutStaysOwn(w.rooms[sid].cursors, Failures(events));
  }

  lemma LeaveStaysOwn(fails: Network, w: World, sid: int, userId: string)
    requires Inv(w) && AllOwn(w)
    ensures AllOwn(Leave(fails, w, sid, userId))
  {
    if sid in w.rooms {
      var events := LeaveReaches(fails, HubOf(w, sid), userId);
      WithoutStaysOwn(w.rooms[sid].cursors, {userId} + Failures(events));
    }
  }

  lemma {:induction false} PutStaysOwn(cursors: Dict<CursorPosition>, userId: string, c: CursorPosition)
    requires Own(cursors) && Distinct(cursors) && c.userId == userId
    ensures Own(Put(cursors, userId, c))
  {
    PutEntries(cursors, userId, c);
  }

  lemma RoomStaysOwn(w: World, sid: int, room: Room)
    requires AllOwn(w) && Own(room.cursors)
    ensures AllOwn(w.(rooms := w.rooms[sid := room]))
  {
  }

  lemma EnterStaysOwn(w: World, sid: int, userId: string, username: string, socket: Socket)
    requires Inv(w) && AllOwn(w) && sid in w.rooms
    ensures AllOwn(Enter(w, sid, userId, username, socket))
  {
    var cursors := w.rooms[sid].cursors;
    PutStaysOwn(cursors, userId, CursorPosition(userId, username, 0, 0, None, None, COLORS[|cursors| % |COLORS|]));
  }

  /** The service with the newcomer, before anybody is told. */
  function WithNewcomer(w: World, sid: int, userId: string, username: string, socket: Socket, now: real): World {
    Enter(GetOrCreate(w, sid, "", now), sid, userId, username, socket)
  }

  /** The service when everybody has been told. */
  function Announced(fails: Network, w: World, sid: int, userId: string, username: string, socket: Socket,
                     now: real): World
  {
    var w2 := WithNewcomer(w, sid, userId, username, socket, now);
    Announce(fails, w2, sid, UserJoined(userId, username, UserList(w2.rooms[sid].cursors)), None)
  }

  lemma JoinInSteps(fails: Network, w: World, sid: int, userId: string, username: string, socket: Socket, now: real)
    ensures var (w', outcome) := Join(fails, w, sid, userId, username, socket, now);
            outcome != SessionFull ==>
              sid in Announced(fails, w, sid, userId, username, socket, now).rooms
              && (w', outcome) == Welcome(fails, Announced(fails, w, sid, userId, username, socket, now), sid, userId,
                                          socket)
  {
  }

  lemma NewcomerIsSound(w: World, sid: int, userId: string, username: string, socket: Socket, now: real)
    requires Inv(w) && AllOwn(w) && (sid in w.rooms ==> |w.rooms[sid].connections| < MAX_USERS_PER_SESSION)
    ensures var w2 := WithNewcomer(w, sid, userId, username, socket, now);
            Inv(w2) && AllOwn(w2) && sid in w2.rooms && w2.wire == w.wire
  {
    var w1 := GetOrCreate(w, sid, "", now);
    GetOrCreateKeepsInv(w, sid, now);
    EnterKeepsInv(w1, sid, userId, username, socket);
    EnterStaysOwn(w1, sid, userId, username, socket);
  }

  lemma NotRefused(fails: Network, w: World, sid: int, userId: string, username: string, socket: Socket, now: real)
    ensures Join(fails, w, sid, userId, username, socket, now).1 == SessionFull
       <==> sid in w.rooms && |w.rooms[sid].connections| >= MAX_USERS_PER_SESSION
  {
  }

  lemma JoinStaysOwn(fails: Network, w: World, sid: int, userId: string, username: string, socket: Socket, now: real)
    requires Inv(w) && AllOwn(w)
    ensures AllOwn(Join(fails, w, sid, userId, username, socket, now).0)
  {
    NotRefused(fails, w, sid, userId, username, socket, now);
    if Join(fails, w, sid, userId, username, socket, now).1 == SessionFull {
      RefusedIffTen(fails, w, sid, userId, username, socket, now);
    } else {
      var w2 := WithNewcomer(w, sid, userId, username, socket, now);
      NewcomerIsSound(w, sid, userId, username, socket, now);
      AnnounceStaysOwn(fails, w2, sid, UserJoined(userId, username, UserList(w2.rooms[sid].cursors)), None);
      JoinInSteps(fails, w, sid, userId, username, socket, now);
    }
  }

  lemma EditStaysOwn(fails: Network, w: World, sid: int, userId: string, request: Request, now: real)
    requires Inv(w) && AllOwn(w)
    ensures AllOwn(HandleOperation(fails, w, sid, userId, request, now).0)
  {
    if sid in w.rooms {
      var room := w.rooms[sid];
      var op := OperationOf(request, userId, room.doc.revision);
      SubmitReachable(room.doc, op);
      RoomChangeKeepsInv(w, sid, room.(doc := SessionLog.Submit(room.doc, op), lastActivity := now));
      AnnounceStaysOwn(fails, Edited(w, sid, op, now), sid,
                       OperationApplied(Integrated(room.doc, op), room.doc.revision + 1), Some(userId));
    }
  }

  lemma CursorStaysOwn(fails: Network, w: World, sid: int, userId: string, line: int, column: int,
                       selectionStart: Option<int>, selectionEnd: Option<int>)
    requires Inv(w) && AllOwn(w)
    ensures AllOwn(UpdateCursor(fails, w, sid, userId, line, column, selectionStart, selectionEnd))
  {
    if sid in w.rooms {
      var cursors := w.rooms[sid].cursors;
      LookupIffKey(cursors, userId);
      match Lookup(cursors, userId)
      case None =>
      case Some(c) =>
        var moved := c.(line := line, column := column, selectionStart := selectionStart, selectionEnd := selectionEnd);
        var room := w.rooms[sid].(cursors := Put(cursors, userId, moved));
        PutStaysOwn(cursors, userId, moved);
        RoomStaysOwn(w, sid, room);
        PutEntries(cursors, userId, moved);
        RoomChangeKeepsInv(w, sid, room);
        AnnounceStaysOwn(fails, w.(rooms := w.rooms[sid := room]), sid, CursorUpdate(moved.(userId := userId)),
                         Some(userId));
    }
  }

  lemma PerformStaysOwn(fails: Network, w: World, step: Step)
    requires Inv(w) && AllOwn(w)
    ensures AllOwn(Perform(fails, w, step))
  {
    match step
    case Connect(sid, u, name, socket, now) =>
      JoinKeepsInv(fails, w, sid, u, name, socket, now);
      JoinStaysOwn(fails, w, sid, u, name, socket, now);
      LeaveStaysOwn(fails, Join(fails, w, sid, u, name, socket, now).0, sid, u);
    case Disconnect(sid, u) => LeaveStaysOwn(fails, w, sid, u);
    case Edit(sid, u, request, now) =>
      HandleOperationKeepsInv(fails, w, sid, u, request, now);
      EditStaysOwn(fails, w, sid, u, request, now);
      LeaveStaysOwn(fails, HandleOperation(fails, w, sid, u, request, now).0, sid, u);
    case MoveCursor(sid, u, line, column, s, e) => CursorStaysOwn(fails, w, sid, u, line, column, s, e);
    case CleanUp(now) =>
  }

  /** In every run every cursor is filed under its own user. */
  lemma {:induction false} RunStaysOwn(fails: Network, w: World, steps: seq<Step>)
    requires Inv(w) && AllOwn(w)
    ensures AllOwn(PerformAll(fails, w, steps))
    decreases |steps|
  {
    if steps != [] {
      PerformKeepsInv(fails, w, steps[0]);
      PerformStaysOwn(fails, w, steps[0]);
      RunStaysOwn(fails, Perform(fails, w, steps[0]), steps[1..]);
    }
  }

  // ----- The lists -----

  /** One entry for each cursor, in order: id, name and colour. */
  ghost predicate ListsUsers(users: seq<(string, string, string)>, cursors: Dict<CursorPosition>) {
    && |users| == |cursors|
    && forall i :: 0 <= i < |cursors| ==> users[i] == (cursors[i].0, cursors[i].1.username, cursors[i].1.color)
  }

  /** One entry for each cursor, in order, with its place and colour and without its selection. */
  ghost predicate ListsCursors(shown: seq<CursorPosition>, cursors: Dict<CursorPosition>) {
    && |shown| == |cursors|
    && forall i :: 0 <= i < |cursors| ==>
         var c := cursors[i].1;
         shown[i] == CursorPosition(cursors[i].0, c.username, c.line, c.column, None, None, c.color)
  }

  lemma {:induction false} UserListLists(cursors: Dict<CursorPosition>)
    requires Own(cursors)
    ensures ListsUsers(UserList(cursors), cursors)
    decreases |cursors|
  {
    if cursors != [] {
      assert cursors[0] in cursors;
      UserListLists(cursors[1..]);
    }
  }

  lemma {:induction false} OtherCursorsLists(cursors: Dict<CursorPosition>, userId: string)
    requires Own(cursors)
    ensures ListsCursors(OtherCursors(cursors, userId), Pop(cursors, userId))
    decreases |cursors|
  {
    if cursors != [] {
      assert cursors[0] in cursors;
      OtherCursorsLists(cursors[1..], userId);
    }
  }

  /** The room as the newcomer finds it, and with his cursor, which stands at the origin in the
      colour of the next place. */
  ghost predicate Entered(before: Dict<CursorPosition>, after: Dict<CursorPosition>, userId: string, username: string) {
    exists color: string ::
      && after == Put(before, userId, CursorPosition(userId, username, 0, 0, None, None, color))
      && color == ["#ef4444", "#f97316", "#eab308", "#22c55e", "#14b8a6", "#3b82f6", "#8b5cf6",
                   "#ec4899"][|before| % 8]
  }

  lemma HearsOn(before: World, mid: World, after: World, userId: string, socket: Socket, message: Message)
    requires Hears(before, mid, userId, socket, message) && mid.wire <= after.wire
    ensures Hears(before, after, userId, socket, message)
  {
    var n, k := |before.wire|, |mid.wire|;
    ReceivedAppends(mid.wire[n..], after.wire[k..], userId, socket);
    assert after.wire[n..] == mid.wire[n..] + after.wire[k..];
  }

  /** The newcomer's cursor, and what everybody hears. */
  lemma ArrivalIsHeard(fails: Network, w: World, sid: int, userId: string, username: string, socket: Socket, now: real)
    requires Inv(w) && AllOwn(w) && (sid in w.rooms ==> |w.rooms[sid].connections| < MAX_USERS_PER_SESSION)
    ensures var w2 := WithNewcomer(w, sid, userId, username, socket, now);
            var w3 := Announced(fails, w, sid, userId, username, socket, now);
            && sid in w2.rooms && sid in w3.rooms && AllOwn(w3)
            && Entered(if sid in w.rooms then w.rooms[sid].cursors else [], w2.rooms[sid].cursors, userId, username)
            && w3.rooms[sid].doc == (if sid in w.rooms then w.rooms[sid].doc else Fresh(""))
            && forall e | e in w3.rooms[sid].connections ::
                 Hears(w, w3, e.0, e.1, UserJoined(userId, username, UserList(w2.rooms[sid].cursors)))
  {
    var w2 := WithNewcomer(w, sid, userId, username, socket, now);
    NewcomerIsSound(w, sid, userId, username, socket, now);
    var joined := UserJoined(userId, username, UserList(w2.rooms[sid].cursors));
    AnnounceIsHeard(fails, w2, sid, joined, None);
    AnnounceStaysOwn(fails, w2, sid, joined, None);
  }

  /** A join that is not refused tells everybody who is connected afterwards, the newcomer
      included, the newcomer's name and the list of all participants with him; then the newcomer
      is sent the text, its revision, and the cursors of the others who are still there. */
  lemma JoinTells(fails: Network, w: World, sid: int, userId: string, username: string, socket: Socket, now: real)
    returns (cursors: Dict<CursorPosition>, users: seq<(string, string, string)>, shown: seq<CursorPosition>)
    requires Inv(w) && AllOwn(w)
    requires Join(fails, w, sid, userId, username, socket, now).1 != SessionFull
    ensures var (w', outcome) := Join(fails, w, sid, userId, username, socket, now);
            var doc := if sid in w.rooms then w.rooms[sid].doc else Fresh("");
            var state := SessionState(doc.content, doc.revision, shown);
            && sid in w'.rooms && w'.rooms[sid].doc == doc
            && Entered(if sid in w.rooms then w.rooms[sid].cursors else [], cursors, userId, username)
            && ListsUsers(users, cursors)
            && ListsCursors(shown, Pop(w'.rooms[sid].cursors, userId))
            && (forall e | e in w'.rooms[sid].connections ::
                  Hears(w, w', e.0, e.1, UserJoined(userId, username, users)))
            && w'.wire != []
            && w'.wire[|w'.wire| - 1]
               == if outcome == Done then Sent(userId, socket, state) else Failed(userId, socket, state)
  {
    NotRefused(fails, w, sid, userId, username, socket, now);
    JoinInSteps(fails, w, sid, userId, username, socket, now);
    ArrivalIsHeard(fails, w, sid, userId, username, socket, now);
    NewcomerIsSound(w, sid, userId, username, socket, now);
    var w2 := WithNewcomer(w, sid, userId, username, socket, now);
    var w3 := Announced(fails, w, sid, userId, username, socket, now);
    var w' := Join(fails, w, sid, userId, username, socket, now).0;
    cursors := w2.rooms[sid].cursors;
    users := UserList(cursors);
    UserListLists(cursors);
    shown := OtherCursors(w3.rooms[sid].cursors, userId);
    OtherCursorsLists(w3.rooms[sid].cursors, userId);
    forall e | e in w3.rooms[sid].connections ensures Hears(w, w', e.0, e.1, UserJoined(userId, username, users)) {
      HearsOn(w, w3, w', e.0, e.1, UserJoined(userId, username, users));
    }
  }
}
