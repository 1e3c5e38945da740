/**
 The collaboration service as a state machine: sessions, their participants and cursors,
 and the messages on the wire. Every handler is one atomic step.
 */
module Collaboration {
  import opened OperationalTransform
  import opened OrderedDict
  import opened SessionLog
  import opened Broadcast

  const MAX_USERS_PER_SESSION := 10
  const SESSION_TIMEOUT_SECONDS := 3600.0
  const COLORS := ["#ef4444", "#f97316", "#eab308", "#22c55e", "#14b8a6", "#3b82f6", "#8b5cf6", "#ec4899"]

  datatype Room = Room(doc: Document, connections: Dict<Socket>, cursors: Dict<CursorPosition>, lastActivity: real)

  datatype World = World(rooms: map<int, Room>, userSessions: map<string, int>, wire: seq<Event>)

  const EMPTY := World(map[], map[], [])

  /** An edit as it arrives; the revision is optional. */
  datatype Request = Request(kind: OperationType, position: int, content: string, length: int, revision: Option<int>)

  datatype Outcome = Done | SessionFull | SendFailed | SessionNotFound

  function HubOf(w: World, sid: int): Hub
    requires sid in w.rooms
  {
    Hub(w.rooms[sid].connections, w.rooms[sid].cursors, w.userSessions, w.wire)
  }

  function WithHub(w: World, sid: int, hub: Hub): World
    requires sid in w.rooms
  {
    World(w.rooms[sid := w.rooms[sid].(connections := hub.connections, cursors := hub.cursors)],
          hub.userSessions, hub.wire)
  }

  function Announce(fails: Network, w: World, sid: int, message: Message, exclude: Option<string>): World
    requires sid in w.rooms
  {
    WithHub(w, sid, BroadcastToSession(fails, HubOf(w, sid), message, exclude))
  }

  function GetOrCreate(w: World, sid: int, content: string, now: real): World {
    if sid in w.rooms then w else w.(rooms := w.rooms[sid := Room(Fresh(content), [], [], now)])
  }

  /** The entries of the `users` list: id, name and colour of each cursor. */
  function UserList(cursors: Dict<CursorPosition>): seq<(string, string, string)> {
    if cursors == [] then []
    else [(cursors[0].1.userId, cursors[0].1.username, cursors[0].1.color)] + UserList(cursors[1..])
  }

  /** The cursors of the others, without their selections. */
  function OtherCursors(cursors: Dict<CursorPosition>, userId: string): seq<CursorPosition> {
    if cursors == [] then []
    else if cursors[0].1.userId == userId then OtherCursors(cursors[1..], userId)
    else [cursors[0].1.(selectionStart := None, selectionEnd := None)] + OtherCursors(cursors[1..], userId)
  }

  /** The new participant is registered, with a cursor at the origin. */
  function Enter(w: World, sid: int, userId: string, username: string, socket: Socket): World
    requires sid in w.rooms
  {
    var room := w.rooms[sid];
    var cursor := CursorPosition(userId, username, 0, 0, None, None, COLORS[|room.cursors| % |COLORS|]);
    World(w.rooms[sid := room.(connections := Put(room.connections, userId, socket),
                               cursors := Put(room.cursors, userId, cursor))],
          w.userSessions[userId := sid], w.wire)
  }

  /** The state message of a room, as sent to `userId`. */
  function StateMessage(room: Room, userId: string): Message {
    SessionState(room.doc.content, room.doc.revision, OtherCursors(room.cursors, userId))
  }

  function Welcome(fails: Network, w: World, sid: int, userId: string, socket: Socket): (World, Outcome)
    requires sid in w.rooms
  {
    var state := StateMessage(w.rooms[sid], userId);
    if fails(|w.wire|, userId) then (w.(wire := w.wire + [Failed(userId, socket, state)]), SendFailed)
    else (w.(wire := w.wire + [Sent(userId, socket, state)]), Done)
  }

  function Join(fails: Network, w: World, sid: int, userId: string, username: string, socket: Socket,
                now: real)
    : (World, Outcome)
  {
    var w1 := GetOrCreate(w, sid, "", now);
    if |w1.rooms[sid].connections| >= MAX_USERS_PER_SESSION then (w1, SessionFull)
    else
      var w2 := Enter(w1, sid, userId, username, socket);
      var joined := UserJoined(userId, username, UserList(w2.rooms[sid].cursors));
      Welcome(fails, Announce(fails, w2, sid, joined, None), sid, userId, socket)
  }

  function Leave(fails: Network, w: World, sid: int, userId: string): World {
    if sid !in w.rooms then w
    else WithHub(w, sid, LeaveSession(fails, HubOf(w, sid), userId))
  }

  function OperationOf(request: Request, userId: string, revision: nat): Operation {
    Operation(request.kind, request.position, request.content, request.length, userId,
              if request.revision.Some? then request.revision.value else revision)
  }

  /** The room after an edit, before anybody is told. */
  function Edited(w: World, sid: int, op: Operation, now: real): World
    requires sid in w.rooms
  {
    var room := w.rooms[sid];
    w.(rooms := w.rooms[sid := room.(doc := SessionLog.Submit(room.doc, op), lastActivity := now)])
  }

  function HandleOperation(fails: Network, w: World, sid: int, userId: string, request: Request, now: real)
    : (World, Outcome)
  {
    if sid !in w.rooms then (w, SessionNotFound)
    else
      var doc := w.rooms[sid].doc;
      var op := OperationOf(request, userId, doc.revision);
      var message := OperationApplied(Integrated(doc, op), doc.revision + 1);
      (Announce(fails, Edited(w, sid, op, now), sid, message, Some(userId)), Done)
  }

  function UpdateCursor(fails: Network, w: World, sid: int, userId: string, line: int, column: int,
                        selectionStart: Option<int>, selectionEnd: Option<int>): World {
    if sid !in w.rooms then w
    else
      match Lookup(w.rooms[sid].cursors, userId)
      case None => w
      case Some(cursor) =>
        var moved := cursor.(line := line, column := column, selectionStart := selectionStart,
                             selectionEnd := selectionEnd);
        var room := w.rooms[sid].(cursors := Put(w.rooms[sid].cursors, userId, moved));
        Announce(fails, w.(rooms := w.rooms[sid := room]), sid, CursorUpdate(moved.(userId := userId)), Some(userId))
  }

  predicate Inactive(room: Room, now: real) {
    now - room.lastActivity > SESSION_TIMEOUT_SECONDS && room.connections == []
  }

  function Cleanup(w: World, now: real): World {
    w.(rooms := map sid | sid in w.rooms && !Inactive(w.rooms[sid], now) :: w.rooms[sid])
  }

  /** What happens to the service: a socket connects, its handler ends, an edit or a cursor
      message arrives on it, or the clean-up task runs. */
  datatype Step =
    | Connect(sid: int, userId: string, username: string, socket: Socket, now: real)
    | Disconnect(sid: int, userId: string)
    | Edit(sid: int, userId: string, request: Request, now: real)
    | MoveCursor(sid: int, userId: string, line: int, column: int, selectionStart: Option<int>,
                 selectionEnd: Option<int>)
    | CleanUp(now: real)

  /** A handler whose join fails leaves the session again, and so does one whose edit finds
      no session. */
  function Perform(fails: Network, w: World, step: Step): World {
    match step
    case Connect(sid, u, name, socket, now) =>
      var (w', outcome) := Join(fails, w, sid, u, name, socket, now);
      if outcome == Done then w' else Leave(fails, w', sid, u)
    case Disconnect(sid, u) => Leave(fails, w, sid, u)
    case Edit(sid, u, request, now) =>
      var (w', outcome) := HandleOperation(fails, w, sid, u, request, now);
      if outcome == Done then w' else Leave(fails, w', sid, u)
    case MoveCursor(sid, u, line, column, s, e) => UpdateCursor(fails, w, sid, u, line, column, s, e)
    case CleanUp(now) => Cleanup(w, now)
  }

  function PerformAll(fails: Network, w: World, steps: seq<Step>): World
    decreases |steps|
  {
    if steps == [] then w else PerformAll(fails, Perform(fails, w, steps[0]), steps[1..])
  }
}
