/**
 Broadcasting to a session. `_broadcast_to_session` sends a message to every participant
 and then makes everyone whose send failed leave; `leave_session` broadcasts the departure,
 which may uncover further failures, and so on.

 The network is an arbitrary function: `fails(n, u)` says whether the send to user `u`
 that is the `n`-th event of the run raises an exception.
 */
module Broadcast {
  import opened OperationalTransform
  import opened OrderedDict

  type Socket = nat

  type Network = (nat, string) -> bool

  datatype CursorPosition = CursorPosition(
    userId: string, username: string, line: int, column: int,
    selectionStart: Option<int>, selectionEnd: Option<int>, color: string)

  datatype Message =
    | UserJoined(userId: string, username: string, users: seq<(string, string, string)>)
    | SessionState(content: string, revision: nat, cursors: seq<CursorPosition>)
    | UserLeft(userId: string, username: string)
    | OperationApplied(op: Operation, revision: nat)
    | CursorUpdate(cursor: CursorPosition)

  /** What can be observed from outside: a broadcast begins, a send succeeds or fails. */
  datatype Event =
    | Round(message: Message)
    | Sent(userId: string, socket: Socket, message: Message)
    | Failed(userId: string, socket: Socket, message: Message)

  /** The part of the service that broadcasting touches. */
  datatype Hub = Hub(
    connections: Dict<Socket>,
    cursors: Dict<CursorPosition>,
    userSessions: map<string, int>,
    wire: seq<Event>)

  const UNKNOWN := "Unknown"

  function NameOf(cursors: Dict<CursorPosition>, userId: string): string {
    match Lookup(cursors, userId)
    case Some(c) => c.username
    case None => UNKNOWN
  }

  /** One send, the `n`-th event of the run: what happens and who has to be disconnected. */
  function Attempt(fails: Network, n: nat, userId: string, socket: Socket, message: Message, exclude: Option<string>)
    : (seq<Event>, seq<string>)
  {
    if exclude == Some(userId) then ([], [])
    else if fails(n, userId) then ([Failed(userId, socket, message)], [userId])
    else ([Sent(userId, socket, message)], [])
  }

  /** One pass over the connections: the extended wire and the users to disconnect. */
  function SendAll(fails: Network, conns: Dict<Socket>, message: Message, exclude: Option<string>,
                   wire: seq<Event>, disconnected: seq<string>): (seq<Event>, seq<string>)
    decreases |conns|
  {
    if conns == [] then (wire, disconnected)
    else
      var (event, failed) := Attempt(fails, |wire|, conns[0].0, conns[0].1, message, exclude);
      SendAll(fails, conns[1..], message, exclude, wire + event, disconnected + failed)
  }

  lemma {:induction false} DisconnectedAreConnected(fails: Network, conns: Dict<Socket>, message: Message,
                                                    exclude: Option<string>, wire: seq<Event>,
                                                        disconnected: seq<string>)
    ensures var failed := SendAll(fails, conns, message, exclude, wire, disconnected).1;
            forall u :: u in failed ==> u in disconnected || u in KeySet(conns)
    decreases |conns|
  {
    if conns != [] {
      var (event, failed) := Attempt(fails, |wire|, conns[0].0, conns[0].1, message, exclude);
      KeySetHead(conns);
      DisconnectedAreConnected(fails, conns[1..], message, exclude, wire + event, disconnected + failed);
    }
  }

  function BroadcastToSession(fails: Network, hub: Hub, message: Message, exclude: Option<string>): (hub': Hub)
    ensures KeySet(hub'.connections) <= KeySet(hub.connections)
    decreases KeySet(hub.connections), 1, 0
  {
    var (wire, disconnected) := SendAll(fails, hub.connections, message, exclude, hub.wire + [Round(message)], []);
    DisconnectedAreConnected(fails, hub.connections, message, exclude, hub.wire + [Round(message)], []);
    LeaveAll(fails, hub.(wire := wire), disconnected, KeySet(hub.connections))
  }

  /** `present` are the users connected when the broadcast began. */
  function LeaveAll(fails: Network, hub: Hub, disconnected: seq<string>, ghost present: set<string>): (hub': Hub)
    requires KeySet(hub.connections) <= present
    requires forall u :: u in disconnected ==> u in present
    ensures KeySet(hub'.connections) <= KeySet(hub.connections)
    decreases present, 0, |disconnected|
  {
    if disconnected == [] then hub
    else
      WithoutKeys(hub.connections, {disconnected[0]});
      LeaveAll(fails, LeaveSession(fails, hub, disconnected[0]), disconnected[1..], present)
  }

  function Departed(hub: Hub, userId: string): Hub {
    hub.(connections := Pop(hub.connections, userId),
         cursors := Pop(hub.cursors, userId),
         userSessions := hub.userSessions - {userId})
  }

  function LeaveSession(fails: Network, hub: Hub, userId: string): (hub': Hub)
    ensures KeySet(hub'.connections) <= KeySet(hub.connections) - {userId}
    decreases KeySet(Pop(hub.connections, userId)), 2, 0
  {
    WithoutKeys(hub.connections, {userId});
    BroadcastToSession(fails, Departed(hub, userId), UserLeft(userId, NameOf(hub.cursors, userId)), Some(userId))
  }
}
