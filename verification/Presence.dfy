/**
 What the participants of a session are told, field by field: edits, cursors, arrivals and
 departures; who is refused, and which sessions the clean-up takes.
 */
module Presence {
  import opened OperationalTransform
  import opened OrderedDict
  import opened SessionLog
  import opened Broadcast
  import opened BroadcastOutcome
  import opened Collaboration
  import opened Registry

  /** The first thing that arrives at the socket between the two states. */
  ghost predicate Hears(before: World, after: World, userId: string, socket: Socket, message: Message) {
    && before.wire <= after.wire
    && var received := Received(after.wire[|before.wire|..], userId, socket);
       received != [] && received[0] == message
  }

  /** Everybody who is connected afterwards, but for the excluded, hears the message first; the
      others' cursors stay. */
  lemma AnnounceIsHeard(fails: Network, w: World, sid: int, message: Message, exclude: Option<string>)
    requires Inv(w) && sid in w.rooms
    ensures var w' := Announce(fails, w, sid, message, exclude);
            && sid in w'.rooms && w'.rooms == w.rooms[sid := w'.rooms[sid]]
            && w'.rooms[sid].doc == w.rooms[sid].doc && w'.rooms[sid].lastActivity == w.rooms[sid].lastActivity
            && (forall e | e in w'.rooms[sid].connections ::
                  e in w.rooms[sid].connections && (exclude != Some(e.0) ==> Hears(w, w', e.0, e.1, message)))
            && (forall u | u in KeySet(w'.rooms[sid].cursors) ::
                  Lookup(w'.rooms[sid].cursors, u) == Lookup(w.rooms[sid].cursors, u))
  {
    var hub, w' := HubOf(w, sid), Announce(fails, w, sid, message, exclude);
    var events := BroadcastReaches(fails, hub, message, exclude);
    var gone := Failures(events);
    WithoutKeys(hub.connections, gone);
    WithoutKeys(hub.cursors, gone);
    assert w'.wire[|w.wire|..] == events;
    forall u | u in KeySet(w'.rooms[sid].cursors)
      ensures Lookup(w'.rooms[sid].cursors, u) == Lookup(w.rooms[sid].cursors, u)
    {
      LookupWithout(hub.cursors, gone, u);
    }
  }

  // ----- Edits -----

  /** A request becomes one submission with its own fields and, unless it names a revision, the
      current one; nothing else in the session or in another one changes by it. */
  lemma EditSubmits(fails: Network, w: World, sid: int, userId: string, request: Request, now: real)
    requires Inv(w) && sid in w.rooms
    ensures var (w', outcome) := HandleOperation(fails, w, sid, userId, request, now);
            var doc := w.rooms[sid].doc;
            var v := match request.revision case Some(r) => r case None => doc.revision;
            var op := Operation(request.kind, request.position, request.content, request.length, userId, v);
            && outcome == Done && sid in w'.rooms
            && w'.rooms[sid].doc == SessionLog.Submit(doc, op) && w'.rooms[sid].lastActivity == now
            && w'.rooms == w.rooms[sid := w'.rooms[sid]]
  {
  }

  /** An edit made on the current revision: the text is what its fields say, and everybody else
      who is connected afterwards hears exactly that edit with the next revision number. */
  lemma EditIsCarriedOut(fails: Network, w: World, sid: int, userId: string, request: Request, now: real)
    requires Inv(w) && sid in w.rooms
    requires request.revision == None || request.revision == Some(w.rooms[sid].doc.revision)
    ensures var w' := HandleOperation(fails, w, sid, userId, request, now).0;
            var (text, revision, p, m) := (w.rooms[sid].doc.content, w.rooms[sid].doc.revision, request.position,
                                           request.length);
            && sid in w'.rooms && w'.rooms[sid].doc.revision == revision + 1
            && (request.kind == Insert && 0 <= p <= |text| ==>
                  w'.rooms[sid].doc.content == text[..p] + request.content + text[p..])
            && (request.kind == Delete && 0 <= p <= p + m <= |text| ==>
                  w'.rooms[sid].doc.content == text[..p] + text[p + m..])
            && (request.kind == Retain ==> w'.rooms[sid].doc.content == text)
            && forall e | e in w'.rooms[sid].connections && e.0 != userId ::
                 Hears(w, w', e.0, e.1,
                       OperationApplied(Operation(request.kind, p, request.content, m, userId, revision + 1),
                                        revision + 1))
  {
    var room := w.rooms[sid];
    var op := OperationOf(request, userId, room.doc.revision);
    var w1 := Edited(w, sid, op, now);
    SubmitReachable(room.doc, op);
    RoomChangeKeepsInv(w, sid, room.(doc := SessionLog.Submit(room.doc, op), lastActivity := now));
    AnnounceIsHeard(fails, w1, sid, OperationApplied(Integrated(room.doc, op), room.doc.revision + 1), Some(userId));
  }

  // ----- Cursors -----

  /** A cursor message sets line, column and selection of that cursor and of no other, and
      everybody else who is connected afterwards hears exactly that. */
  lemma {:induction false} CursorMoves(fails: Network, w: World, sid: int, userId: string, line: int, column: int,
                                       selectionStart: Option<int>, selectionEnd: Option<int>, c: CursorPosition)
    requires Inv(w) && sid in w.rooms && Lookup(w.rooms[sid].cursors, userId) == Some(c)
    ensures var w' := UpdateCursor(fails, w, sid, userId, line, column, selectionStart, selectionEnd);
            && sid in w'.rooms && w'.rooms[sid].doc == w.rooms[sid].doc
            && (forall u | u in KeySet(w'.rooms[sid].cursors) ::
                  Lookup(w'.rooms[sid].cursors, u)
                  == if u == userId then
                       Some(CursorPosition(c.userId, c.username, line, column, selectionStart, selectionEnd, c.color))
                     else Lookup(w.rooms[sid].cursors, u))
            && (forall e | e in w'.rooms[sid].connections && e.0 != userId ::
                  Hears(w, w', e.0, e.1, CursorUpdate(CursorPosition(
                    userId, c.username, line, column, selectionStart, selectionEnd, c.color))))
  {
    var moved := c.(line := line, column := column, selectionStart := selectionStart, selectionEnd := selectionEnd);
    var cursors := w.rooms[sid].cursors;
    var room := w.rooms[sid].(cursors := Put(cursors, userId, moved));
    LookupIffKey(cursors, userId);
    PutEntries(cursors, userId, moved);
    RoomChangeKeepsInv(w, sid, room);
    var w1 := w.(rooms := w.rooms[sid := room]);
    AnnounceIsHeard(fails, w1, sid, CursorUpdate(moved.(userId := userId)), Some(userId));
    forall u ensures Lookup(room.cursors, u) == if u == userId then Some(moved) else Lookup(cursors, u) {
      LookupPut(cursors, userId, moved, u);
    }
  }

  /** Without a session or a cursor in it, a cursor message does nothing. */
  lemma NoCursorNothingMoves(fails: Network, w: World, sid: int, userId: string, line: int, column: int,
                             selectionStart: Option<int>, selectionEnd: Option<int>)
    requires sid !in w.rooms || userId !in KeySet(w.rooms[sid].cursors)
    ensures UpdateCursor(fails, w, sid, userId, line, column, selectionStart, selectionEnd) == w
  {
    if sid in w.rooms {
      LookupIffKey(w.rooms[sid].cursors, userId);
    }
  }

  // ----- Departures -----

  /** A departure is announced to everybody who is connected afterwards, under the name that the
      leaver's cursor shows, or as `Unknown` without one. */
  lemma DepartureIsNamed(fails: Network, w: World, sid: int, userId: string)
    requires Inv(w) && sid in w.rooms
    ensures var w' := Leave(fails, w, sid, userId);
            && sid in w'.rooms && userId !in KeySet(w'.rooms[sid].connections)
            && forall e | e in w'.rooms[sid].connections ::
                 && (forall c | (userId, c) in w.rooms[sid].cursors ::
                       Hears(w, w', e.0, e.1, UserLeft(userId, c.username)))
                 && (userId !in KeySet(w.rooms[sid].cursors) ==>
                       Hears(w, w', e.0, e.1, UserLeft(userId, "Unknown")))
  {
    var hub, w' := HubOf(w, sid), Leave(fails, w, sid, userId);
    var events := LeaveReaches(fails, hub, userId);
    var gone := {userId} + Failures(events);
    WithoutKeys(hub.connections, gone);
    assert w'.wire[|w.wire|..] == events;
    LookupIffKey(hub.cursors, userId);
    forall c | (userId, c) in hub.cursors ensures NameOf(hub.cursors, userId) == c.username {
      LookupEntry(hub.cursors, userId, c);
    }
  }

  lemma {:induction false} LookupEntry<V>(d: Dict<V>, key: string, value: V)
    requires Distinct(d) && (key, value) in d
    ensures Lookup(d, key) == Some(value)
    decreases |d|
  {
    if d[0] != (key, value) {
      assert (key, value) in d[1..];
      assert key in KeySet(d[1..]);
      LookupEntry(d[1..], key, value);
    }
  }

  // ----- Clean-up and refusal -----

  /** The clean-up takes exactly the sessions that nobody is connected to and that have been idle
      for more than an hour. */
  lemma CleanupTakesExactly(w: World, now: real)
    ensures var rooms := Cleanup(w, now).rooms;
            forall sid ::
              && (sid in rooms <==> sid in w.rooms
                                    && (w.rooms[sid].connections != [] || now - w.rooms[sid].lastActivity <= 3600.0))
              && (sid in rooms ==> rooms[sid] == w.rooms[sid])
  {
  }

  /** A join is refused exactly when ten are connected, and then changes nothing. */
  lemma RefusedIffTen(fails: Network, w: World, sid: int, userId: string, username: string, socket: Socket, now: real)
    requires Inv(w)
    ensures var (w', outcome) := Join(fails, w, sid, userId, username, socket, now);
            && (outcome == SessionFull <==> sid in w.rooms && |w.rooms[sid].connections| == 10)
            && (outcome == SessionFull ==> w' == w)
  {
  }

  /** A handler whose join does not succeed leaves the session all the same: whoever is refused by
      a full session that he is already connected to loses that connection as well. */
  lemma FailedJoinLeaves(fails: Network, w: World, sid: int, userId: string, username: string, socket: Socket,
                         now: real)
    requires Inv(w) && Join(fails, w, sid, userId, username, socket, now).1 != Done
    ensures var w' := Perform(fails, w, Connect(sid, userId, username, socket, now));
            && sid in w'.rooms && userId !in KeySet(w'.rooms[sid].connections)
            && userId !in KeySet(w'.rooms[sid].cursors) && userId !in w'.userSessions
  {
    var w1 := Join(fails, w, sid, userId, username, socket, now).0;
    JoinKeepsInv(fails, w, sid, userId, username, socket, now);
    var events := LeaveReaches(fails, HubOf(w1, sid), userId);
    WithoutKeys(w1.rooms[sid].connections, {userId} + Failures(events));
    WithoutKeys(w1.rooms[sid].cursors, {userId} + Failures(events));
  }
}
