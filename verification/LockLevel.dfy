/** The handlers cut into their critical sections and interleaved by any number of threads. */
module LockLevel {
  import opened ChatTables

  /** Where a worker thread stands between two critical sections. */
  datatype Point =
    | LoggingIn(sock: Socket, id: string, nick: string)       // id inserted, session not yet stored
    | Closing(sock: Socket)                                   // id erased, session and room still there
    | Making(sock: Socket, room: string)                      // room inserted, session not yet updated
    | Entering(sock: Socket, room: string)                    // room found, its lock given back
    | Pushing(sock: Socket, room: string)                     // session updated, about to look the room up again
    | OffList(sock: Socket, room: string, closing: bool)      // taken off the list
    | Cleared(sock: Socket, room: string, closing: bool)      // session back in the lobby
    | Dropping(sock: Socket, room: string, closing: bool)     // room seen empty, not yet erased; holds roomCs
    | Ending(sock: Socket)                                    // everything gone but the session

  datatype Name = Id(id: string) | Room(room: string)

  datatype Note = Opened(name: Name) | Closed(name: Name)

  datatype Threads = Threads(
    tables: Tables,
    at: map<nat, Point>,            // the threads that are in the middle of a handler
    log: seq<Note>,                 // insertions into and erasures from idSet and roomMap
    holders: map<Socket, string>)   // which socket's login put an id into idSet

  datatype Section =
    | CheckId(thread: nat, sock: Socket, id: string, nick: string)
    | StoreSession(thread: nat)
    | EraseId(thread: nat, sock: Socket, behind: string)   // what is read behind an id without terminator
    | InsertRoom(thread: nat, sock: Socket, room: string)
    | FindRoom(thread: nat, sock: Socket, room: string)
    | UpdateSession(thread: nat)
    | PushBack(thread: nat)
    | TakeOff(thread: nat, sock: Socket)
    | ClearSession(thread: nat)
    | CheckEmpty(thread: nat)
    | EraseRoom(thread: nat)
    | EraseSession(thread: nat)

  /** Nobody is between seeing a room empty and erasing it, so roomCs can be had. Lists are
      changed under their own locks, whoever holds roomCs. */
  predicate RoomsFree(s: Threads) {
    forall k :: k in s.at ==> !s.at[k].Dropping?
  }

  /** The section is next for its thread, the lock it needs is free, and the entries it looks up
      unchecked are there. */
  predicate Can(s: Threads, c: Section) {
    var t := s.tables;
    match c
    case CheckId(k, _, _, _) => k !in s.at
    case StoreSession(k) => k in s.at && s.at[k].LoggingIn?
    case EraseId(k, sock, _) => k !in s.at && sock in t.users
    case InsertRoom(k, sock, _) => k !in s.at && sock in t.users && RoomsFree(s)
    case FindRoom(k, sock, _) => k !in s.at && sock in t.users && RoomsFree(s)
    case UpdateSession(k) => k in s.at && (s.at[k].Making? || s.at[k].Entering?) && s.at[k].sock in t.users
    case PushBack(k) => k in s.at && s.at[k].Pushing? && s.at[k].room in t.rooms
    case TakeOff(k, sock) =>
      && sock in t.users && t.users[sock].ReadRoom() in t.rooms
      && (k !in s.at || (s.at[k] == Closing(sock) && t.users[sock].status == CHATTING))
    case ClearSession(k) => k in s.at && s.at[k].OffList? && s.at[k].sock in t.users
    case CheckEmpty(k) => k in s.at && s.at[k].Cleared? && RoomsFree(s)
    case EraseRoom(k) => k in s.at && s.at[k].Dropping?
    case EraseSession(k) =>
      && k in s.at
      && (s.at[k].Ending?
          || (s.at[k].Closing? && s.at[k].sock in t.users && t.users[s.at[k].sock].status == WAITING))
  }

  /** A handler starts in the status it was chosen for, for a socket nobody else is working on,
      and with a name that fits. */
  predicate Orderly(s: Threads, c: Section) {
    var t := s.tables;
    match c
    case CheckId(_, sock, id, _) => Idle(s, sock) && sock !in t.users && Fits(id)
    case EraseId(_, sock, _) => Idle(s, sock)
    case InsertRoom(_, sock, room) =>
      Idle(s, sock) && sock in t.users && t.users[sock].status == WAITING && Fits(room)
    case FindRoom(_, sock, _) => Idle(s, sock) && sock in t.users && t.users[sock].status == WAITING
    case TakeOff(k, sock) => k in s.at || (Idle(s, sock) && sock in t.users && t.users[sock].status == CHATTING)
    case _ => true
  }

  predicate Idle(s: Threads, sock: Socket) {
    forall k :: k in s.at ==> s.at[k].sock != sock
  }

  /** Where a thread goes that is done with the room. */
  function DoneWithRoom(at: map<nat, Point>, k: nat, sock: Socket, closing: bool): map<nat, Point> {
    if closing then at[k := Ending(sock)] else at - {k}
  }

  function Do(s: Threads, c: Section): Threads
    requires Can(s, c)
  {
    var t := s.tables;
    match c
    case CheckId(k, sock, id, nick) =>
      if id in t.ids then s
      else s.(tables := t.(ids := t.ids + {id}), at := s.at[k := LoggingIn(sock, id, nick)],
              log := s.log + [Opened(Id(id))], holders := s.holders[sock := id])
    case StoreSession(k) =>
      var p := s.at[k];
      s.(tables := t.(users := t.users[p.sock := Session(Field(p.nick), "", Field(p.id), WAITING)]), at := s.at - {k})
    case EraseId(k, sock, behind) =>
      var id := ReadOn(t.users[sock].userId, behind);
      s.(tables := t.(ids := t.ids - {id}), at := s.at[k := Closing(sock)],
         log := s.log + [Closed(Id(id))], holders := s.holders - {sock})
    case InsertRoom(k, sock, room) =>
      if room in t.rooms then s
      else s.(tables := t.(rooms := t.rooms[room := [sock]]), at := s.at[k := Making(sock, room)],
              log := s.log + [Opened(Room(room))])
    case FindRoom(k, sock, room) =>
      if room !in t.rooms then s else s.(at := s.at[k := Entering(sock, room)])
    case UpdateSession(k) =>
      var p := s.at[k];
      s.(tables := EnterChat(t, p.sock, p.room),
         at := if p.Making? then s.at - {k} else s.at[k := Pushing(p.sock, p.room)])
    case PushBack(k) =>
      var p := s.at[k];
      s.(tables := t.(rooms := t.rooms[p.room := t.rooms[p.room] + [p.sock]]), at := s.at - {k})
    case TakeOff(k, sock) =>
      var room := t.users[sock].ReadRoom();
      s.(tables := t.(rooms := t.rooms[room := Remove(t.rooms[room], sock)]),
         at := s.at[k := OffList(sock, room, k in s.at)])
    case ClearSession(k) =>
      var p := s.at[k];
      s.(tables := t.(users := t.users[p.sock := t.users[p.sock].(roomName := "", status := WAITING)]),
         at := s.at[k := Cleared(p.sock, p.room, p.closing)])
    case CheckEmpty(k) =>
      var p := s.at[k];
      s.(at := if p.room in t.rooms && t.rooms[p.room] == [] then s.at[k := Dropping(p.sock, p.room, p.closing)]
               else DoneWithRoom(s.at, k, p.sock, p.closing))
    case EraseRoom(k) =>
      var p := s.at[k];
      s.(tables := t.(rooms := t.rooms - {p.room}), at := DoneWithRoom(s.at, k, p.sock, p.closing),
         log := s.log + [Closed(Room(p.room))])
    case EraseSession(k) =>
      s.(tables := t.(users := t.users - {s.at[k].sock}), at := s.at - {k})
  }

  /** While a thread is between seeing a room empty and erasing it, no other one can make, find or
      look at a room, and that thread can go on. */
  lemma RoomsExclude(s: Threads, k: nat, c: Section)
    requires k in s.at && s.at[k].Dropping? && (c.InsertRoom? || c.FindRoom? || c.CheckEmpty?)
    ensures !Can(s, c) && Can(s, EraseRoom(k))
  {
  }

  // ---- exclusion ----

  /** The last thing that happened to the name was its insertion. */
  predicate IsOpen(log: seq<Note>, x: Name) {
    if log == [] then false
    else
      var last := log[|log| - 1];
      if last.name == x then last.Opened? else IsOpen(log[..|log| - 1], x)
  }

  /** Nothing is inserted while it is in. */
  ghost predicate Proper(log: seq<Note>) {
    forall j :: 0 <= j < |log| && log[j].Opened? ==> !IsOpen(log[..j], log[j].name)
  }

  lemma {:induction false} OpenUntilClosed(log: seq<Note>, i: nat, x: Name)
    requires i < |log| && log[i] == Opened(x)
    requires forall k :: i < k < |log| ==> log[k] != Closed(x)
    ensures IsOpen(log, x)
    decreases |log|
  {
    var front := log[..|log| - 1];
    if log[|log| - 1].name != x {
      OpenUntilClosed(front, i, x);
    } else if i < |log| - 1 {
      assert log[|log| - 1] != Closed(x);
    }
  }

  lemma ClosedBetween(log: seq<Note>, i: nat, j: nat, x: Name)
    requires Proper(log) && i < j < |log| && log[i] == Opened(x) && log[j] == Opened(x)
    ensures exists k :: i < k < j && log[k] == Closed(x)
  {
    if forall k :: i < k < j ==> log[k] != Closed(x) {
      OpenUntilClosed(log[..j], i, x);
      assert false;
    }
  }

  /** The log tells what is in the two sets. */
  ghost predicate Logged(s: Threads) {
    && Proper(s.log)
    && (forall id :: id in s.tables.ids <==> IsOpen(s.log, Id(id)))
    && (forall room :: room in s.tables.rooms <==> IsOpen(s.log, Room(room)))
  }

  lemma IsOpenSnoc(log: seq<Note>, e: Note, x: Name)
    ensures IsOpen(log + [e], x) == if e.name == x then e.Opened? else IsOpen(log, x)
  {
    assert (log + [e])[..|log|] == log;
  }

  lemma ProperSnoc(log: seq<Note>, e: Note)
    requires Proper(log) && (e.Opened? ==> !IsOpen(log, e.name))
    ensures Proper(log + [e])
  {
    var l := log + [e];
    forall j | 0 <= j < |l| && l[j].Opened? ensures !IsOpen(l[..j], l[j].name) {
      assert l[..j] == log[..j];
      assert j == |log| ==> log[..j] == log;
    }
  }

  lemma LogGrows(log: seq<Note>, e: Note)
    requires Proper(log) && (e.Opened? ==> !IsOpen(log, e.name))
    ensures Proper(log + [e])
    ensures forall x: Name :: IsOpen(log + [e], x) == if e.name == x then e.Opened? else IsOpen(log, x)
  {
    ProperSnoc(log, e);
    forall x: Name ensures IsOpen(log + [e], x) == if e.name == x then e.Opened? else IsOpen(log, x) {
      IsOpenSnoc(log, e, x);
    }
  }

  /** A note keeps the log in step when the two sets change as it says. */
  lemma NoteKeepsLogged(s: Threads, r: Threads, e: Note)
    requires Logged(s) && r.log == s.log + [e] && (e.Opened? ==> !IsOpen(s.log, e.name))
    requires forall id :: id in r.tables.ids <==> if e.name == Id(id) then e.Opened? else id in s.tables.ids
    requires forall room ::
               room in r.tables.rooms <==> if e.name == Room(room) then e.Opened? else room in s.tables.rooms
    ensures Logged(r)
  {
    LogGrows(s.log, e);
  }

  lemma CheckIdLogged(s: Threads, c: Section)
    requires Logged(s) && Can(s, c) && c.CheckId?
    ensures Logged(Do(s, c))
  {
    if c.id !in s.tables.ids {
      NoteKeepsLogged(s, Do(s, c), Opened(Id(c.id)));
    }
  }

  lemma EraseIdLogged(s: Threads, c: Section)
    requires Logged(s) && Can(s, c) && c.EraseId?
    ensures Logged(Do(s, c))
  {
    NoteKeepsLogged(s, Do(s, c), Closed(Id(ReadOn(s.tables.users[c.sock].userId, c.behind))));
  }

  lemma InsertRoomLogged(s: Threads, c: Section)
    requires Logged(s) && Can(s, c) && c.InsertRoom?
    ensures Logged(Do(s, c))
  {
    if c.room !in s.tables.rooms {
      NoteKeepsLogged(s, Do(s, c), Opened(Room(c.room)));
    }
  }

  lemma EraseRoomLogged(s: Threads, c: Section)
    requires Logged(s) && Can(s, c) && c.EraseRoom?
    ensures Logged(Do(s, c))
  {
    NoteKeepsLogged(s, Do(s, c), Closed(Room(s.at[c.thread].room)));
  }

  lemma UnnotedLogged(s: Threads, r: Threads)
    requires Logged(s) && r.log == s.log
    requires r.tables.ids == s.tables.ids && r.tables.rooms.Keys == s.tables.rooms.Keys
    ensures Logged(r)
  {
    assert forall room :: room in r.tables.rooms <==> room in s.tables.rooms;
  }

  lemma LoggedKept(s: Threads, c: Section)
    requires Logged(s) && Can(s, c)
    ensures Logged(Do(s, c))
  {
    match c
    case CheckId(_, _, _, _) => CheckIdLogged(s, c);
    case EraseId(_, _, _) => EraseIdLogged(s, c);
    case InsertRoom(_, _, _) => InsertRoomLogged(s, c);
    case EraseRoom(_) => EraseRoomLogged(s, c);
    case _ => UnnotedLogged(s, Do(s, c));
  }

  ghost predicate CanAll(s: Threads, cs: seq<Section>)
    decreases cs
  {
    cs == [] || (Can(s, cs[0]) && CanAll(Do(s, cs[0]), cs[1..]))
  }

  function Interleave(s: Threads, cs: seq<Section>): Threads
    requires CanAll(s, cs)
    decreases cs
  {
    if cs == [] then s else Interleave(Do(s, cs[0]), cs[1..])
  }

  lemma {:induction false} LoggedAlways(s: Threads, cs: seq<Section>)
    requires Logged(s) && CanAll(s, cs)
    ensures Logged(Interleave(s, cs))
    decreases cs
  {
    if cs == [] {
    } else {
      LoggedKept(s, cs[0]);
      LoggedAlways(Do(s, cs[0]), cs[1..]);
    }
  }

  const NOBODY := Threads(NO_TABLES, map[], [], map[])

  /** In every interleaving whatsoever, between two logins that were let in under the same id
      the id was erased, and between two rooms made under the same name the name was. */
  lemma Exclusion(cs: seq<Section>, i: nat, j: nat)
    requires CanAll(NOBODY, cs)
    requires var log := Interleave(NOBODY, cs).log;
             i < j < |log| && log[i].Opened? && log[j] == log[i]
    ensures var log := Interleave(NOBODY, cs).log;
            exists k :: i < k < j && log[k] == Closed(log[i].name)
  {
    LoggedAlways(NOBODY, cs);
    var log := Interleave(NOBODY, cs).log;
    ClosedBetween(log, i, j, log[i].name);
  }

  /** The only sections that cost a socket its place on a list are those that take it off and the
      one that erases the room; making a room overwrites nothing. */
  lemma MembersStay(s: Threads, c: Section, room: string, x: Socket)
    requires Can(s, c) && room in s.tables.rooms && x in s.tables.rooms[room]
    requires !(c.TakeOff? && c.sock == x) && !(c.EraseRoom? && s.at[c.thread].room == room)
    ensures room in Do(s, c).tables.rooms && x in Do(s, c).tables.rooms[room]
  {
    if c.TakeOff? {
      RemoveMembers(s.tables.rooms[room], c.sock);
    }
  }

  // ---- who holds an id ----

  predicate IsClosing(p: Point) {
    p.Closing? || p.Ending? || ((p.OffList? || p.Cleared? || p.Dropping?) && p.closing)
  }

  predicate ClosedBy(s: Threads, x: Socket, k: nat) {
    k in s.at && s.at[k].sock == x && IsClosing(s.at[k])
  }

  predicate LoginBy(s: Threads, x: Socket, k: nat) {
    k in s.at && s.at[k].LoggingIn? && s.at[k].sock == x
  }

  /** No two threads work for one socket, and each is at a point that fits its session. */
  ghost predicate PointsFit(s: Threads) {
    var t := s.tables;
    && (forall k, l :: k in s.at && l in s.at && s.at[k].sock == s.at[l].sock ==> k == l)
    && (forall x, k :: LoginBy(s, x, k) ==>
          x !in t.users && x in s.holders && s.holders[x] == s.at[k].id && Fits(s.at[k].id))
    && (forall x, k :: ClosedBy(s, x, k) ==> x !in s.holders)
    && (forall k :: k in s.at && !s.at[k].LoggingIn? ==> s.at[k].sock in t.users)
    && (forall x :: x in t.users ==> Fits(t.users[x].userId))
  }

  /** Each id in the set belongs to one socket: to a login on its way or to a session that is
      not being closed. */
  ghost predicate IdsOwned(s: Threads) {
    var t := s.tables;
    && t.ids == IdsOf(s.holders) && OneEach(s.holders)
    && (forall x :: x in t.users && x in s.holders ==> t.users[x].userId == s.holders[x])
    && (forall x :: x in t.users && x !in s.holders ==> exists k :: ClosedBy(s, x, k))
    && (forall x :: x in s.holders && x !in t.users ==> exists k :: LoginBy(s, x, k))
  }

  ghost predicate Held(s: Threads) {
    PointsFit(s) && IdsOwned(s)
  }

  /** A section of thread `k` that only moves it along and touches no id and no session key. */
  ghost predicate MovesAlong(s: Threads, r: Threads, k: nat) {
    && r.tables.ids == s.tables.ids && r.holders == s.holders
    && r.tables.users.Keys == s.tables.users.Keys
    && (forall x :: x in s.tables.users ==> r.tables.users[x].userId == s.tables.users[x].userId)
    && (forall l :: l != k ==> (l in r.at <==> l in s.at))
    && (forall l :: l != k && l in s.at ==> r.at[l] == s.at[l])
    && (k in s.at ==> !s.at[k].LoggingIn?)
    && (k in r.at ==>
      && !r.at[k].LoggingIn? && r.at[k].sock in r.tables.users
      && (if k in s.at then r.at[k].sock == s.at[k].sock else Idle(s, r.at[k].sock)))
    && ((k in r.at && IsClosing(r.at[k])) <==> (k in s.at && IsClosing(s.at[k])))
  }

  lemma MovingAlongFits(s: Threads, r: Threads, k: nat)
    requires PointsFit(s) && MovesAlong(s, r, k)
    ensures PointsFit(r)
  {
    assert forall x, l :: LoginBy(r, x, l) ==> LoginBy(s, x, l) && r.at[l] == s.at[l];
    assert forall x, l :: ClosedBy(r, x, l) ==> ClosedBy(s, x, l);
  }

  lemma MovingAlongHolds(s: Threads, r: Threads, k: nat)
    requires Held(s) && MovesAlong(s, r, k)
    ensures Held(r)
  {
    MovingAlongFits(s, r, k);
    assert forall x, l :: LoginBy(s, x, l) ==> LoginBy(r, x, l);
    assert forall x, l :: ClosedBy(s, x, l) ==> ClosedBy(r, x, l);
  }

  ghost predicate OneEach(holders: map<Socket, string>) {
    forall x, y :: x in holders && y in holders && holders[x] == holders[y] ==> x == y
  }

  ghost function IdsOf(holders: map<Socket, string>): set<string> {
    set x | x in holders :: holders[x]
  }

  lemma IdAdded(holders: map<Socket, string>, sock: Socket, id: string)
    requires sock !in holders && id !in IdsOf(holders) && OneEach(holders)
    ensures IdsOf(holders[sock := id]) == IdsOf(holders) + {id} && OneEach(holders[sock := id])
  {
    var after := holders[sock := id];
    assert forall x :: x in holders ==> holders[x] in IdsOf(holders);
    assert after[sock] in IdsOf(after);
    forall i | i in IdsOf(holders) ensures i in IdsOf(after) {
      var x :| x in holders && holders[x] == i;
      assert after[x] == i;
    }
  }

  lemma IdRemoved(holders: map<Socket, string>, sock: Socket)
    requires sock in holders && OneEach(holders)
    ensures IdsOf(holders - {sock}) == IdsOf(holders) - {holders[sock]} && OneEach(holders - {sock})
  {
    var after := holders - {sock};
    forall i | i in IdsOf(holders) && i != holders[sock] ensures i in IdsOf(after) {
      var x :| x in holders && holders[x] == i;
      assert after[x] == i;
    }
  }

  lemma LoginStarts(s: Threads, k: nat, sock: Socket, id: string, nick: string)
    requires Held(s) && Can(s, CheckId(k, sock, id, nick)) && Orderly(s, CheckId(k, sock, id, nick))
    ensures Held(Do(s, CheckId(k, sock, id, nick)))
  {
    if id !in s.tables.ids {
      var r := Do(s, CheckId(k, sock, id, nick));
      assert forall l :: !LoginBy(s, sock, l);
      forall x, l ensures ClosedBy(r, x, l) <==> ClosedBy(s, x, l) {
      }
      forall x, l ensures LoginBy(r, x, l) <==> LoginBy(s, x, l) || (x == sock && l == k) {
      }
      LoginStartHeld(s, r, k, sock, id);
    }
  }

  lemma LoginStartHeld(s: Threads, r: Threads, k: nat, sock: Socket, id: string)
    requires Held(s) && PointsFit(r) && sock !in s.tables.users && id !in s.tables.ids
    requires r.tables == s.tables.(ids := s.tables.ids + {id}) && r.holders == s.holders[sock := id]
    requires forall l :: !LoginBy(s, sock, l)
    requires forall x, l :: ClosedBy(r, x, l) <==> ClosedBy(s, x, l)
    requires forall x, l :: LoginBy(r, x, l) <==> LoginBy(s, x, l) || (x == sock && l == k)
    ensures Held(r)
  {
    assert LoginBy(r, sock, k);
    IdAdded(s.holders, sock, id);
  }

  lemma LoginEnds(s: Threads, k: nat)
    requires Held(s) && Can(s, StoreSession(k))
    ensures Held(Do(s, StoreSession(k)))
  {
    var r := Do(s, StoreSession(k));
    var sock := s.at[k].sock;
    assert LoginBy(s, sock, k);
    forall x, l ensures ClosedBy(r, x, l) <==> ClosedBy(s, x, l) {
    }
    forall x, l ensures LoginBy(r, x, l) <==> LoginBy(s, x, l) && l != k {
    }
    forall x | x in r.holders && x !in r.tables.users ensures exists l :: LoginBy(r, x, l) {
      var l :| LoginBy(s, x, l);
      assert LoginBy(r, x, l);
    }
  }

  lemma IdGoes(s: Threads, k: nat, sock: Socket, behind: string)
    requires Held(s) && Can(s, EraseId(k, sock, behind)) && Orderly(s, EraseId(k, sock, behind))
    ensures Held(Do(s, EraseId(k, sock, behind)))
  {
    var r := Do(s, EraseId(k, sock, behind));
    assert sock in s.holders;
    assert ClosedBy(r, sock, k);
    forall x, l ensures ClosedBy(r, x, l) <==> ClosedBy(s, x, l) || (x == sock && l == k) {
    }
    forall x, l ensures LoginBy(r, x, l) <==> LoginBy(s, x, l) {
    }
    IdRemoved(s.holders, sock);
  }

  lemma SessionGoes(s: Threads, k: nat)
    requires Held(s) && Can(s, EraseSession(k))
    ensures Held(Do(s, EraseSession(k)))
  {
    var r := Do(s, EraseSession(k));
    var sock := s.at[k].sock;
    assert ClosedBy(s, sock, k);
    forall x, l ensures ClosedBy(r, x, l) <==> ClosedBy(s, x, l) && l != k {
    }
    forall x, l ensures LoginBy(r, x, l) <==> LoginBy(s, x, l) {
    }
  }

  lemma InsertRoomMoves(s: Threads, k: nat, sock: Socket, room: string)
    requires Held(s) && Can(s, InsertRoom(k, sock, room)) && Orderly(s, InsertRoom(k, sock, room))
    ensures MovesAlong(s, Do(s, InsertRoom(k, sock, room)), k)
  {
  }

  lemma FindRoomMoves(s: Threads, k: nat, sock: Socket, room: string)
    requires Held(s) && Can(s, FindRoom(k, sock, room)) && Orderly(s, FindRoom(k, sock, room))
    ensures MovesAlong(s, Do(s, FindRoom(k, sock, room)), k)
  {
  }

  lemma UpdateSessionMoves(s: Threads, k: nat)
    requires Held(s) && Can(s, UpdateSession(k))
    ensures MovesAlong(s, Do(s, UpdateSession(k)), k)
  {
  }

  lemma PushBackMoves(s: Threads, k: nat)
    requires Held(s) && Can(s, PushBack(k))
    ensures MovesAlong(s, Do(s, PushBack(k)), k)
  {
  }

  lemma TakeOffMoves(s: Threads, k: nat, sock: Socket)
    requires Held(s) && Can(s, TakeOff(k, sock)) && Orderly(s, TakeOff(k, sock))
    ensures MovesAlong(s, Do(s, TakeOff(k, sock)), k)
  {
  }

  lemma ClearSessionMoves(s: Threads, k: nat)
    requires Held(s) && Can(s, ClearSession(k))
    ensures MovesAlong(s, Do(s, ClearSession(k)), k)
  {
  }

  lemma CheckEmptyMoves(s: Threads, k: nat)
    requires Held(s) && Can(s, CheckEmpty(k))
    ensures MovesAlong(s, Do(s, CheckEmpty(k)), k)
  {
  }

  lemma EraseRoomMoves(s: Threads, k: nat)
    requires Held(s) && Can(s, EraseRoom(k))
    ensures MovesAlong(s, Do(s, EraseRoom(k)), k)
  {
  }

  lemma HeldKept(s: Threads, c: Section)
    requires Held(s) && Can(s, c) && Orderly(s, c)
    ensures Held(Do(s, c))
  {
    match c
    case CheckId(k, sock, id, nick) => LoginStarts(s, k, sock, id, nick);
    case StoreSession(k) => LoginEnds(s, k);
    case EraseId(k, sock, behind) => IdGoes(s, k, sock, behind);
    case EraseSession(k) => SessionGoes(s, k);
    case InsertRoom(k, sock, room) => InsertRoomMoves(s, k, sock, room); MovingAlongHolds(s, Do(s, c), k);
    case FindRoom(k, sock, room) => FindRoomMoves(s, k, sock, room); MovingAlongHolds(s, Do(s, c), k);
    case UpdateSession(k) => UpdateSessionMoves(s, k); MovingAlongHolds(s, Do(s, c), k);
    case PushBack(k) => PushBackMoves(s, k); MovingAlongHolds(s, Do(s, c), k);
    case TakeOff(k, sock) => TakeOffMoves(s, k, sock); MovingAlongHolds(s, Do(s, c), k);
    case ClearSession(k) => ClearSessionMoves(s, k); MovingAlongHolds(s, Do(s, c), k);
    case CheckEmpty(k) => CheckEmptyMoves(s, k); MovingAlongHolds(s, Do(s, c), k);
    case EraseRoom(k) => EraseRoomMoves(s, k); MovingAlongHolds(s, Do(s, c), k);
  }

  ghost predicate OrderlyAll(s: Threads, cs: seq<Section>)
    requires CanAll(s, cs)
    decreases cs
  {
    cs == [] || (Orderly(s, cs[0]) && OrderlyAll(Do(s, cs[0]), cs[1..]))
  }

  lemma {:induction false} HeldAlways(s: Threads, cs: seq<Section>)
    requires Held(s) && CanAll(s, cs) && OrderlyAll(s, cs)
    ensures Held(Interleave(s, cs))
    decreases cs
  {
    if cs == [] {
    } else {
      HeldKept(s, cs[0]);
      HeldAlways(Do(s, cs[0]), cs[1..]);
    }
  }

  /** With one thread at a time per socket, two sessions share an id only while a thread is
      busy closing one of them, at every point between critical sections. */
  lemma SharedIdsAreClosing(cs: seq<Section>, x: Socket, y: Socket)
    requires CanAll(NOBODY, cs) && OrderlyAll(NOBODY, cs)
    requires var t := Interleave(NOBODY, cs).tables;
             x in t.users && y in t.users && x != y && t.users[x].ReadId() == t.users[y].ReadId()
    ensures var s := Interleave(NOBODY, cs); exists k :: ClosedBy(s, x, k) || ClosedBy(s, y, k)
  {
    HeldAlways(NOBODY, cs);
  }

  // ---- a handler left alone is one atomic step ----

  lemma InterleaveCons(s: Threads, c: Section, cs: seq<Section>)
    requires Can(s, c) && CanAll(Do(s, c), cs)
    ensures CanAll(s, [c] + cs) && Interleave(s, [c] + cs) == Interleave(Do(s, c), cs)
  {
    assert ([c] + cs)[1..] == cs;
  }

  /** Run to the end without interruption, the sections change the tables to `t` and leave the
      other threads where they were. */
  ghost predicate Amounts(s: Threads, cs: seq<Section>, t: Tables) {
    CanAll(s, cs) && Interleave(s, cs).tables == t && Interleave(s, cs).at == s.at
  }

  lemma AmountsTo(s: Threads, a: Section, b: Section, t: Tables)
    requires Can(s, a) && Can(Do(s, a), b)
    requires Do(Do(s, a), b).tables == t && Do(Do(s, a), b).at == s.at
    ensures Amounts(s, [a] + ([b] + []), t)
  {
    InterleaveCons(Do(s, a), b, []);
    InterleaveCons(s, a, [b] + []);
  }

  lemma AmountsAfter(s: Threads, a: Section, cs: seq<Section>, t: Tables)
    requires Can(s, a) && CanAll(Do(s, a), cs)
    requires Interleave(Do(s, a), cs).tables == t && Interleave(Do(s, a), cs).at == s.at
    ensures Amounts(s, [a] + cs, t)
  {
    InterleaveCons(s, a, cs);
  }

  lemma LoginAlone(s: Threads, k: nat, sock: Socket, id: string, nick: string)
    requires k !in s.at && id !in s.tables.ids
    ensures Amounts(s, [CheckId(k, sock, id, nick)] + ([StoreSession(k)] + []), Login(s.tables, sock, id, nick))
  {
    AmountsTo(s, CheckId(k, sock, id, nick), StoreSession(k), Login(s.tables, sock, id, nick));
  }

  lemma OpenRoomAlone(s: Threads, k: nat, sock: Socket, room: string)
    requires k !in s.at && RoomsFree(s) && sock in s.tables.users && room !in s.tables.rooms
    ensures Amounts(s, [InsertRoom(k, sock, room)] + ([UpdateSession(k)] + []), OpenRoom(s.tables, sock, room))
  {
    AmountsTo(s, InsertRoom(k, sock, room), UpdateSession(k), OpenRoom(s.tables, sock, room));
  }

  lemma JoinRoomAlone(s: Threads, k: nat, sock: Socket, room: string)
    requires k !in s.at && RoomsFree(s) && sock in s.tables.users && room in s.tables.rooms
    ensures Amounts(s, [FindRoom(k, sock, room)] + ([UpdateSession(k)] + ([PushBack(k)] + [])),
                    JoinRoom(s.tables, sock, room))
  {
    var find, update, push := FindRoom(k, sock, room), UpdateSession(k), PushBack(k);
    var found := Do(s, find);
    InterleaveCons(Do(found, update), push, []);
    InterleaveCons(found, update, [push] + []);
    AmountsAfter(s, find, [update] + ([push] + []), JoinRoom(s.tables, sock, room));
  }

  /** The sections that leave a room; the last one to leave erases it. */
  function LeaveSections(k: nat, sock: Socket, last: bool, rest: seq<Section>): seq<Section> {
    [TakeOff(k, sock)] + ([ClearSession(k)] + ([CheckEmpty(k)] + (if last then [EraseRoom(k)] + rest else rest)))
  }

  predicate LastOne(t: Tables, sock: Socket)
    requires sock in t.users && t.users[sock].ReadRoom() in t.rooms
  {
    Remove(t.rooms[t.users[sock].ReadRoom()], sock) == []
  }

  /** The state when the sections of leaving are through. */
  function Gone(s: Threads, k: nat, sock: Socket): Threads
    requires RoomsFree(s) && Can(s, TakeOff(k, sock))
  {
    var p := Do(s, TakeOff(k, sock)).at[k];
    s.(tables := LeaveRoom(s.tables, sock), at := DoneWithRoom(s.at, k, sock, k in s.at),
       log := if LastOne(s.tables, sock) then s.log + [Closed(Room(p.room))] else s.log)
  }

  /** The room is about to be looked at by the thread that has left it. */
  lemma LeavingClears(s: Threads, k: nat, sock: Socket)
    requires RoomsFree(s) && Can(s, TakeOff(k, sock))
    ensures var off := Do(s, TakeOff(k, sock));
            && Can(off, ClearSession(k))
            && var r := Do(off, ClearSession(k));
               && RoomsFree(r) && r.log == s.log && r.holders == s.holders
               && r.at == s.at[k := Cleared(sock, s.tables.users[sock].ReadRoom(), k in s.at)]
  {
  }

  lemma LeavingKeepsRoom(t: Tables, sock: Socket)
    requires sock in t.users && t.users[sock].ReadRoom() in t.rooms
    ensures var room := t.users[sock].ReadRoom();
            var off := t.(rooms := t.rooms[room := Remove(t.rooms[room], sock)]);
            var r := off.(users := off.users[sock := off.users[sock].(roomName := "", status := WAITING)]);
            && LeaveRoom(t, sock) == r.(rooms := DropIfEmpty(r.rooms, room))
            && room in r.rooms && r.rooms[room] == Remove(t.rooms[room], sock)
  {
  }

  lemma LeavingEnds(s: Threads, k: nat, sock: Socket)
    requires RoomsFree(s) && Can(s, TakeOff(k, sock))
    ensures var off := Do(s, TakeOff(k, sock));
            && Can(off, ClearSession(k))
            && var cleared := Do(off, ClearSession(k));
               && Can(cleared, CheckEmpty(k))
               && var checked := Do(cleared, CheckEmpty(k));
                  if LastOne(s.tables, sock) then
                    Can(checked, EraseRoom(k)) && Do(checked, EraseRoom(k)) == Gone(s, k, sock)
                  else
                    checked == Gone(s, k, sock)
  {
    LeavingClears(s, k, sock);
    LeavingKeepsRoom(s.tables, sock);
    var cleared := Do(Do(s, TakeOff(k, sock)), ClearSession(k));
    assert DoneWithRoom(cleared.at, k, sock, k in s.at) == DoneWithRoom(s.at, k, sock, k in s.at);
  }

  /** Leaving a room, uninterrupted and with whatever comes after it. */
  lemma LeavingRuns(s: Threads, k: nat, sock: Socket, rest: seq<Section>)
    requires RoomsFree(s) && Can(s, TakeOff(k, sock)) && CanAll(Gone(s, k, sock), rest)
    ensures var cs := LeaveSections(k, sock, LastOne(s.tables, sock), rest);
            CanAll(s, cs) && Interleave(s, cs) == Interleave(Gone(s, k, sock), rest)
  {
    LeavingEnds(s, k, sock);
    var off := Do(s, TakeOff(k, sock));
    var cleared := Do(off, ClearSession(k));
    var after := if LastOne(s.tables, sock) then [EraseRoom(k)] + rest else rest;
    if LastOne(s.tables, sock) {
      InterleaveCons(Do(cleared, CheckEmpty(k)), EraseRoom(k), rest);
    }
    InterleaveCons(cleared, CheckEmpty(k), after);
    InterleaveCons(off, ClearSession(k), [CheckEmpty(k)] + after);
    InterleaveCons(s, TakeOff(k, sock), [ClearSession(k)] + ([CheckEmpty(k)] + after));
  }

  lemma LeaveRoomAlone(s: Threads, k: nat, sock: Socket)
    requires k !in s.at && RoomsFree(s) && sock in s.tables.users && s.tables.users[sock].ReadRoom() in s.tables.rooms
    ensures Amounts(s, LeaveSections(k, sock, LastOne(s.tables, sock), []), LeaveRoom(s.tables, sock))
  {
    LeavingRuns(s, k, sock, []);
  }

  lemma CloseLobbyAlone(s: Threads, k: nat, sock: Socket)
    requires k !in s.at && sock in s.tables.users && s.tables.users[sock].status == WAITING
    ensures var erase := EraseId(k, sock, StatusText(WAITING));
            Amounts(s, [erase] + ([EraseSession(k)] + []), Logout(s.tables, sock))
  {
    AmountsTo(s, EraseId(k, sock, StatusText(WAITING)), EraseSession(k), Logout(s.tables, sock));
  }

  lemma CloseChatAlone(s: Threads, k: nat, sock: Socket, behind: string)
    requires k !in s.at && RoomsFree(s) && sock in s.tables.users && s.tables.users[sock].status == CHATTING
    requires s.tables.users[sock].ReadRoom() in s.tables.rooms
    ensures var leave := LeaveSections(k, sock, LastOne(s.tables, sock), [EraseSession(k)] + []);
            Amounts(s, [EraseId(k, sock, behind)] + leave, Teardown(s.tables, sock, behind))
  {
    var erased := Do(s, EraseId(k, sock, behind));
    assert RoomsFree(erased) && LastOne(erased.tables, sock) == LastOne(s.tables, sock);
    InterleaveCons(Gone(erased, k, sock), EraseSession(k), []);
    LeavingRuns(erased, k, sock, [EraseSession(k)] + []);
    AmountsAfter(s, EraseId(k, sock, behind), LeaveSections(k, sock, LastOne(s.tables, sock), [EraseSession(k)] + []),
                 Teardown(s.tables, sock, behind));
  }
}
