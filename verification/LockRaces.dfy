/** What does not hold between two critical sections, and exactly when. */
module LockRaces {
  import opened ChatTables
  import opened LockLevel
  import opened LockLists

  // ---- when a place on a list can be lost ----

  lemma PlaceStaysOnce(s: Threads, c: Section, room: string, x: Socket)
    requires Can(s, c) && room in s.tables.rooms && x in s.tables.rooms[room] && !BeingDropped(s, room)
    requires c.TakeOff? ==> c.sock != x
    ensures var r := Do(s, c); room in r.tables.rooms && x in r.tables.rooms[room] && !BeingDropped(r, room)
  {
    assert c.EraseRoom? ==> s.at[c.thread].room == room ==> DroppedBy(s, room, c.thread);
    MembersStay(s, c, room, x);
    forall k ensures !DroppedBy(Do(s, c), room, k) {
      assert !DroppedBy(s, room, k);
    }
  }

  /** A member whose room nobody is dropping keeps it from becoming empty, and so its place. */
  lemma {:induction false} PlaceStays(s: Threads, cs: seq<Section>, room: string, x: Socket)
    requires CanAll(s, cs) && room in s.tables.rooms && x in s.tables.rooms[room] && !BeingDropped(s, room)
    requires forall c <- cs :: c.TakeOff? ==> c.sock != x
    ensures var t := Interleave(s, cs).tables; room in t.rooms && x in t.rooms[room]
    decreases cs
  {
    if cs == [] {
    } else {
      PlaceStaysOnce(s, cs[0], room, x);
      PlaceStays(Do(s, cs[0]), cs[1..], room, x);
    }
  }

  /** An interleaving without a section that takes `x` off a list, after which it has lost its
      place on the one of `room`. */
  ghost predicate LosesPlace(s: Threads, cs: seq<Section>, room: string, x: Socket) {
    && CanAll(s, cs)
    && (forall c <- cs :: c.TakeOff? ==> c.sock != x)
    && var t := Interleave(s, cs).tables; !(room in t.rooms && x in t.rooms[room])
  }

  /** A member can lose its place without being taken off exactly while somebody who saw the room
      empty is about to erase it. */
  lemma PlaceAtRisk(s: Threads, room: string, x: Socket)
    requires room in s.tables.rooms && x in s.tables.rooms[room]
    ensures (exists cs :: LosesPlace(s, cs, room, x)) <==> BeingDropped(s, room)
  {
    if k :| DroppedBy(s, room, k) {
      InterleaveCons(s, EraseRoom(k), []);
      assert LosesPlace(s, [EraseRoom(k)] + [], room, x);
    } else {
      forall cs | LosesPlace(s, cs, room, x) ensures false {
        PlaceStays(s, cs, room, x);
      }
    }
  }

  // ---- orderly interleavings in which only certain sockets leave ----

  ghost predicate Path(s: Threads, cs: seq<Section>, leavers: set<Socket>, r: Threads) {
    && CanAll(s, cs) && OrderlyAll(s, cs)
    && (forall c <- cs :: c.TakeOff? ==> c.sock in leavers)
    && Interleave(s, cs) == r
  }

  /** Some orderly interleaving in which only sockets in `leavers` are taken off lists leads from
      `s` to `r`. */
  ghost predicate Leads(s: Threads, r: Threads, leavers: set<Socket>) {
    exists cs :: Path(s, cs, leavers, r)
  }

  lemma LeadsToItself(s: Threads, leavers: set<Socket>)
    ensures Leads(s, s, leavers)
  {
    assert Path(s, [], leavers, s);
  }

  lemma LeadsOn(s: Threads, c: Section, r: Threads, leavers: set<Socket>)
    requires Can(s, c) && Orderly(s, c) && (c.TakeOff? ==> c.sock in leavers) && Leads(Do(s, c), r, leavers)
    ensures Leads(s, r, leavers)
  {
    var cs :| Path(Do(s, c), cs, leavers, r);
    InterleaveCons(s, c, cs);
    assert ([c] + cs)[1..] == cs;
    assert Path(s, [c] + cs, leavers, r);
  }

  lemma PlaceStaysOnPath(s: Threads, r: Threads, leavers: set<Socket>, room: string, x: Socket)
    requires Leads(s, r, leavers) && s.at == map[] && room in s.tables.rooms && x in s.tables.rooms[room]
    requires x !in leavers
    ensures room in r.tables.rooms
  {
    var cs :| Path(s, cs, leavers, r);
    assert forall k :: !DroppedBy(s, room, k);
    PlaceStays(s, cs, room, x);
  }

  // ---- everybody leaves a room that somebody is entering ----

  /** Thread `k` is about to push `sock` onto the list of the room, nobody else is under way, and
      those listed are chatting there. */
  ghost predicate AboutToPush(s: Threads, k: nat, sock: Socket, room: string, list: seq<Socket>) {
    && s.at == map[k := Pushing(sock, room)]
    && room in s.tables.rooms && s.tables.rooms[room] == list && list != []
    && NoDuplicates(list) && sock !in list && sock in s.tables.users
    && (forall x <- list :: Chatting(s.tables, x, room))
  }

  /** The last one to leave has seen the room empty, and the newcomer has not been pushed yet. */
  ghost predicate Crossing(s: Threads, k: nat, l: nat, y: Socket, sock: Socket, room: string) {
    && k != l && s.at == map[k := Pushing(sock, room), l := Dropping(y, room, false)]
    && room in s.tables.rooms && s.tables.rooms[room] == [] && sock in s.tables.users
  }

  lemma MemberLeaves(s: Threads, k: nat, l: nat, sock: Socket, room: string, list: seq<Socket>)
    requires l != k && AboutToPush(s, k, sock, room, list)
    ensures Can(s, TakeOff(l, list[0])) && RoomsFree(s) && Orderly(s, TakeOff(l, list[0]))
    ensures Remove(list, list[0]) == list[1..]
    ensures s.tables.users[list[0]].ReadRoom() == room
  {
    var y, rest := list[0], list[1..];
    assert y in list && Chatting(s.tables, y, room) && y !in rest;
    RemoveAbsent(rest, y);
  }

  /** The first of several on the list leaves. */
  lemma FirstLeaves(s: Threads, k: nat, l: nat, sock: Socket, room: string, list: seq<Socket>)
    requires l != k && |list| > 1 && AboutToPush(s, k, sock, room, list)
    ensures Can(s, TakeOff(l, list[0])) && RoomsFree(s)
    ensures !LastOne(s.tables, list[0])
    ensures AboutToPush(Gone(s, l, list[0]), k, sock, room, list[1..])
  {
    MemberLeaves(s, k, l, sock, room, list);
    var y, rest := list[0], list[1..];
    assert y !in rest;
    forall x <- rest ensures Chatting(LeaveRoom(s.tables, y), x, room) {
      assert x in list && Chatting(s.tables, x, room);
    }
  }

  /** The last one leaves, up to seeing the room empty. */
  lemma LastLeaves(s: Threads, k: nat, l: nat, sock: Socket, room: string, y: Socket)
    requires l != k && AboutToPush(s, k, sock, room, [y])
    ensures Can(s, TakeOff(l, y))
    ensures var off := Do(s, TakeOff(l, y));
            && Can(off, ClearSession(l)) && Can(Do(off, ClearSession(l)), CheckEmpty(l))
            && var r := Do(Do(off, ClearSession(l)), CheckEmpty(l));
               Crossing(r, k, l, y, sock, room) && r.tables.users[sock] == s.tables.users[sock]
  {
    MemberLeaves(s, k, l, sock, room, [y]);
    LeavingClears(s, l, y);
    LeavingKeepsRoom(s.tables, y);
  }

  /** A thread that has found the room for `sock` and is about to look it up again, unchecked,
      although it is gone. */
  predicate Stranded(s: Threads, sock: Socket, room: string, k: nat) {
    k in s.at && s.at[k] == Pushing(sock, room) && room !in s.tables.rooms
  }

  /** Nobody is under way, and the socket chats in a room that is gone. */
  predicate LostAtRest(s: Threads, sock: Socket, room: string) {
    s.at == map[] && Chatting(s.tables, sock, room) && room !in s.tables.rooms
  }

  /** From there the room is erased, before the push or after it. */
  lemma CrossingEnds(s: Threads, k: nat, l: nat, y: Socket, sock: Socket, room: string, leavers: set<Socket>)
    returns (stranded: Threads, lost: Threads)
    requires Crossing(s, k, l, y, sock, room)
    ensures Leads(s, stranded, leavers) && Stranded(stranded, sock, room, k)
    ensures Leads(s, lost, leavers) && (Chatting(s.tables, sock, room) ==> LostAtRest(lost, sock, room))
  {
    var pushed := Do(s, PushBack(k));
    stranded, lost := Do(s, EraseRoom(l)), Do(pushed, EraseRoom(l));
    LeadsToItself(stranded, leavers);
    LeadsOn(s, EraseRoom(l), stranded, leavers);
    LeadsToItself(lost, leavers);
    LeadsOn(pushed, EraseRoom(l), lost, leavers);
    LeadsOn(s, PushBack(k), lost, leavers);
  }

  lemma LeavingLeads(s: Threads, l: nat, y: Socket, r: Threads, leavers: set<Socket>)
    requires Can(s, TakeOff(l, y)) && Orderly(s, TakeOff(l, y)) && y in leavers
    requires var off := Do(s, TakeOff(l, y));
             && Can(off, ClearSession(l)) && Can(Do(off, ClearSession(l)), CheckEmpty(l))
             && Leads(Do(Do(off, ClearSession(l)), CheckEmpty(l)), r, leavers)
    ensures Leads(s, r, leavers)
  {
    var off := Do(s, TakeOff(l, y));
    LeadsOn(Do(off, ClearSession(l)), CheckEmpty(l), r, leavers);
    LeadsOn(off, ClearSession(l), r, leavers);
    LeadsOn(s, TakeOff(l, y), r, leavers);
  }

  lemma {:induction false} AllLeave(s: Threads, k: nat, l: nat, sock: Socket, room: string, list: seq<Socket>,
                                    leavers: set<Socket>)
    returns (stranded: Threads, lost: Threads)
    requires l != k && AboutToPush(s, k, sock, room, list) && forall x <- list :: x in leavers
    ensures Leads(s, stranded, leavers) && Stranded(stranded, sock, room, k)
    ensures Leads(s, lost, leavers) && (Chatting(s.tables, sock, room) ==> LostAtRest(lost, sock, room))
    decreases list
  {
    var y := list[0];
    MemberLeaves(s, k, l, sock, room, list);
    if |list| == 1 {
      assert list == [y];
      LastLeaves(s, k, l, sock, room, y);
      var crossing := Do(Do(Do(s, TakeOff(l, y)), ClearSession(l)), CheckEmpty(l));
      stranded, lost := CrossingEnds(crossing, k, l, y, sock, room, leavers);
    } else {
      FirstLeaves(s, k, l, sock, room, list);
      LeavingEnds(s, l, y);
      stranded, lost := AllLeave(Gone(s, l, y), k, l, sock, room, list[1..], leavers);
    }
    LeavingLeads(s, l, y, stranded, leavers);
    LeavingLeads(s, l, y, lost, leavers);
  }

  /** Until it is about to push, nothing gets in the way of a thread that is alone. */
  lemma EntersAlone(s: Threads, k: nat, sock: Socket, room: string)
    requires Agree(s.tables) && s.at == map[] && room in s.tables.rooms && Waiting(s.tables, sock)
    ensures var find, update := FindRoom(k, sock, room), UpdateSession(k);
            && Can(s, find) && Orderly(s, find) && Can(Do(s, find), update)
            && var r := Do(Do(s, find), update);
               && AboutToPush(r, k, sock, room, s.tables.rooms[room])
               && (Fits(room) ==> Chatting(r.tables, sock, room))
  {
    forall x <- s.tables.rooms[room] ensures x != sock && Chatting(s.tables, x, room) {
      assert !Chatting(s.tables, sock, room);
    }
  }

  lemma EveryoneCanLeave(s: Threads, sock: Socket, room: string, leavers: set<Socket>)
    returns (stranded: Threads, lost: Threads)
    requires Agree(s.tables) && s.at == map[] && room in s.tables.rooms && Waiting(s.tables, sock)
    requires forall x <- s.tables.rooms[room] :: x in leavers
    ensures Leads(s, stranded, leavers) && Stranded(stranded, sock, room, 0)
    ensures Leads(s, lost, leavers) && (Fits(room) ==> LostAtRest(lost, sock, room))
  {
    EntersAlone(s, 0, sock, room);
    var found := Do(s, FindRoom(0, sock, room));
    stranded, lost := AllLeave(Do(found, UpdateSession(0)), 0, 1, sock, room, s.tables.rooms[room], leavers);
    LeadsOn(found, UpdateSession(0), stranded, leavers);
    LeadsOn(found, UpdateSession(0), lost, leavers);
    LeadsOn(s, FindRoom(0, sock, room), stranded, leavers);
    LeadsOn(s, FindRoom(0, sock, room), lost, leavers);
  }

  // ---- the two ways to lose a room while entering it ----

  /** From any state in which the tables agree and no handler is under way: the departure of
      certain sockets can make the second lookup of RoomEnter fail exactly if everybody listed is
      among them. One member who stays is enough, and without one nothing else is. */
  lemma RoomVanishes(s: Threads, sock: Socket, room: string, leavers: set<Socket>)
    requires Agree(s.tables) && s.at == map[] && room in s.tables.rooms && Waiting(s.tables, sock)
    ensures (exists r, k :: Leads(s, r, leavers) && Stranded(r, sock, room, k))
       <==> forall x <- s.tables.rooms[room] :: x in leavers
  {
    if forall x <- s.tables.rooms[room] :: x in leavers {
      var stranded, lost := EveryoneCanLeave(s, sock, room, leavers);
    } else {
      var x :| x in s.tables.rooms[room] && x !in leavers;
      forall r, k | Leads(s, r, leavers) && Stranded(r, sock, room, k) ensures false {
        PlaceStaysOnPath(s, r, leavers, room, x);
      }
    }
  }

  /** The same condition decides whether the newcomer can be pushed onto the list in time and yet
      end up in no room when all handlers are through: the last one to leave sees the room empty,
      the newcomer is pushed, and the room is erased with it. */
  lemma NewcomerIsLost(s: Threads, sock: Socket, room: string, leavers: set<Socket>)
    requires Agree(s.tables) && Terminated(s.tables) && s.at == map[]
    requires room in s.tables.rooms && Waiting(s.tables, sock)
    ensures (exists r :: Leads(s, r, leavers) && LostAtRest(r, sock, room))
       <==> forall x <- s.tables.rooms[room] :: x in leavers
    ensures forall r :: LostAtRest(r, sock, room) ==> !Agree(r.tables)
  {
    RoomNamesFit(s.tables, room);
    if forall x <- s.tables.rooms[room] :: x in leavers {
      var stranded, lost := EveryoneCanLeave(s, sock, room, leavers);
    } else {
      var x :| x in s.tables.rooms[room] && x !in leavers;
      forall r | Leads(s, r, leavers) && LostAtRest(r, sock, room) ensures false {
        PlaceStaysOnPath(s, r, leavers, room, x);
      }
    }
  }

  // ---- two workers for one socket ----

  /** Two jobs of one socket in the hands of two workers, as the server allows, can leave it on
      two lists when both are done: exactly why the sections are taken to be orderly. */
  lemma TwoWorkersTwoRooms(s: Threads, sock: Socket, a: string, b: string)
    requires Agree(s.tables) && s.at == map[] && sock in s.tables.users && s.tables.users[sock].status == WAITING
    requires a !in s.tables.rooms && b !in s.tables.rooms && a != b
    ensures var updates := [UpdateSession(0)] + ([UpdateSession(1)] + []);
            var cs := [InsertRoom(0, sock, a)] + ([InsertRoom(1, sock, b)] + updates);
            && CanAll(s, cs)
            && var r := Interleave(s, cs);
               && r.at == map[] && !Agree(r.tables)
               && {a, b} <= r.tables.rooms.Keys && r.tables.rooms[a] == r.tables.rooms[b] == [sock]
  {
    var c1, c2, c3, c4 := InsertRoom(0, sock, a), InsertRoom(1, sock, b), UpdateSession(0), UpdateSession(1);
    var s1 := Do(s, c1);
    var s2 := Do(s1, c2);
    var s3 := Do(s2, c3);
    InterleaveCons(s3, c4, []);
    InterleaveCons(s2, c3, [c4] + []);
    InterleaveCons(s1, c2, [c3] + ([c4] + []));
    InterleaveCons(s, c1, [c2] + ([c3] + ([c4] + [])));
    var t := Do(s3, c4).tables;
    assert sock in t.rooms[a] && sock in t.rooms[b];
    assert !(Chatting(t, sock, a) && Chatting(t, sock, b));
  }

  /** Some interleaving leads from `s` to `r`. */
  ghost predicate Reaches(s: Threads, r: Threads) {
    exists cs :: CanAll(s, cs) && Interleave(s, cs) == r
  }

  lemma ReachesOn(s: Threads, c: Section, r: Threads)
    requires Can(s, c) && Reaches(Do(s, c), r)
    ensures Reaches(s, r)
  {
    var cs :| CanAll(Do(s, c), cs) && Interleave(Do(s, c), cs) == r;
    InterleaveCons(s, c, cs);
  }

  function LoggedIn(s: Threads, k: nat, sock: Socket, id: string): Threads
    requires Can(s, CheckId(k, sock, id, "")) && Can(Do(s, CheckId(k, sock, id, "")), StoreSession(k))
  {
    Do(Do(s, CheckId(k, sock, id, "")), StoreSession(k))
  }

  lemma LoginReaches(s: Threads, k: nat, sock: Socket, id: string)
    requires k !in s.at && id !in s.tables.ids
    ensures Can(s, CheckId(k, sock, id, "")) && Can(Do(s, CheckId(k, sock, id, "")), StoreSession(k))
    ensures var r := LoggedIn(s, k, sock, id);
            && r.tables == Login(s.tables, sock, id, "") && r.at == s.at
            && forall q :: Reaches(r, q) ==> Reaches(s, q)
  {
    var c, r := Do(s, CheckId(k, sock, id, "")), LoggedIn(s, k, sock, id);
    forall q | Reaches(r, q) ensures Reaches(s, q) {
      ReachesOn(c, StoreSession(k), q);
      ReachesOn(s, CheckId(k, sock, id, ""), q);
    }
  }

  /** The id of `x` is erased and let in again for `y` before the session of `x` is gone. */
  lemma IdPassesOn(s: Threads, k: nat, x: Socket, l: nat, y: Socket, id: string) returns (r: Threads)
    requires k !in s.at && l !in s.at && k != l && x != y && Fits(id)
    requires x in s.tables.users && s.tables.users[x].ReadId() == id
    ensures r.tables.users == s.tables.users[y := Session("", "", id, WAITING)]
    ensures r.at == s.at[k := Closing(x)]
    ensures forall q :: Reaches(r, q) ==> Reaches(s, q)
  {
    var erased := Do(s, EraseId(k, x, ""));
    LoginReaches(erased, l, y, id);
    r := LoggedIn(erased, l, y, id);
    forall q | Reaches(r, q) ensures Reaches(s, q) {
      ReachesOn(s, EraseId(k, x, ""), q);
    }
  }

  /** A second logout of `x`, which another worker handles before the first is through, erases
      an id that is somebody else's by then: from any agreeing state at rest with `x` in the lobby,
      two other sessions can come to share its id with neither being closed. */
  lemma TwoWorkersShareId(s: Threads, x: Socket, y: Socket, z: Socket)
    requires Agree(s.tables) && s.at == map[] && Waiting(s.tables, x) && Fits(s.tables.users[x].userId)
    requires y !in s.tables.users && z !in s.tables.users && y != z
    ensures exists r :: Reaches(s, r)
                     && y in r.tables.users && z in r.tables.users
                     && r.tables.users[y].ReadId() == r.tables.users[z].ReadId() == s.tables.users[x].userId
                     && forall k :: !ClosedBy(r, y, k) && !ClosedBy(r, z, k)
  {
    var id := s.tables.users[x].userId;
    var passed := IdPassesOn(s, 0, x, 2, y, id);
    var r := IdPassesOn(passed, 1, x, 3, z, id);
    assert CanAll(r, []) && Interleave(r, []) == r;
    assert Reaches(r, r) && Reaches(passed, r);
    assert r.at == map[0 := Closing(x), 1 := Closing(x)];
  }
}
