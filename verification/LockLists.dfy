/** Who is on which member list between two critical sections. */
module LockLists {
  import opened ChatTables
  import opened LockLevel

  /** The thread has taken the socket off a list already, or has yet to put it on one. */
  predicate Unlisted(s: Threads, x: Socket, k: nat) {
    k in s.at && s.at[k].sock == x && (s.at[k].Pushing? || s.at[k].OffList?)
  }

  predicate MakingFor(s: Threads, x: Socket, room: string, k: nat) {
    k in s.at && s.at[k] == Making(x, room)
  }

  /** The socket chats in the room and no thread is about to change that, or is making it. */
  ghost predicate Belongs(s: Threads, x: Socket, room: string) {
    || (Chatting(s.tables, x, room) && forall k :: !Unlisted(s, x, k))
    || (exists k :: MakingFor(s, x, room, k))
  }

  predicate AboutToDrop(s: Threads, room: string, k: nat) {
    k in s.at && (s.at[k].OffList? || s.at[k].Cleared? || s.at[k].Dropping?) && s.at[k].room == room
  }

  /** The list holds nobody who does not belong and nobody twice; when it is empty somebody is
      about to drop it. */
  ghost predicate ListSound(s: Threads, room: string)
    requires room in s.tables.rooms
  {
    var list := s.tables.rooms[room];
    && NoDuplicates(list)
    && (forall x <- list :: Belongs(s, x, room))
    && (list == [] ==> exists k :: AboutToDrop(s, room, k))
  }

  /** Everybody who belongs is on it. */
  ghost predicate ListFull(s: Threads, room: string) {
    forall x :: Belongs(s, x, room) ==> room in s.tables.rooms && x in s.tables.rooms[room]
  }

  ghost predicate ListsSound(s: Threads) {
    forall room :: room in s.tables.rooms ==> ListSound(s, room)
  }

  ghost predicate ListsFull(s: Threads) {
    forall room :: ListFull(s, room)
  }

  predicate Waiting(t: Tables, x: Socket) {
    x in t.users && t.users[x].status == WAITING
  }

  /** The session of a socket is in the status that its thread has left it in. */
  predicate StatusFits(t: Tables, p: Point) {
    match p
    case LoggingIn(_, _, _) => true
    case Closing(_) => true
    case Making(sock, room) => Waiting(t, sock) && Fits(room)
    case Entering(sock, room) => Waiting(t, sock) && Fits(room)
    case Pushing(sock, room) => Chatting(t, sock, room)
    case OffList(sock, room, _) => Chatting(t, sock, room)
    case Cleared(sock, _, _) => Waiting(t, sock)
    case Dropping(sock, _, _) => Waiting(t, sock)
    case Ending(sock) => Waiting(t, sock)
  }

  ghost predicate SessionsFit(s: Threads) {
    && SessionsOk(s.tables)
    && (forall room :: room in s.tables.rooms ==> Fits(room))
    && (forall k :: k in s.at ==> StatusFits(s.tables, s.at[k]))
  }

  predicate DroppedBy(s: Threads, room: string, k: nat) {
    k in s.at && s.at[k].Dropping? && s.at[k].room == room
  }

  /** Some thread has seen the room empty and is going to erase it. */
  ghost predicate BeingDropped(s: Threads, room: string) {
    exists k :: DroppedBy(s, room, k)
  }

  /** Only one thread has roomCs, and the room it is going to erase is still empty. */
  ghost predicate DropsFit(s: Threads) {
    && (forall k, l :: k in s.at && l in s.at && s.at[k].Dropping? && s.at[l].Dropping? ==> k == l)
    && (forall k :: k in s.at && s.at[k].Dropping? ==>
          s.at[k].room in s.tables.rooms && s.tables.rooms[s.at[k].room] == [])
  }

  ghost predicate Sound(s: Threads) {
    SessionsFit(s) && ListsSound(s)
  }

  ghost predicate Placed(s: Threads) {
    Sound(s) && ListsFull(s) && DropsFit(s)
  }

  /** A push that slips in between seeing a room empty and erasing it. The push holds the lock of
      the list and the eraser that of the map, so neither keeps the other out. */
  ghost predicate SlipsIn(s: Threads, c: Section)
    requires Can(s, c)
  {
    c.PushBack? && BeingDropped(s, s.at[c.thread].room)
  }

  // ---- one section ----

  /** The socket a section is about. */
  function SockOf(s: Threads, c: Section): Socket
    requires Can(s, c)
  {
    match c
    case CheckId(_, sock, _, _) => sock
    case EraseId(_, sock, _) => sock
    case InsertRoom(_, sock, _) => sock
    case FindRoom(_, sock, _) => sock
    case TakeOff(_, sock) => sock
    case _ => s.at[c.thread].sock
  }

  /** From `s` to `r` only thread `k` has moved, and only the session of `sock` has changed,
      for which no other thread works. */
  ghost predicate OnlyMoves(s: Threads, r: Threads, k: nat, sock: Socket) {
    && (forall l :: l != k ==> (l in r.at <==> l in s.at))
    && (forall l :: l != k && l in s.at ==> r.at[l] == s.at[l] && s.at[l].sock != sock)
    && (k in s.at ==> s.at[k].sock == sock)
    && (k in r.at ==> r.at[k].sock == sock)
    && (forall x :: x != sock ==> (x in r.tables.users <==> x in s.tables.users))
    && (forall x :: x != sock && x in s.tables.users ==> r.tables.users[x] == s.tables.users[x])
  }

  predicate Starts(c: Section) {
    c.CheckId? || c.EraseId? || c.InsertRoom? || c.FindRoom? || c.TakeOff?
  }

  lemma StartMoves(s: Threads, c: Section)
    requires PointsFit(s) && Can(s, c) && Orderly(s, c) && Starts(c)
    ensures OnlyMoves(s, Do(s, c), c.thread, SockOf(s, c))
  {
  }

  lemma NextMoves(s: Threads, c: Section)
    requires PointsFit(s) && Can(s, c) && !Starts(c)
    ensures OnlyMoves(s, Do(s, c), c.thread, SockOf(s, c))
  {
  }

  lemma SectionMoves(s: Threads, c: Section)
    requires PointsFit(s) && Can(s, c) && Orderly(s, c)
    ensures OnlyMoves(s, Do(s, c), c.thread, SockOf(s, c))
  {
    if Starts(c) {
      StartMoves(s, c);
    } else {
      NextMoves(s, c);
    }
  }

  lemma OthersBelong(s: Threads, r: Threads, k: nat, sock: Socket, x: Socket, room: string)
    requires OnlyMoves(s, r, k, sock) && x != sock
    ensures Belongs(r, x, room) <==> Belongs(s, x, room)
  {
    assert Chatting(r.tables, x, room) <==> Chatting(s.tables, x, room);
    assert forall l :: Unlisted(r, x, l) <==> Unlisted(s, x, l);
    assert forall l :: MakingFor(r, x, room, l) <==> MakingFor(s, x, room, l);
  }

  /** Whether a socket belongs, when only thread `k` may be working for it. */
  predicate OwnBelongs(s: Threads, k: nat, sock: Socket, room: string) {
    (Chatting(s.tables, sock, room) && !Unlisted(s, sock, k)) || MakingFor(s, sock, room, k)
  }

  lemma OwnMoves(s: Threads, r: Threads, k: nat, sock: Socket, room: string)
    requires OnlyMoves(s, r, k, sock)
    ensures Belongs(s, sock, room) <==> OwnBelongs(s, k, sock, room)
    ensures Belongs(r, sock, room) <==> OwnBelongs(r, k, sock, room)
  {
    assert forall l :: l != k ==> !Unlisted(s, sock, l) && !MakingFor(s, sock, room, l);
    assert forall l :: l != k ==> !Unlisted(r, sock, l) && !MakingFor(r, sock, room, l);
  }

  lemma DroppersStay(s: Threads, r: Threads, k: nat, sock: Socket, room: string)
    requires OnlyMoves(s, r, k, sock) && (AboutToDrop(s, room, k) ==> AboutToDrop(r, room, k))
    ensures (exists l :: AboutToDrop(s, room, l)) ==> exists l :: AboutToDrop(r, room, l)
  {
    if l :| AboutToDrop(s, room, l) {
      assert AboutToDrop(r, room, l);
    }
  }

  /** A list that a section leaves alone is as it was if the section's own socket still belongs
      where it did and the thread does not forget to drop the room. */
  lemma ListStays(s: Threads, r: Threads, k: nat, sock: Socket, room: string)
    requires OnlyMoves(s, r, k, sock) && (room in r.tables.rooms <==> room in s.tables.rooms)
    requires room in s.tables.rooms ==> r.tables.rooms[room] == s.tables.rooms[room]
    requires OwnBelongs(r, k, sock, room) <==> OwnBelongs(s, k, sock, room)
    requires room in s.tables.rooms && s.tables.rooms[room] == [] && AboutToDrop(s, room, k) ==> AboutToDrop(r, room, k)
    ensures room in s.tables.rooms && ListSound(s, room) ==> ListSound(r, room)
    ensures ListFull(s, room) ==> ListFull(r, room)
  {
    OwnMoves(s, r, k, sock, room);
    forall x ensures Belongs(r, x, room) <==> Belongs(s, x, room) {
      if x != sock {
        OthersBelong(s, r, k, sock, x, room);
      }
    }
    if room in s.tables.rooms && s.tables.rooms[room] == [] {
      DroppersStay(s, r, k, sock, room);
    }
  }

  /** A section that changes at most the list of `room`. */
  lemma OneListChanges(s: Threads, r: Threads, k: nat, sock: Socket, room: string)
    requires OnlyMoves(s, r, k, sock) && ListsSound(s)
    requires forall q :: q != room ==> (q in r.tables.rooms <==> q in s.tables.rooms)
    requires forall q :: q != room && q in s.tables.rooms ==> r.tables.rooms[q] == s.tables.rooms[q]
    requires forall q :: q != room ==> (OwnBelongs(r, k, sock, q) <==> OwnBelongs(s, k, sock, q))
    requires forall q :: q != room && AboutToDrop(s, q, k) ==> AboutToDrop(r, q, k)
    requires room in r.tables.rooms ==> ListSound(r, room)
    ensures ListsSound(r)
    ensures ListsFull(s) && ListFull(r, room) ==> ListsFull(r)
  {
    forall q | q != room
      ensures q in r.tables.rooms ==> ListSound(r, q)
      ensures ListFull(s, q) ==> ListFull(r, q)
    {
      ListStays(s, r, k, sock, q);
    }
  }

  /** A section that leaves the lists alone. */
  lemma NoListChanges(s: Threads, r: Threads, k: nat, sock: Socket)
    requires OnlyMoves(s, r, k, sock) && ListsSound(s) && r.tables.rooms == s.tables.rooms
    requires forall q :: OwnBelongs(r, k, sock, q) <==> OwnBelongs(s, k, sock, q)
    requires forall q :: AboutToDrop(s, q, k) ==> AboutToDrop(r, q, k)
    ensures ListsSound(r) && (ListsFull(s) ==> ListsFull(r))
  {
    forall q
      ensures q in r.tables.rooms ==> ListSound(r, q)
      ensures ListFull(s, q) ==> ListFull(r, q)
    {
      ListStays(s, r, k, sock, q);
    }
  }

  lemma SessionsFitKept(s: Threads, c: Section)
    requires PointsFit(s) && SessionsFit(s) && Can(s, c) && Orderly(s, c)
    ensures SessionsFit(Do(s, c))
  {
    SectionMoves(s, c);
    var r := Do(s, c);
    forall l | l in r.at && l != c.thread ensures StatusFits(r.tables, r.at[l]) {
      assert StatusFits(s.tables, s.at[l]);
    }
    if c.thread in s.at {
      assert StatusFits(s.tables, s.at[c.thread]);
    }
    if c.thread in r.at {
      assert StatusFits(r.tables, r.at[c.thread]);
    }
  }

  lemma InsertKeepsLists(s: Threads, k: nat, sock: Socket, room: string)
    requires PointsFit(s) && Sound(s) && Can(s, InsertRoom(k, sock, room)) && Orderly(s, InsertRoom(k, sock, room))
    ensures var r := Do(s, InsertRoom(k, sock, room)); ListsSound(r) && (ListsFull(s) ==> ListsFull(r))
  {
    var r := Do(s, InsertRoom(k, sock, room));
    if room !in s.tables.rooms {
      SectionMoves(s, InsertRoom(k, sock, room));
      OwnMoves(s, r, k, sock, room);
      assert MakingFor(r, sock, room, k);
      if ListFull(s, room) {
        forall x | x != sock ensures !Belongs(r, x, room) {
          OthersBelong(s, r, k, sock, x, room);
        }
      }
      OneListChanges(s, r, k, sock, room);
    }
  }

  lemma PushKeepsLists(s: Threads, k: nat)
    requires PointsFit(s) && Sound(s) && Can(s, PushBack(k))
    ensures ListsSound(Do(s, PushBack(k))) && (ListsFull(s) ==> ListsFull(Do(s, PushBack(k))))
  {
    var r := Do(s, PushBack(k));
    var sock, room := s.at[k].sock, s.at[k].room;
    assert StatusFits(s.tables, s.at[k]);
    SectionMoves(s, PushBack(k));
    OwnMoves(s, r, k, sock, room);
    assert Unlisted(s, sock, k) && sock !in s.tables.rooms[room];
    forall x | x != sock ensures Belongs(r, x, room) <==> Belongs(s, x, room) {
      OthersBelong(s, r, k, sock, x, room);
    }
    assert ListFull(s, room) ==> ListFull(r, room);
    OneListChanges(s, r, k, sock, room);
  }

  lemma TakeOffKeepsLists(s: Threads, k: nat, sock: Socket)
    requires PointsFit(s) && Sound(s) && Can(s, TakeOff(k, sock)) && Orderly(s, TakeOff(k, sock))
    ensures var r := Do(s, TakeOff(k, sock)); ListsSound(r) && (ListsFull(s) ==> ListsFull(r))
  {
    var r := Do(s, TakeOff(k, sock));
    var room := s.tables.users[sock].ReadRoom();
    SectionMoves(s, TakeOff(k, sock));
    OwnMoves(s, r, k, sock, room);
    RemoveMembers(s.tables.rooms[room], sock);
    assert Unlisted(r, sock, k) && AboutToDrop(r, room, k);
    forall x | x != sock ensures Belongs(r, x, room) <==> Belongs(s, x, room) {
      OthersBelong(s, r, k, sock, x, room);
    }
    assert ListFull(s, room) ==> ListFull(r, room);
    OneListChanges(s, r, k, sock, room);
  }

  /** Erasing a room loses nobody if it is still empty. */
  lemma EraseRoomKeepsLists(s: Threads, k: nat)
    requires PointsFit(s) && Sound(s) && Can(s, EraseRoom(k))
    ensures ListsSound(Do(s, EraseRoom(k)))
    ensures ListsFull(s) && DropsFit(s) ==> ListsFull(Do(s, EraseRoom(k)))
  {
    var r := Do(s, EraseRoom(k));
    var sock, room := s.at[k].sock, s.at[k].room;
    assert StatusFits(s.tables, s.at[k]);
    SectionMoves(s, EraseRoom(k));
    OwnMoves(s, r, k, sock, room);
    forall x | x != sock ensures Belongs(r, x, room) <==> Belongs(s, x, room) {
      OthersBelong(s, r, k, sock, x, room);
    }
    OneListChanges(s, r, k, sock, room);
    assert ListFull(s, room) && DropsFit(s) ==> ListFull(r, room);
  }

  lemma CheckEmptyKeepsLists(s: Threads, k: nat)
    requires PointsFit(s) && Sound(s) && Can(s, CheckEmpty(k))
    ensures ListsSound(Do(s, CheckEmpty(k))) && (ListsFull(s) ==> ListsFull(Do(s, CheckEmpty(k))))
  {
    var r := Do(s, CheckEmpty(k));
    var sock, room := s.at[k].sock, s.at[k].room;
    assert StatusFits(s.tables, s.at[k]);
    SectionMoves(s, CheckEmpty(k));
    ListStays(s, r, k, sock, room);
    OneListChanges(s, r, k, sock, room);
  }

  lemma StartsKeepLists(s: Threads, c: Section)
    requires PointsFit(s) && Sound(s) && Can(s, c) && Orderly(s, c)
    requires c.CheckId? || c.EraseId? || c.FindRoom?
    ensures ListsSound(Do(s, c)) && (ListsFull(s) ==> ListsFull(Do(s, c)))
  {
    SectionMoves(s, c);
    NoListChanges(s, Do(s, c), c.thread, SockOf(s, c));
  }

  lemma StoreKeepsLists(s: Threads, k: nat)
    requires PointsFit(s) && Sound(s) && Can(s, StoreSession(k))
    ensures ListsSound(Do(s, StoreSession(k))) && (ListsFull(s) ==> ListsFull(Do(s, StoreSession(k))))
  {
    SectionMoves(s, StoreSession(k));
    assert StatusFits(s.tables, s.at[k]);
    NoListChanges(s, Do(s, StoreSession(k)), k, s.at[k].sock);
  }

  lemma UpdateKeepsLists(s: Threads, k: nat)
    requires PointsFit(s) && Sound(s) && Can(s, UpdateSession(k))
    ensures ListsSound(Do(s, UpdateSession(k))) && (ListsFull(s) ==> ListsFull(Do(s, UpdateSession(k))))
  {
    SectionMoves(s, UpdateSession(k));
    assert StatusFits(s.tables, s.at[k]);
    NoListChanges(s, Do(s, UpdateSession(k)), k, s.at[k].sock);
  }

  lemma ClearKeepsLists(s: Threads, k: nat)
    requires PointsFit(s) && Sound(s) && Can(s, ClearSession(k))
    ensures ListsSound(Do(s, ClearSession(k))) && (ListsFull(s) ==> ListsFull(Do(s, ClearSession(k))))
  {
    SectionMoves(s, ClearSession(k));
    assert StatusFits(s.tables, s.at[k]);
    NoListChanges(s, Do(s, ClearSession(k)), k, s.at[k].sock);
  }

  lemma EraseKeepsLists(s: Threads, k: nat)
    requires PointsFit(s) && Sound(s) && Can(s, EraseSession(k))
    ensures ListsSound(Do(s, EraseSession(k))) && (ListsFull(s) ==> ListsFull(Do(s, EraseSession(k))))
  {
    SectionMoves(s, EraseSession(k));
    assert StatusFits(s.tables, s.at[k]);
    NoListChanges(s, Do(s, EraseSession(k)), k, s.at[k].sock);
  }

  /** Each section leaves nobody on a list who does not belong there, slips included. */
  lemma SoundKept(s: Threads, c: Section)
    requires PointsFit(s) && Sound(s) && Can(s, c) && Orderly(s, c)
    ensures Sound(Do(s, c))
    ensures ListsFull(s) && (c.EraseRoom? ==> DropsFit(s)) ==> ListsFull(Do(s, c))
  {
    SessionsFitKept(s, c);
    match c
    case InsertRoom(k, sock, room) => InsertKeepsLists(s, k, sock, room);
    case PushBack(k) => PushKeepsLists(s, k);
    case TakeOff(k, sock) => TakeOffKeepsLists(s, k, sock);
    case CheckEmpty(k) => CheckEmptyKeepsLists(s, k);
    case EraseRoom(k) => EraseRoomKeepsLists(s, k);
    case CheckId(_, _, _, _) => StartsKeepLists(s, c);
    case EraseId(_, _, _) => StartsKeepLists(s, c);
    case FindRoom(_, _, _) => StartsKeepLists(s, c);
    case StoreSession(k) => StoreKeepsLists(s, k);
    case UpdateSession(k) => UpdateKeepsLists(s, k);
    case ClearSession(k) => ClearKeepsLists(s, k);
    case EraseSession(k) => EraseKeepsLists(s, k);
  }

  lemma DropsKept(s: Threads, c: Section)
    requires DropsFit(s) && Can(s, c)
    ensures DropsFit(Do(s, c)) <==> !SlipsIn(s, c)
  {
    var r := Do(s, c);
    if SlipsIn(s, c) {
      var l :| DroppedBy(s, s.at[c.thread].room, l);
      assert r.at[l] == s.at[l] && r.tables.rooms[r.at[l].room] != [];
    } else {
      forall k | k in r.at && r.at[k].Dropping?
        ensures r.at[k].room in r.tables.rooms && r.tables.rooms[r.at[k].room] == []
      {
        if k in s.at && s.at[k].Dropping? {
          assert r.at[k] == s.at[k] && DroppedBy(s, s.at[k].room, k);
        }
      }
    }
  }

  /** A section keeps every list exact, up to the threads that are in the middle of a change, and
      the room about to be erased empty, exactly if it is no push that slips in. */
  lemma PlacedKept(s: Threads, c: Section)
    requires PointsFit(s) && Placed(s) && Can(s, c) && Orderly(s, c)
    ensures Placed(Do(s, c)) <==> !SlipsIn(s, c)
  {
    SoundKept(s, c);
    DropsKept(s, c);
  }

  // ---- runs ----

  /** No push of the run slips in between seeing a room empty and erasing it. */
  ghost predicate NoneSlipsIn(s: Threads, cs: seq<Section>)
    requires CanAll(s, cs)
    decreases cs
  {
    cs == [] || (!SlipsIn(s, cs[0]) && NoneSlipsIn(Do(s, cs[0]), cs[1..]))
  }

  lemma {:induction false} PlacedAlways(s: Threads, cs: seq<Section>)
    requires Held(s) && Placed(s) && CanAll(s, cs) && OrderlyAll(s, cs) && NoneSlipsIn(s, cs)
    ensures Held(Interleave(s, cs)) && Placed(Interleave(s, cs))
    decreases cs
  {
    if cs == [] {
    } else {
      HeldKept(s, cs[0]);
      PlacedKept(s, cs[0]);
      PlacedAlways(Do(s, cs[0]), cs[1..]);
    }
  }

  lemma NobodyIsPlaced()
    ensures Held(NOBODY) && Placed(NOBODY)
  {
  }

  lemma {:induction false} SoundAlways(s: Threads, cs: seq<Section>)
    requires Held(s) && Sound(s) && CanAll(s, cs) && OrderlyAll(s, cs)
    ensures Held(Interleave(s, cs)) && Sound(Interleave(s, cs))
    decreases cs
  {
    if cs == [] {
    } else {
      HeldKept(s, cs[0]);
      SoundKept(s, cs[0]);
      SoundAlways(Do(s, cs[0]), cs[1..]);
    }
  }

  /** With one thread at a time per socket, at every point of every interleaving: whoever is
      listed in a room belongs there and is listed once, and an empty list has a thread that is
      about to drop it. If no push slips in, whoever belongs is listed as well. */
  lemma ListsAreExact(cs: seq<Section>, room: string)
    requires CanAll(NOBODY, cs) && OrderlyAll(NOBODY, cs)
    requires room in Interleave(NOBODY, cs).tables.rooms
    ensures var s := Interleave(NOBODY, cs); var list := s.tables.rooms[room];
            && (forall x :: Occurrences(list, x) == if x in list then 1 else 0)
            && (forall x <- list :: Belongs(s, x, room))
            && (list == [] ==> exists k :: AboutToDrop(s, room, k))
            && (NoneSlipsIn(NOBODY, cs) ==> forall x :: x in list <==> Belongs(s, x, room))
  {
    NobodyIsPlaced();
    SoundAlways(NOBODY, cs);
    var s := Interleave(NOBODY, cs);
    assert ListSound(s, room);
    forall x ensures Occurrences(s.tables.rooms[room], x) == if x in s.tables.rooms[room] then 1 else 0 {
      OccursOnce(s.tables.rooms[room], x);
    }
    if NoneSlipsIn(NOBODY, cs) {
      PlacedAlways(NOBODY, cs);
      assert ListFull(s, room);
    }
  }

  /** Every chatting session is on the list of its room. */
  ghost predicate EveryoneListed(t: Tables) {
    forall x :: x in t.users && t.users[x].status == CHATTING ==>
      t.users[x].ReadRoom() in t.rooms && x in t.rooms[t.users[x].ReadRoom()]
  }

  lemma AtRestIndexed(s: Threads)
    requires Held(s) && s.at == map[]
    ensures LoginIndex(s.tables)
  {
    var t := s.tables;
    assert forall x, k :: !ClosedBy(s, x, k) && !LoginBy(s, x, k);
    assert t.users.Keys == s.holders.Keys;
    assert forall x :: x in t.users ==> t.users[x].ReadId() == s.holders[x];
    assert UserIds(t.users) == IdsOf(s.holders);
  }

  lemma AtRestAgrees(s: Threads)
    requires Held(s) && Sound(s) && s.at == map[]
    ensures Agree(s.tables) <==> EveryoneListed(s.tables)
  {
    var t := s.tables;
    AtRestIndexed(s);
    assert forall x, room :: Belongs(s, x, room) <==> Chatting(t, x, room);
    forall room | room in t.rooms
      ensures t.rooms[room] != [] && NoDuplicates(t.rooms[room]) && forall x <- t.rooms[room] :: Chatting(t, x, room)
    {
      assert ListSound(s, room);
    }
    if Agree(t) {
      forall x | x in t.users && t.users[x].status == CHATTING
        ensures t.users[x].ReadRoom() in t.rooms && x in t.rooms[t.users[x].ReadRoom()]
      {
        assert Chatting(t, x, t.users[x].ReadRoom());
      }
    }
  }

  lemma AtRestListed(s: Threads)
    requires ListsFull(s) && s.at == map[]
    ensures EveryoneListed(s.tables)
  {
    var t := s.tables;
    forall x | x in t.users && t.users[x].status == CHATTING
      ensures t.users[x].ReadRoom() in t.rooms && x in t.rooms[t.users[x].ReadRoom()]
    {
      assert ListFull(s, t.users[x].ReadRoom()) && Belongs(s, x, t.users[x].ReadRoom());
    }
  }

  /** However the critical sections of handlers were interleaved, one thread at a time per socket:
      whenever no handler is under way, the tables agree except for sessions that chat in a room
      without being listed there; and if no push slipped in there are none of those. */
  lemma WheneverAtRest(cs: seq<Section>)
    requires CanAll(NOBODY, cs) && OrderlyAll(NOBODY, cs) && Interleave(NOBODY, cs).at == map[]
    ensures var t := Interleave(NOBODY, cs).tables;
            && (Agree(t) <==> EveryoneListed(t))
            && (NoneSlipsIn(NOBODY, cs) ==> Agree(t))
  {
    NobodyIsPlaced();
    SoundAlways(NOBODY, cs);
    var s := Interleave(NOBODY, cs);
    AtRestAgrees(s);
    if NoneSlipsIn(NOBODY, cs) {
      PlacedAlways(NOBODY, cs);
      AtRestListed(s);
    }
  }
}
