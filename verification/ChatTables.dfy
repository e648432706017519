/** The three tables that login, rooms and teardown keep in agreement, and the elementary
    changes every handler is made of. */
module ChatTables {

  type Socket = nat

  const NAME_SIZE: nat := 20

  datatype ClientStatus = INIT | LOGOUT | WAITING | CHATTING | WHISPER | FILE_SEND

  /** The number a status is stored as, which is also its slot in the handler table. */
  function Slot(status: ClientStatus): nat {
    match status
    case INIT => 0 case LOGOUT => 1 case WAITING => 2 case CHATTING => 3 case WHISPER => 4 case FILE_SEND => 5
  }

  /** The characters that a bounded string copy stores in a name field. It writes no terminator
      behind NAME_SIZE of them. */
  function Field(s: string): (f: string)
    ensures f <= s && |f| <= NAME_SIZE && (f == s <==> |s| <= NAME_SIZE)
  {
    if |s| <= NAME_SIZE then s else s[..NAME_SIZE]
  }

  /** The name fits its field together with the terminator. */
  predicate Fits(s: string) {
    |s| < NAME_SIZE
  }

  /** What is read back from a field. Without a terminator reading runs on into `behind`. */
  function ReadOn(field: string, behind: string): string {
    if Fits(field) then field else field + behind
  }

  /** A name comes back as it was stored if it fits, or if its overhang is what lies behind. */
  lemma ReadBack(name: string, behind: string)
    ensures ReadOn(Field(name), behind) == name <==> Fits(name) || name[NAME_SIZE..] == behind
  {
    if !Fits(name) {
      assert name == name[..NAME_SIZE] + name[NAME_SIZE..];
      assert (Field(name) + behind)[NAME_SIZE..] == behind;
    }
  }

  /** The stored status as text: its first byte, up to the zero bytes behind it. */
  function StatusText(status: ClientStatus): string {
    if Slot(status) == 0 then "" else [Slot(status) as char]
  }

  /** The three fields and the status lie one behind the other. */
  datatype Session = Session(userName: string, roomName: string, userId: string, status: ClientStatus) {
    function ReadId(): string {
      ReadOn(userId, StatusText(status))
    }

    function ReadRoom(): string {
      ReadOn(roomName, ReadId())
    }

    function ReadName(): string {
      ReadOn(userName, ReadRoom())
    }
  }

  datatype Tables = Tables(
    ids: set<string>,                   // logged-in ids
    users: map<Socket, Session>,        // session of each socket
    rooms: map<string, seq<Socket>>)    // members of each room, in order of arrival

  const NO_TABLES := Tables({}, map[], map[])

  // ---- member lists ----

  ghost predicate NoDuplicates(list: seq<Socket>) {
    forall i, j :: 0 <= i < j < |list| ==> list[i] != list[j]
  }

  /** std::list::remove: every occurrence goes. */
  function Remove(list: seq<Socket>, x: Socket): seq<Socket> {
    if list == [] then []
    else if list[0] == x then Remove(list[1..], x)
    else [list[0]] + Remove(list[1..], x)
  }

  function Occurrences(list: seq<Socket>, x: Socket): nat {
    if list == [] then 0 else (if list[0] == x then 1 else 0) + Occurrences(list[1..], x)
  }

  lemma {:induction false} RemoveMembers(list: seq<Socket>, x: Socket)
    ensures forall y :: y in Remove(list, x) <==> y in list && y != x
    ensures NoDuplicates(list) ==> NoDuplicates(Remove(list, x))
  {
    if list == [] {
    } else {
      RemoveMembers(list[1..], x);
      assert forall y :: y in list <==> y == list[0] || y in list[1..];
      if NoDuplicates(list) {
        assert list[0] !in list[1..];
      }
    }
  }

  lemma {:induction false} RemoveAbsent(list: seq<Socket>, x: Socket)
    requires x !in list
    ensures Remove(list, x) == list
  {
    if list == [] {
    } else {
      RemoveAbsent(list[1..], x);
    }
  }

  lemma {:induction false} RemoveAppend(a: seq<Socket>, b: seq<Socket>, x: Socket)
    ensures Remove(a + b, x) == Remove(a, x) + Remove(b, x)
  {
    if a == [] {
      assert a + b == b;
    } else {
      assert (a + b)[1..] == a[1..] + b;
      RemoveAppend(a[1..], b, x);
    }
  }

  lemma RemoveLast(list: seq<Socket>, x: Socket)
    requires x !in list
    ensures Remove(list + [x], x) == list
  {
    RemoveAppend(list, [x], x);
    RemoveAbsent(list, x);
  }

  lemma {:induction false} OccursOnce(list: seq<Socket>, x: Socket)
    requires NoDuplicates(list)
    ensures Occurrences(list, x) == if x in list then 1 else 0
  {
    if list == [] {
    } else {
      OccursOnce(list[1..], x);
      assert list[0] !in list[1..];
    }
  }

  // ---- agreement ----

  predicate Chatting(t: Tables, x: Socket, r: string) {
    x in t.users && t.users[x].status == CHATTING && t.users[x].ReadRoom() == r
  }

  ghost predicate LoginIndex(t: Tables) {
    && t.ids == UserIds(t.users)
    && (forall x, y :: x in t.users && y in t.users && t.users[x].ReadId() == t.users[y].ReadId() ==> x == y)
  }

  ghost predicate SessionsOk(t: Tables) {
    forall x :: x in t.users ==>
      t.users[x].status == CHATTING || (t.users[x].status == WAITING && t.users[x].roomName == "")
  }

  ghost predicate Membership(t: Tables) {
    && (forall r :: r in t.rooms ==> t.rooms[r] != [] && NoDuplicates(t.rooms[r]))
    && (forall r, x :: r in t.rooms ==> (x in t.rooms[r] <==> Chatting(t, x, r)))
    && (forall x :: x in t.users && t.users[x].status == CHATTING ==> t.users[x].ReadRoom() in t.rooms)
  }

  ghost predicate Agree(t: Tables) {
    LoginIndex(t) && SessionsOk(t) && Membership(t)
  }

  /** Every field holds its terminator. */
  ghost predicate Terminated(t: Tables) {
    forall x :: x in t.users ==> Fits(t.users[x].userName) && Fits(t.users[x].roomName) && Fits(t.users[x].userId)
  }

  lemma RoomNamesFit(t: Tables, room: string)
    requires Agree(t) && Terminated(t) && room in t.rooms
    ensures Fits(room)
  {
    assert Chatting(t, t.rooms[room][0], room);
  }

  // ---- the elementary changes ----

  function Login(t: Tables, sock: Socket, id: string, nick: string): Tables {
    t.(ids := t.ids + {id}, users := t.users[sock := Session(Field(nick), "", Field(id), WAITING)])
  }

  function EnterChat(t: Tables, sock: Socket, name: string): Tables
    requires sock in t.users
  {
    t.(users := t.users[sock := t.users[sock].(roomName := Field(name), status := CHATTING)])
  }

  function OpenRoom(t: Tables, sock: Socket, name: string): Tables
    requires sock in t.users
  {
    EnterChat(t.(rooms := t.rooms[name := [sock]]), sock, name)
  }

  function JoinRoom(t: Tables, sock: Socket, name: string): Tables
    requires sock in t.users && name in t.rooms
  {
    var u := EnterChat(t, sock, name);
    u.(rooms := u.rooms[name := u.rooms[name] + [sock]])
  }

  function DropIfEmpty(rooms: map<string, seq<Socket>>, name: string): map<string, seq<Socket>> {
    if name in rooms && rooms[name] == [] then rooms - {name} else rooms
  }

  function LeaveRoom(t: Tables, sock: Socket): Tables
    requires sock in t.users && t.users[sock].ReadRoom() in t.rooms
  {
    var name := t.users[sock].ReadRoom();
    t.(users := t.users[sock := t.users[sock].(roomName := "", status := WAITING)],
       rooms := DropIfEmpty(t.rooms[name := Remove(t.rooms[name], sock)], name))
  }

  function Logout(t: Tables, sock: Socket): Tables
    requires sock in t.users
  {
    Tables(t.ids - {t.users[sock].ReadId()}, t.users - {sock}, t.rooms)
  }

  /** Disconnects and bans: the id first, then the room, the session last. The id is read from a
      local copy of its field, behind which lies `behind`. */
  function Teardown(t: Tables, sock: Socket, behind: string): Tables
    requires sock in t.users
    requires t.users[sock].status == CHATTING ==> t.users[sock].ReadRoom() in t.rooms
  {
    var u := t.(ids := t.ids - {ReadOn(t.users[sock].userId, behind)});
    var v := if u.users[sock].status == CHATTING then LeaveRoom(u, sock) else u;
    v.(users := v.users - {sock})
  }

  // ---- what each of them keeps ----

  function UserIds(users: map<Socket, Session>): set<string> {
    set x | x in users :: users[x].ReadId()
  }

  lemma UserIdsAdded(users: map<Socket, Session>, sock: Socket, s: Session)
    requires sock !in users
    ensures UserIds(users[sock := s]) == UserIds(users) + {s.ReadId()}
  {
    var after := users[sock := s];
    assert after[sock].ReadId() in UserIds(after);
    forall k | k in UserIds(users) ensures k in UserIds(after) {
      var x :| x in users && users[x].ReadId() == k;
      assert after[x].ReadId() == k;
    }
  }

  /** The id of a fresh session is read back as it was given. */
  predicate HoldsId(id: string) {
    Fits(id) || id[NAME_SIZE..] == StatusText(WAITING)
  }

  lemma LoginKeepsRooms(t: Tables, sock: Socket, id: string, nick: string)
    requires SessionsOk(t) && Membership(t) && sock !in t.users
    ensures SessionsOk(Login(t, sock, id, nick)) && Membership(Login(t, sock, id, nick))
  {
    var u := Login(t, sock, id, nick);
    forall r, x | r in t.rooms ensures Chatting(u, x, r) <==> Chatting(t, x, r) {
    }
  }

  lemma LoginKeepsIndex(t: Tables, sock: Socket, id: string, nick: string)
    requires LoginIndex(t) && sock !in t.users && id !in t.ids
    ensures LoginIndex(Login(t, sock, id, nick)) <==> HoldsId(id)
  {
    var u := Login(t, sock, id, nick);
    UserIdsAdded(t.users, sock, u.users[sock]);
    ReadBack(id, StatusText(WAITING));
    if HoldsId(id) {
      assert forall x :: x in t.users ==> t.users[x].ReadId() in t.ids;
    } else {
      assert id in u.ids && id !in UserIds(u.users);
    }
  }

  lemma LoginAgrees(t: Tables, sock: Socket, id: string, nick: string)
    requires Agree(t) && sock !in t.users && id !in t.ids
    ensures Agree(Login(t, sock, id, nick)) <==> HoldsId(id)
  {
    LoginKeepsIndex(t, sock, id, nick);
    LoginKeepsRooms(t, sock, id, nick);
  }

  lemma SameIdKeepsIndex(t: Tables, sock: Socket, s: Session)
    requires LoginIndex(t) && sock in t.users && s.ReadId() == t.users[sock].ReadId()
    ensures LoginIndex(t.(users := t.users[sock := s]))
  {
    var u := t.(users := t.users[sock := s]);
    forall k | k in UserIds(t.users) ensures k in UserIds(u.users) {
      var x :| x in t.users && t.users[x].ReadId() == k;
      assert u.users[x].ReadId() == k;
    }
    assert UserIds(u.users) == UserIds(t.users);
  }

  /** Going between lobby and room keeps the index unless the status is read as part of the id. */
  lemma MovingKeepsIndex(t: Tables, sock: Socket, s: Session)
    requires LoginIndex(t) && sock in t.users && s.userId == t.users[sock].userId
    requires {s.status, t.users[sock].status} == {WAITING, CHATTING}
    ensures LoginIndex(t.(users := t.users[sock := s])) <==> Fits(s.userId)
  {
    if Fits(s.userId) {
      SameIdKeepsIndex(t, sock, s);
    } else {
      var u, k := t.users[sock := s], t.users[sock].ReadId();
      assert k in t.ids;
      assert k[|k| - 1] != s.ReadId()[|k| - 1];
      assert k !in UserIds(u);
    }
  }

  /** The room of a session that enters it is read back as it was given. */
  predicate HoldsName(s: Session, name: string) {
    Fits(name) || name[NAME_SIZE..] == s.(status := CHATTING).ReadId()
  }

  /** So it is, and the id stays what it was. */
  predicate HoldsRoom(s: Session, name: string) {
    Fits(s.userId) && (Fits(name) || name[NAME_SIZE..] == s.userId)
  }

  lemma EnteredRoom(t: Tables, sock: Socket, name: string)
    requires sock in t.users
    ensures EnterChat(t, sock, name).users[sock].ReadRoom() == name <==> HoldsName(t.users[sock], name)
  {
    ReadBack(name, t.users[sock].(status := CHATTING).ReadId());
  }

  lemma OpenRoomAgrees(t: Tables, sock: Socket, name: string)
    requires Agree(t) && sock in t.users && t.users[sock].status == WAITING && name !in t.rooms
    ensures Agree(OpenRoom(t, sock, name)) <==> HoldsRoom(t.users[sock], name)
  {
    var u := OpenRoom(t, sock, name);
    MovingKeepsIndex(t, sock, u.users[sock]);
    EnteredRoom(t, sock, name);
    assert LoginIndex(u) <==> LoginIndex(u.(rooms := t.rooms));
    if HoldsRoom(t.users[sock], name) {
      forall r, x | r in u.rooms ensures x in u.rooms[r] <==> Chatting(u, x, r) {
        if r != name {
          assert Chatting(u, x, r) <==> Chatting(t, x, r);
        } else {
          assert x != sock ==> !Chatting(t, x, name);
        }
      }
    } else if Fits(t.users[sock].userId) {
      assert sock in u.rooms[name] && !Chatting(u, sock, name);
    }
  }

  lemma JoinRoomAgrees(t: Tables, sock: Socket, name: string)
    requires Agree(t) && sock in t.users && t.users[sock].status == WAITING && name in t.rooms
    ensures Agree(JoinRoom(t, sock, name)) <==> HoldsRoom(t.users[sock], name)
  {
    var u := JoinRoom(t, sock, name);
    MovingKeepsIndex(t, sock, u.users[sock]);
    EnteredRoom(t, sock, name);
    assert LoginIndex(u) <==> LoginIndex(u.(rooms := t.rooms));
    if HoldsRoom(t.users[sock], name) {
      assert sock !in t.rooms[name] by {
        assert !Chatting(t, sock, name);
      }
      forall r, x | r in u.rooms ensures x in u.rooms[r] <==> Chatting(u, x, r) {
        assert x in t.rooms[r] <==> Chatting(t, x, r);
        assert x != sock ==> (Chatting(u, x, r) <==> Chatting(t, x, r));
      }
    } else if Fits(t.users[sock].userId) {
      assert sock in u.rooms[name] && !Chatting(u, sock, name);
    }
  }

  lemma LeaveRoomKeepsRooms(t: Tables, sock: Socket)
    requires SessionsOk(t) && Membership(t) && sock in t.users && t.users[sock].status == CHATTING
    ensures t.users[sock].ReadRoom() in t.rooms
    ensures SessionsOk(LeaveRoom(t, sock)) && Membership(LeaveRoom(t, sock))
  {
    var name := t.users[sock].ReadRoom();
    var u := LeaveRoom(t, sock);
    RemoveMembers(t.rooms[name], sock);
    forall r, x | r in u.rooms ensures x in u.rooms[r] <==> Chatting(u, x, r) {
      assert x in t.rooms[r] <==> Chatting(t, x, r);
      assert x != sock ==> (Chatting(u, x, r) <==> Chatting(t, x, r));
    }
    forall x | x in u.users && u.users[x].status == CHATTING ensures u.users[x].ReadRoom() in u.rooms {
      assert Chatting(t, x, t.users[x].ReadRoom());
      assert t.users[x].ReadRoom() == name ==> x in t.rooms[name] && x in Remove(t.rooms[name], sock);
    }
  }

  lemma LeaveRoomAgrees(t: Tables, sock: Socket)
    requires Agree(t) && sock in t.users && t.users[sock].status == CHATTING
    ensures t.users[sock].ReadRoom() in t.rooms
    ensures Agree(LeaveRoom(t, sock)) <==> Fits(t.users[sock].userId)
  {
    var u := LeaveRoom(t, sock);
    LeaveRoomKeepsRooms(t, sock);
    MovingKeepsIndex(t, sock, u.users[sock]);
    assert LoginIndex(u) <==> LoginIndex(u.(rooms := t.rooms));
  }

  /** Erasing a session and an id keeps the index exactly if it is the id of the session. */
  lemma EraseKeepsIndex(t: Tables, u: Tables, sock: Socket, id: string)
    requires LoginIndex(t) && sock in t.users
    requires u.ids == t.ids - {id} && u.users == t.users - {sock}
    ensures LoginIndex(u) <==> id == t.users[sock].ReadId()
  {
    var own := t.users[sock].ReadId();
    assert own in t.ids;
    if id == own {
      forall k | k in u.ids ensures k in UserIds(u.users) {
        var x :| x in t.users && t.users[x].ReadId() == k;
        assert x in u.users && u.users[x].ReadId() == k;
      }
    } else {
      assert own in u.ids && own !in UserIds(u.users);
    }
  }

  lemma EraseKeepsRooms(t: Tables, sock: Socket)
    requires SessionsOk(t) && Membership(t) && sock in t.users && t.users[sock].status == WAITING
    ensures SessionsOk(t.(users := t.users - {sock})) && Membership(t.(users := t.users - {sock}))
  {
    var u := t.(users := t.users - {sock});
    assert forall r, x :: r in u.rooms ==> (Chatting(u, x, r) <==> Chatting(t, x, r));
  }

  lemma LogoutAgrees(t: Tables, sock: Socket)
    requires Agree(t) && sock in t.users && t.users[sock].status == WAITING
    ensures Agree(Logout(t, sock))
  {
    EraseKeepsIndex(t, Logout(t, sock), sock, t.users[sock].ReadId());
    EraseKeepsRooms(t, sock);
  }

  /** Closing a chatting session is leaving its room and then logging out, unless the id has no
      terminator and the two read it differently. */
  lemma TeardownIsLeaveThenLogout(t: Tables, sock: Socket, behind: string)
    requires sock in t.users && t.users[sock].ReadRoom() in t.rooms && t.users[sock].status == CHATTING
    ensures Fits(t.users[sock].userId) || behind == StatusText(WAITING)
        ==> Teardown(t, sock, behind) == Logout(LeaveRoom(t, sock), sock)
  {
    assert Teardown(t, sock, behind).users == Logout(LeaveRoom(t, sock), sock).users;
  }

  /** It keeps the agreement exactly if the copy of the id is read as the id itself is. */
  lemma TeardownAgrees(t: Tables, sock: Socket, behind: string)
    requires Agree(t) && sock in t.users
    ensures t.users[sock].status == CHATTING ==> t.users[sock].ReadRoom() in t.rooms
    ensures Agree(Teardown(t, sock, behind))
       <==> Fits(t.users[sock].userId) || behind == StatusText(t.users[sock].status)
  {
    var me := t.users[sock];
    if me.status == CHATTING {
      LeaveRoomKeepsRooms(t, sock);
      EraseKeepsRooms(LeaveRoom(t, sock), sock);
      assert LeaveRoom(t, sock).users - {sock} == t.users - {sock};
    } else {
      EraseKeepsRooms(t, sock);
    }
    var u := Teardown(t, sock, behind);
    EraseKeepsIndex(t, u, sock, ReadOn(me.userId, behind));
    assert ReadOn(me.userId, behind) == me.ReadId() <==> Fits(me.userId) || behind == StatusText(me.status) by {
      assert (me.userId + behind)[|me.userId|..] == behind;
      assert (me.userId + StatusText(me.status))[|me.userId|..] == StatusText(me.status);
    }
  }

  // ---- round trips ----

  lemma LoginThenLogout(t: Tables, sock: Socket, id: string, nick: string)
    requires sock !in t.users && id !in t.ids
    ensures Logout(Login(t, sock, id, nick), sock) == t <==> HoldsId(id)
  {
    var u := Logout(Login(t, sock, id, nick), sock);
    ReadBack(id, StatusText(WAITING));
    assert u.users == t.users;
    assert u.ids == t.ids <==> HoldsId(id) by {
      assert !HoldsId(id) ==> id in u.ids;
    }
  }

  lemma OpenThenLeave(t: Tables, sock: Socket, name: string)
    requires sock in t.users && t.users[sock].status == WAITING && t.users[sock].roomName == ""
    requires name !in t.rooms
    ensures var u := OpenRoom(t, sock, name);
            (u.users[sock].ReadRoom() in u.rooms && LeaveRoom(u, sock) == t) <==> HoldsName(t.users[sock], name)
  {
    var u := OpenRoom(t, sock, name);
    EnteredRoom(t, sock, name);
    if u.users[sock].ReadRoom() in u.rooms {
      var v := LeaveRoom(u, sock);
      assert Remove([sock], sock) == [];
      assert v.users == t.users;
      assert HoldsName(t.users[sock], name) ==> v.rooms == t.rooms;
      assert !HoldsName(t.users[sock], name) ==> name in v.rooms;
    }
  }

  lemma JoinThenLeave(t: Tables, sock: Socket, name: string)
    requires Agree(t) && sock in t.users && t.users[sock].status == WAITING && name in t.rooms
    ensures var u := JoinRoom(t, sock, name);
            (u.users[sock].ReadRoom() in u.rooms && LeaveRoom(u, sock) == t) <==> HoldsName(t.users[sock], name)
  {
    var u := JoinRoom(t, sock, name);
    EnteredRoom(t, sock, name);
    assert !Chatting(t, sock, name);
    RemoveLast(t.rooms[name], sock);
    if u.users[sock].ReadRoom() in u.rooms {
      var v := LeaveRoom(u, sock);
      assert v.users == t.users;
      assert HoldsName(t.users[sock], name) ==> v.rooms == t.rooms;
      assert !HoldsName(t.users[sock], name) ==> name in v.rooms && sock in v.rooms[name];
    }
  }

  // ---- counting ----

  ghost function SumSizes(rooms: map<string, seq<Socket>>): nat
    decreases |rooms|
  {
    if rooms == map[] then 0
    else
      var r :| r in rooms;
      |rooms[r]| + SumSizes(rooms - {r})
  }

  ghost function ChattingIn(t: Tables, names: set<string>): set<Socket> {
    set x | x in t.users && t.users[x].status == CHATTING && t.users[x].ReadRoom() in names
  }

  lemma {:induction false} SizeOfDistinct(list: seq<Socket>, s: set<Socket>)
    requires NoDuplicates(list) && (forall x :: x in list <==> x in s)
    ensures |s| == |list|
  {
    if list == [] {
      assert s == {};
    } else {
      assert list[0] !in list[1..];
      assert forall x :: x in list <==> x == list[0] || x in list[1..];
      SizeOfDistinct(list[1..], s - {list[0]});
    }
  }

  lemma RoomSize(t: Tables, r: string)
    requires Agree(t) && r in t.rooms
    ensures |t.rooms[r]| == |ChattingIn(t, {r})| > 0
  {
    forall x ensures x in t.rooms[r] <==> x in ChattingIn(t, {r}) {
      assert x in t.rooms[r] <==> Chatting(t, x, r);
    }
    SizeOfDistinct(t.rooms[r], ChattingIn(t, {r}));
  }

  lemma ChattingInSplits(t: Tables, names: set<string>, r: string)
    requires r in names
    ensures |ChattingIn(t, names)| == |ChattingIn(t, {r})| + |ChattingIn(t, names - {r})|
  {
    assert ChattingIn(t, names) == ChattingIn(t, {r}) + ChattingIn(t, names - {r});
    assert ChattingIn(t, {r}) !! ChattingIn(t, names - {r});
  }

  lemma {:induction false} SumIsChatting(t: Tables, part: map<string, seq<Socket>>)
    requires Agree(t) && forall r :: r in part ==> r in t.rooms && part[r] == t.rooms[r]
    ensures SumSizes(part) == |ChattingIn(t, part.Keys)|
    decreases |part|
  {
    if part == map[] {
      assert ChattingIn(t, part.Keys) == {};
    } else {
      var r :| r in part && SumSizes(part) == |part[r]| + SumSizes(part - {r});
      RoomSize(t, r);
      SumIsChatting(t, part - {r});
      ChattingInSplits(t, part.Keys, r);
      assert (part - {r}).Keys == part.Keys - {r};
    }
  }

  /** The lists together hold exactly as many sockets as there are chatting sessions. */
  lemma ListsCountChatters(t: Tables)
    requires Agree(t)
    ensures SumSizes(t.rooms) == |set x | x in t.users && t.users[x].status == CHATTING|
  {
    SumIsChatting(t, t.rooms);
    assert ChattingIn(t, t.rooms.Keys) == set x | x in t.users && t.users[x].status == CHATTING;
  }

  /** A socket is listed once in the room it chats in, and nowhere else. */
  lemma ListedOnce(t: Tables, r: string, x: Socket)
    requires Agree(t) && r in t.rooms
    ensures Occurrences(t.rooms[r], x) == if Chatting(t, x, r) then 1 else 0
  {
    OccursOnce(t.rooms[r], x);
  }
}
