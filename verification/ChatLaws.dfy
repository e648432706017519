/** What handlers undo, whom they leave alone, and whom the messages reach. */
module ChatLaws {
  import opened Bytes
  import opened ChatTables
  import opened ChatSpec
  import opened ChatProofs
  import opened Deliveries
  import J = Jobs

  // ---- round trips through dispatch ----

  lemma LobbyDispatches(s: State, sock: Socket)
    requires Inv(s) && sock in s.tables.users && s.tables.users[sock].status == WAITING
    ensures Dispatchable(s.tables, sock)
  {
    LookupsFind(s.tables, sock);
  }

  lemma MakeRoomThenOut(s: State, sock: Socket, name: string, direction: int, env: Env)
    requires Inv(s) && sock in s.tables.users && s.tables.users[sock].status == WAITING && env.target == None
    requires name !in s.tables.rooms && Fits(name)
    ensures Dispatchable(s.tables, sock)
    ensures var made := Dispatch(s, sock, J.ROOM_MAKE, name, env);
            && Dispatchable(made.tables, sock)
            && Dispatch(made, sock, direction, "\\out", env).tables == s.tables
  {
    LobbyDispatches(s, sock);
    OpenThenLeave(s.tables, sock, name);
  }

  lemma EnterRoomThenOut(s: State, sock: Socket, name: string, direction: int, env: Env)
    requires Inv(s) && sock in s.tables.users && s.tables.users[sock].status == WAITING && env.target == None
    requires name in s.tables.rooms
    ensures Dispatchable(s.tables, sock)
    ensures var entered := Dispatch(s, sock, J.ROOM_ENTER, name, env);
            && Dispatchable(entered.tables, sock)
            && Dispatch(entered, sock, direction, "\\out", env).tables == s.tables
  {
    LobbyDispatches(s, sock);
    RoomNamesFit(s.tables, name);
    JoinThenLeave(s.tables, sock, name);
  }

  lemma FollowFriendThenOut(s: State, sock: Socket, friend: Socket, msg: string, direction: int, env: Env)
    requires Inv(s) && sock in s.tables.users && s.tables.users[sock].status == WAITING
    requires env.friendNick != "" && env.target == Some(friend) && friend in s.tables.users
    requires s.tables.users[friend].roomName != "" && msg in s.tables.rooms
    ensures Dispatchable(s.tables, sock)
    ensures var joined := Dispatch(s, sock, J.FRIEND_GO, msg, env);
            && Dispatchable(joined.tables, sock)
            && Chatting(joined.tables, sock, s.tables.users[friend].ReadRoom())
            && Dispatch(joined, sock, direction, "\\out", env).tables == s.tables
  {
    LobbyDispatches(s, sock);
    assert Chatting(s.tables, friend, s.tables.users[friend].ReadRoom());
    RoomNamesFit(s.tables, s.tables.users[friend].ReadRoom());
    JoinThenLeave(s.tables, sock, s.tables.users[friend].ReadRoom());
  }

  lemma LoginThenLogOut(s: State, sock: Socket, msg: string, m: string, env: Env)
    requires Inv(s) && sock !in s.tables.users && env.target == None
    requires var args := J.Tokens(msg);
             && |args| >= 2 && Fits(args[0]) && AccountOf(args[0]) in s.accounts
             && s.accounts[AccountOf(args[0])].password == args[1] && args[0] !in s.tables.ids
    ensures Dispatchable(s.tables, sock)
    ensures var entered := Dispatch(s, sock, J.USER_ENTER, msg, env);
            && Dispatchable(entered.tables, sock)
            && entered.tables.ids == s.tables.ids + {J.Tokens(msg)[0]}
            && Dispatch(entered, sock, J.LOG_OUT, m, env).tables == s.tables
  {
    LookupsFind(s.tables, sock);
    var id := J.Tokens(msg)[0];
    LoginThenLogout(s.tables, sock, id, s.accounts[AccountOf(id)].nickName);
  }

  // ---- teardown ----

  /** Disconnecting while chatting is leaving the room and logging out; nobody else is told
      anything different. */
  lemma ExitIsOutThenLogOut(s: State, sock: Socket, behind: Behind, direction: int, m: string, env: Env)
    requires Inv(s) && sock in s.tables.users && s.tables.users[sock].status == CHATTING && env.target == None
    ensures Dispatchable(s.tables, sock)
    ensures var out := Dispatch(s, sock, direction, "\\out", env);
            && Dispatchable(out.tables, sock)
            && var quit := Dispatch(out, sock, J.LOG_OUT, m, env);
               && ClientExit(s, sock, true, behind).tables == quit.tables
               && ClientExit(s, sock, true, behind).wire == quit.wire
  {
    LookupsFind(s.tables, sock);
    TeardownIsLeaveThenLogout(s.tables, sock, behind.id);
  }

  /** A ban followed by the disconnect of the same socket ends where the disconnect alone does. */
  lemma BanThenExit(s: State, sock: Socket, b: Behind, c: Behind)
    requires Inv(s) && sock in s.tables.users
    ensures Closable(s.tables, sock)
    ensures var banned := BanUser(s, Some(sock), b);
            && sock !in banned.tables.users
            && ClientExit(banned, sock, true, c).tables == ClientExit(s, sock, true, c).tables
            && ClientExit(banned, sock, true, c).live == ClientExit(s, sock, true, c).live
            && ClientExit(banned, sock, true, c).wire == ClientExit(s, sock, true, c).wire
  {
    LookupsFind(s.tables, sock);
  }

  // ---- isolation ----

  /** Everybody else's session is the same, and everybody else's place in every list. */
  ghost predicate SameForOthers(t: Tables, u: Tables, sock: Socket) {
    && (forall x :: x != sock ==> (x in u.users <==> x in t.users))
    && (forall x :: x != sock && x in t.users ==> u.users[x] == t.users[x])
    && (forall r :: Remove(ListOf(u, r), sock) == Remove(ListOf(t, r), sock))
  }

  lemma {:induction false} RemoveTwice(list: seq<Socket>, x: Socket)
    ensures Remove(Remove(list, x), x) == Remove(list, x)
  {
    RemoveMembers(list, x);
    RemoveAbsent(Remove(list, x), x);
  }

  lemma OpenIsolates(t: Tables, sock: Socket, name: string)
    requires sock in t.users && name !in t.rooms
    ensures SameForOthers(t, OpenRoom(t, sock, name), sock)
  {
    assert Remove([sock], sock) == [];
  }

  lemma JoinIsolates(t: Tables, sock: Socket, name: string)
    requires sock in t.users && name in t.rooms
    ensures SameForOthers(t, JoinRoom(t, sock, name), sock)
  {
    RemoveAppend(t.rooms[name], [sock], sock);
    assert Remove([sock], sock) == [];
  }

  lemma LeaveIsolates(t: Tables, sock: Socket)
    requires sock in t.users && t.users[sock].ReadRoom() in t.rooms
    ensures SameForOthers(t, LeaveRoom(t, sock), sock)
  {
    RemoveTwice(t.rooms[t.users[sock].ReadRoom()], sock);
  }

  lemma WaitIsolates(s: State, sock: Socket, direction: int, msg: string, env: Env)
    requires sock in s.tables.users && (env.target.Some? ==> env.target.value in s.tables.users)
    ensures SameForOthers(s.tables, StatusWait(s, sock, direction, msg, env).tables, sock)
  {
    var t := s.tables;
    if direction == J.ROOM_MAKE && msg !in t.rooms {
      OpenIsolates(t, sock, msg);
    } else if direction == J.ROOM_ENTER && msg in t.rooms {
      JoinIsolates(t, sock, msg);
    } else if direction == J.FRIEND_GO && env.target.Some? && t.users[env.target.value].ReadRoom() in t.rooms {
      JoinIsolates(t, sock, t.users[env.target.value].ReadRoom());
    }
  }

  lemma ChatIsolates(s: State, sock: Socket, direction: int, msg: string, env: Env)
    requires sock in s.tables.users && s.tables.users[sock].ReadRoom() in s.tables.rooms
    ensures SameForOthers(s.tables, StatusChat(s, sock, direction, msg, env).tables, sock)
  {
    if msg == "\\out" {
      LeaveIsolates(s.tables, sock);
    }
  }

  lemma LoginIsolates(s: State, sock: Socket, direction: int, msg: string)
    requires sock !in s.tables.users
    ensures SameForOthers(s.tables, StatusLogout(s, sock, direction, msg).tables, sock)
  {
    assert StatusLogout(s, sock, direction, msg).tables.rooms == s.tables.rooms;
  }

  /** A command changes the session and the memberships of its own socket only. */
  lemma DispatchIsolates(s: State, sock: Socket, direction: int, msg: string, env: Env)
    requires Inv(s) && (env.target.Some? ==> env.target.value in s.tables.users)
    ensures Dispatchable(s.tables, sock)
    ensures SameForOthers(s.tables, Dispatch(s, sock, direction, msg, env).tables, sock)
  {
    LookupsFind(s.tables, sock);
    match GetStatus(s.tables, sock)
    case LOGOUT => LoginIsolates(s, sock, direction, msg);
    case WAITING => WaitIsolates(s, sock, direction, msg, env);
    case CHATTING => ChatIsolates(s, sock, direction, msg, env);
  }

  // ---- what clients are told ----

  ghost predicate TellsStatus(e: SendData, t: Tables, sock: Socket) {
    match e
    case SendMe(_, to, status) => to == sock && status == GetStatus(t, sock)
    case SendRoom(_, room, status) => Chatting(t, sock, room) && status == CHATTING
    case SendFile(_, _, _) => false
  }

  /** Whatever `r` has queued for `sock` directly carries its status there, and a change of
      status since `s` has been told. */
  ghost predicate Told(s: State, r: State, sock: Socket) {
    && s.queue <= r.queue
    && (forall e <- r.queue[|s.queue|..] :: e.SendMe? && e.mySocket == sock ==> TellsStatus(e, r.tables, sock))
    && (GetStatus(r.tables, sock) != GetStatus(s.tables, sock) ==>
         exists e <- r.queue[|s.queue|..] :: TellsStatus(e, r.tables, sock))
  }

  lemma ToldByOne(s: State, r: State, sock: Socket, e: SendData)
    requires r.queue == s.queue + [e]
    requires TellsStatus(e, r.tables, sock)
          || (GetStatus(r.tables, sock) == GetStatus(s.tables, sock) && !(e.SendMe? && e.mySocket == sock))
    ensures Told(s, r, sock)
  {
    assert r.queue[|s.queue|..] == [e];
  }

  lemma LogoutTells(s: State, sock: Socket, direction: int, msg: string)
    requires sock !in s.tables.users
    ensures Told(s, StatusLogout(s, sock, direction, msg), sock)
  {
    var r := StatusLogout(s, sock, direction, msg);
    if |r.queue| > |s.queue| {
      ToldByOne(s, r, sock, r.queue[|s.queue|]);
    }
  }

  lemma JoinTells(s: State, r: State, sock: Socket, room: string)
    requires Inv(s) && sock in s.tables.users && s.tables.users[sock].status == WAITING && room in s.tables.rooms
    requires r.tables == JoinRoom(s.tables, sock, room)
    requires |r.queue| > |s.queue| && r.queue == s.queue + [r.queue[|s.queue|]]
    requires var e := r.queue[|s.queue|]; e.SendRoom? && e.roomName == room && e.status == CHATTING
    ensures Told(s, r, sock)
  {
    RoomNamesFit(s.tables, room);
    EnteredRoom(s.tables, sock, room);
    ToldByOne(s, r, sock, r.queue[|s.queue|]);
  }

  lemma FriendTells(s: State, sock: Socket, msg: string, env: Env)
    requires Inv(s) && sock in s.tables.users && s.tables.users[sock].status == WAITING
    requires env.target.Some? ==> env.target.value in s.tables.users
    ensures Told(s, FriendGo(s, sock, msg, env.friendNick, env.target), sock)
  {
    var r := FriendGo(s, sock, msg, env.friendNick, env.target);
    if env.friendNick != "" && env.target.Some? && s.tables.users[env.target.value].roomName != "" {
      if s.tables.users[env.target.value].ReadRoom() in s.tables.rooms {
        JoinTells(s, r, sock, s.tables.users[env.target.value].ReadRoom());
      }
    } else {
      ToldByOne(s, r, sock, r.queue[|s.queue|]);
    }
  }

  lemma WaitTells(s: State, job: JobData, env: Env)
    requires Inv(s) && job.socket in s.tables.users && s.tables.users[job.socket].status == WAITING
    requires Enabled(s, Work(job, env)) && job.direction != J.BAN
    requires env.target.Some? ==> env.target.value in s.tables.users
    ensures Told(s, StatusWait(s, job.socket, job.direction, job.msg, env), job.socket)
  {
    var r := StatusWait(s, job.socket, job.direction, job.msg, env);
    if job.direction == J.ROOM_ENTER && job.msg in s.tables.rooms {
      JoinTells(s, r, job.socket, job.msg);
    } else if job.direction == J.FRIEND_GO {
      FriendTells(s, job.socket, job.msg, env);
    } else if |r.queue| > |s.queue| {
      ToldByOne(s, r, job.socket, r.queue[|s.queue|]);
    }
  }

  lemma ChatTells(s: State, sock: Socket, direction: int, msg: string, env: Env)
    requires sock in s.tables.users && s.tables.users[sock].status == CHATTING
    requires s.tables.users[sock].ReadRoom() in s.tables.rooms
    ensures Told(s, StatusChat(s, sock, direction, msg, env), sock)
  {
    var r := StatusChat(s, sock, direction, msg, env);
    if msg == "\\out" {
      ToldByOne(s, r, sock, r.queue[|s.queue|]);
    }
  }

  /** Every direct answer to a command carries the status its sender is in afterwards, and a
      command that changes the status is always answered. */
  lemma AnswersTellStatus(s: State, job: JobData, env: Env)
    requires Inv(s) && Enabled(s, Work(job, env)) && job.socket in s.live
    requires job.direction != J.CALLCOUNT && job.direction != J.BAN
    ensures Dispatchable(s.tables, job.socket)
    ensures env.target.Some? ==> Closable(s.tables, env.target.value)
    ensures Told(s, WorkJob(s, job, env), job.socket)
  {
    WorkKeeps(s, job, env);
    match GetStatus(s.tables, job.socket)
    case LOGOUT => LogoutTells(s, job.socket, job.direction, job.msg);
    case WAITING => WaitTells(s, job, env);
    case CHATTING => ChatTells(s, job.socket, job.direction, job.msg, env);
  }

  // ---- whom messages reach ----

  /** A room message is delivered to the members at the time it is sent, not when it was queued. */
  lemma RoomMessageReaches(s: State)
    requires Inv(s) && s.local != [] && s.local[0].SendRoom?
    ensures s.wire <= SendOne(s).wire
    ensures ReachesRoom(SendOne(s).wire[|s.wire|..], s.tables, s.local[0].roomName, s.local[0].msg, s.local[0].status)
  {
    var e := s.local[0];
    var sent := ToAll(ListOf(s.tables, e.roomName), e.msg, e.status);
    ToAllReaches(s.tables, e.roomName, e.msg, e.status);
    assert SendOne(s).wire == s.wire + sent;
    assert SendOne(s).wire[|s.wire|..] == sent;
  }

  /** The goodbye of a closing session reaches exactly those who were chatting with it. */
  lemma GoodbyeReaches(s: State, sock: Socket, behind: Behind)
    requires Inv(s) && sock in s.tables.users && s.tables.users[sock].status == CHATTING
    ensures Closable(s.tables, sock) && s.wire <= Close(s, sock, behind).wire
    ensures var me := s.tables.users[sock];
            ReachesRoom(Close(s, sock, behind).wire[|s.wire|..], s.tables, me.ReadRoom(), Left(me.ReadName()), CHATTING)
  {
    LookupsFind(s.tables, sock);
    var me := s.tables.users[sock];
    var sent := ToAll(ListOf(s.tables, me.ReadRoom()), Left(me.ReadName()), CHATTING);
    ToAllReaches(s.tables, me.ReadRoom(), Left(me.ReadName()), CHATTING);
    assert Close(s, sock, behind).wire[|s.wire|..] == sent;
  }

  /** The listing of rooms shows for each room how many sessions are chatting in it. */
  lemma RoomInfoCounts(s: State, sock: Socket)
    requires Inv(s) && s.tables.rooms != map[]
    ensures var r := RoomInfo(s, sock);
            && |r.queue| == |s.queue| + 1
            && var e := r.queue[|s.queue|];
               && e.SendMe? && e.mySocket == sock && e.msg.RoomSizes?
               && e.msg.sizes.Keys == s.tables.rooms.Keys
               && forall room :: room in s.tables.rooms ==> e.msg.sizes[room] == |ChattingIn(s.tables, {room})|
  {
    forall room | room in s.tables.rooms
      ensures |s.tables.rooms[room]| == |ChattingIn(s.tables, {room})|
    {
      RoomSize(s.tables, room);
    }
  }

  // ---- following a friend ----

  /** The lookup of the list's lock can fail exactly if a session with the friend's nickname
      chats in a room with a name, while no room is named as the friend was asked for. */
  lemma FollowingFails(s: State, msg: string, friendNick: string)
    requires Inv(s) && friendNick != ""
    ensures !FollowsSafely(s.tables, J.FRIEND_GO, msg, friendNick)
       <==> && msg !in s.tables.rooms
            && exists x :: x in s.tables.users && s.tables.users[x].userName == friendNick
                           && s.tables.users[x].status == CHATTING && s.tables.users[x].roomName != ""
  {
    var t := s.tables;
    forall x | x in t.users && t.users[x].roomName != ""
      ensures t.users[x].status == CHATTING && t.users[x].ReadRoom() in t.rooms
    {
      LookupsFind(t, x);
    }
  }

  // ---- names that do not fit ----

  const NUL: char := 0 as char

  function Zeros(n: nat): string {
    seq(n, _ => NUL)
  }

  /** A name field as it lies in memory: a bounded copy fills it up with zeros. */
  function Stored(field: string): string
    requires |field| <= NAME_SIZE
  {
    field + Zeros(NAME_SIZE - |field|)
  }

  /** What a C string constructor reads from there on. */
  function TillNul(s: string): string {
    if s == "" || s[0] == NUL then "" else [s[0]] + TillNul(s[1..])
  }

  /** A session in memory: three fields and the status, an integer of four bytes. */
  function InMemory(s: Session): string
    requires |s.userName| <= NAME_SIZE && |s.roomName| <= NAME_SIZE && |s.userId| <= NAME_SIZE
  {
    Stored(s.userName) + (Stored(s.roomName) + (Stored(s.userId) + Text(Int32Bytes(Slot(s.status)))))
  }

  lemma {:induction false} TillNulOn(s: string, rest: string)
    requires NUL !in s
    ensures TillNul(s + rest) == s + TillNul(rest)
  {
    if s == "" {
      assert s + rest == rest;
    } else {
      assert (s + rest)[1..] == s[1..] + rest;
      TillNulOn(s[1..], rest);
      assert s == [s[0]] + s[1..];
    }
  }

  lemma FieldReads(field: string, rest: string)
    requires NUL !in field && |field| <= NAME_SIZE
    ensures TillNul(Stored(field) + rest) == ReadOn(field, TillNul(rest))
  {
    var zeros := Zeros(NAME_SIZE - |field|);
    assert Stored(field) + rest == field + (zeros + rest);
    TillNulOn(field, zeros + rest);
    if Fits(field) {
      assert (zeros + rest)[0] == NUL;
      assert field + "" == field;
    } else {
      assert zeros + rest == rest;
    }
  }

  lemma StatusReads(status: ClientStatus)
    ensures TillNul(Text(Int32Bytes(Slot(status)))) == StatusText(status)
  {
    var t := Text(Int32Bytes(Slot(status)));
    assert t[0] == Slot(status) as char && t[1] == NUL;
    assert t[1..][0] == NUL && TillNul(t[1..]) == "";
  }

  /** The three names are what a C string constructor reads from the start of their fields. */
  lemma ReadFromMemory(s: Session)
    requires |s.userName| <= NAME_SIZE && |s.roomName| <= NAME_SIZE && |s.userId| <= NAME_SIZE
    requires NUL !in s.userName && NUL !in s.roomName && NUL !in s.userId
    ensures var m := InMemory(s);
            && |m| == 3 * NAME_SIZE + 4
            && s.ReadName() == TillNul(m)
            && s.ReadRoom() == TillNul(m[NAME_SIZE..])
            && s.ReadId() == TillNul(m[2 * NAME_SIZE..])
  {
    var status := Text(Int32Bytes(Slot(s.status)));
    var id := Stored(s.userId) + status;
    var room := Stored(s.roomName) + id;
    var m := InMemory(s);
    StatusReads(s.status);
    FieldReads(s.userId, status);
    FieldReads(s.roomName, id);
    FieldReads(s.userName, room);
    assert m[NAME_SIZE..] == room;
    assert m[2 * NAME_SIZE..] == room[NAME_SIZE..] == id;
  }

  /** Making a room keeps the tables in agreement exactly when its name fits, or is so long that
      what does not fit happens to be the id that lies behind the room's field. */
  lemma RoomMakeAgreesIff(s: State, sock: Socket, msg: string)
    requires Inv(s) && sock in s.tables.users && s.tables.users[sock].status == WAITING && msg !in s.tables.rooms
    ensures Agree(RoomMake(s, sock, msg).tables)
       <==> Fits(msg) || msg[NAME_SIZE..] == s.tables.users[sock].userId
  {
    OpenRoomAgrees(s.tables, sock, msg);
  }

  /** Logging in does exactly when the id fits, or goes on with the character that the status
      of a session in the lobby is stored as. */
  lemma UserEnterAgreesIff(s: State, sock: Socket, msg: string)
    requires Inv(s) && sock !in s.tables.users
    requires var args := J.Tokens(msg);
             && |args| >= 2 && AccountOf(args[0]) in s.accounts
             && s.accounts[AccountOf(args[0])].password == args[1] && args[0] !in s.tables.ids
    ensures var id := J.Tokens(msg)[0];
            Agree(UserEnter(s, sock, msg).tables) <==> Fits(id) || id[NAME_SIZE..] == [2 as char]
  {
    var id := J.Tokens(msg)[0];
    LoginAgrees(s.tables, sock, id, s.accounts[AccountOf(id)].nickName);
  }

  /** After a name that is not read back the maker's own next command finds no room to look up,
      unless there is another room of the name that is read. */
  lemma MisreadRoomIsLost(s: State, sock: Socket, msg: string)
    requires Inv(s) && sock in s.tables.users && s.tables.users[sock].status == WAITING && msg !in s.tables.rooms
    ensures Dispatchable(RoomMake(s, sock, msg).tables, sock)
       <==> Fits(msg) || msg[NAME_SIZE..] == s.tables.users[sock].userId
            || msg[..NAME_SIZE] + s.tables.users[sock].userId in s.tables.rooms
  {
    EnteredRoom(s.tables, sock, msg);
    var read := RoomMake(s, sock, msg).tables.users[sock].ReadRoom();
    if !Fits(msg) {
      assert read == msg[..NAME_SIZE] + s.tables.users[sock].userId;
    }
  }

  const LONE_KIM := Tables({"kim"}, map[7 := Session("kim", "", "kim", WAITING)], map[])

  /** Names of 20 and of 21 characters lose their rooms; one of 23 that ends in the id does not. */
  lemma LongNames()
    ensures Agree(LONE_KIM)
    ensures |"twenty letters  long"| == NAME_SIZE
    ensures !Dispatchable(OpenRoom(LONE_KIM, 7, "twenty letters  long"), 7)
    ensures !Dispatchable(OpenRoom(LONE_KIM, 7, "a room for all of us!"), 7)
    ensures Agree(OpenRoom(LONE_KIM, 7, "a room for all of uskim"))
  {
    var t := LONE_KIM;
    assert t.users[7].ReadId() in UserIds(t.users);
    OpenRoomAgrees(t, 7, "a room for all of uskim");
    assert "a room for all of uskim"[NAME_SIZE..] == "kim";
    forall name | name in {"twenty letters  long", "a room for all of us!"}
      ensures !Dispatchable(OpenRoom(t, 7, name), 7)
    {
      EnteredRoom(t, 7, name);
      assert |name[NAME_SIZE..]| < |"kim"|;
    }
  }
}
