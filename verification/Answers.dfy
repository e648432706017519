/** What one job comes to: who is told what by the time everything queued has been sent, and what
    the tables are then. */
module Answers {
  import opened ChatTables
  import opened ChatSpec
  import opened ChatProofs
  import opened Deliveries
  import J = Jobs

  ghost predicate Quiet(s: State) {
    Inv(s) && s.queue == [] && s.local == []
  }

  /** The state once the job has been handled and everything queued has been sent. */
  function Finished(s: State, job: JobData, env: Env): State
    requires Quiet(s) && Enabled(s, Work(job, env))
  {
    WorkTakesNothing(s, job, env);
    Drained(Step(s, Work(job, env)))
  }

  lemma WorkTakesNothing(s: State, job: JobData, env: Env)
    requires Inv(s) && Enabled(s, Work(job, env))
    ensures Step(s, Work(job, env)).local == s.local
  {
    WorkKeeps(s, job, env);
  }

  /** All that has been sent is one message to one socket. */
  ghost predicate OnlyTold(s: State, r: State, to: Socket, msg: Notice, status: ClientStatus) {
    r.wire == s.wire + [Delivery(msg, to, status)]
  }

  /** All that has been sent went once to each session chatting in the room, and to nobody else. */
  ghost predicate RoomTold(s: State, r: State, room: string, msg: Notice, status: ClientStatus) {
    s.wire <= r.wire && ReachesRoom(r.wire[|s.wire|..], r.tables, room, msg, status)
  }

  /** A job that queues nothing sends what it sent at once and no more. */
  lemma NothingQueued(s: State, job: JobData, env: Env)
    requires Quiet(s) && Enabled(s, Work(job, env)) && Step(s, Work(job, env)).queue == []
    ensures var u, r := Step(s, Work(job, env)), Finished(s, job, env);
            r.tables == u.tables && r.accounts == u.accounts && r.live == u.live && r.wire == u.wire
  {
    WorkTakesNothing(s, job, env);
    var u := Step(s, Work(job, env));
    DrainedDelivers(u);
    NothingIsDue(Drained(u).wire[|u.wire|..], u.tables);
  }

  /** A job that queues one entry sends what that is due. */
  lemma OneQueued(s: State, job: JobData, env: Env, e: SendData) returns (ds: seq<Delivery>)
    requires Quiet(s) && Enabled(s, Work(job, env)) && Step(s, Work(job, env)).queue == [e]
    ensures var u, r := Step(s, Work(job, env)), Finished(s, job, env);
            && r.tables == u.tables && r.accounts == u.accounts && r.live == u.live
            && r.wire == u.wire + ds && Due(ds, e, u.tables)
  {
    WorkTakesNothing(s, job, env);
    var u := Step(s, Work(job, env));
    DrainedDelivers(u);
    ds := Drained(u).wire[|u.wire|..];
    OneIsDue(ds, e, u.tables);
  }

  /** One direct message. */
  lemma OneTold(s: State, job: JobData, env: Env, msg: Notice, to: Socket, status: ClientStatus)
    requires Quiet(s) && Enabled(s, Work(job, env))
    requires Step(s, Work(job, env)).queue == [SendMe(msg, to, status)]
    ensures var u, r := Step(s, Work(job, env)), Finished(s, job, env);
            && r.tables == u.tables && r.accounts == u.accounts && r.live == u.live
            && OnlyTold(u, r, to, msg, status)
  {
    var ds := OneQueued(s, job, env, SendMe(msg, to, status));
    assert ds == [Delivery(msg, to, status)];
  }

  /** One message to a room. */
  lemma OneRoomTold(s: State, job: JobData, env: Env, msg: Notice, room: string, status: ClientStatus)
    requires Quiet(s) && Enabled(s, Work(job, env))
    requires Step(s, Work(job, env)).queue == [SendRoom(msg, room, status)]
    ensures var u, r := Step(s, Work(job, env)), Finished(s, job, env);
            && r.tables == u.tables && r.accounts == u.accounts && r.live == u.live
            && RoomTold(u, r, room, msg, status)
  {
    var ds := OneQueued(s, job, env, SendRoom(msg, room, status));
    var u, r := Step(s, Work(job, env)), Finished(s, job, env);
    assert r.wire[|u.wire|..] == ds;
  }

  // ---- by status ----

  predicate IsCommand(direction: int) {
    direction != J.CALLCOUNT && direction != J.BAN
  }

  lemma OutsideStep(s: State, job: JobData, env: Env)
    requires Inv(s) && Enabled(s, Work(job, env)) && IsCommand(job.direction)
    requires job.socket in s.live && job.socket !in s.tables.users
    ensures Step(s, Work(job, env)) == StatusLogout(s, job.socket, job.direction, job.msg)
  {
    WorkKeeps(s, job, env);
  }

  /** A job of a session in the lobby. */
  ghost predicate FromLobby(s: State, job: JobData, env: Env) {
    && Inv(s) && Enabled(s, Work(job, env)) && IsCommand(job.direction) && job.socket in s.live
    && job.socket in s.tables.users && s.tables.users[job.socket].status == WAITING
  }

  lemma LobbyStep(s: State, job: JobData, env: Env)
    requires FromLobby(s, job, env)
    ensures env.target.Some? ==> env.target.value in s.tables.users
    ensures Step(s, Work(job, env)) == StatusWait(s, job.socket, job.direction, job.msg, env)
    ensures s.tables.users[job.socket].ReadName() == s.tables.users[job.socket].userName
  {
    WorkKeeps(s, job, env);
  }

  /** A job of a chatting session. */
  ghost predicate FromRoom(s: State, job: JobData, env: Env) {
    && Inv(s) && Enabled(s, Work(job, env)) && IsCommand(job.direction) && job.socket in s.live
    && job.socket in s.tables.users && s.tables.users[job.socket].status == CHATTING
  }

  lemma RoomStep(s: State, job: JobData, env: Env)
    requires FromRoom(s, job, env)
    ensures var me := s.tables.users[job.socket];
            me.ReadName() == me.userName && me.ReadRoom() == me.roomName && me.roomName in s.tables.rooms
    ensures Step(s, Work(job, env)) == StatusChat(s, job.socket, job.direction, job.msg, env)
  {
    WorkKeeps(s, job, env);
  }

  // ---- rooms ----

  /** Making a room: refused if there is one of the name, and otherwise the maker chats in it alone
      and is told. */
  lemma RoomMakeAnswered(s: State, job: JobData, env: Env)
    requires FromLobby(s, job, env) && Quiet(s) && job.direction == J.ROOM_MAKE
    ensures var r, sock := Finished(s, job, env), job.socket;
            if job.msg in s.tables.rooms then
              r.tables == s.tables && OnlyTold(s, r, sock, RoomExists(job.msg), WAITING)
            else
              && r.tables.rooms == s.tables.rooms[job.msg := [sock]] && r.tables.ids == s.tables.ids
              && r.tables.users
                 == s.tables.users[sock := s.tables.users[sock].(roomName := job.msg, status := CHATTING)]
              && OnlyTold(s, r, sock, RoomMade(job.msg), CHATTING)
  {
    LobbyStep(s, job, env);
    if job.msg in s.tables.rooms {
      OneTold(s, job, env, RoomExists(job.msg), job.socket, WAITING);
    } else {
      OneTold(s, job, env, RoomMade(job.msg), job.socket, CHATTING);
    }
  }

  /** `u` is `t` with the session in the room, last on its list. */
  ghost predicate HasEntered(t: Tables, u: Tables, sock: Socket, room: string)
    requires sock in t.users && room in t.rooms
  {
    && u.ids == t.ids && u.rooms == t.rooms[room := t.rooms[room] + [sock]]
    && u.users == t.users[sock := t.users[sock].(roomName := room, status := CHATTING)]
  }

  /** Entering a room: refused if there is none of the name, and otherwise everybody in it is told,
      the newcomer included. */
  lemma RoomEnterAnswered(s: State, job: JobData, env: Env)
    requires FromLobby(s, job, env) && Quiet(s) && job.direction == J.ROOM_ENTER
    ensures var r, sock := Finished(s, job, env), job.socket;
            if job.msg !in s.tables.rooms then
              r.tables == s.tables && OnlyTold(s, r, sock, NoSuchRoom(job.msg), WAITING)
            else
              && HasEntered(s.tables, r.tables, sock, job.msg)
              && RoomTold(s, r, job.msg, Joined(s.tables.users[sock].userName), CHATTING)
  {
    LobbyStep(s, job, env);
    if job.msg in s.tables.rooms {
      RoomNamesFit(s.tables, job.msg);
      OneRoomTold(s, job, env, Joined(s.tables.users[job.socket].userName), job.msg, CHATTING);
    } else {
      OneTold(s, job, env, NoSuchRoom(job.msg), job.socket, WAITING);
    }
  }

  /** Following a friend, by what the scan found: into the friend's room, or told why not. */
  lemma FriendGoAnswered(s: State, job: JobData, env: Env)
    requires FromLobby(s, job, env) && Quiet(s) && job.direction == J.FRIEND_GO
    ensures var r, sock, t := Finished(s, job, env), job.socket, s.tables;
            if env.friendNick == "" then
              r.tables == t && OnlyTold(s, r, sock, FriendUnknown, WAITING)
            else if forall x :: x in t.users ==> t.users[x].userName != env.friendNick then
              r.tables == t && OnlyTold(s, r, sock, FriendOffline(job.msg), WAITING)
            else
              && env.target.Some? && env.target.value in t.users && t.users[env.target.value].userName == env.friendNick
              && var room := t.users[env.target.value].roomName;
                 if room == "" then
                   r.tables == t && OnlyTold(s, r, sock, FriendInLobby(job.msg), WAITING)
                 else
                   && room in t.rooms && HasEntered(t, r.tables, sock, room)
                   && RoomTold(s, r, room, Joined(t.users[sock].userName), CHATTING)
  {
    LobbyStep(s, job, env);
    assert forall x :: x in s.tables.users ==> s.tables.users[x].ReadName() == s.tables.users[x].userName;
    if env.friendNick == "" {
      OneTold(s, job, env, FriendUnknown, job.socket, WAITING);
    } else if env.target.None? {
      OneTold(s, job, env, FriendOffline(job.msg), job.socket, WAITING);
    } else if s.tables.users[env.target.value].roomName == "" {
      OneTold(s, job, env, FriendInLobby(job.msg), job.socket, WAITING);
    } else {
      var room := s.tables.users[env.target.value].roomName;
      LookupsFind(s.tables, env.target.value);
      OneRoomTold(s, job, env, Joined(s.tables.users[job.socket].userName), room, CHATTING);
    }
  }

  // ---- the lobby ----

  /** A whisper reaches a session of the name, with the sender's name and the text, and nobody
      else; only if there is none is the sender told so. */
  lemma WhisperAnswered(s: State, job: JobData, env: Env)
    requires FromLobby(s, job, env) && Quiet(s) && job.direction == J.WHISPER
    ensures var r, sock, args := Finished(s, job, env), job.socket, J.Tokens(job.msg);
            var users, me := s.tables.users, s.tables.users[job.socket].userName;
            && r.tables == s.tables
            && (|args| < 2 ==> r.wire == s.wire)
            && (|args| >= 2 ==>
                 if args[0] == me then
                   OnlyTold(s, r, sock, WhisperToSelf, WAITING)
                 else if exists x :: x in users && users[x].userName == args[0] then
                   exists x :: x in users && users[x].userName == args[0]
                     && OnlyTold(s, r, x, Whispered(me, args[1]), ChatTables.WHISPER)
                 else
                   OnlyTold(s, r, sock, NobodyNamed(args[0]), WAITING))
  {
    LobbyStep(s, job, env);
    var args, me := J.Tokens(job.msg), s.tables.users[job.socket].userName;
    assert forall x :: x in s.tables.users ==> s.tables.users[x].ReadName() == s.tables.users[x].userName;
    if |args| < 2 {
      NothingQueued(s, job, env);
    } else if args[0] == me {
      OneTold(s, job, env, WhisperToSelf, job.socket, WAITING);
    } else if env.target.Some? {
      OneTold(s, job, env, Whispered(me, args[1]), env.target.value, ChatTables.WHISPER);
    } else {
      OneTold(s, job, env, NobodyNamed(args[0]), job.socket, WAITING);
    }
  }

  lemma SizesCount(t: Tables, sizes: map<string, nat>)
    requires Agree(t) && sizes.Keys == t.rooms.Keys && forall r :: r in t.rooms ==> sizes[r] == |t.rooms[r]|
    ensures ListsSessions(t, sizes)
  {
    forall room | room in t.rooms ensures sizes[room] == |ChattingIn(t, {room})| {
      RoomSize(t, room);
    }
  }

  /** The listing names exactly the rooms, each with the number of sessions chatting in it. */
  ghost predicate ListsSessions(t: Tables, sizes: map<string, nat>) {
    && sizes.Keys == t.rooms.Keys
    && forall room :: room in t.rooms ==> sizes[room] == |ChattingIn(t, {room})|
  }

  /** Asking for the rooms brings such a listing, or the answer that there are none. */
  lemma RoomInfoAnswered(s: State, job: JobData, env: Env)
    requires FromLobby(s, job, env) && Quiet(s) && job.direction == J.ROOM_INFO
    ensures var r, t := Finished(s, job, env), s.tables;
            && r.tables == t
            && if t.rooms == map[] then
                 OnlyTold(s, r, job.socket, NoRooms, WAITING)
               else
                 exists sizes :: OnlyTold(s, r, job.socket, RoomSizes(sizes), WAITING) && ListsSessions(t, sizes)
  {
    LobbyStep(s, job, env);
    if s.tables.rooms == map[] {
      OneTold(s, job, env, NoRooms, job.socket, WAITING);
    } else {
      var sizes: map<string, nat> := map r | r in s.tables.rooms :: |s.tables.rooms[r]|;
      SizesCount(s.tables, sizes);
      assert RoomInfo(s, job.socket).queue == [SendMe(RoomSizes(sizes), job.socket, WAITING)];
      OneTold(s, job, env, RoomSizes(sizes), job.socket, WAITING);
    }
  }

  /** The other lists are answered to the one who asked; what they say is not modelled. */
  lemma ListsAnswered(s: State, job: JobData, env: Env)
    requires FromLobby(s, job, env) && Quiet(s)
    requires job.direction in {J.ROOM_USER_INFO, J.FRIEND_INFO, J.FRIEND_ADD, J.FRIEND_DELETE}
    ensures var r := Finished(s, job, env);
            && r.tables == s.tables
            && OnlyTold(s, r, job.socket, if job.direction == J.ROOM_USER_INFO then UserList else FriendAnswer, WAITING)
  {
    LobbyStep(s, job, env);
    OneTold(s, job, env, if job.direction == J.ROOM_USER_INFO then UserList else FriendAnswer, job.socket, WAITING);
  }

  /** Logging out: the id and the session go, and the client is told. */
  lemma LogOutAnswered(s: State, job: JobData, env: Env)
    requires FromLobby(s, job, env) && Quiet(s) && job.direction == J.LOG_OUT
    ensures var r, sock := Finished(s, job, env), job.socket;
            && r.tables.users == s.tables.users - {sock} && r.tables.rooms == s.tables.rooms
            && r.tables.ids == s.tables.ids - {s.tables.users[sock].userId}
            && OnlyTold(s, r, sock, LoggedOut, LOGOUT)
  {
    LobbyStep(s, job, env);
    OneTold(s, job, env, LoggedOut, job.socket, LOGOUT);
  }

  const LOBBY_COMMANDS: set<int> := {J.ROOM_MAKE, J.ROOM_ENTER, J.WHISPER, J.ROOM_INFO, J.ROOM_USER_INFO,
    J.FRIEND_INFO, J.FRIEND_ADD, J.FRIEND_GO, J.FRIEND_DELETE, J.LOG_OUT}

  /** Anything else is refused and changes nothing, except for two numbers that are passed over in
      silence. */
  lemma OthersRefused(s: State, job: JobData, env: Env)
    requires FromLobby(s, job, env) && Quiet(s) && job.direction !in LOBBY_COMMANDS
    ensures var r := Finished(s, job, env);
            && r.tables == s.tables
            && if job.direction in {-1, J.USER_GOOD_INFO} then r.wire == s.wire
               else OnlyTold(s, r, job.socket, BadCommand, WAITING)
  {
    LobbyStep(s, job, env);
    if job.direction in {-1, J.USER_GOOD_INFO} {
      NothingQueued(s, job, env);
    } else {
      OneTold(s, job, env, BadCommand, job.socket, WAITING);
    }
  }

  // ---- the chat room ----

  predicate IsChatLine(job: JobData) {
    job.msg != "\\out" && !J.Contains(job.msg, "\\add") && job.direction != J.USER_GOOD && job.direction != J.FILE_SEND
  }

  /** A chat line reaches everybody in the sender's room once, under the sender's name, and nobody
      else, and changes nothing. */
  lemma ChatLineReaches(s: State, job: JobData, env: Env)
    requires FromRoom(s, job, env) && Quiet(s) && IsChatLine(job)
    ensures var r, me := Finished(s, job, env), s.tables.users[job.socket];
            && r.tables == s.tables
            && RoomTold(s, r, me.roomName, Chat(me.userName, job.msg), CHATTING)
            && Chatting(s.tables, job.socket, me.roomName)
  {
    RoomStep(s, job, env);
    var me := s.tables.users[job.socket];
    OneRoomTold(s, job, env, Chat(me.userName, job.msg), me.roomName, CHATTING);
  }

  /** Leaving: everybody in the room is told, the one who leaves included, and then that one gets
      the menu of the lobby. */
  lemma OutAnswered(s: State, job: JobData, env: Env)
    requires FromRoom(s, job, env) && Quiet(s) && job.msg == "\\out"
    ensures var r, sock, me := Finished(s, job, env), job.socket, s.tables.users[job.socket];
            && (exists ds :: r.wire == s.wire + ds + [Delivery(Menu, sock, WAITING)]
                             && ReachesRoom(ds, s.tables, me.roomName, Left(me.userName), CHATTING))
            && r.tables.ids == s.tables.ids
            && r.tables.users == s.tables.users[sock := me.(roomName := "", status := WAITING)]
            && forall room :: room in r.tables.rooms ==> sock !in r.tables.rooms[room]
  {
    RoomStep(s, job, env);
    var sock, me := job.socket, s.tables.users[job.socket];
    OneTold(s, job, env, Menu, sock, WAITING);
    var ds := ToAll(ListOf(s.tables, me.roomName), Left(me.userName), CHATTING);
    ToAllReaches(s.tables, me.roomName, Left(me.userName), CHATTING);
    assert Step(s, Work(job, env)).wire == s.wire + ds;
    var t := Finished(s, job, env).tables;
    assert Agree(t);
    forall room | room in t.rooms ensures sock !in t.rooms[room] {
      assert !Chatting(t, sock, room);
    }
  }

  /** What is neither of them is passed over, or announces a file to the room. */
  lemma RestOfRoomAnswered(s: State, job: JobData, env: Env)
    requires FromRoom(s, job, env) && !IsChatLine(job) && job.msg != "\\out"
    ensures var u, me := Step(s, Work(job, env)), s.tables.users[job.socket];
            if J.Contains(job.msg, "\\add") || job.direction == J.USER_GOOD then
              u == s
            else
              && job.direction == J.FILE_SEND && u.tables == s.tables && u.wire == s.wire
              && u.queue == s.queue + [SendRoom(FileComing, me.roomName, ChatTables.FILE_SEND),
                                       SendFile(env.filePath, me.roomName, ChatTables.FILE_SEND)]
  {
    RoomStep(s, job, env);
  }

  // ---- jobs that are no commands ----

  /** The monitor is told the packet count and the number of sessions. */
  lemma CountAnswered(s: State, job: JobData, env: Env)
    requires Quiet(s) && Enabled(s, Work(job, env)) && job.socket in s.live && job.direction == J.CALLCOUNT
    ensures var r := Finished(s, job, env);
            r.tables == s.tables && OnlyTold(s, r, job.socket, Counts(env.count, |s.tables.users.Keys|), INIT)
  {
    WorkKeeps(s, job, env);
    OneTold(s, job, env, Counts(env.count, |s.tables.users|), job.socket, INIT);
    assert |s.tables.users| == |s.tables.users.Keys|;
  }

  /** A ban closes a session of the name, if there is one: the room is told, and then the banned. */
  lemma BanAnswered(s: State, job: JobData, env: Env)
    requires Quiet(s) && Enabled(s, Work(job, env)) && job.socket in s.live && job.direction == J.BAN
    ensures var r, users, nick := Finished(s, job, env), s.tables.users, J.BanName(job);
            if forall x :: x in users ==> users[x].userName != nick then
              r.tables == s.tables && r.wire == s.wire
            else
              exists x, ds :: x in users && users[x].userName == nick
                && r.tables.users == users - {x} && r.tables.ids == s.tables.ids - {users[x].userId}
                && r.wire == s.wire + ds + [Delivery(Banned, x, LOGOUT)]
                && if users[x].status == CHATTING
                   then ReachesRoom(ds, s.tables, users[x].roomName, Left(nick), CHATTING) else ds == []
  {
    WorkKeeps(s, job, env);
    assert forall x :: x in s.tables.users ==> s.tables.users[x].ReadName() == s.tables.users[x].userName;
    if env.target.Some? {
      var x := env.target.value;
      var me := s.tables.users[x];
      OneTold(s, job, env, Banned, x, LOGOUT);
      var ds := if me.status == CHATTING then ToAll(ListOf(s.tables, me.roomName), Left(me.userName), CHATTING) else [];
      if me.status == CHATTING {
        ToAllReaches(s.tables, me.roomName, Left(me.userName), CHATTING);
      }
      assert Step(s, Work(job, env)).wire == s.wire + ds;
      assert Finished(s, job, env).tables.users == s.tables.users - {x};
    } else {
      NothingQueued(s, job, env);
    }
  }

  /** A job of a socket that is not live does nothing, and nor does a disconnect that failed. */
  lemma NothingHappens(s: State, e: Event)
    requires Inv(s) && Enabled(s, e)
    requires (e.Work? && e.job.socket !in s.live) || (e.Disconnect? && !e.closed)
    ensures Step(s, e) == s
  {
    if e.Work? {
      WorkKeeps(s, e.job, e.env);
    }
  }

  /** An accepted socket is recorded with its address, unless it is there already. */
  lemma AcceptRecords(s: State, sock: Socket, addr: string)
    requires Inv(s)
    ensures var r := Step(s, Accept(sock, addr));
            && r == s.(live := r.live) && r.live.Keys == s.live.Keys + {sock}
            && (sock !in s.live ==> r.live[sock] == addr)
            && forall x :: x in s.live ==> r.live[x] == s.live[x]
  {
  }

  /** A closed socket without a session takes nothing along but its entry among the live ones. */
  lemma StrangerCloses(s: State, sock: Socket, behind: Behind)
    requires Inv(s) && sock !in s.tables.users
    ensures Step(s, Disconnect(sock, true, behind)) == s.(live := s.live - {sock})
  {
  }
}
