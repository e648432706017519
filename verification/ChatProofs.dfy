/** What every run of the server keeps, and what the handlers undo. */
module ChatProofs {
  import opened ChatTables
  import opened ChatSpec
  import J = Jobs

  // ---- lookups ----

  /** Under agreement a table slot is always filled and every unchecked lookup finds its entry. */
  lemma LookupsFind(t: Tables, sock: Socket)
    requires Agree(t)
    ensures Dispatchable(t, sock) && (sock in t.users ==> Closable(t, sock))
    ensures GetStatus(t, sock) == LOGOUT <==> sock !in t.users
  {
  }

  // ---- one step ----

  lemma PushKeeps(s: State, e: SendData)
    requires Inv(s)
    ensures Inv(Push(s, e))
  {
    assert s.handled + s.local + (s.queue + [e]) == (s.handled + s.local + s.queue) + [e];
  }

  lemma TablesKeep(s: State, t: Tables)
    requires Inv(s) && Agree(t) && Terminated(t) && t.users.Keys <= s.live.Keys
    ensures Inv(s.(tables := t))
  {
  }

  lemma LogoutStateKeeps(s: State, sock: Socket, direction: int, msg: string)
    requires Inv(s) && sock in s.live && sock !in s.tables.users
    requires NamesFit(J.JobData(sock, direction, 0, msg))
    ensures Inv(StatusLogout(s, sock, direction, msg))
  {
    var args := J.Tokens(msg);
    if direction == J.USER_MAKE && |args| >= 3 && AccountOf(args[0]) !in s.accounts {
      var a := s.(accounts := s.accounts[AccountOf(args[0]) := Account(args[1], args[2])]);
      PushKeeps(a, SendMe(AccountMade(args[0]), sock, LOGOUT));
    } else if direction == J.USER_ENTER && |args| >= 2 && AccountOf(args[0]) in s.accounts
           && s.accounts[AccountOf(args[0])].password == args[1] && args[0] !in s.tables.ids {
      var nick := s.accounts[AccountOf(args[0])].nickName;
      LoginAgrees(s.tables, sock, args[0], nick);
      TablesKeep(s, Login(s.tables, sock, args[0], nick));
      PushKeeps(s.(tables := Login(s.tables, sock, args[0], nick)), SendMe(Welcome(nick), sock, WAITING));
    } else {
      var r := StatusLogout(s, sock, direction, msg);
      if r != s {
        PushKeeps(s, r.queue[|s.queue|]);
      }
    }
  }

  lemma JoinKeeps(s: State, sock: Socket, room: string, e: SendData)
    requires Inv(s) && sock in s.tables.users && s.tables.users[sock].status == WAITING && room in s.tables.rooms
    ensures Inv(Push(s.(tables := JoinRoom(s.tables, sock, room)), e))
  {
    RoomNamesFit(s.tables, room);
    JoinRoomAgrees(s.tables, sock, room);
    TablesKeep(s, JoinRoom(s.tables, sock, room));
    PushKeeps(s.(tables := JoinRoom(s.tables, sock, room)), e);
  }

  lemma FriendGoKeeps(s: State, sock: Socket, msg: string, env: Env)
    requires Inv(s) && sock in s.tables.users && s.tables.users[sock].status == WAITING
    requires env.target.Some? ==> env.target.value in s.tables.users
    ensures Inv(FriendGo(s, sock, msg, env.friendNick, env.target))
  {
    if env.friendNick != "" && env.target.Some? && s.tables.users[env.target.value].ReadRoom() in s.tables.rooms {
      var room := s.tables.users[env.target.value].ReadRoom();
      if s.tables.users[env.target.value].roomName == "" {
        PushKeeps(s, SendMe(FriendInLobby(msg), sock, WAITING));
      } else {
        var nick := JoinRoom(s.tables, sock, room).users[sock].ReadName();
        JoinKeeps(s, sock, room, SendRoom(Joined(nick), room, CHATTING));
      }
    } else {
      var r := FriendGo(s, sock, msg, env.friendNick, env.target);
      if r != s {
        PushKeeps(s, r.queue[|s.queue|]);
      }
    }
  }

  lemma WaitStateKeeps(s: State, sock: Socket, direction: int, msg: string, env: Env)
    requires Inv(s) && sock in s.tables.users && s.tables.users[sock].status == WAITING
    requires direction == J.ROOM_MAKE ==> Fits(msg)
    requires env.target.Some? ==> env.target.value in s.tables.users
    ensures Inv(StatusWait(s, sock, direction, msg, env))
  {
    var t := s.tables;
    if direction == J.ROOM_MAKE && msg !in t.rooms {
      OpenRoomAgrees(t, sock, msg);
      TablesKeep(s, OpenRoom(t, sock, msg));
      PushKeeps(s.(tables := OpenRoom(t, sock, msg)), SendMe(RoomMade(msg), sock, CHATTING));
    } else if direction == J.ROOM_ENTER && msg in t.rooms {
      JoinKeeps(s, sock, msg, SendRoom(Joined(t.users[sock].ReadName()), msg, CHATTING));
    } else if direction == J.FRIEND_GO {
      FriendGoKeeps(s, sock, msg, env);
    } else if direction == J.LOG_OUT {
      LogoutAgrees(t, sock);
      TablesKeep(s, Logout(t, sock));
      PushKeeps(s.(tables := Logout(t, sock)), SendMe(LoggedOut, sock, LOGOUT));
    } else {
      var r := StatusWait(s, sock, direction, msg, env);
      assert OnlyQueues(s, r);
      if r != s {
        PushKeeps(s, r.queue[|s.queue|]);
      }
    }
  }

  lemma ChatStateKeeps(s: State, sock: Socket, direction: int, msg: string, env: Env)
    requires Inv(s) && sock in s.tables.users && s.tables.users[sock].status == CHATTING
    requires s.tables.users[sock].ReadRoom() in s.tables.rooms
    ensures Inv(StatusChat(s, sock, direction, msg, env))
  {
    var me := s.tables.users[sock];
    if msg == "\\out" {
      LeaveRoomAgrees(s.tables, sock);
      var left := SayGoodbye(s, sock, me.ReadName()).(tables := LeaveRoom(s.tables, sock));
      assert Inv(left);
      PushKeeps(left, SendMe(Menu, sock, WAITING));
    } else if !(J.Contains(msg, "\\add") || direction == J.USER_GOOD) {
      if direction == J.FILE_SEND {
        var e := SendRoom(FileComing, me.ReadRoom(), ChatTables.FILE_SEND);
        PushKeeps(s, e);
        PushKeeps(Push(s, e), SendFile(env.filePath, me.ReadRoom(), ChatTables.FILE_SEND));
      } else {
        PushKeeps(s, SendRoom(Chat(me.ReadName(), msg), me.ReadRoom(), CHATTING));
      }
    }
  }

  lemma CloseKeeps(s: State, sock: Socket, behind: Behind)
    requires Agree(s.tables) && Terminated(s.tables) && NicksFit(s.accounts)
    requires Closable(s.tables, sock) && s.enqueued == s.handled + s.local + s.queue
    requires s.tables.users.Keys <= s.live.Keys + {sock}
    ensures Close(s, sock, behind).tables.users.Keys == s.tables.users.Keys - {sock}
    ensures Inv(Close(s, sock, behind))
  {
    TeardownAgrees(s.tables, sock, behind.id);
  }

  lemma WorkKeeps(s: State, job: JobData, env: Env)
    requires Inv(s) && Enabled(s, Work(job, env))
    ensures job.socket in s.live ==> Dispatchable(s.tables, job.socket)
    ensures env.target.Some? ==> Closable(s.tables, env.target.value)
    ensures Inv(WorkJob(s, job, env))
  {
    var sock := job.socket;
    LookupsFind(s.tables, sock);
    if env.target.Some? {
      LookupsFind(s.tables, env.target.value);
    }
    if sock in s.live {
      if job.direction == J.CALLCOUNT {
        PushKeeps(s, SendMe(Counts(env.count, |s.tables.users|), sock, INIT));
      } else if job.direction == J.BAN {
        if env.target.Some? {
          CloseKeeps(s, env.target.value, env.behind);
          PushKeeps(Close(s, env.target.value, env.behind), SendMe(Banned, env.target.value, LOGOUT));
        }
      } else {
        match GetStatus(s.tables, sock)
        case LOGOUT => LogoutStateKeeps(s, sock, job.direction, job.msg);
        case WAITING => WaitStateKeeps(s, sock, job.direction, job.msg, env);
        case CHATTING => ChatStateKeeps(s, sock, job.direction, job.msg, env);
      }
    }
  }

  lemma ExitKeeps(s: State, sock: Socket, closed: bool, behind: Behind)
    requires Inv(s)
    ensures sock in s.tables.users ==> Closable(s.tables, sock)
    ensures Inv(ClientExit(s, sock, closed, behind))
    ensures closed ==> sock !in ClientExit(s, sock, closed, behind).live
  {
    LookupsFind(s.tables, sock);
    if closed && sock in s.tables.users {
      CloseKeeps(s.(live := s.live - {sock}), sock, behind);
    }
  }

  lemma SwapKeeps(s: State)
    requires Inv(s) && s.local == []
    ensures Inv(SendSwap(s))
  {
    assert s.handled + s.queue + [] == s.handled + [] + s.queue;
  }

  lemma SendKeeps(s: State)
    requires Inv(s) && s.local != []
    ensures Inv(SendOne(s))
  {
    assert s.handled + s.local == (s.handled + [s.local[0]]) + s.local[1..];
  }

  // ---- runs ----

  function Step(s: State, e: Event): (s': State)
    requires Inv(s) && Enabled(s, e)
    ensures Inv(s')
  {
    match e
    case Accept(sock, addr) => if sock in s.live then s else s.(live := s.live[sock := addr])
    case Work(job, env) => WorkKeeps(s, job, env); WorkJob(s, job, env)
    case Disconnect(sock, closed, behind) => ExitKeeps(s, sock, closed, behind); ClientExit(s, sock, closed, behind)
    case SenderSwaps => SwapKeeps(s); SendSwap(s)
    case SenderSends => SendKeeps(s); SendOne(s)
  }

  ghost predicate EnabledAll(s: State, es: seq<Event>)
    requires Inv(s)
    decreases es
  {
    es == [] || (Enabled(s, es[0]) && EnabledAll(Step(s, es[0]), es[1..]))
  }

  function Run(s: State, es: seq<Event>): State
    requires Inv(s) && EnabledAll(s, es)
    decreases es
  {
    if es == [] then s else Run(Step(s, es[0]), es[1..])
  }

  lemma {:induction false} RunKeeps(s: State, es: seq<Event>)
    requires Inv(s) && EnabledAll(s, es)
    ensures Inv(Run(s, es))
    decreases es
  {
    if es == [] {
    } else {
      RunKeeps(Step(s, es[0]), es[1..]);
    }
  }

  lemma {:induction false} RunSnoc(s: State, es: seq<Event>, e: Event)
    requires Inv(s) && EnabledAll(s, es) && Enabled(Run(s, es), e) && Inv(Run(s, es))
    ensures EnabledAll(s, es + [e]) && Run(s, es + [e]) == Step(Run(s, es), e)
    decreases es
  {
    if es == [] {
      assert es + [e] == [e] && [e][1..] == [];
    } else {
      RunKeeps(Step(s, es[0]), es[1..]);
      RunSnoc(Step(s, es[0]), es[1..], e);
      assert (es + [e])[1..] == es[1..] + [e];
    }
  }

  /** Handling `jobs` one after the other from `start` is the run `events` and ends in `s`. */
  ghost predicate Handles(start: State, jobs: seq<JobData>, events: seq<Event>, s: State) {
    && Inv(start) && EnabledAll(start, events) && s == Run(start, events)
    && |events| == |jobs|
    && forall i :: 0 <= i < |jobs| ==> events[i].Work? && events[i].job == jobs[i]
  }

  lemma HandlesOneMore(start: State, jobs: seq<JobData>, events: seq<Event>, s: State, e: Event)
    requires Handles(start, jobs, events, s) && Inv(s) && Enabled(s, e) && e.Work?
    ensures Handles(start, jobs + [e.job], events + [e], Step(s, e))
  {
    RunSnoc(start, events, e);
  }

  /** Every state the server can reach: tables, lists and lookups agree. */
  lemma ReachableStates(accounts: map<string, Account>, es: seq<Event>)
    requires NicksFit(accounts) && EnabledAll(Start(accounts), es)
    ensures var s := Run(Start(accounts), es); var t := s.tables;
            && (forall r, x :: r in t.rooms ==> Occurrences(t.rooms[r], x) == if Chatting(t, x, r) then 1 else 0)
            && (forall x, r :: Chatting(t, x, r) ==> r in t.rooms)
            && (forall r :: r in t.rooms ==> t.rooms[r] != [])
            && (forall x :: x in t.users ==> t.users[x].status in {WAITING, CHATTING} && x in s.live)
            && (forall x :: x in t.users && t.users[x].status == WAITING ==> t.users[x].roomName == "")
            && t.ids == UserIds(t.users)
            && (forall x, y :: x in t.users && y in t.users && t.users[x].ReadId() == t.users[y].ReadId() ==> x == y)
            && SumSizes(t.rooms) == |set x | x in t.users && t.users[x].status == CHATTING|
            && (forall x :: Dispatchable(t, x))
            && s.handled + s.local + s.queue == s.enqueued
  {
    RunKeeps(Start(accounts), es);
    var t := Run(Start(accounts), es).tables;
    forall r, x | r in t.rooms ensures Occurrences(t.rooms[r], x) == if Chatting(t, x, r) then 1 else 0 {
      ListedOnce(t, r, x);
    }
    ListsCountChatters(t);
    forall x ensures Dispatchable(t, x) {
      LookupsFind(t, x);
    }
  }

  // ---- no residue ----

  /** The sockets that are accepted in a run and not successfully closed later in it. */
  ghost function StillOpen(open: set<Socket>, es: seq<Event>): set<Socket>
    decreases es
  {
    if es == [] then open
    else match es[0]
      case Accept(sock, _) => StillOpen(open + {sock}, es[1..])
      case Disconnect(sock, true, _) => StillOpen(open - {sock}, es[1..])
      case _ => StillOpen(open, es[1..])
  }

  lemma {:induction false} LiveIsStillOpen(s: State, es: seq<Event>)
    requires Inv(s) && EnabledAll(s, es)
    ensures Run(s, es).live.Keys == StillOpen(s.live.Keys, es)
    decreases es
  {
    if es == [] {
    } else {
      var u := Step(s, es[0]);
      LiveIsStillOpen(u, es[1..]);
      LiveAfter(s, es[0]);
    }
  }

  lemma LiveAfter(s: State, e: Event)
    requires Inv(s) && Enabled(s, e)
    ensures Step(s, e).live.Keys == match e
              case Accept(sock, _) => s.live.Keys + {sock}
              case Disconnect(sock, true, _) => s.live.Keys - {sock}
              case _ => s.live.Keys
  {
    if e.Work? {
      WorkKeeps(s, e.job, e.env);
    }
  }

  lemma NoSessionsNoTables(t: Tables)
    requires Agree(t) && t.users.Keys == {}
    ensures t == NO_TABLES
  {
    assert t.users == map[];
    assert t.ids == {};
    assert forall r :: r in t.rooms ==> Chatting(t, t.rooms[r][0], r);
    assert t.rooms == map[];
  }

  /** Once every accepted socket has been closed, no session, id or room is left behind. */
  lemma NoResidue(accounts: map<string, Account>, es: seq<Event>)
    requires NicksFit(accounts) && EnabledAll(Start(accounts), es) && StillOpen({}, es) == {}
    ensures Run(Start(accounts), es).tables == NO_TABLES
  {
    LiveIsStillOpen(Start(accounts), es);
    assert Start(accounts).live.Keys == {};
    RunKeeps(Start(accounts), es);
    NoSessionsNoTables(Run(Start(accounts), es).tables);
  }
}
