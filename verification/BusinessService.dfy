/** The server object whose handlers change the tables in place, step by step. */
module BusinessService {
  import opened ChatTables
  import opened ChatSpec
  import Spec = ChatSpec
  import opened ChatProofs
  import opened Deliveries
  import J = Jobs

  class RoomData {
    var userList: seq<Socket>

    constructor (userList: seq<Socket>)
      ensures this.userList == userList
    {
      this.userList := userList;
    }
  }

  class BusinessService {
    var idSet: set<string>
    var userMap: map<Socket, Session>
    var roomMap: map<string, RoomData>
    var sendQueue: seq<SendData>
    var liveSocket: map<Socket, string>
    var dao: map<string, Account>

    ghost var wire: seq<Delivery>
    ghost var enqueued: seq<SendData>
    ghost var handled: seq<SendData>
    ghost var taken: seq<SendData>  // what a sender has swapped out and not handled yet

    /** No two names share a room object. */
    ghost predicate Valid()
      reads this
    {
      forall a, b :: a in roomMap && b in roomMap && a != b ==> roomMap[a] != roomMap[b]
    }

    ghost function Rooms(): map<string, seq<Socket>>
      reads this, roomMap.Values
    {
      map r | r in roomMap :: roomMap[r].userList
    }

    ghost function Abs(): State
      reads this, roomMap.Values
    {
      State(Tables(idSet, userMap, Rooms()), liveSocket, dao, sendQueue, taken, wire, enqueued, handled)
    }

    constructor (dao: map<string, Account>)
      requires NicksFit(dao)
      ensures Valid() && Abs() == Start(dao) && roomMap == map[]
    {
      idSet, userMap, roomMap := {}, map[], map[];
      sendQueue, liveSocket, this.dao := [], map[], dao;
      wire, enqueued, handled, taken := [], [], [], [];
    }

    // ---- sending ----

    method InsertSendQueue(e: SendData)
      requires Valid()
      modifies this`sendQueue, this`enqueued
      ensures Valid() && Abs() == Push(old(Abs()), e)
    {
      sendQueue := sendQueue + [e];
      enqueued := enqueued + [e];
    }

    /** The network's part: one message to every socket in the list, in order. */
    method SendToRoomMsg(msg: Notice, list: seq<Socket>, status: ClientStatus)
      modifies this`wire
      ensures wire == old(wire) + ToAll(list, msg, status)
    {
      var i := 0;
      while i < |list|
        invariant 0 <= i <= |list| && wire == old(wire) + ToAll(list[..i], msg, status)
      {
        wire := wire + [Delivery(msg, list[i], status)];
        i := i + 1;
        assert ToAll(list[..i], msg, status)
            == ToAll(list[..i - 1], msg, status) + [Delivery(msg, list[i - 1], status)];
      }
      assert list[..i] == list;
    }

    /** Takes everything queued so far, in constant time and under the queue's lock. */
    method SwapQueue() returns (localQueue: seq<SendData>)
      requires Valid() && taken == []
      modifies this`sendQueue, this`taken
      ensures Valid() && Abs() == SendSwap(old(Abs()))
      ensures localQueue == taken == old(sendQueue) && sendQueue == []
    {
      localQueue := sendQueue;
      sendQueue, taken := [], localQueue;
    }

    /** Puts one entry on the wire. */
    method Transmit(sendData: SendData)
      requires Valid() && taken != [] && sendData == taken[0]
      modifies this`wire
      ensures Valid() && wire == SendOne(old(Abs())).wire
    {
      match sendData {
        case SendMe(msg, mySocket, status) =>
          wire := wire + [Delivery(msg, mySocket, status)];
        case SendRoom(msg, roomName, status) =>
          if roomName in roomMap {
            SendToRoomMsg(msg, roomMap[roomName].userList, status);
          }
        case SendFile(_, _, _) =>
      }
    }

    /** Sends one entry that has been taken out of the queue. */
    method SendEntry(sendData: SendData)
      requires Valid() && taken != [] && sendData == taken[0]
      modifies this`taken, this`wire, this`handled
      ensures Valid() && Abs() == SendOne(old(Abs()))
      ensures old(wire) <= wire && Due(wire[|old(wire)|..], sendData, old(Abs()).tables)
    {
      ghost var ds := SendOneDelivers(Abs());
      assert SendOne(Abs()).wire[|Abs().wire|..] == ds;
      Transmit(sendData);
      handled, taken := handled + [sendData], taken[1..];
    }

    /** Drains everything queued so far, one entry after the other. */
    method Sendwork()
      requires Valid() && taken == []
      modifies this`sendQueue, this`taken, this`wire, this`handled
      ensures Valid() && taken == [] && sendQueue == []
      ensures Abs() == SendAll(SendSwap(old(Abs())))
      ensures handled == old(handled) + old(sendQueue)
      ensures old(wire) <= wire
      ensures Delivered(wire[|old(wire)|..], old(sendQueue), old(Abs()).tables)
    {
      ghost var start := SendSwap(Abs());
      SendAllHandles(start);
      DrainDelivers(start);
      var localQueue := SwapQueue();
      while localQueue != []
        invariant Valid() && taken == localQueue
        invariant SendAll(Abs()) == SendAll(start)
        decreases |localQueue|
      {
        SendEntry(localQueue[0]);
        localQueue := localQueue[1..];
      }
    }

    // ---- login and accounts ----

    method UserMake(sock: Socket, message: string)
      requires Valid()
      modifies this
      ensures Valid() && roomMap == old(roomMap) && Abs() == Spec.UserMake(old(Abs()), sock, message)
    {
      var sArr := J.Tokens(message);
      if |sArr| >= 3 {
        if AccountOf(sArr[0]) !in dao {
          dao := dao[AccountOf(sArr[0]) := Account(sArr[1], sArr[2])];
          InsertSendQueue(SendMe(AccountMade(sArr[0]), sock, LOGOUT));
        } else {
          InsertSendQueue(SendMe(DuplicateId, sock, LOGOUT));
        }
      }
    }

    /** Stores the session of a login and welcomes the user. */
    method InitUser(id: string, sock: Socket, nickName: string)
      requires Valid()
      modifies this
      ensures Valid() && roomMap == old(roomMap)
      ensures var t := old(Abs()).tables;
              var stored := t.(users := t.users[sock := Session(Field(nickName), "", Field(id), WAITING)]);
              Abs() == Reply(old(Abs()).(tables := stored), sock, Welcome(nickName), WAITING)
    {
      var userInfo := Session(Field(nickName), Field(""), Field(id), WAITING);
      userMap := userMap[sock := userInfo];
      InsertSendQueue(SendMe(Welcome(nickName), sock, WAITING));
    }

    method UserEnter(sock: Socket, message: string)
      requires Valid()
      modifies this
      ensures Valid() && roomMap == old(roomMap) && Abs() == Spec.UserEnter(old(Abs()), sock, message)
    {
      var sArr := J.Tokens(message);
      if |sArr| >= 2 {
        var vo := AccountOf(sArr[0]);
        if vo !in dao {
          InsertSendQueue(SendMe(NoSuchAccount, sock, LOGOUT));
        } else if dao[vo].password == sArr[1] {
          if sArr[0] in idSet {
            InsertSendQueue(SendMe(DuplicateLogin, sock, LOGOUT));
          } else {
            idSet := idSet + {sArr[0]};
            InitUser(sArr[0], sock, dao[vo].nickName);
          }
        } else {
          InsertSendQueue(SendMe(WrongPassword, sock, LOGOUT));
        }
      }
    }

    // ---- rooms ----

    /** The two assignments that put a session into a room. */
    method SetChatting(sock: Socket, roomName: string)
      requires Valid() && sock in userMap
      modifies this`userMap
      ensures Valid() && Abs() == old(Abs()).(tables := EnterChat(old(Abs()).tables, sock, roomName))
    {
      userMap := userMap[sock := userMap[sock].(roomName := Field(roomName))];
      userMap := userMap[sock := userMap[sock].(status := CHATTING)];
    }

    method PushMember(roomName: string, sock: Socket)
      requires Valid() && roomName in roomMap
      modifies roomMap[roomName]
      ensures Valid()
      ensures Rooms() == old(Rooms())[roomName := old(Rooms())[roomName] + [sock]]
    {
      var room := roomMap[roomName];
      room.userList := room.userList + [sock];
    }

    method RoomMake(sock: Socket, msg: string)
      requires Valid() && sock in userMap
      modifies this
      ensures Valid() && fresh(roomMap.Values - old(roomMap.Values))
      ensures Abs() == Spec.RoomMake(old(Abs()), sock, msg)
    {
      if msg in roomMap {
        InsertSendQueue(SendMe(RoomExists(msg), sock, WAITING));
      } else {
        var roomData := new RoomData([sock]);
        roomMap := roomMap[msg := roomData];
        assert Rooms() == old(Rooms())[msg := [sock]];
        SetChatting(sock, msg);
        InsertSendQueue(SendMe(RoomMade(msg), sock, CHATTING));
      }
    }

    /** Entering a room that was found, as RoomEnter and FriendGo do it. */
    method EnterFound(sock: Socket, roomName: string)
      requires Valid() && sock in userMap && roomName in roomMap
      modifies this`userMap, roomMap[roomName]
      ensures Valid() && Abs() == old(Abs()).(tables := JoinRoom(old(Abs()).tables, sock, roomName))
    {
      SetChatting(sock, roomName);
      PushMember(roomName, sock);
    }

    method RoomEnter(sock: Socket, msg: string)
      requires Valid() && sock in userMap
      modifies this, roomMap.Values
      ensures Valid() && roomMap == old(roomMap) && Abs() == Spec.RoomEnter(old(Abs()), sock, msg)
    {
      if msg !in roomMap {
        InsertSendQueue(SendMe(NoSuchRoom(msg), sock, WAITING));
      } else {
        var name := userMap[sock].ReadName();
        EnterFound(sock, msg);
        InsertSendQueue(SendRoom(Joined(name), msg, CHATTING));
      }
    }

    /** A scan of the sessions in whatever order the map yields them. */
    method FindByName(nick: string) returns (found: Option<Socket>)
      ensures Picks(userMap, nick, found)
    {
      var pending := userMap.Keys;
      while pending != {}
        invariant pending <= userMap.Keys
        invariant forall x :: x in userMap && x !in pending ==> userMap[x].ReadName() != nick
        decreases |pending|
      {
        var sock :| sock in pending;
        if userMap[sock].ReadName() == nick {
          return Some(sock);
        }
        pending := pending - {sock};
      }
      return None;
    }

    method Whisper(sock: Socket, msg: string) returns (target: Option<Socket>)
      requires Valid() && sock in userMap
      modifies this
      ensures Valid() && roomMap == old(roomMap)
      ensures Abs() == Spec.Whisper(old(Abs()), sock, msg, target)
      ensures var args := J.Tokens(msg);
              if |args| >= 2 && args[0] != old(userMap)[sock].ReadName() then Picks(old(userMap), args[0], target)
              else target == None
    {
      target := None;
      var sArr := J.Tokens(msg);
      if |sArr| >= 2 {
        var name := sArr[0];
        if name == userMap[sock].ReadName() {
          InsertSendQueue(SendMe(WhisperToSelf, sock, WAITING));
        } else {
          target := FindByName(name);
          if target.Some? {
            InsertSendQueue(SendMe(Whispered(userMap[sock].ReadName(), sArr[1]), target.value, ChatTables.WHISPER));
          } else {
            InsertSendQueue(SendMe(NobodyNamed(name), sock, WAITING));
          }
        }
      }
    }

    /** The listing of all rooms with their sizes. */
    method RoomSizesOf() returns (sizes: map<string, nat>)
      requires Valid()
      ensures sizes.Keys == roomMap.Keys
      ensures forall r :: r in roomMap ==> sizes[r] == |roomMap[r].userList|
    {
      sizes := map[];
      var pending := roomMap.Keys;
      while pending != {}
        invariant pending <= roomMap.Keys && sizes.Keys == roomMap.Keys - pending
        invariant forall r :: r in sizes ==> sizes[r] == |roomMap[r].userList|
        decreases |pending|
      {
        var r :| r in pending;
        sizes := sizes[r := |roomMap[r].userList|];
        pending := pending - {r};
      }
    }

    method RoomInfo(sock: Socket)
      requires Valid()
      modifies this
      ensures Valid() && roomMap == old(roomMap) && Abs() == Spec.RoomInfo(old(Abs()), sock)
    {
      assert Rooms().Keys == roomMap.Keys;
      if |roomMap| == 0 {
        assert Rooms() == map[];
        InsertSendQueue(SendMe(NoRooms, sock, WAITING));
      } else {
        var sizes := RoomSizesOf();
        assert sizes == map r | r in Rooms() :: |Rooms()[r]|;
        InsertSendQueue(SendMe(RoomSizes(sizes), sock, WAITING));
      }
    }

    /** Follows a friend. The list's lock is looked up under `msg`, not under the room's name. */
    method FriendGo(sock: Socket, msg: string, friendNick: string) returns (target: Option<Socket>)
      requires Valid() && sock in userMap && FollowsSafely(Abs().tables, J.FRIEND_GO, msg, friendNick)
      modifies this, roomMap.Values
      ensures Valid() && roomMap == old(roomMap)
      ensures if friendNick == "" then target == None else Picks(old(userMap), friendNick, target)
      ensures Abs() == Spec.FriendGo(old(Abs()), sock, msg, friendNick, target)
    {
      target := None;
      if friendNick == "" {
        InsertSendQueue(SendMe(FriendUnknown, sock, WAITING));
      } else {
        target := FindByName(friendNick);
        if target.None? {
          InsertSendQueue(SendMe(FriendOffline(msg), sock, WAITING));
        } else if userMap[target.value].roomName == "" {
          InsertSendQueue(SendMe(FriendInLobby(msg), sock, WAITING));
        } else {
          var roomName := userMap[target.value].ReadRoom();
          if roomName in roomMap {
            var locked := roomMap[msg];
            EnterFound(sock, roomName);
            var nick := userMap[sock].ReadName();
            InsertSendQueue(SendRoom(Joined(nick), roomName, CHATTING));
          }
        }
      }
    }

    // ---- leaving ----

    /** Takes the socket off its room's list after telling everybody on it. */
    method TakeOffList(sock: Socket, roomName: string, name: string)
      requires Valid() && sock in userMap && roomName in roomMap && userMap[sock].ReadRoom() == roomName
      modifies this`wire, roomMap[roomName]
      ensures Valid()
      ensures var t := old(Abs()).tables;
              Abs() == SayGoodbye(old(Abs()), sock, name).(tables :=
                t.(rooms := t.rooms[roomName := Remove(t.rooms[roomName], sock)]))
    {
      var room := roomMap[roomName];
      SendToRoomMsg(Left(name), room.userList, CHATTING);
      room.userList := Remove(room.userList, sock);
      assert Rooms() == old(Rooms())[roomName := Remove(old(Rooms())[roomName], sock)];
    }

    /** The two assignments that put a session back into the lobby. */
    method SetWaiting(sock: Socket)
      requires Valid() && sock in userMap
      modifies this`userMap
      ensures Valid()
      ensures var t := old(Abs()).tables;
              var waiting := t.users[sock].(roomName := "", status := WAITING);
              Abs() == old(Abs()).(tables := t.(users := t.users[sock := waiting]))
    {
      userMap := userMap[sock := userMap[sock].(roomName := Field(""))];
      userMap := userMap[sock := userMap[sock].(status := WAITING)];
    }

    method EraseIfEmpty(roomName: string)
      requires Valid()
      modifies this`roomMap
      ensures Valid() && roomMap.Values <= old(roomMap.Values)
      ensures var t := old(Abs()).tables;
              Abs() == old(Abs()).(tables := t.(rooms := DropIfEmpty(t.rooms, roomName)))
    {
      if roomName in roomMap {
        if roomMap[roomName].userList == [] {
          roomMap := roomMap - {roomName};
        }
      }
      assert Rooms() == DropIfEmpty(old(Rooms()), roomName);
    }

    /** What leaving a room does, whether by command, by disconnect or by ban. */
    method Leave(sock: Socket, name: string)
      requires Valid() && sock in userMap && userMap[sock].ReadRoom() in roomMap
      modifies this`wire, this`userMap, this`roomMap, roomMap.Values
      ensures Valid() && roomMap.Values <= old(roomMap.Values)
      ensures Abs() == SayGoodbye(old(Abs()), sock, name).(tables := LeaveRoom(old(Abs()).tables, sock))
    {
      var roomName := userMap[sock].ReadRoom();
      TakeOffList(sock, roomName, name);
      SetWaiting(sock);
      EraseIfEmpty(roomName);
    }

    method Out(sock: Socket)
      requires Valid() && sock in userMap && userMap[sock].ReadRoom() in roomMap
      modifies this, roomMap.Values
      ensures Valid() && roomMap.Values <= old(roomMap.Values) && Abs() == Spec.Out(old(Abs()), sock)
    {
      Leave(sock, userMap[sock].ReadName());
      InsertSendQueue(SendMe(Menu, sock, WAITING));
    }

    method EraseId(id: string)
      requires Valid()
      modifies this`idSet
      ensures Valid()
      ensures var t := old(Abs()).tables; Abs() == old(Abs()).(tables := t.(ids := t.ids - {id}))
    {
      idSet := idSet - {id};
    }

    method EraseSession(sock: Socket)
      requires Valid()
      modifies this`userMap
      ensures Valid()
      ensures var t := old(Abs()).tables; Abs() == old(Abs()).(tables := t.(users := t.users - {sock}))
    {
      userMap := userMap - {sock};
    }

    method LogOut(sock: Socket)
      requires Valid() && sock in userMap
      modifies this
      ensures Valid() && roomMap == old(roomMap) && Abs() == Spec.LogOut(old(Abs()), sock)
    {
      EraseId(userMap[sock].ReadId());
      EraseSession(sock);
      InsertSendQueue(SendMe(LoggedOut, sock, LOGOUT));
    }

    /** The common part of a ban and of a disconnect: the id, then the room, then the session. Name
        and id are copied without their terminators if they have none. */
    method CloseSession(sock: Socket, behind: Behind)
      requires Valid() && Closable(Abs().tables, sock)
      modifies this`wire, this`userMap, this`roomMap, this`idSet, roomMap.Values
      ensures Valid() && roomMap.Values <= old(roomMap.Values) && Abs() == Close(old(Abs()), sock, behind)
    {
      var name := ReadOn(userMap[sock].userName, behind.name);
      var id := ReadOn(userMap[sock].userId, behind.id);
      EraseId(id);
      if userMap[sock].status == CHATTING {
        Leave(sock, name);
      }
      EraseSession(sock);
    }

    /** Bans the session that was found. */
    method BanFound(sock: Socket, behind: Behind)
      requires Valid() && Closable(Abs().tables, sock)
      modifies this, roomMap.Values
      ensures Valid() && roomMap.Values <= old(roomMap.Values)
      ensures Abs() == Spec.BanUser(old(Abs()), Some(sock), behind)
    {
      CloseSession(sock, behind);
      InsertSendQueue(SendMe(Banned, sock, LOGOUT));
    }

    method BanUser(nickName: string, behind: Behind) returns (target: Option<Socket>)
      requires Valid() && Agree(Abs().tables)
      modifies this, roomMap.Values
      ensures Valid() && roomMap.Values <= old(roomMap.Values)
      ensures Picks(old(userMap), nickName, target)
      ensures target.Some? ==> Closable(old(Abs()).tables, target.value)
      ensures Abs() == Spec.BanUser(old(Abs()), target, behind)
    {
      target := FindByName(nickName);
      if target.Some? {
        LookupsFind(Abs().tables, target.value);
        BanFound(target.value, behind);
      }
    }

    // ---- connections ----

    method InsertLiveSocket(sock: Socket, addr: string)
      requires Valid() && Inv(Abs())
      modifies this`liveSocket
      ensures Valid() && Abs() == Step(old(Abs()), Accept(sock, addr))
    {
      if sock !in liveSocket {
        liveSocket := liveSocket[sock := addr];
      }
    }

    method IsSocketDead(sock: Socket) returns (dead: bool)
      ensures dead <==> sock !in liveSocket
    {
      dead := sock !in liveSocket;
    }

    method EraseLive(sock: Socket)
      requires Valid()
      modifies this`liveSocket
      ensures Valid() && Abs() == old(Abs()).(live := old(Abs()).live - {sock})
    {
      liveSocket := liveSocket - {sock};
    }

    /** `closed` says whether closing the socket succeeded; if not, nothing happens. */
    method ClientExit(sock: Socket, closed: bool, behind: Behind)
      requires Valid() && Inv(Abs())
      modifies this, roomMap.Values
      ensures Valid() && roomMap.Values <= old(roomMap.Values)
      ensures Inv(Abs()) && Abs() == Step(old(Abs()), Disconnect(sock, closed, behind))
    {
      ghost var start := Abs();
      ExitKeeps(start, sock, closed, behind);
      if closed {
        EraseLive(sock);
        if sock in userMap {
          CloseSession(sock, behind);
        }
      }
      assert Abs() == Spec.ClientExit(start, sock, closed, behind);
    }

    // ---- dispatch ----

    method GetStatus(sock: Socket) returns (status: ClientStatus)
      requires Valid()
      ensures status == Spec.GetStatus(Abs().tables, sock)
    {
      status := if sock !in userMap then LOGOUT else userMap[sock].status;
    }

    /** The command table. Its slots 0 and 5 are empty, so nothing may select them. */
    method DirectionFunc(sock: Socket, direction: int, message: string, env: Env) returns (target: Option<Socket>)
      requires Valid() && direction in FILLED && (direction > J.USER_ENTER ==> sock in userMap)
      requires FollowsSafely(Abs().tables, direction, message, env.friendNick)
      modifies this, roomMap.Values
      ensures Valid() && fresh(roomMap.Values - old(roomMap.Values))
      ensures match CommandSought(old(Abs()), sock, direction, message, env.friendNick)
              case Some(nick) => Picks(old(userMap), nick, target)
              case None => target == None
      ensures Abs() == Spec.Command(old(Abs()), sock, direction, message, env.(target := target))
    {
      target := None;
      if direction == J.USER_MAKE {
        UserMake(sock, message);
      } else if direction == J.USER_ENTER {
        UserEnter(sock, message);
      } else if direction == J.ROOM_MAKE {
        RoomMake(sock, message);
      } else if direction == J.ROOM_ENTER {
        RoomEnter(sock, message);
      } else if direction == J.WHISPER {
        target := Whisper(sock, message);
      } else if direction == J.ROOM_INFO {
        RoomInfo(sock);
      } else if direction == J.ROOM_USER_INFO {
        InsertSendQueue(SendMe(UserList, sock, WAITING));
      } else if direction == J.FRIEND_GO {
        target := FriendGo(sock, message, env.friendNick);
      } else {
        InsertSendQueue(SendMe(FriendAnswer, sock, WAITING));
      }
    }

    method StatusLogout(sock: Socket, direction: int, message: string, env: Env)
      requires Valid()
      modifies this, roomMap.Values
      ensures Valid() && fresh(roomMap.Values - old(roomMap.Values))
      ensures Abs() == Spec.StatusLogout(old(Abs()), sock, direction, message)
    {
      if direction == J.USER_MAKE || direction == J.USER_ENTER {
        var _ := DirectionFunc(sock, direction, message, env);
      } else if direction == J.EXIT {
        // the process ends
      } else {
        InsertSendQueue(SendMe(BadCommand, sock, LOGOUT));
      }
    }

    method StatusWait(sock: Socket, direction: int, message: string, env: Env) returns (target: Option<Socket>)
      requires Valid() && sock in userMap && userMap[sock].status == WAITING
      requires FollowsSafely(Abs().tables, direction, message, env.friendNick)
      modifies this, roomMap.Values
      ensures Valid() && fresh(roomMap.Values - old(roomMap.Values))
      ensures match CommandSought(old(Abs()), sock, direction, message, env.friendNick)
              case Some(nick) => Picks(old(userMap), nick, target)
              case None => target == None
      ensures Abs() == Spec.StatusWait(old(Abs()), sock, direction, message, env.(target := target))
    {
      target := None;
      if direction == -1 {
      } else if direction in FILLED && direction > J.USER_ENTER {
        target := DirectionFunc(sock, direction, message, env);
      } else if direction == J.LOG_OUT {
        LogOut(sock);
      } else if direction == J.USER_GOOD_INFO {
      } else {
        InsertSendQueue(SendMe(BadCommand, sock, WAITING));
      }
    }

    method StatusChat(sock: Socket, direction: int, message: string, env: Env)
      requires Valid() && sock in userMap && userMap[sock].ReadRoom() in roomMap
      modifies this, roomMap.Values
      ensures Valid() && roomMap.Values <= old(roomMap.Values)
      ensures Abs() == Spec.StatusChat(old(Abs()), sock, direction, message, env)
    {
      var roomName := userMap[sock].ReadRoom();
      if message == "\\out" {
        Out(sock);
      } else if J.Contains(message, "\\add") {
      } else if direction == J.USER_GOOD {
      } else if direction == J.FILE_SEND {
        InsertSendQueue(SendRoom(FileComing, roomName, ChatTables.FILE_SEND));
        InsertSendQueue(SendFile(env.filePath, roomName, ChatTables.FILE_SEND));
      } else {
        if roomName in roomMap {
          InsertSendQueue(SendRoom(Chat(userMap[sock].ReadName(), message), roomName, CHATTING));
        }
      }
    }

    /** The handler table, indexed by status: only three of its slots hold a handler. */
    method CallFuncPointer(sock: Socket, status: ClientStatus, direction: int, message: string, env: Env)
      returns (target: Option<Socket>)
      requires Valid() && Dispatchable(Abs().tables, sock) && status == Spec.GetStatus(Abs().tables, sock)
      requires status == WAITING ==> FollowsSafely(Abs().tables, direction, message, env.friendNick)
      modifies this, roomMap.Values
      ensures Valid() && fresh(roomMap.Values - old(roomMap.Values))
      ensures match (if status != WAITING then None
                     else CommandSought(old(Abs()), sock, direction, message, env.friendNick))
              case Some(nick) => Picks(old(userMap), nick, target)
              case None => target == None
      ensures target.Some? ==> target.value in old(userMap)
      ensures Abs() == Spec.Dispatch(old(Abs()), sock, direction, message, env.(target := target))
    {
      target := None;
      match status {
        case LOGOUT => StatusLogout(sock, direction, message, env);
        case WAITING => target := StatusWait(sock, direction, message, env);
        case CHATTING => StatusChat(sock, direction, message, env);
      }
    }

    /** Whether a session with the nickname is in a room. */
    method SomeoneInRoom(nick: string) returns (found: bool)
      requires Valid()
      ensures found <==> exists x :: x in userMap && userMap[x].ReadName() == nick
                           && userMap[x].roomName != "" && userMap[x].ReadRoom() in roomMap
    {
      var pending := userMap.Keys;
      while pending != {}
        invariant pending <= userMap.Keys
        invariant forall x :: x in userMap && x !in pending && userMap[x].ReadName() == nick ==>
                    userMap[x].roomName == "" || userMap[x].ReadRoom() !in roomMap
        decreases |pending|
      {
        var x :| x in pending;
        if userMap[x].ReadName() == nick && userMap[x].roomName != "" && userMap[x].ReadRoom() in roomMap {
          return true;
        }
        pending := pending - {x};
      }
      return false;
    }

    /** Whether the job will make the process exit, or may: the branch of StatusLogout for EXIT, and
        the unchecked lookup of FriendGo. */
    method MustExit(job: JobData, friendNick: string) returns (exits: bool)
      requires Valid() && Inv(Abs())
      ensures exits <==> EndsProcess(Abs(), job, friendNick)
    {
      LookupsFind(Abs().tables, job.socket);
      if job.socket !in liveSocket {
        exits := false;
      } else if job.socket !in userMap {
        exits := job.direction == J.EXIT;
      } else if userMap[job.socket].status != WAITING || job.direction != J.FRIEND_GO
                || friendNick == "" || job.msg in roomMap {
        exits := false;
      } else {
        exits := SomeoneInRoom(friendNick);
      }
    }

    /** One job, as a worker handles it. The entries of `env` other than the target stand for
        the answers of the database, the file transfer and the packet counter. */
    method WorkJob(job: JobData, env: Env) returns (target: Option<Socket>)
      requires Valid() && Inv(Abs()) && !EndsProcess(Abs(), job, env.friendNick)
      modifies this, roomMap.Values
      ensures Valid() && fresh(roomMap.Values - old(roomMap.Values))
      ensures FoundAsSought(old(Abs()), job, env.(target := target))
      ensures Dispatchable(old(Abs()).tables, job.socket)
      ensures target.Some? ==> Closable(old(Abs()).tables, target.value)
      ensures Abs() == Spec.WorkJob(old(Abs()), job, env.(target := target))
    {
      target := None;
      LookupsFind(Abs().tables, job.socket);
      var dead := IsSocketDead(job.socket);
      if dead {
      } else if job.direction == J.CALLCOUNT {
        InsertSendQueue(SendMe(Counts(env.count, |userMap|), job.socket, INIT));
      } else if job.direction == J.BAN {
        target := BanUser(J.BanName(job), env.behind);
      } else {
        ghost var t := Abs().tables;
        var status := GetStatus(job.socket);
        target := CallFuncPointer(job.socket, status, job.direction, job.msg, env);
        if target.Some? {
          LookupsFind(t, target.value);
        }
      }
    }
  }
}
