/** The handlers as functions on the state of the server, and the runs they make up. */
module ChatSpec {
  import opened ChatTables
  import J = Jobs

  type JobData = J.JobData

  datatype Option<+T> = None | Some(value: T)

  datatype Account = Account(password: string, nickName: string)

  /** How many characters of an id the database is asked for. */
  const ACCOUNT_SIZE: nat := 10

  /** The account an id stands for. */
  function AccountOf(id: string): (a: string)
    ensures a <= id && |a| == if |id| <= ACCOUNT_SIZE then |id| else ACCOUNT_SIZE
  {
    if |id| <= ACCOUNT_SIZE then id else id[..ACCOUNT_SIZE]
  }

  /** The texts that are sent, by meaning. */
  datatype Notice =
    | AccountMade(id: string) | DuplicateId
    | NoSuchAccount | WrongPassword | DuplicateLogin | Welcome(nick: string)
    | BadCommand | LoggedOut | Menu
    | RoomExists(room: string) | RoomMade(room: string) | NoSuchRoom(room: string)
    | Joined(nick: string) | Left(nick: string) | Chat(nick: string, text: string)
    | NoRooms | RoomSizes(sizes: map<string, nat>) | UserList
    | WhisperToSelf | Whispered(nick: string, text: string) | NobodyNamed(nick: string)
    | FriendUnknown | FriendInLobby(friend: string) | FriendOffline(friend: string) | FriendAnswer
    | Banned | Counts(packets: int, users: nat) | FileComing

  datatype SendData =
    | SendMe(msg: Notice, mySocket: Socket, status: ClientStatus)
    | SendRoom(msg: Notice, roomName: string, status: ClientStatus)
    | SendFile(path: string, roomName: string, status: ClientStatus)

  /** One message handed to the network. */
  datatype Delivery = Delivery(msg: Notice, to: Socket, status: ClientStatus)

  datatype State = State(
    tables: Tables,
    live: map<Socket, string>,
    accounts: map<string, Account>,
    queue: seq<SendData>,       // waiting to be sent
    local: seq<SendData>,       // taken by the sender, not yet handled
    wire: seq<Delivery>,        // everything sent so far
    enqueued: seq<SendData>,    // everything ever put into the queue
    handled: seq<SendData>)     // everything the sender is done with

  predicate NicksFit(accounts: map<string, Account>) {
    forall id <- accounts :: Fits(accounts[id].nickName)
  }

  ghost predicate Inv(s: State) {
    && Agree(s.tables) && Terminated(s.tables) && NicksFit(s.accounts)
    && s.tables.users.Keys <= s.live.Keys
    && s.enqueued == s.handled + s.local + s.queue
  }

  function Start(accounts: map<string, Account>): (s: State)
    requires NicksFit(accounts)
    ensures Inv(s)
  {
    State(NO_TABLES, map[], accounts, [], [], [], [], [])
  }

  /** What lies behind the local copies of a name and an id that a disconnect and a ban make. */
  datatype Behind = Behind(name: string, id: string)

  /** What a job depends on besides the state: answers of the database and of the file
      transfer, the session a scan in unspecified order found, the packet counter, and what lies
      behind local copies. */
  datatype Env = Env(friendNick: string, target: Option<Socket>, filePath: string, count: int, behind: Behind)

  const NO_ENV := Env("", None, "", 0, Behind("", ""))

  ghost predicate Picks(users: map<Socket, Session>, nick: string, target: Option<Socket>) {
    match target
    case None => forall x :: x in users ==> users[x].ReadName() != nick
    case Some(x) => x in users && users[x].ReadName() == nick
  }

  /** Nothing but at most one more entry in the send queue. */
  ghost predicate OnlyQueues(s: State, r: State) {
    r == s || (|r.queue| > |s.queue| && r == Push(s, r.queue[|s.queue|]))
  }

  // ---- sending ----

  function Push(s: State, e: SendData): State {
    s.(queue := s.queue + [e], enqueued := s.enqueued + [e])
  }

  function Reply(s: State, sock: Socket, msg: Notice, status: ClientStatus): State {
    Push(s, SendMe(msg, sock, status))
  }

  function ToAll(list: seq<Socket>, msg: Notice, status: ClientStatus): seq<Delivery> {
    seq(|list|, i requires 0 <= i < |list| => Delivery(msg, list[i], status))
  }

  /** The goodbye goes out at once, to everybody still listed, the leaver included. */
  function SayGoodbye(s: State, sock: Socket, name: string): State
    requires sock in s.tables.users && s.tables.users[sock].ReadRoom() in s.tables.rooms
  {
    s.(wire := s.wire + ToAll(s.tables.rooms[s.tables.users[sock].ReadRoom()], Left(name), CHATTING))
  }

  function SendSwap(s: State): State
    requires s.local == []
  {
    s.(local := s.queue, queue := [])
  }

  function SendOne(s: State): State
    requires s.local != []
  {
    var e := s.local[0];
    var sent := match e
      case SendMe(msg, to, status) => [Delivery(msg, to, status)]
      case SendRoom(msg, room, status) =>
        if room in s.tables.rooms then ToAll(s.tables.rooms[room], msg, status) else []
      case SendFile(_, _, _) => [];
    s.(local := s.local[1..], handled := s.handled + [e], wire := s.wire + sent)
  }

  function SendAll(s: State): State
    decreases |s.local|
  {
    if s.local == [] then s else SendAll(SendOne(s))
  }

  /** The sender is done with exactly what it took, in order, and changes nothing else. */
  lemma {:induction false} SendAllHandles(s: State)
    ensures var r := SendAll(s);
            && r.handled == s.handled + s.local && r.local == []
            && r.queue == s.queue && r.enqueued == s.enqueued && s.wire <= r.wire
            && r.tables == s.tables && r.accounts == s.accounts && r.live == s.live
    decreases |s.local|
  {
    if s.local != [] {
      SendAllHandles(SendOne(s));
      assert s.local == [s.local[0]] + s.local[1..];
      assert s.handled + s.local == (s.handled + [s.local[0]]) + s.local[1..];
      assert s.wire <= SendOne(s).wire;
    } else {
      assert s.handled + [] == s.handled;
    }
  }

  // ---- handlers ----

  function UserMake(s: State, sock: Socket, msg: string): State {
    var args := J.Tokens(msg);
    if |args| < 3 then s
    else if AccountOf(args[0]) in s.accounts then Reply(s, sock, DuplicateId, LOGOUT)
    else
      var made := s.accounts[AccountOf(args[0]) := Account(args[1], args[2])];
      Reply(s.(accounts := made), sock, AccountMade(args[0]), LOGOUT)
  }

  function UserEnter(s: State, sock: Socket, msg: string): State {
    var args := J.Tokens(msg);
    if |args| < 2 then s
    else if AccountOf(args[0]) !in s.accounts then Reply(s, sock, NoSuchAccount, LOGOUT)
    else
      var account := s.accounts[AccountOf(args[0])];
      if account.password != args[1] then Reply(s, sock, WrongPassword, LOGOUT)
      else if args[0] in s.tables.ids then Reply(s, sock, DuplicateLogin, LOGOUT)
      else
        var entered := Login(s.tables, sock, args[0], account.nickName);
        Reply(s.(tables := entered), sock, Welcome(account.nickName), WAITING)
  }

  function RoomMake(s: State, sock: Socket, msg: string): State
    requires sock in s.tables.users
  {
    if msg in s.tables.rooms then Reply(s, sock, RoomExists(msg), WAITING)
    else Reply(s.(tables := OpenRoom(s.tables, sock, msg)), sock, RoomMade(msg), CHATTING)
  }

  function RoomEnter(s: State, sock: Socket, msg: string): State
    requires sock in s.tables.users
  {
    if msg !in s.tables.rooms then Reply(s, sock, NoSuchRoom(msg), WAITING)
    else
      var joined := JoinRoom(s.tables, sock, msg);
      Push(s.(tables := joined), SendRoom(Joined(s.tables.users[sock].ReadName()), msg, CHATTING))
  }

  function Whisper(s: State, sock: Socket, msg: string, target: Option<Socket>): (r: State)
    requires sock in s.tables.users
    ensures OnlyQueues(s, r)
  {
    var args := J.Tokens(msg);
    var name := s.tables.users[sock].ReadName();
    if |args| < 2 then s
    else if args[0] == name then Reply(s, sock, WhisperToSelf, WAITING)
    else match target
      case Some(other) => Reply(s, other, Whispered(name, args[1]), ChatTables.WHISPER)
      case None => Reply(s, sock, NobodyNamed(args[0]), WAITING)
  }

  function RoomInfo(s: State, sock: Socket): (r: State)
    ensures OnlyQueues(s, r)
  {
    var rooms := s.tables.rooms;
    Reply(s, sock, if rooms == map[] then NoRooms else RoomSizes(map r | r in rooms :: |rooms[r]|), WAITING)
  }

  /** Before following a friend into a room its handler locks the list of the room that is named
      like `msg`, the name the friend was asked for by, and looks that up unchecked. It is there
      whichever session of the friend's nickname the scan finds. */
  ghost predicate FollowsSafely(t: Tables, direction: int, msg: string, friendNick: string) {
    direction == J.FRIEND_GO && friendNick != "" ==>
      msg in t.rooms
      || forall x :: x in t.users && t.users[x].ReadName() == friendNick ==>
           t.users[x].roomName == "" || t.users[x].ReadRoom() !in t.rooms
  }

  function FriendGo(s: State, sock: Socket, msg: string, friendNick: string, target: Option<Socket>): State
    requires sock in s.tables.users && (target.Some? ==> target.value in s.tables.users)
  {
    if friendNick == "" then Reply(s, sock, FriendUnknown, WAITING)
    else match target
      case None => Reply(s, sock, FriendOffline(msg), WAITING)
      case Some(friend) =>
        var room := s.tables.users[friend].ReadRoom();
        if s.tables.users[friend].roomName == "" then Reply(s, sock, FriendInLobby(msg), WAITING)
        else if room !in s.tables.rooms then s
        else
          var joined := JoinRoom(s.tables, sock, room);
          Push(s.(tables := joined), SendRoom(Joined(joined.users[sock].ReadName()), room, CHATTING))
  }

  function LogOut(s: State, sock: Socket): State
    requires sock in s.tables.users
  {
    Reply(s.(tables := Logout(s.tables, sock)), sock, LoggedOut, LOGOUT)
  }

  function Out(s: State, sock: Socket): State
    requires sock in s.tables.users && s.tables.users[sock].ReadRoom() in s.tables.rooms
  {
    var told := SayGoodbye(s, sock, s.tables.users[sock].ReadName());
    Reply(told.(tables := LeaveRoom(s.tables, sock)), sock, Menu, WAITING)
  }

  // ---- dispatch ----

  function GetStatus(t: Tables, sock: Socket): ClientStatus {
    if sock in t.users then t.users[sock].status else LOGOUT
  }

  /** The slots of the command table that hold a handler. */
  const FILLED: set<int> := {1, 2, 3, 4, 6, 7, 8, 9, 10, 11, 12}

  function Command(s: State, sock: Socket, direction: int, msg: string, env: Env): (r: State)
    requires direction in FILLED && (direction > J.USER_ENTER ==> sock in s.tables.users)
    requires env.target.Some? ==> env.target.value in s.tables.users
    ensures r.live == s.live && r.local == s.local
  {
    if direction == J.USER_MAKE then UserMake(s, sock, msg)
    else if direction == J.USER_ENTER then UserEnter(s, sock, msg)
    else if direction == J.ROOM_MAKE then RoomMake(s, sock, msg)
    else if direction == J.ROOM_ENTER then RoomEnter(s, sock, msg)
    else if direction == J.WHISPER then Whisper(s, sock, msg, env.target)
    else if direction == J.ROOM_INFO then RoomInfo(s, sock)
    else if direction == J.ROOM_USER_INFO then Reply(s, sock, UserList, WAITING)
    else if direction == J.FRIEND_GO then FriendGo(s, sock, msg, env.friendNick, env.target)
    else Reply(s, sock, FriendAnswer, WAITING)
  }

  function StatusLogout(s: State, sock: Socket, direction: int, msg: string): (r: State)
    ensures r.live == s.live && r.local == s.local
  {
    if direction == J.USER_MAKE || direction == J.USER_ENTER then Command(s, sock, direction, msg, NO_ENV)
    else if direction == J.EXIT then s
    else Reply(s, sock, BadCommand, LOGOUT)
  }

  function StatusWait(s: State, sock: Socket, direction: int, msg: string, env: Env): (r: State)
    requires sock in s.tables.users && (env.target.Some? ==> env.target.value in s.tables.users)
    ensures r.live == s.live && r.local == s.local
  {
    if direction == -1 || direction == J.USER_GOOD_INFO then s
    else if direction in FILLED && direction > J.USER_ENTER then Command(s, sock, direction, msg, env)
    else if direction == J.LOG_OUT then LogOut(s, sock)
    else Reply(s, sock, BadCommand, WAITING)
  }

  function StatusChat(s: State, sock: Socket, direction: int, msg: string, env: Env): (r: State)
    requires sock in s.tables.users && s.tables.users[sock].ReadRoom() in s.tables.rooms
    ensures r.live == s.live && r.local == s.local
  {
    var me := s.tables.users[sock];
    if msg == "\\out" then Out(s, sock)
    else if J.Contains(msg, "\\add") || direction == J.USER_GOOD then s
    else if direction == J.FILE_SEND then
      var announced := Push(s, SendRoom(FileComing, me.ReadRoom(), ChatTables.FILE_SEND));
      Push(announced, SendFile(env.filePath, me.ReadRoom(), ChatTables.FILE_SEND))
    else Push(s, SendRoom(Chat(me.ReadName(), msg), me.ReadRoom(), CHATTING))
  }

  /** Three slots of the handler table are filled, and every unchecked lookup finds its entry. */
  ghost predicate Dispatchable(t: Tables, sock: Socket) {
    && Slot(GetStatus(t, sock)) in {1, 2, 3}
    && (GetStatus(t, sock) != LOGOUT ==> sock in t.users)
    && (GetStatus(t, sock) == CHATTING ==> t.users[sock].ReadRoom() in t.rooms)
  }

  function Dispatch(s: State, sock: Socket, direction: int, msg: string, env: Env): (r: State)
    requires Dispatchable(s.tables, sock) && (env.target.Some? ==> env.target.value in s.tables.users)
    ensures r.live == s.live && r.local == s.local
  {
    match GetStatus(s.tables, sock)
    case LOGOUT => StatusLogout(s, sock, direction, msg)
    case WAITING => StatusWait(s, sock, direction, msg, env)
    case CHATTING => StatusChat(s, sock, direction, msg, env)
  }

  // ---- bans and disconnects ----

  ghost predicate Closable(t: Tables, sock: Socket) {
    sock in t.users && (t.users[sock].status == CHATTING ==> t.users[sock].ReadRoom() in t.rooms)
  }

  function Close(s: State, sock: Socket, behind: Behind): State
    requires Closable(s.tables, sock)
  {
    var me := s.tables.users[sock];
    var told := if me.status == CHATTING then SayGoodbye(s, sock, ReadOn(me.userName, behind.name)) else s;
    told.(tables := Teardown(s.tables, sock, behind.id))
  }

  function BanUser(s: State, target: Option<Socket>, behind: Behind): (r: State)
    requires target.Some? ==> Closable(s.tables, target.value)
    ensures r.live == s.live && r.local == s.local
  {
    match target
    case None => s
    case Some(sock) => Reply(Close(s, sock, behind), sock, Banned, LOGOUT)
  }

  function ClientExit(s: State, sock: Socket, closed: bool, behind: Behind): State
    requires sock in s.tables.users ==> Closable(s.tables, sock)
  {
    if !closed then s
    else
      var gone := s.(live := s.live - {sock});
      if sock in s.tables.users then Close(gone, sock, behind) else gone
  }

  // ---- runs ----

  datatype Event =
    | Accept(sock: Socket, addr: string)
    | Work(job: JobData, env: Env)
    | Disconnect(sock: Socket, closed: bool, behind: Behind)
    | SenderSwaps
    | SenderSends

  function WorkJob(s: State, job: JobData, env: Env): (r: State)
    requires job.socket in s.live ==> Dispatchable(s.tables, job.socket)
    requires env.target.Some? ==> Closable(s.tables, env.target.value)
    ensures r.live == s.live && r.local == s.local
  {
    if job.socket !in s.live then s
    else if job.direction == J.CALLCOUNT then Reply(s, job.socket, Counts(env.count, |s.tables.users|), INIT)
    else if job.direction == J.BAN then BanUser(s, env.target, env.behind)
    else Dispatch(s, job.socket, job.direction, job.msg, env)
  }

  /** The name a lobby command looks for among the sessions, if it does. */
  function CommandSought(s: State, sock: Socket, direction: int, msg: string, friendNick: string): Option<string> {
    var args := J.Tokens(msg);
    if direction == J.FRIEND_GO && friendNick != "" then Some(friendNick)
    else if direction == J.WHISPER && |args| >= 2
         && sock in s.tables.users && args[0] != s.tables.users[sock].ReadName() then Some(args[0])
    else None
  }

  /** The name a job makes its handler look for among the sessions, if it does. */
  function Sought(s: State, job: JobData, friendNick: string): Option<string> {
    if job.socket !in s.live || job.direction == J.CALLCOUNT then None
    else if job.direction == J.BAN then Some(J.BanName(job))
    else if GetStatus(s.tables, job.socket) != WAITING then None
    else CommandSought(s, job.socket, job.direction, job.msg, friendNick)
  }

  ghost predicate FoundAsSought(s: State, job: JobData, env: Env) {
    match Sought(s, job, env.friendNick)
    case Some(nick) => Picks(s.tables.users, nick, env.target)
    case None => env.target == None
  }

  /** Names that a handler would store fit their fields, its terminator included. */
  predicate NamesFit(job: JobData) {
    var args := J.Tokens(job.msg);
    && (job.direction == J.ROOM_MAKE ==> Fits(job.msg))
    && (job.direction == J.USER_ENTER && args != [] ==> Fits(args[0]))
    && (job.direction == J.USER_MAKE && |args| >= 3 ==> Fits(args[2]))
  }

  /** A live socket without a session asks the server to exit, or one in the lobby wants to follow
      a friend whose room has another name; a run stops short of that. */
  ghost predicate EndsProcess(s: State, job: JobData, friendNick: string) {
    job.socket in s.live &&
    match GetStatus(s.tables, job.socket)
    case LOGOUT => job.direction == J.EXIT
    case WAITING => !FollowsSafely(s.tables, job.direction, job.msg, friendNick)
    case _ => false
  }

  ghost predicate Enabled(s: State, e: Event) {
    match e
    case Accept(_, _) => true
    case Work(job, env) => NamesFit(job) && !EndsProcess(s, job, env.friendNick) && FoundAsSought(s, job, env)
    case Disconnect(_, _, _) => true
    case SenderSwaps => s.local == [] && s.queue != []
    case SenderSends => s.local != []
  }
}
