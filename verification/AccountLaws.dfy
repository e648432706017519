/** Making accounts and logging in: what is answered, where sessions and accounts come from, and how
    many sessions one account can have. The guard against double logins compares whole ids, the
    database the first ACCOUNT_SIZE characters of them. */
module AccountLaws {
  import opened Answers
  import opened ChatTables
  import opened ChatSpec
  import opened ChatProofs
  import opened Deliveries
  import J = Jobs

  ghost predicate OneEachAccount(t: Tables) {
    forall x, y :: x in t.users && y in t.users ==>
      (AccountOf(t.users[x].ReadId()) == AccountOf(t.users[y].ReadId()) ==> x == y)
  }

  // ---- one login ----

  /** Whether the message logs `sock` in. */
  predicate LogsIn(s: State, sock: Socket, msg: string) {
    var args := J.Tokens(msg);
    && sock !in s.tables.users && |args| >= 2 && AccountOf(args[0]) in s.accounts
    && s.accounts[AccountOf(args[0])].password == args[1] && args[0] !in s.tables.ids
  }

  /** A job of a live socket without session. */
  ghost predicate FromOutside(s: State, job: JobData, env: Env) {
    Inv(s) && Enabled(s, Work(job, env)) && job.socket in s.live && job.socket !in s.tables.users
  }

  /** The job gives its socket a session, with the id and the account's nickname, exactly if it
      names an account, its password and an id that is not logged in; otherwise the tables stay. */
  lemma EnterDecided(s: State, job: JobData, env: Env)
    requires FromOutside(s, job, env) && job.direction == J.USER_ENTER
    ensures var r, sock, args := Step(s, Work(job, env)), job.socket, J.Tokens(job.msg);
            && (sock in r.tables.users <==>
                 && |args| >= 2 && AccountOf(args[0]) in s.accounts
                 && s.accounts[AccountOf(args[0])].password == args[1] && args[0] !in s.tables.ids)
            && (sock !in r.tables.users ==> r.tables == s.tables)
            && (sock in r.tables.users ==>
                 && r.tables.users == s.tables.users[sock :=
                      Session(s.accounts[AccountOf(args[0])].nickName, "", args[0], WAITING)]
                 && r.tables.ids == s.tables.ids + {args[0]} && r.tables.rooms == s.tables.rooms)
            && r.accounts == s.accounts
  {
    OutsideStep(s, job, env);
  }

  /** Whoever tries to log in is told why not, or welcomed by name. */
  lemma EnterAnswered(s: State, job: JobData, env: Env)
    requires FromOutside(s, job, env) && Quiet(s) && job.direction == J.USER_ENTER
    ensures var r, sock, args := Finished(s, job, env), job.socket, J.Tokens(job.msg);
            && (|args| < 2 ==> r.wire == s.wire)
            && (|args| >= 2 ==>
                 var account := AccountOf(args[0]);
                 if account !in s.accounts then OnlyTold(s, r, sock, NoSuchAccount, LOGOUT)
                 else if s.accounts[account].password != args[1] then OnlyTold(s, r, sock, WrongPassword, LOGOUT)
                 else if args[0] in s.tables.ids then OnlyTold(s, r, sock, DuplicateLogin, LOGOUT)
                 else OnlyTold(s, r, sock, Welcome(s.accounts[account].nickName), WAITING))
  {
    OutsideStep(s, job, env);
    var args, sock := J.Tokens(job.msg), job.socket;
    if |args| < 2 {
      NothingQueued(s, job, env);
    } else if AccountOf(args[0]) !in s.accounts {
      OneTold(s, job, env, NoSuchAccount, sock, LOGOUT);
    } else if s.accounts[AccountOf(args[0])].password != args[1] {
      OneTold(s, job, env, WrongPassword, sock, LOGOUT);
    } else if args[0] in s.tables.ids {
      OneTold(s, job, env, DuplicateLogin, sock, LOGOUT);
    } else {
      OneTold(s, job, env, Welcome(s.accounts[AccountOf(args[0])].nickName), sock, WAITING);
    }
  }

  /** What else a socket without session sends is refused and changes nothing. */
  lemma OutsiderRefused(s: State, job: JobData, env: Env)
    requires FromOutside(s, job, env) && Quiet(s) && IsCommand(job.direction)
    requires job.direction !in {J.USER_MAKE, J.USER_ENTER}
    ensures var r := Finished(s, job, env);
            r.tables == s.tables && r.accounts == s.accounts && OnlyTold(s, r, job.socket, BadCommand, LOGOUT)
  {
    OutsideStep(s, job, env);
    OneTold(s, job, env, BadCommand, job.socket, LOGOUT);
  }

  // ---- where sessions come from ----

  /** The event is a job that logs its own socket in with the right password. */
  predicate IsLogin(s: State, e: Event, x: Socket) {
    e.Work? && e.job.socket == x && x in s.live && e.job.direction == J.USER_ENTER && LogsIn(s, x, e.job.msg)
  }

  lemma SessionsKeyed(s: State, sock: Socket, direction: int, msg: string, env: Env)
    requires Inv(s) && (env.target.Some? ==> env.target.value in s.tables.users) && sock in s.tables.users
    ensures Dispatchable(s.tables, sock)
    ensures Dispatch(s, sock, direction, msg, env).tables.users.Keys <= s.tables.users.Keys
  {
    LookupsFind(s.tables, sock);
  }

  lemma NoCommandAppears(s: State, job: JobData, env: Env)
    requires Inv(s) && Enabled(s, Work(job, env)) && (job.socket in s.live ==> !IsCommand(job.direction))
    ensures Step(s, Work(job, env)).tables.users.Keys <= s.tables.users.Keys
  {
    WorkKeeps(s, job, env);
  }

  lemma CommandAppears(s: State, job: JobData, env: Env, x: Socket)
    requires Inv(s) && Enabled(s, Work(job, env)) && job.socket in s.live && IsCommand(job.direction)
    requires x !in s.tables.users
    ensures x in Step(s, Work(job, env)).tables.users <==> IsLogin(s, Work(job, env), x)
  {
    if job.socket in s.tables.users {
      WorkKeeps(s, job, env);
      SessionsKeyed(s, job.socket, job.direction, job.msg, env);
    } else {
      OutsideStep(s, job, env);
    }
  }

  /** A session appears by a login, and by nothing else. */
  lemma SessionsAppear(s: State, e: Event, x: Socket)
    requires Inv(s) && Enabled(s, e) && x !in s.tables.users
    ensures x in Step(s, e).tables.users <==> IsLogin(s, e, x)
  {
    match e
    case Work(job, env) =>
      if job.socket in s.live && IsCommand(job.direction) {
        CommandAppears(s, job, env, x);
      } else {
        NoCommandAppears(s, job, env);
      }
    case Disconnect(sock, closed, behind) => ExitKeeps(s, sock, closed, behind);
    case _ =>
  }

  /** Some event of the run from `s` is a login of `x`, in the state that it is met in. */
  ghost predicate LogsInDuring(s: State, es: seq<Event>, x: Socket)
    requires Inv(s) && EnabledAll(s, es)
    decreases es
  {
    es != [] && (IsLogin(s, es[0], x) || LogsInDuring(Step(s, es[0]), es[1..], x))
  }

  /** Nobody has a session after a run who has not logged in during it with the right password. */
  lemma {:induction false} SessionsCameByLogin(s: State, es: seq<Event>, x: Socket)
    requires Inv(s) && EnabledAll(s, es) && x !in s.tables.users && x in Run(s, es).tables.users
    ensures LogsInDuring(s, es, x)
    decreases es
  {
    if es == [] {
      assert false;
    } else {
      SessionsAppear(s, es[0], x);
      if !IsLogin(s, es[0], x) {
        SessionsCameByLogin(Step(s, es[0]), es[1..], x);
      }
    }
  }

  // ---- accounts ----

  /** Asking for an account: made as asked for if the id is free, and otherwise nothing changes. */
  lemma MakeAnswered(s: State, job: JobData, env: Env)
    requires FromOutside(s, job, env) && Quiet(s) && job.direction == J.USER_MAKE
    ensures var r, sock, args := Finished(s, job, env), job.socket, J.Tokens(job.msg);
            && r.tables == s.tables
            && (|args| < 3 ==> r.accounts == s.accounts && r.wire == s.wire)
            && (|args| >= 3 && AccountOf(args[0]) in s.accounts ==>
                 r.accounts == s.accounts && OnlyTold(s, r, sock, DuplicateId, LOGOUT))
            && (|args| >= 3 && AccountOf(args[0]) !in s.accounts ==>
                 && r.accounts.Keys == s.accounts.Keys + {AccountOf(args[0])}
                 && r.accounts[AccountOf(args[0])] == Account(args[1], args[2])
                 && (forall a <- s.accounts :: r.accounts[a] == s.accounts[a])
                 && OnlyTold(s, r, sock, AccountMade(args[0]), LOGOUT))
  {
    OutsideStep(s, job, env);
    var args, sock := J.Tokens(job.msg), job.socket;
    if |args| < 3 {
      NothingQueued(s, job, env);
    } else if AccountOf(args[0]) in s.accounts {
      OneTold(s, job, env, DuplicateId, sock, LOGOUT);
    } else {
      OneTold(s, job, env, AccountMade(args[0]), sock, LOGOUT);
    }
  }

  lemma InsideKeepsAccounts(s: State, sock: Socket, direction: int, msg: string, env: Env)
    requires Inv(s) && (env.target.Some? ==> env.target.value in s.tables.users) && sock in s.tables.users
    ensures Dispatchable(s.tables, sock)
    ensures Dispatch(s, sock, direction, msg, env).accounts == s.accounts
  {
    LookupsFind(s.tables, sock);
  }

  /** An account that exists keeps its password and its nickname in every step, and one appears only
      when a live socket without session asks for it. */
  lemma AccountsStay(s: State, e: Event)
    requires Inv(s) && Enabled(s, e)
    ensures forall a <- s.accounts :: a in Step(s, e).accounts && Step(s, e).accounts[a] == s.accounts[a]
    ensures forall a <- Step(s, e).accounts :: a in s.accounts ||
              (&& e.Work? && e.job.direction == J.USER_MAKE && e.job.socket in s.live && e.job.socket !in s.tables.users
               && var args := J.Tokens(e.job.msg);
                  |args| >= 3 && a == AccountOf(args[0]) && Step(s, e).accounts[a] == Account(args[1], args[2]))
  {
    match e
    case Work(job, env) =>
      WorkKeeps(s, job, env);
      if job.socket in s.live && IsCommand(job.direction) {
        if job.socket in s.tables.users {
          InsideKeepsAccounts(s, job.socket, job.direction, job.msg, env);
        } else {
          OutsideStep(s, job, env);
        }
      }
    case Disconnect(sock, closed, behind) => ExitKeeps(s, sock, closed, behind);
    case _ =>
  }

  lemma {:induction false} AccountsStayInRuns(s: State, es: seq<Event>)
    requires Inv(s) && EnabledAll(s, es)
    ensures forall a <- s.accounts :: a in Run(s, es).accounts && Run(s, es).accounts[a] == s.accounts[a]
    decreases es
  {
    if es == [] {
    } else {
      AccountsStay(s, es[0]);
      AccountsStayInRuns(Step(s, es[0]), es[1..]);
    }
  }

  /** An account that was just made can be used: its maker logs in with the id and the password it
      asked for and gets a session with the nickname it asked for. */
  lemma MakeThenEnter(s: State, make: JobData, enter: JobData, e: Env, f: Env)
    requires FromOutside(s, make, e) && make.direction == J.USER_MAKE
    requires enter.direction == J.USER_ENTER && enter.socket == make.socket && NamesFit(enter) && f.target == None
    requires var args, again := J.Tokens(make.msg), J.Tokens(enter.msg);
             && |args| >= 3 && AccountOf(args[0]) !in s.accounts && args[0] !in s.tables.ids
             && |again| >= 2 && again[0] == args[0] && again[1] == args[1]
    ensures var made := Step(s, Work(make, e));
            && Enabled(made, Work(enter, f))
            && var r, args := Step(made, Work(enter, f)), J.Tokens(make.msg);
               && make.socket in r.tables.users
               && r.tables.users[make.socket] == Session(args[2], "", args[0], WAITING)
  {
    OutsideStep(s, make, e);
    var made := Step(s, Work(make, e));
    assert made.tables == s.tables && made.live == s.live;
    assert Sought(made, enter, f.friendNick) == None;
    EnterDecided(made, enter, f);
  }

  // ---- one session for each account ----

  /** A login that the guard lets through leaves each account with one session exactly if the
      guard would have let it through comparing accounts. */
  lemma LoginIsSecond(s: State, sock: Socket, msg: string)
    requires Inv(s) && OneEachAccount(s.tables) && LogsIn(s, sock, msg) && Fits(J.Tokens(msg)[0])
    ensures OneEachAccount(UserEnter(s, sock, msg).tables)
       <==> forall id <- s.tables.ids :: AccountOf(id) != AccountOf(J.Tokens(msg)[0])
  {
    var id := J.Tokens(msg)[0];
    var t, u := s.tables, UserEnter(s, sock, msg).tables;
    assert u.users == t.users[sock := u.users[sock]] && u.users[sock].ReadId() == id;
    if k :| k in t.ids && AccountOf(k) == AccountOf(id) {
      var x :| x in t.users && t.users[x].ReadId() == k;
      assert u.users[x].ReadId() == k && x != sock;
    } else {
      assert forall x :: x in t.users ==> t.users[x].ReadId() in t.ids;
    }
  }

  // ---- runs ----

  predicate EntersWithin(e: Event, n: nat) {
    e.Work? && e.job.direction == J.USER_ENTER && J.Tokens(e.job.msg) != [] ==> |J.Tokens(e.job.msg)[0]| <= n
  }

  /** The ids used for logins have at most `n` characters. */
  predicate IdsWithin(es: seq<Event>, n: nat) {
    forall e <- es :: EntersWithin(e, n)
  }

  predicate AllWithin(t: Tables, n: nat) {
    forall id <- t.ids :: |id| <= n
  }

  lemma LogoutStateIds(s: State, sock: Socket, direction: int, msg: string, n: nat)
    requires AllWithin(s.tables, n)
    requires direction == J.USER_ENTER && J.Tokens(msg) != [] ==> |J.Tokens(msg)[0]| <= n
    ensures AllWithin(StatusLogout(s, sock, direction, msg).tables, n)
  {
    var t, u := s.tables, StatusLogout(s, sock, direction, msg).tables;
    assert u.ids == t.ids || (direction == J.USER_ENTER && J.Tokens(msg) != [] && u.ids == t.ids + {J.Tokens(msg)[0]});
  }

  lemma WaitStateIds(s: State, sock: Socket, direction: int, msg: string, env: Env, n: nat)
    requires sock in s.tables.users && (env.target.Some? ==> env.target.value in s.tables.users)
    requires AllWithin(s.tables, n)
    ensures AllWithin(StatusWait(s, sock, direction, msg, env).tables, n)
  {
    assert StatusWait(s, sock, direction, msg, env).tables.ids <= s.tables.ids;
  }

  lemma DispatchIds(s: State, sock: Socket, direction: int, msg: string, env: Env, n: nat)
    requires Inv(s) && (env.target.Some? ==> env.target.value in s.tables.users)
    requires AllWithin(s.tables, n)
    requires direction == J.USER_ENTER && J.Tokens(msg) != [] ==> |J.Tokens(msg)[0]| <= n
    ensures Dispatchable(s.tables, sock)
    ensures AllWithin(Dispatch(s, sock, direction, msg, env).tables, n)
  {
    LookupsFind(s.tables, sock);
    match GetStatus(s.tables, sock)
    case LOGOUT => LogoutStateIds(s, sock, direction, msg, n);
    case WAITING => WaitStateIds(s, sock, direction, msg, env, n);
    case CHATTING => assert Dispatch(s, sock, direction, msg, env).tables.ids == s.tables.ids;
  }

  lemma StepIds(s: State, e: Event, n: nat)
    requires Inv(s) && Enabled(s, e) && AllWithin(s.tables, n) && EntersWithin(e, n)
    ensures AllWithin(Step(s, e).tables, n)
  {
    match e
    case Work(job, env) =>
      WorkKeeps(s, job, env);
      if job.socket in s.live && job.direction != J.CALLCOUNT && job.direction != J.BAN {
        DispatchIds(s, job.socket, job.direction, job.msg, env, n);
      }
    case Disconnect(sock, closed, behind) => ExitKeeps(s, sock, closed, behind);
    case _ =>
  }

  lemma {:induction false} RunIds(s: State, es: seq<Event>, n: nat)
    requires Inv(s) && EnabledAll(s, es) && AllWithin(s.tables, n) && IdsWithin(es, n)
    ensures AllWithin(Run(s, es).tables, n)
    decreases es
  {
    if es == [] {
    } else {
      StepIds(s, es[0], n);
      RunIds(Step(s, es[0]), es[1..], n);
    }
  }

  /** Short ids are their own accounts. */
  lemma ShortIdsOneEach(t: Tables)
    requires Agree(t) && AllWithin(t, ACCOUNT_SIZE)
    ensures OneEachAccount(t)
  {
    assert forall x :: x in t.users ==> t.users[x].ReadId() in t.ids;
  }

  /** A run whose logins use ids of at most `n` characters ends with two sessions of one account. */
  ghost predicate GuardFails(accounts: map<string, Account>, es: seq<Event>, n: nat) {
    && NicksFit(accounts) && EnabledAll(Start(accounts), es) && IdsWithin(es, n)
    && !OneEachAccount(Run(Start(accounts), es).tables)
  }

  ghost predicate GuardHolds(n: nat) {
    forall accounts, es :: !GuardFails(accounts, es, n)
  }

  // ---- two logins to one account ----

  /** An id that a message can carry and a session can hold. */
  predicate Usable(id: string) {
    id != "" && '\\' !in id && Fits(id)
  }

  function Enter(sock: Socket, id: string, password: string): Event {
    Work(J.JobData(sock, J.USER_ENTER, 0, id + "\\" + password), NO_ENV)
  }

  lemma EnterTokens(id: string, password: string)
    requires Usable(id) && Usable(password)
    ensures J.Tokens(id + "\\" + password) == [id, password]
  {
    J.TokensOfJoined(id, password);
    J.TokensOfJoined(password, "");
  }

  /** A live socket without session logs in. */
  lemma EnterSucceeds(s: State, sock: Socket, id: string, account: Account)
    requires Inv(s) && sock in s.live && sock !in s.tables.users && Usable(id) && Usable(account.password)
    requires AccountOf(id) in s.accounts && s.accounts[AccountOf(id)] == account && id !in s.tables.ids
    ensures var e := Enter(sock, id, account.password);
            && Enabled(s, e) && EntersWithin(e, |id|)
            && Step(s, e).tables == Login(s.tables, sock, id, account.nickName)
            && Step(s, e).live == s.live && Step(s, e).accounts == s.accounts
  {
    EnterTokens(id, account.password);
    var e := Enter(sock, id, account.password);
    assert NamesFit(e.job) && !EndsProcess(s, e.job, "") && Sought(s, e.job, "") == None;
    WorkKeeps(s, e.job, e.env);
  }

  lemma RunOn(s: State, e: Event, es: seq<Event>)
    requires Inv(s) && Enabled(s, e) && EnabledAll(Step(s, e), es)
    ensures EnabledAll(s, [e] + es) && Run(s, [e] + es) == Run(Step(s, e), es)
  {
    assert ([e] + es)[1..] == es;
  }

  /** With two sockets live, two ids of one account are logged in together. */
  lemma BothEnter(s: State, a: string, b: string, account: Account)
    requires Inv(s) && {1, 2} <= s.live.Keys && s.tables == NO_TABLES
    requires Usable(a) && Usable(b) && Usable(account.password) && a != b && AccountOf(a) == AccountOf(b)
    requires AccountOf(a) in s.accounts && s.accounts[AccountOf(a)] == account
    ensures var es := [Enter(1, a, account.password)] + ([Enter(2, b, account.password)] + []);
            EnabledAll(s, es) && !OneEachAccount(Run(s, es).tables)
    ensures EntersWithin(Enter(1, a, account.password), |a|) && EntersWithin(Enter(2, b, account.password), |b|)
  {
    var d, e := Enter(1, a, account.password), Enter(2, b, account.password);
    EnterSucceeds(s, 1, a, account);
    var s1 := Step(s, d);
    EnterSucceeds(s1, 2, b, account);
    RunOn(s1, e, []);
    RunOn(s, d, [e] + []);
    var t := Step(s1, e).tables;
    assert t.users[1].ReadId() == a && t.users[2].ReadId() == b;
  }

  function TwoLive(accounts: map<string, Account>): (s: State)
    requires NicksFit(accounts)
    ensures Inv(s) && {1, 2} <= s.live.Keys && s.tables == NO_TABLES && s.accounts == accounts
  {
    Step(Step(Start(accounts), Accept(1, "")), Accept(2, ""))
  }

  lemma TwoAccepted(accounts: map<string, Account>, es: seq<Event>)
    requires NicksFit(accounts) && EnabledAll(TwoLive(accounts), es)
    ensures var all := [Accept(1, "")] + ([Accept(2, "")] + es);
            EnabledAll(Start(accounts), all) && Run(Start(accounts), all) == Run(TwoLive(accounts), es)
  {
    var s0 := Start(accounts);
    RunOn(Step(s0, Accept(1, "")), Accept(2, ""), es);
    RunOn(s0, Accept(1, ""), [Accept(2, "")] + es);
  }

  lemma WithinOn(e: Event, es: seq<Event>, n: nat)
    requires EntersWithin(e, n) && IdsWithin(es, n)
    ensures IdsWithin([e] + es, n)
  {
  }

  lemma FailsAfterAccepts(accounts: map<string, Account>, es: seq<Event>, n: nat)
    requires NicksFit(accounts) && EnabledAll(TwoLive(accounts), es) && IdsWithin(es, n)
    requires !OneEachAccount(Run(TwoLive(accounts), es).tables)
    ensures !GuardHolds(n)
  {
    TwoAccepted(accounts, es);
    WithinOn(Accept(2, ""), es, n);
    WithinOn(Accept(1, ""), [Accept(2, "")] + es, n);
    assert GuardFails(accounts, [Accept(1, "")] + ([Accept(2, "")] + es), n);
  }

  /** So no limit that admits both ids keeps the guard. */
  lemma TwoLoginsRun(a: string, b: string, account: Account, n: nat)
    requires Usable(a) && Usable(b) && a != b && AccountOf(a) == AccountOf(b) && |a| <= n && |b| <= n
    requires Usable(account.password) && Fits(account.nickName)
    ensures !GuardHolds(n)
  {
    var accounts := map[AccountOf(a) := account];
    var d, e := Enter(1, a, account.password), Enter(2, b, account.password);
    BothEnter(TwoLive(accounts), a, b, account);
    WithinOn(e, [], n);
    WithinOn(d, [e] + [], n);
    FailsAfterAccepts(accounts, [d] + ([e] + []), n);
  }

  /** No account ever has two sessions, whatever the run, exactly if ids are limited to the length
      that the database looks at. */
  lemma GuardHoldsIff(n: nat)
    ensures GuardHolds(n) <==> n <= ACCOUNT_SIZE
  {
    if n <= ACCOUNT_SIZE {
      forall accounts, es ensures !GuardFails(accounts, es, n) {
        if NicksFit(accounts) && EnabledAll(Start(accounts), es) && IdsWithin(es, n) {
          assert IdsWithin(es, ACCOUNT_SIZE);
          RunKeeps(Start(accounts), es);
          RunIds(Start(accounts), es, ACCOUNT_SIZE);
          ShortIdsOneEach(Run(Start(accounts), es).tables);
        }
      }
    } else {
      TwoLoginsRun("abcdefghij", "abcdefghijk", Account("pw", "nick"), n);
    }
  }
}
