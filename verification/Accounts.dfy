/**
 * Users, sessions and password-reset tokens, with the limiter's store: what each auth handler
 * does, and the machine that runs whole requests one after the other.
 */
module Accounts {
  import opened Wrappers
  import opened RateLimiter

  type UserId = nat

  /** Free constructors stand for SHA-256 and argon2: hashes are equal only for equal inputs. */
  datatype TokenHash = Sha256(token: string)
  datatype PasswordHash = Argon2(password: string)

  datatype UserRow = UserRow(email: string, displayName: string, password: Option<PasswordHash>, googleSub: Option<string>)
  datatype SessionRow = SessionRow(user: UserId, expiresAt: Time)
  datatype ResetRow = ResetRow(user: UserId, expiresAt: Time, usedAt: Option<Time>)

  /** users by id; sessions and resets by their unique token hash; failures is the limiter's store. */
  datatype Db = Db(
    users: map<UserId, UserRow>,
    sessions: map<TokenHash, SessionRow>,
    resets: map<TokenHash, ResetRow>,
    failures: Store)

  datatype RawConfig = RawConfig(limits: Limits, sessionTtlDays: nat)
  type Config = c: RawConfig | 1 <= c.sessionTtlDays <= 365 witness RawConfig(RawLimits(10, 900), 7)

  const RESET_TTL: int := 3600 * TICKS_PER_SECOND

  function SessionTtl(config: Config): int {
    config.sessionTtlDays * 86400 * TICKS_PER_SECOND
  }

  /** Ids, tokens and clock readings are parameters of the requests that draw them. */
  datatype Event =
    | Register(email: string, password: string, id: UserId, token: string, now: Time)
    | Login(email: string, password: string, ip: Ip, token: string, now: Time)
    | Logout(cookie: Option<string>)
    | SessionInfo(cookie: Option<string>, now: Time)
    | ResetRequest(email: string, token: string, now: Time)
    | ResetValidate(token: string, now: Time)
    | ResetComplete(token: string, newPassword: string, now: Time)
    | OAuthCallback(sub: string, email: string, name: Option<string>, id: UserId, token: string, now: Time)

  datatype How = Created | Linked | Existing

  /** The answer, with the user id the source's log line carries. NoSession: 500 after the first commit. */
  datatype Answer =
    | Registered(user: UserId) | DuplicateEmail | RegisteredNoSession(user: UserId)
    | LoggedIn(user: UserId) | LoggedInNoSession(user: UserId) | BadCredentials401 | LockedOut429(retryAfter: nat)
    | LoggedOut | CurrentUser(user: UserId) | Unauthenticated401
    | ResetMailed(user: UserId) | ResetIgnored | TokenValid | TokenInvalid400 | ResetDone(user: UserId)
    | SignedIn(how: How, user: UserId) | SignedInNoSession(how: How, user: UserId) | OAuthRejected
    | ServerError500

  datatype Outcome = Outcome(db: Db, answer: Answer)

  // ------------------------------------------------------------------ queries

  /** scalar_one_or_none: no row, the row, or an exception for several. */
  datatype Match = NoRow | OneRow(user: UserId) | ManyRows

  ghost function ScalarOneOrNone(rows: set<UserId>): (m: Match)
    ensures m == NoRow <==> rows == {}
    ensures forall u: UserId :: m == OneRow(u) <==> rows == {u}
  {
    if rows == {} then NoRow
    else
      var u :| u in rows;
      if rows == {u} then OneRow(u) else ManyRows
  }

  function ByEmail(users: map<UserId, UserRow>, email: string): set<UserId> {
    set u | u in users && users[u].email == email
  }

  /** google_sub = :sub OR email = :email; a NULL google_sub equals nothing. */
  function BySubOrEmail(users: map<UserId, UserRow>, sub: string, email: string): set<UserId> {
    set u | u in users && (users[u].googleSub == Some(sub) || users[u].email == email)
  }

  function PasswordOf(db: Db, user: UserId): Option<PasswordHash> {
    if user in db.users then db.users[user].password else None
  }

  /** get_session_user: the unexpired session with this hash, joined with its user. */
  function Resolve(db: Db, token: string, now: Time): Option<UserId> {
    var h := Sha256(token);
    if h in db.sessions && db.sessions[h].expiresAt > now && db.sessions[h].user in db.users
    then Some(db.sessions[h].user) else None
  }

  /** The unexpired, unused reset token with this hash. */
  function LiveReset(db: Db, token: string, now: Time): Option<ResetRow> {
    var h := Sha256(token);
    if h in db.resets && db.resets[h].expiresAt > now && db.resets[h].usedAt.None? then Some(db.resets[h]) else None
  }

  /** The part of an address before its first at-sign. */
  function BeforeAt(email: string): (name: string)
    ensures name <= email && '@' !in name
    ensures name == email || email[|name|] == '@'
  {
    if email == "" || email[0] == '@' then "" else [email[0]] + BeforeAt(email[1..])
  }

  // ----------------------------------------------------------------- handlers

  /** create_session; None when the hash collides with a stored one. */
  function OpenSession(db: Db, user: UserId, token: string, now: Time, config: Config): Option<Db> {
    var h := Sha256(token);
    if h in db.sessions then None
    else Some(db.(sessions := db.sessions[h := SessionRow(user, now + SessionTtl(config))]))
  }

  function WithSession(db: Db, user: UserId, token: string, now: Time, config: Config, done: Answer, failed: Answer): Outcome {
    match OpenSession(db, user, token, now, config)
    case Some(withRow) => Outcome(withRow, done)
    case None => Outcome(db, failed)
  }

  ghost function DoRegister(db: Db, e: Event, config: Config): Outcome
    requires e.Register?
  {
    match ScalarOneOrNone(ByEmail(db.users, e.email))
    case ManyRows => Outcome(db, ServerError500)
    case OneRow(_) => Outcome(db, DuplicateEmail)
    case NoRow =>
      if e.id in db.users then Outcome(db, ServerError500)
      else
        var row := UserRow(e.email, BeforeAt(e.email), Some(Argon2(e.password)), None);
        var added := db.(users := db.users[e.id := row]);
        WithSession(added, e.id, e.token, e.now, config, Registered(e.id), RegisteredNoSession(e.id))
  }

  ghost function DoLogin(db: Db, e: Event, config: Config): Outcome
    requires e.Login?
  {
    var failed := Outcome(db.(failures := Recorded(db.failures, e.ip, e.now, config.limits)), BadCredentials401);
    match Check(db.failures, e.ip, e.now, config.limits)
    case TooMany429(retryAfter) => Outcome(db, LockedOut429(retryAfter))
    case Admitted =>
      match ScalarOneOrNone(ByEmail(db.users, e.email))
      case ManyRows => Outcome(db, ServerError500)
      case NoRow => failed
      case OneRow(u) =>
        if db.users[u].password != Some(Argon2(e.password)) then failed
        else
          WithSession(db.(failures := db.failures - {e.ip}), u, e.token, e.now, config, LoggedIn(u), LoggedInNoSession(u))
  }

  function DoLogout(db: Db, cookie: Option<string>): Outcome {
    if cookie.Some? && cookie.value != "" then Outcome(db.(sessions := db.sessions - {Sha256(cookie.value)}), LoggedOut)
    else Outcome(db, LoggedOut)
  }

  function DoSessionInfo(db: Db, cookie: Option<string>, now: Time): Outcome {
    match cookie
    case None => Outcome(db, Unauthenticated401)
    case Some(token) =>
      match Resolve(db, token, now)
      case Some(u) => Outcome(db, CurrentUser(u))
      case None => Outcome(db, Unauthenticated401)
  }

  ghost function DoResetRequest(db: Db, e: Event): Outcome
    requires e.ResetRequest?
  {
    match ScalarOneOrNone(ByEmail(db.users, e.email))
    case ManyRows => Outcome(db, ServerError500)
    case NoRow => Outcome(db, ResetIgnored)
    case OneRow(u) =>
      var h := Sha256(e.token);
      if db.users[u].password.None? then Outcome(db, ResetIgnored)
      else if h in db.resets then Outcome(db, ServerError500)
      else Outcome(db.(resets := db.resets[h := ResetRow(u, e.now + RESET_TTL, None)]), ResetMailed(u))
  }

  function DoResetValidate(db: Db, token: string, now: Time): Outcome {
    Outcome(db, if LiveReset(db, token, now).Some? then TokenValid else TokenInvalid400)
  }

  function SessionsOfOthers(sessions: map<TokenHash, SessionRow>, user: UserId): map<TokenHash, SessionRow> {
    map h | h in sessions && sessions[h].user != user :: sessions[h]
  }

  function DoResetComplete(db: Db, token: string, newPassword: string, now: Time): Outcome {
    match LiveReset(db, token, now)
    case None => Outcome(db, TokenInvalid400)
    case Some(reset) =>
      if reset.user !in db.users then Outcome(db, ServerError500)
      else
        var user := db.users[reset.user].(password := Some(Argon2(newPassword)));
        Outcome(db.(resets := db.resets[Sha256(token) := reset.(usedAt := Some(now))],
                    users := db.users[reset.user := user],
                    sessions := SessionsOfOthers(db.sessions, reset.user)),
                ResetDone(reset.user))
  }

  ghost function DoOAuth(db: Db, e: Event, config: Config): Outcome
    requires e.OAuthCallback?
  {
    if e.sub == "" || e.email == "" then Outcome(db, OAuthRejected)
    else match ScalarOneOrNone(BySubOrEmail(db.users, e.sub, e.email))
      case ManyRows => Outcome(db, ServerError500)
      case NoRow =>
        if e.id in db.users then Outcome(db, ServerError500)
        else
          var name := if e.name.Some? then e.name.value else BeforeAt(e.email);
          var added := db.(users := db.users[e.id := UserRow(e.email, name, None, Some(e.sub))]);
          WithSession(added, e.id, e.token, e.now, config, SignedIn(Created, e.id), SignedInNoSession(Created, e.id))
      case OneRow(u) =>
        if db.users[u].googleSub.None? then
          var linked := db.(users := db.users[u := db.users[u].(googleSub := Some(e.sub))]);
          WithSession(linked, u, e.token, e.now, config, SignedIn(Linked, u), SignedInNoSession(Linked, u))
        else
          WithSession(db, u, e.token, e.now, config, SignedIn(Existing, u), SignedInNoSession(Existing, u))
  }

  // ------------------------------------------------------------------ machine

  const EMPTY := Db(map[], map[], map[], map[])

  ghost function Step(db: Db, e: Event, config: Config): Outcome {
    match e
    case Register(_, _, _, _, _) => DoRegister(db, e, config)
    case Login(_, _, _, _, _) => DoLogin(db, e, config)
    case Logout(cookie) => DoLogout(db, cookie)
    case SessionInfo(cookie, now) => DoSessionInfo(db, cookie, now)
    case ResetRequest(_, _, _) => DoResetRequest(db, e)
    case ResetValidate(token, now) => DoResetValidate(db, token, now)
    case ResetComplete(token, newPassword, now) => DoResetComplete(db, token, newPassword, now)
    case OAuthCallback(_, _, _, _, _, _) => DoOAuth(db, e, config)
  }

  ghost function Exec(run: seq<Event>, config: Config): Db {
    if run == [] then EMPTY else Step(Exec(run[..|run| - 1], config), run[|run| - 1], config).db
  }

  ghost function AnswerAt(run: seq<Event>, i: nat, config: Config): Answer
    requires i < |run|
  {
    Step(Exec(run[..i], config), run[i], config).answer
  }

  datatype Entry = Entry(event: Event, answer: Answer)

  /** The log of a run: every request with its answer. */
  ghost function Trace(run: seq<Event>, config: Config): seq<Entry> {
    if run == [] then []
    else
      var init, e := run[..|run| - 1], run[|run| - 1];
      Trace(init, config) + [Entry(e, Step(Exec(init, config), e, config).answer)]
  }

  lemma ExecSnoc(run: seq<Event>, n: nat, config: Config)
    requires n < |run|
    ensures Exec(run[..n + 1], config) == Step(Exec(run[..n], config), run[n], config).db
  {
    assert run[..n + 1][..n] == run[..n];
  }

  // ---------------------------------------------------------------- invariant

  /** Emails, and the Google subjects that are set, are unique. */
  ghost predicate UniqueIdentities(users: map<UserId, UserRow>) {
    && (forall u, v :: u in users && v in users && users[u].email == users[v].email ==> u == v)
    && (forall u, v :: u in users && v in users && users[u].googleSub == users[v].googleSub && users[u].googleSub.Some? ==> u == v)
  }

  ghost predicate Invariant(db: Db) {
    && UniqueIdentities(db.users)
    && (forall u :: u in db.users ==> db.users[u].password.Some? || db.users[u].googleSub.Some?)
    && (forall h :: h in db.sessions ==> db.sessions[h].user in db.users)
    && (forall h :: h in db.resets ==> db.resets[h].user in db.users && db.users[db.resets[h].user].password.Some?)
  }

  lemma SessionKeepsInvariant(db: Db, user: UserId, token: string, now: Time, config: Config, done: Answer, failed: Answer)
    requires Invariant(db) && user in db.users
    ensures Invariant(WithSession(db, user, token, now, config, done, failed).db)
  {
  }

  lemma NewUserKeepsInvariant(db: Db, id: UserId, row: UserRow)
    requires Invariant(db) && id !in db.users && (row.password.Some? || row.googleSub.Some?)
    requires forall u :: u in db.users ==> db.users[u].email != row.email
    requires row.googleSub.Some? ==> forall u :: u in db.users ==> db.users[u].googleSub != row.googleSub
    ensures Invariant(db.(users := db.users[id := row]))
  {
  }

  lemma LinkKeepsInvariant(db: Db, user: UserId, sub: string)
    requires Invariant(db) && user in db.users
    requires forall u :: u in db.users && u != user ==> db.users[u].googleSub != Some(sub)
    ensures Invariant(db.(users := db.users[user := db.users[user].(googleSub := Some(sub))]))
  {
  }

  lemma RegisterKeepsInvariant(db: Db, e: Event, config: Config)
    requires Invariant(db) && e.Register?
    ensures Invariant(DoRegister(db, e, config).db)
  {
    if ScalarOneOrNone(ByEmail(db.users, e.email)) == NoRow && e.id !in db.users {
      assert forall u :: u in db.users && db.users[u].email == e.email ==> u in ByEmail(db.users, e.email);
      var row := UserRow(e.email, BeforeAt(e.email), Some(Argon2(e.password)), None);
      NewUserKeepsInvariant(db, e.id, row);
      SessionKeepsInvariant(db.(users := db.users[e.id := row]), e.id, e.token, e.now, config, Registered(e.id), RegisteredNoSession(e.id));
    }
  }

  lemma OAuthKeepsInvariant(db: Db, e: Event, config: Config)
    requires Invariant(db) && e.OAuthCallback?
    ensures Invariant(DoOAuth(db, e, config).db)
  {
    var rows := BySubOrEmail(db.users, e.sub, e.email);
    assert forall u :: u in db.users && (db.users[u].googleSub == Some(e.sub) || db.users[u].email == e.email) ==> u in rows;
    match ScalarOneOrNone(rows)
    case ManyRows =>
    case NoRow =>
      if e.id !in db.users {
        var name := if e.name.Some? then e.name.value else BeforeAt(e.email);
        var row := UserRow(e.email, name, None, Some(e.sub));
        NewUserKeepsInvariant(db, e.id, row);
        SessionKeepsInvariant(db.(users := db.users[e.id := row]), e.id, e.token, e.now, config, SignedIn(Created, e.id), SignedInNoSession(Created, e.id));
      }
    case OneRow(u) =>
      assert u in rows;
      if db.users[u].googleSub.None? {
        LinkKeepsInvariant(db, u, e.sub);
        var linked := db.(users := db.users[u := db.users[u].(googleSub := Some(e.sub))]);
        SessionKeepsInvariant(linked, u, e.token, e.now, config, SignedIn(Linked, u), SignedInNoSession(Linked, u));
      } else {
        SessionKeepsInvariant(db, u, e.token, e.now, config, SignedIn(Existing, u), SignedInNoSession(Existing, u));
      }
  }

  lemma LoginKeepsInvariant(db: Db, e: Event, config: Config)
    requires Invariant(db) && e.Login?
    ensures Invariant(DoLogin(db, e, config).db)
  {
    hide Check, Recorded;
    var m := ScalarOneOrNone(ByEmail(db.users, e.email));
    if m.OneRow? {
      assert m.user in ByEmail(db.users, e.email);
      SessionKeepsInvariant(db.(failures := db.failures - {e.ip}), m.user, e.token, e.now, config, LoggedIn(m.user), LoggedInNoSession(m.user));
    }
  }

  lemma ResetRequestKeepsInvariant(db: Db, e: Event)
    requires Invariant(db) && e.ResetRequest?
    ensures Invariant(DoResetRequest(db, e).db)
  {
    var m := ScalarOneOrNone(ByEmail(db.users, e.email));
    if m.OneRow? {
      assert m.user in ByEmail(db.users, e.email);
    }
  }

  lemma ResetCompleteKeepsInvariant(db: Db, token: string, newPassword: string, now: Time)
    requires Invariant(db)
    ensures Invariant(DoResetComplete(db, token, newPassword, now).db)
  {
  }

  lemma StepKeepsInvariant(db: Db, e: Event, config: Config)
    requires Invariant(db)
    ensures Invariant(Step(db, e, config).db)
  {
    match e
    case Register(_, _, _, _, _) => RegisterKeepsInvariant(db, e, config);
    case Login(_, _, _, _, _) => LoginKeepsInvariant(db, e, config);
    case ResetRequest(_, _, _) => ResetRequestKeepsInvariant(db, e);
    case ResetComplete(token, newPassword, now) => ResetCompleteKeepsInvariant(db, token, newPassword, now);
    case OAuthCallback(_, _, _, _, _, _) => OAuthKeepsInvariant(db, e, config);
    case Logout(_) =>
    case SessionInfo(_, _) =>
    case ResetValidate(_, _) =>
  }

  /** Every run keeps identities unique, an auth method on every account, and the foreign keys. */
  lemma {:induction false} Reachable(run: seq<Event>, config: Config)
    ensures Invariant(Exec(run, config))
  {
    hide Step;
    if run != [] {
      Reachable(run[..|run| - 1], config);
      StepKeepsInvariant(Exec(run[..|run| - 1], config), run[|run| - 1], config);
    }
  }

  // -------------------------------------------------------- accounts that stay

  /** What never changes about an account: it exists, with this email and, once set, this subject. */
  ghost predicate AccountsKept(before: map<UserId, UserRow>, after: map<UserId, UserRow>) {
    forall u :: u in before ==>
      && u in after
      && after[u].email == before[u].email
      && (before[u].googleSub.Some? ==> after[u].googleSub == before[u].googleSub)
      && (after[u].password.Some? <==> before[u].password.Some?)
  }

  lemma OAuthKeepsAccounts(db: Db, e: Event, config: Config)
    requires e.OAuthCallback?
    ensures AccountsKept(db.users, DoOAuth(db, e, config).db.users)
  {
    var m := ScalarOneOrNone(BySubOrEmail(db.users, e.sub, e.email));
    if m.OneRow? {
      assert m.user in BySubOrEmail(db.users, e.sub, e.email);
    }
  }

  lemma RegisterKeepsAccounts(db: Db, e: Event, config: Config)
    requires e.Register?
    ensures AccountsKept(db.users, DoRegister(db, e, config).db.users)
  {
  }

  lemma ResetKeepsAccounts(db: Db, token: string, newPassword: string, now: Time)
    requires Invariant(db)
    ensures AccountsKept(db.users, DoResetComplete(db, token, newPassword, now).db.users)
  {
  }

  lemma OthersKeepUsers(db: Db, e: Event, config: Config)
    requires !e.Register? && !e.ResetComplete? && !e.OAuthCallback?
    ensures Step(db, e, config).db.users == db.users
  {
    hide Check, Recorded, Resolve, ScalarOneOrNone;
  }

  lemma OthersKeepResets(db: Db, e: Event, config: Config)
    requires !e.ResetRequest? && !e.ResetComplete?
    ensures Step(db, e, config).db.resets == db.resets
  {
  }

  lemma StepKeepsAccounts(db: Db, e: Event, config: Config)
    requires Invariant(db)
    ensures AccountsKept(db.users, Step(db, e, config).db.users)
  {
    hide DoRegister, DoResetComplete, DoOAuth, Invariant;
    if e.Register? {
      RegisterKeepsAccounts(db, e, config);
    } else if e.ResetComplete? {
      ResetKeepsAccounts(db, e.token, e.newPassword, e.now);
    } else if e.OAuthCallback? {
      OAuthKeepsAccounts(db, e, config);
    } else {
      OthersKeepUsers(db, e, config);
    }
  }

  lemma RequestKeepsAccounts(run: seq<Event>, n: nat, config: Config)
    requires n < |run|
    ensures AccountsKept(Exec(run[..n], config).users, Exec(run[..n + 1], config).users)
  {
    hide Step, Invariant, AccountsKept;
    Reachable(run[..n], config);
    StepKeepsAccounts(Exec(run[..n], config), run[n], config);
    ExecSnoc(run, n, config);
  }

  lemma AccountsKeptOnwards(a: map<UserId, UserRow>, b: map<UserId, UserRow>, c: map<UserId, UserRow>)
    requires AccountsKept(a, b) && AccountsKept(b, c)
    ensures AccountsKept(a, c)
  {
  }

  /** Over any stretch of a run: accounts stay, with their email, subject and kind of sign-in. */
  lemma {:induction false} AccountsStay(run: seq<Event>, n: nat, m: nat, config: Config)
    requires n <= m <= |run|
    ensures AccountsKept(Exec(run[..n], config).users, Exec(run[..m], config).users)
    decreases m - n
  {
    hide Step;
    if n < m {
      AccountsStay(run, n, m - 1, config);
      RequestKeepsAccounts(run, m - 1, config);
      AccountsKeptOnwards(Exec(run[..n], config).users, Exec(run[..m - 1], config).users, Exec(run[..m], config).users);
    }
  }
}
