/** Sessions, passwords, reset tokens and identities read back from the event log. */
module AccountsHistory {
  import opened Wrappers
  import opened Histories
  import opened RateLimiter
  import opened Accounts

  const HOUR: int := 60 * 60 * TICKS_PER_SECOND
  const DAY: int := 24 * HOUR

  // ----------------------------------------------------------------- sessions

  /** The request carries the token as the one a new session would get. */
  predicate Carries(e: Event, token: string) {
    (e.Register? || e.Login? || e.OAuthCallback?) && e.token == token
  }

  /** This request opened a session for the user. */
  predicate Opens(answer: Answer, user: UserId) {
    answer == Registered(user) || answer == LoggedIn(user) || (answer.SignedIn? && answer.user == user)
  }

  /** Issued to the user, and not expired at time now. */
  ghost function Issues(token: string, user: UserId, now: Time, config: Config): Entry -> bool {
    (en: Entry) => Carries(en.event, token) && Opens(en.answer, user) && now - en.event.now < config.sessionTtlDays * DAY
  }

  /** A logout of this token, or a completed reset of this user. */
  ghost function Ends(token: string, user: UserId): Entry -> bool {
    (en: Entry) => (en.event == Logout(Some(token)) && token != "") || en.answer == ResetDone(user)
  }

  lemma OpenStep(db: Db, holder: UserId, drawn: string, at: Time, config: Config, done: Answer, failed: Answer,
                 token: string, user: UserId, now: Time)
    requires holder in db.users && done != failed
    ensures var o := WithSession(db, holder, drawn, at, config, done, failed);
            (o.answer == done || o.answer == failed) &&
            (Resolve(o.db, token, now) == Some(user) <==>
               || (o.answer == done && drawn == token && holder == user && now < at + SessionTtl(config))
               || Resolve(db, token, now) == Some(user))
  {
  }

  /** Adding or changing a user row that keeps all users leaves every token as it was. */
  lemma UsersGrow(db: Db, users: map<UserId, UserRow>, token: string, now: Time)
    requires Invariant(db) && db.users.Keys <= users.Keys
    ensures Resolve(db.(users := users), token, now) == Resolve(db, token, now)
  {
  }

  ghost predicate SessionStepHolds(db: Db, e: Event, token: string, user: UserId, now: Time, config: Config) {
    var o := Step(db, e, config);
    var en := Entry(e, o.answer);
    Resolve(o.db, token, now) == Some(user) <==>
    Issues(token, user, now, config)(en) || (!Ends(token, user)(en) && Resolve(db, token, now) == Some(user))
  }

  lemma RegisterStep(db: Db, e: Event, token: string, user: UserId, now: Time, config: Config)
    requires Invariant(db) && e.Register?
    ensures SessionStepHolds(db, e, token, user, now, config)
  {
    hide Resolve, WithSession, OpenSession, Invariant;
    if ScalarOneOrNone(ByEmail(db.users, e.email)) == NoRow && e.id !in db.users {
      var added := db.users[e.id := UserRow(e.email, BeforeAt(e.email), Some(Argon2(e.password)), None)];
      UsersGrow(db, added, token, now);
      OpenStep(db.(users := added), e.id, e.token, e.now, config, Registered(e.id), RegisteredNoSession(e.id), token, user, now);
    }
  }

  lemma LimiterApart(db: Db, failures: Store, token: string, now: Time)
    ensures Resolve(db.(failures := failures), token, now) == Resolve(db, token, now)
  {
  }

  lemma LoginStep(db: Db, e: Event, token: string, user: UserId, now: Time, config: Config)
    requires e.Login?
    ensures SessionStepHolds(db, e, token, user, now, config)
  {
    hide Check, Recorded, Resolve, WithSession, OpenSession;
    LimiterApart(db, Recorded(db.failures, e.ip, e.now, config.limits), token, now);
    LimiterApart(db, db.failures - {e.ip}, token, now);
    var m := ScalarOneOrNone(ByEmail(db.users, e.email));
    if m.OneRow? {
      var u := m.user;
      assert u in ByEmail(db.users, e.email);
      OpenStep(db.(failures := db.failures - {e.ip}), u, e.token, e.now, config, LoggedIn(u), LoggedInNoSession(u), token, user, now);
    }
  }

  lemma OAuthAmbiguousStep(db: Db, e: Event, token: string, user: UserId, now: Time, config: Config)
    requires e.OAuthCallback?
    requires ScalarOneOrNone(BySubOrEmail(db.users, e.sub, e.email)) == ManyRows
    ensures SessionStepHolds(db, e, token, user, now, config)
  {
    hide Resolve;
  }

  lemma OAuthCreateStep(db: Db, e: Event, token: string, user: UserId, now: Time, config: Config)
    requires Invariant(db) && e.OAuthCallback?
    requires ScalarOneOrNone(BySubOrEmail(db.users, e.sub, e.email)) == NoRow
    ensures SessionStepHolds(db, e, token, user, now, config)
  {
    hide Resolve, WithSession, OpenSession, Invariant;
    if e.id !in db.users {
      var name := if e.name.Some? then e.name.value else BeforeAt(e.email);
      var added := db.users[e.id := UserRow(e.email, name, None, Some(e.sub))];
      UsersGrow(db, added, token, now);
      OpenStep(db.(users := added), e.id, e.token, e.now, config, SignedIn(Created, e.id), SignedInNoSession(Created, e.id), token, user, now);
    }
  }

  lemma OAuthKnownStep(db: Db, e: Event, u: UserId, token: string, user: UserId, now: Time, config: Config)
    requires Invariant(db) && e.OAuthCallback?
    requires ScalarOneOrNone(BySubOrEmail(db.users, e.sub, e.email)) == OneRow(u)
    ensures SessionStepHolds(db, e, token, user, now, config)
  {
    hide Resolve, WithSession, OpenSession, Invariant;
    assert u in BySubOrEmail(db.users, e.sub, e.email);
    var how := if db.users[u].googleSub.None? then Linked else Existing;
    var linked := if how == Linked then db.users[u := db.users[u].(googleSub := Some(e.sub))] else db.users;
    UsersGrow(db, linked, token, now);
    OpenStep(db.(users := linked), u, e.token, e.now, config, SignedIn(how, u), SignedInNoSession(how, u), token, user, now);
    assert db.(users := db.users) == db;
    if e.sub != "" && e.email != "" {
      assert Step(db, e, config)
          == WithSession(db.(users := linked), u, e.token, e.now, config, SignedIn(how, u), SignedInNoSession(how, u));
    }
  }

  lemma OAuthStep(db: Db, e: Event, token: string, user: UserId, now: Time, config: Config)
    requires Invariant(db) && e.OAuthCallback?
    ensures SessionStepHolds(db, e, token, user, now, config)
  {
    hide SessionStepHolds, Invariant;
    match ScalarOneOrNone(BySubOrEmail(db.users, e.sub, e.email))
    case ManyRows => OAuthAmbiguousStep(db, e, token, user, now, config);
    case NoRow => OAuthCreateStep(db, e, token, user, now, config);
    case OneRow(u) => OAuthKnownStep(db, e, u, token, user, now, config);
  }

  lemma EndStep(db: Db, e: Event, token: string, user: UserId, now: Time, config: Config)
    requires Invariant(db) && (e.Logout? || e.ResetComplete?)
    ensures SessionStepHolds(db, e, token, user, now, config)
  {
  }

  lemma QuietStep(db: Db, e: Event, token: string, user: UserId, now: Time, config: Config)
    requires e.ResetRequest? || e.SessionInfo? || e.ResetValidate?
    ensures SessionStepHolds(db, e, token, user, now, config)
  {
  }

  lemma SessionStep(db: Db, e: Event, token: string, user: UserId, now: Time, config: Config)
    requires Invariant(db)
    ensures SessionStepHolds(db, e, token, user, now, config)
  {
    hide SessionStepHolds, Invariant;
    match e
    case Register(_, _, _, _, _) => RegisterStep(db, e, token, user, now, config);
    case Login(_, _, _, _, _) => LoginStep(db, e, token, user, now, config);
    case OAuthCallback(_, _, _, _, _, _) => OAuthStep(db, e, token, user, now, config);
    case Logout(_) => EndStep(db, e, token, user, now, config);
    case ResetComplete(_, _, _) => EndStep(db, e, token, user, now, config);
    case _ => QuietStep(db, e, token, user, now, config);
  }

  /**
   * After any run a request is the user's iff it has a cookie, issued to that user less than the
   * time-to-live ago, with no later logout of it and no later completed reset of the user; every
   * other request, with or without a cookie, is unauthenticated.
   */
  lemma SessionsEqualHistory(run: seq<Event>, cookie: Option<string>, user: UserId, now: Time, config: Config)
    ensures var o := DoSessionInfo(Exec(run, config), cookie, now);
            && (o.answer == CurrentUser(user) <==>
                  cookie.Some? && Latest(Trace(run, config), Issues(cookie.value, user, now, config), Ends(cookie.value, user)))
            && (o.answer.CurrentUser? || o.answer == Unauthenticated401)
            && o.db == Exec(run, config)
  {
    hide DoSessionInfo, Resolve, Latest;
    CookieResolves(Exec(run, config), cookie, user, now);
    if cookie.Some? {
      ResolveEqualsHistory(run, cookie.value, user, now, config);
    }
  }

  lemma CookieResolves(db: Db, cookie: Option<string>, user: UserId, now: Time)
    ensures var o := DoSessionInfo(db, cookie, now);
            && (o.answer == CurrentUser(user) <==> cookie.Some? && Resolve(db, cookie.value, now) == Some(user))
            && (o.answer.CurrentUser? || o.answer == Unauthenticated401)
            && o.db == db
  {
    hide Resolve;
  }

  lemma {:induction false} ResolveEqualsHistory(run: seq<Event>, token: string, user: UserId, now: Time, config: Config)
    ensures Resolve(Exec(run, config), token, now) == Some(user)
            <==> Latest(Trace(run, config), Issues(token, user, now, config), Ends(token, user))
  {
    hide Step, Invariant;
    if run != [] {
      var init, e := run[..|run| - 1], run[|run| - 1];
      ResolveEqualsHistory(init, token, user, now, config);
      Reachable(init, config);
      SessionStep(Exec(init, config), e, token, user, now, config);
      LatestSnoc(Trace(init, config), Entry(e, Step(Exec(init, config), e, config).answer),
                 Issues(token, user, now, config), Ends(token, user));
    }
  }

  lemma {:induction false} NeverIssued(run: seq<Event>, token: string, now: Time, config: Config)
    requires forall i :: 0 <= i < |run| && Carries(run[i], token) ==> AnswerAt(run, i, config) == DuplicateEmail
    ensures Resolve(Exec(run, config), token, now) == None
  {
    if run != [] {
      var init, e := run[..|run| - 1], run[|run| - 1];
      forall i | 0 <= i < |init| && Carries(init[i], token) ensures AnswerAt(init, i, config) == DuplicateEmail {
        assert init[..i] == run[..i] && Carries(run[i], token);
      }
      NeverIssued(init, token, now, config);
      Reachable(init, config);
      assert AnswerAt(run, |init|, config) == Step(Exec(init, config), e, config).answer;
      var r := Resolve(Exec(run, config), token, now);
      if r.Some? {
        SessionStep(Exec(init, config), e, token, r.value, now, config);
      }
    }
  }

  /** The decoy token of a duplicate registration never resolves, if no other request draws it. */
  lemma DecoyNeverResolves(run: seq<Event>, i: nat, n: nat, now: Time, config: Config)
    requires i < |run| && n <= |run| && run[i].Register? && AnswerAt(run, i, config) == DuplicateEmail
    requires forall j :: 0 <= j < |run| && j != i ==> !Carries(run[j], run[i].token)
    ensures Resolve(Exec(run[..n], config), run[i].token, now) == None
  {
    var prefix := run[..n];
    forall j | 0 <= j < n && Carries(prefix[j], run[i].token) ensures AnswerAt(prefix, j, config) == DuplicateEmail {
      assert prefix[..j] == run[..j];
    }
    NeverIssued(prefix, run[i].token, now, config);
  }

  // -------------------------------------------------------------- credentials

  predicate SignsUp(answer: Answer, user: UserId) {
    answer == Registered(user) || answer == RegisteredNoSession(user)
  }

  /** Registration of the account with this password, or a completed reset to it. */
  ghost function SetsPassword(user: UserId, password: string): Entry -> bool {
    (en: Entry) =>
      || (SignsUp(en.answer, user) && en.event.Register? && en.event.password == password)
      || (en.answer == ResetDone(user) && en.event.ResetComplete? && en.event.newPassword == password)
  }

  ghost function SetsAnyPassword(user: UserId): Entry -> bool {
    (en: Entry) => SignsUp(en.answer, user) || en.answer == ResetDone(user)
  }

  ghost predicate PasswordStepHolds(db: Db, e: Event, user: UserId, password: string, config: Config) {
    var o := Step(db, e, config);
    var en := Entry(e, o.answer);
    PasswordOf(o.db, user) == Some(Argon2(password)) <==>
    SetsPassword(user, password)(en) || (!SetsAnyPassword(user)(en) && PasswordOf(db, user) == Some(Argon2(password)))
  }

  lemma QuietPasswordStep(db: Db, e: Event, user: UserId, password: string, config: Config)
    requires e.Login? || e.ResetRequest? || e.Logout? || e.SessionInfo? || e.ResetValidate?
    ensures PasswordStepHolds(db, e, user, password, config)
  {
    assert Step(db, e, config).db.users == db.users;
  }

  lemma ResetPasswordStep(db: Db, e: Event, user: UserId, password: string, config: Config)
    requires e.ResetComplete?
    ensures PasswordStepHolds(db, e, user, password, config)
  {
  }

  lemma RegisterPasswordStep(db: Db, e: Event, user: UserId, password: string, config: Config)
    requires e.Register?
    ensures PasswordStepHolds(db, e, user, password, config)
  {
  }

  lemma PasswordStep(db: Db, e: Event, user: UserId, password: string, config: Config)
    ensures PasswordStepHolds(db, e, user, password, config)
  {
    if e.Register? {
      RegisterPasswordStep(db, e, user, password, config);
    } else if e.ResetComplete? {
      ResetPasswordStep(db, e, user, password, config);
    } else if e.OAuthCallback? {
      OAuthKeepsPasswords(db, e, user, config);
    } else {
      QuietPasswordStep(db, e, user, password, config);
    }
  }

  lemma OAuthKeepsPasswords(db: Db, e: Event, user: UserId, config: Config)
    requires e.OAuthCallback?
    ensures PasswordOf(DoOAuth(db, e, config).db, user) == PasswordOf(db, user)
    ensures var a := DoOAuth(db, e, config).answer; !SignsUp(a, user) && !a.ResetDone?
  {
    var m := ScalarOneOrNone(BySubOrEmail(db.users, e.sub, e.email));
    if m.OneRow? {
      assert m.user in BySubOrEmail(db.users, e.sub, e.email);
    }
  }

  /** The stored password is the one from registration or from the latest completed reset. */
  lemma {:induction false} PasswordsEqualHistory(run: seq<Event>, user: UserId, password: string, config: Config)
    ensures PasswordOf(Exec(run, config), user) == Some(Argon2(password))
            <==> Latest(Trace(run, config), SetsPassword(user, password), SetsAnyPassword(user))
  {
    hide Step, Invariant;
    if run != [] {
      var init, e := run[..|run| - 1], run[|run| - 1];
      PasswordsEqualHistory(init, user, password, config);
      Reachable(init, config);
      PasswordStep(Exec(init, config), e, user, password, config);
      LatestSnoc(Trace(init, config), Entry(e, Step(Exec(init, config), e, config).answer),
                 SetsPassword(user, password), SetsAnyPassword(user));
    }
  }

  /** With unique emails an email query finds its one account. */
  lemma EmailFinds(db: Db, email: string, user: UserId)
    requires Invariant(db)
    ensures ScalarOneOrNone(ByEmail(db.users, email)) == OneRow(user) <==> user in db.users && db.users[user].email == email
  {
    if user in db.users && db.users[user].email == email {
      assert ByEmail(db.users, email) == {user};
    } else {
      assert user !in ByEmail(db.users, email);
    }
  }

  /** The password comparison accepted the login; LoggedInNoSession means its token then collided. */
  predicate Accepts(answer: Answer, user: UserId) {
    answer == LoggedIn(user) || answer == LoggedInNoSession(user)
  }

  /** An unlocked login is accepted for exactly the account with the email and its latest password. */
  lemma LoginAcceptsLatestPassword(run: seq<Event>, e: Event, user: UserId, config: Config)
    requires e.Login?
    ensures var db := Exec(run, config);
            Accepts(DoLogin(db, e, config).answer, user) <==>
            && Check(db.failures, e.ip, e.now, config.limits).Admitted?
            && user in db.users && db.users[user].email == e.email
            && Latest(Trace(run, config), SetsPassword(user, e.password), SetsAnyPassword(user))
  {
    Reachable(run, config);
    EmailFinds(Exec(run, config), e.email, user);
    PasswordsEqualHistory(run, user, e.password, config);
  }

  /** An account created through Google never acquires a password. */
  lemma GoogleAccountsStayPasswordless(run: seq<Event>, i: nat, n: nat, user: UserId, config: Config)
    requires i < n <= |run|
    requires AnswerAt(run, i, config) in {SignedIn(Created, user), SignedInNoSession(Created, user)}
    ensures user in Exec(run[..n], config).users && PasswordOf(Exec(run[..n], config), user) == None
  {
    ExecSnoc(run, i, config);
    CreatedPasswordless(Exec(run[..i], config), run[i], user, config);
    AccountsStay(run, i + 1, n, config);
  }

  lemma CreatedPasswordless(db: Db, e: Event, user: UserId, config: Config)
    requires Step(db, e, config).answer in {SignedIn(Created, user), SignedInNoSession(Created, user)}
    ensures user in Step(db, e, config).db.users && PasswordOf(Step(db, e, config).db, user) == None
  {
    assert e.OAuthCallback?;
  }

  // ------------------------------------------------------------- reset tokens

  /** Mailed to the user within the reset time-to-live before now. */
  ghost function Mails(token: string, user: UserId, now: Time): Entry -> bool {
    (en: Entry) => en.event.ResetRequest? && en.event.token == token && en.answer == ResetMailed(user)
                   && now - en.event.now < HOUR
  }

  ghost function Spends(token: string): Entry -> bool {
    (en: Entry) => en.event.ResetComplete? && en.event.token == token && en.answer.ResetDone?
  }

  predicate LiveFor(db: Db, token: string, user: UserId, now: Time) {
    LiveReset(db, token, now).Some? && LiveReset(db, token, now).value.user == user
  }

  ghost predicate ResetStepHolds(db: Db, e: Event, token: string, user: UserId, now: Time, config: Config) {
    var o := Step(db, e, config);
    var en := Entry(e, o.answer);
    LiveFor(o.db, token, user, now) <==>
    Mails(token, user, now)(en) || (!Spends(token)(en) && LiveFor(db, token, user, now))
  }

  lemma OtherResetStep(db: Db, e: Event, token: string, user: UserId, now: Time, config: Config)
    requires !e.ResetRequest? && !e.ResetComplete?
    ensures ResetStepHolds(db, e, token, user, now, config)
  {
    assert Step(db, e, config).db.resets == db.resets;
  }

  lemma ResetStep(db: Db, e: Event, token: string, user: UserId, now: Time, config: Config)
    ensures ResetStepHolds(db, e, token, user, now, config)
  {
    if !e.ResetRequest? && !e.ResetComplete? {
      OtherResetStep(db, e, token, user, now, config);
    }
  }

  lemma {:induction false} LiveResetEqualsHistory(run: seq<Event>, token: string, user: UserId, now: Time, config: Config)
    ensures LiveFor(Exec(run, config), token, user, now)
            <==> Latest(Trace(run, config), Mails(token, user, now), Spends(token))
  {
    hide Step;
    if run != [] {
      var init, e := run[..|run| - 1], run[|run| - 1];
      LiveResetEqualsHistory(init, token, user, now, config);
      ResetStep(Exec(init, config), e, token, user, now, config);
      LatestSnoc(Trace(init, config), Entry(e, Step(Exec(init, config), e, config).answer), Mails(token, user, now), Spends(token));
    }
  }

  /**
   * A reset completes for a user iff its token was mailed to that user in time and never spent
   * since; otherwise it is refused and changes nothing.
   */
  lemma ResetsEqualHistory(run: seq<Event>, token: string, newPassword: string, user: UserId, now: Time, config: Config)
    ensures var o := DoResetComplete(Exec(run, config), token, newPassword, now);
            && (o.answer == ResetDone(user) <==> Latest(Trace(run, config), Mails(token, user, now), Spends(token)))
            && (o.answer.ResetDone? || o == Outcome(Exec(run, config), TokenInvalid400))
  {
    hide DoResetComplete, LiveFor, Latest, Invariant;
    Reachable(run, config);
    CompletesIfLive(Exec(run, config), token, newPassword, user, now);
    LiveResetEqualsHistory(run, token, user, now, config);
  }

  lemma CompletesIfLive(db: Db, token: string, newPassword: string, user: UserId, now: Time)
    requires Invariant(db)
    ensures var o := DoResetComplete(db, token, newPassword, now);
            && (o.answer == ResetDone(user) <==> LiveFor(db, token, user, now))
            && (o.answer.ResetDone? || o == Outcome(db, TokenInvalid400))
  {
  }

  /** In every reachable state validate accepts a token iff complete would. */
  lemma ValidateIffComplete(run: seq<Event>, token: string, newPassword: string, now: Time, config: Config)
    ensures var db := Exec(run, config); var validated := DoResetValidate(db, token, now);
            && validated.db == db
            && (validated.answer == TokenValid <==> DoResetComplete(db, token, newPassword, now).answer.ResetDone?)
            && (validated.answer == TokenInvalid400 <==> DoResetComplete(db, token, newPassword, now).answer == TokenInvalid400)
  {
    Reachable(run, config);
  }

  /** A completed reset uses the token, sets the password, ends the user's sessions: nothing else. */
  lemma CompletionIsExact(db: Db, token: string, newPassword: string, now: Time, user: UserId)
    requires DoResetComplete(db, token, newPassword, now).answer == ResetDone(user)
    ensures var after := DoResetComplete(db, token, newPassword, now).db; var h := Sha256(token);
            && h in db.resets && db.resets[h].user == user && user in db.users
            && after.resets == db.resets[h := ResetRow(user, db.resets[h].expiresAt, Some(now))]
            && PasswordOf(after, user) == Some(Argon2(newPassword))
            && after.users.Keys == db.users.Keys
            && (forall u :: u in db.users && u != user ==> after.users[u] == db.users[u])
            && after.users[user] == db.users[user].(password := after.users[user].password)
            && (forall s :: s in after.sessions <==> s in db.sessions && db.sessions[s].user != user)
            && (forall s :: s in after.sessions ==> after.sessions[s] == db.sessions[s])
            && after.failures == db.failures
  {
  }

  /** The token is stored and marked used. */
  predicate Used(db: Db, token: string) {
    Sha256(token) in db.resets && db.resets[Sha256(token)].usedAt.Some?
  }

  lemma UsedStaysUsed(db: Db, e: Event, token: string, config: Config)
    requires Used(db, token)
    ensures Used(Step(db, e, config).db, token)
  {
    match e
    case OAuthCallback(_, _, _, _, _, _) => assert Step(db, e, config).db.resets == db.resets;
    case Register(_, _, _, _, _) => assert Step(db, e, config).db.resets == db.resets;
    case Login(_, _, _, _, _) => assert Step(db, e, config).db.resets == db.resets;
    case ResetRequest(_, _, _) =>
    case ResetComplete(_, _, _) =>
    case Logout(_) =>
    case SessionInfo(_, _) =>
    case ResetValidate(_, _) =>
  }

  lemma {:induction false} UsedForGood(run: seq<Event>, n: nat, m: nat, token: string, config: Config)
    requires n <= m <= |run| && Used(Exec(run[..n], config), token)
    ensures Used(Exec(run[..m], config), token)
    decreases m - n
  {
    hide Step;
    if n < m {
      UsedForGood(run, n, m - 1, token, config);
      UsedStaysUsed(Exec(run[..m - 1], config), run[m - 1], token, config);
      ExecSnoc(run, m - 1, config);
    }
  }

  /** A token that completed a reset is refused by validate and complete for ever after. */
  lemma CompletesOnce(run: seq<Event>, i: nat, n: nat, token: string, newPassword: string, now: Time, config: Config)
    requires i < n <= |run| && run[i].ResetComplete? && run[i].token == token && AnswerAt(run, i, config).ResetDone?
    ensures var db := Exec(run[..n], config);
            && DoResetValidate(db, token, now) == Outcome(db, TokenInvalid400)
            && DoResetComplete(db, token, newPassword, now) == Outcome(db, TokenInvalid400)
  {
    ExecSnoc(run, i, config);
    assert Used(Exec(run[..i + 1], config), token);
    UsedForGood(run, i + 1, n, token, config);
  }

  // --------------------------------------------------------------- identities

  lemma AtMostOne(s: set<UserId>)
    requires forall x, y :: x in s && y in s ==> x == y
    ensures |s| <= 1
  {
    if s != {} {
      var x :| x in s;
      assert s == {x};
    }
  }

  /** The match on subject or email hits at most two accounts. */
  lemma MatchesAtMostTwo(run: seq<Event>, sub: string, email: string, config: Config)
    ensures |BySubOrEmail(Exec(run, config).users, sub, email)| <= 2
  {
    Reachable(run, config);
    var users := Exec(run, config).users;
    var bySub := set u | u in users && users[u].googleSub == Some(sub);
    AtMostOne(bySub);
    AtMostOne(ByEmail(users, email));
    assert BySubOrEmail(users, sub, email) == bySub + ByEmail(users, email);
  }

  /** Once a subject is stored on an account, every later successful callback with it signs that account in. */
  lemma SubjectIsStable(run: seq<Event>, n: nat, i: nat, user: UserId, config: Config)
    requires n <= i < |run| && run[i].OAuthCallback?
    requires user in Exec(run[..n], config).users && Exec(run[..n], config).users[user].googleSub == Some(run[i].sub)
    requires AnswerAt(run, i, config).SignedIn?
    ensures AnswerAt(run, i, config) == SignedIn(Existing, user)
  {
    hide Invariant;
    AccountsStay(run, n, i, config);
    var users := Exec(run[..i], config).users;
    assert user in BySubOrEmail(users, run[i].sub, run[i].email);
  }
}
