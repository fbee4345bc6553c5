/** What each auth handler must answer and change, read off the log of requests. */
module AccountsAnswers {
  import opened Wrappers
  import opened Histories
  import opened RateLimiter
  import L = LoginProtocol
  import opened Accounts
  import opened AccountsHistory

  // ---------------------------------------------------- profiles from the log

  /** Nothing undoes a founding or a linking. */
  ghost function Never(): Entry -> bool {
    (en: Entry) => false
  }

  /** This request created the account. */
  predicate Founds(en: Entry, user: UserId) {
    || (en.event.Register? && SignsUp(en.answer, user))
    || (en.event.OAuthCallback? && (en.answer == SignedIn(Created, user) || en.answer == SignedInNoSession(Created, user)))
  }

  /** The part of the address before its first at-sign, or all of it. */
  predicate IsLocalPart(name: string, email: string) {
    name <= email && '@' !in name && (name == email || email[|name|] == '@')
  }

  /** The name an account gets: Google's, if it sends one, else the local part. */
  predicate Names(e: Event, name: string)
    requires e.Register? || e.OAuthCallback?
  {
    if e.OAuthCallback? && e.name.Some? then name == e.name.value else IsLocalPart(name, e.email)
  }

  ghost function FoundsWith(user: UserId, email: string): Entry -> bool {
    (en: Entry) => Founds(en, user) && en.event.email == email
  }

  ghost function FoundsNamed(user: UserId, name: string): Entry -> bool {
    (en: Entry) => Founds(en, user) && Names(en.event, name)
  }

  /** The account's creation or linking through Google stored this subject. */
  ghost function StoresSubject(user: UserId, sub: string): Entry -> bool {
    (en: Entry) => en.event.OAuthCallback? && en.event.sub == sub
                   && (en.answer.SignedIn? || en.answer.SignedInNoSession?)
                   && en.answer.user == user && en.answer.how != Existing
  }

  predicate HasEmail(db: Db, user: UserId, email: string) {
    user in db.users && db.users[user].email == email
  }

  predicate HasName(db: Db, user: UserId, name: string) {
    user in db.users && db.users[user].displayName == name
  }

  predicate Holds(db: Db, user: UserId, sub: string) {
    user in db.users && db.users[user].googleSub == Some(sub)
  }

  lemma LocalPartIsUnique(a: string, b: string, email: string)
    requires IsLocalPart(a, email) && IsLocalPart(b, email)
    ensures a == b
  {
    assert forall k :: 0 <= k < |a| ==> a[k] == email[k] && a[k] != '@';
    assert forall k :: 0 <= k < |b| ==> b[k] == email[k] && b[k] != '@';
  }

  /** How one request changes who has which address, name and subject. */
  ghost predicate ProfileStepHolds(db: Db, e: Event, user: UserId, email: string, name: string, sub: string, config: Config) {
    var o := Step(db, e, config);
    var en := Entry(e, o.answer);
    && (HasEmail(o.db, user, email) <==> FoundsWith(user, email)(en) || HasEmail(db, user, email))
    && (HasName(o.db, user, name) <==> FoundsNamed(user, name)(en) || HasName(db, user, name))
    && (Holds(o.db, user, sub) <==> StoresSubject(user, sub)(en) || Holds(db, user, sub))
  }

  /** A new row gives its own user a profile, and a new session gives nobody any. */
  lemma NewProfile(db: Db, id: UserId, row: UserRow, token: string, now: Time, config: Config, done: Answer, failed: Answer,
                   user: UserId, email: string, name: string, sub: string)
    requires id !in db.users
    ensures var o := WithSession(db.(users := db.users[id := row]), id, token, now, config, done, failed);
            && (o.answer == done || o.answer == failed)
            && (HasEmail(o.db, user, email) <==> (user == id && email == row.email) || HasEmail(db, user, email))
            && (HasName(o.db, user, name) <==> (user == id && name == row.displayName) || HasName(db, user, name))
            && (Holds(o.db, user, sub) <==> (user == id && row.googleSub == Some(sub)) || Holds(db, user, sub))
    ensures !HasEmail(db, id, email) && !HasName(db, id, name) && !Holds(db, id, sub)
  {
  }

  lemma NamesIs(e: Event, name: string)
    requires e.Register? || e.OAuthCallback?
    ensures Names(e, name) <==> name == if e.OAuthCallback? && e.name.Some? then e.name.value else BeforeAt(e.email)
  {
    if IsLocalPart(name, e.email) {
      LocalPartIsUnique(name, BeforeAt(e.email), e.email);
    }
  }

  /** A registration either founds this row and its session or changes nothing and signs nobody up. */
  lemma RegisterCases(db: Db, e: Event, config: Config)
    requires e.Register?
    ensures var o := Step(db, e, config);
            var row := UserRow(e.email, BeforeAt(e.email), Some(Argon2(e.password)), None);
            || (e.id !in db.users && o == WithSession(db.(users := db.users[e.id := row]), e.id, e.token, e.now, config, Registered(e.id), RegisteredNoSession(e.id)))
            || (o.db == db && forall u :: !SignsUp(o.answer, u))
  {
    hide ByEmail, WithSession, BeforeAt;
  }

  lemma RegisterProfile(db: Db, e: Event, user: UserId, email: string, name: string, sub: string, config: Config)
    requires e.Register?
    ensures ProfileStepHolds(db, e, user, email, name, sub, config)
  {
    NamesIs(e, name);
    RegisterCases(db, e, config);
    if Step(db, e, config).db != db {
      var row := UserRow(e.email, BeforeAt(e.email), Some(Argon2(e.password)), None);
      NewProfile(db, e.id, row, e.token, e.now, config, Registered(e.id), RegisteredNoSession(e.id), user, email, name, sub);
    }
    hide Step, WithSession, HasEmail, HasName, Holds, BeforeAt, Names;
  }

  lemma SessionKeepsUsers(db: Db, user: UserId, token: string, now: Time, config: Config, done: Answer, failed: Answer)
    ensures var o := WithSession(db, user, token, now, config, done, failed);
            o.db.users == db.users && (o.answer == done || o.answer == failed)
  {
  }

  /** A callback nobody matches either founds this row and its session or changes nothing and signs nobody in. */
  lemma OAuthNewCases(db: Db, e: Event, config: Config)
    requires e.OAuthCallback? && ScalarOneOrNone(BySubOrEmail(db.users, e.sub, e.email)) == NoRow
    ensures var o := Step(db, e, config);
            var row := UserRow(e.email, if e.name.Some? then e.name.value else BeforeAt(e.email), None, Some(e.sub));
            || (e.id !in db.users && o == WithSession(db.(users := db.users[e.id := row]), e.id, e.token, e.now, config, SignedIn(Created, e.id), SignedInNoSession(Created, e.id)))
            || (o.db == db && !o.answer.SignedIn? && !o.answer.SignedInNoSession?)
  {
    hide BySubOrEmail, WithSession, BeforeAt;
  }

  lemma OAuthNewProfile(db: Db, e: Event, user: UserId, email: string, name: string, sub: string, config: Config)
    requires e.OAuthCallback? && ScalarOneOrNone(BySubOrEmail(db.users, e.sub, e.email)) == NoRow
    ensures ProfileStepHolds(db, e, user, email, name, sub, config)
  {
    NamesIs(e, name);
    OAuthNewCases(db, e, config);
    if Step(db, e, config).db != db {
      var row := UserRow(e.email, if e.name.Some? then e.name.value else BeforeAt(e.email), None, Some(e.sub));
      NewProfile(db, e.id, row, e.token, e.now, config, SignedIn(Created, e.id), SignedInNoSession(Created, e.id), user, email, name, sub);
    }
    hide Step, BySubOrEmail, WithSession, HasEmail, HasName, Holds, BeforeAt, Names;
  }

  lemma OAuthKnownProfile(db: Db, e: Event, user: UserId, email: string, name: string, sub: string, config: Config)
    requires e.OAuthCallback? && ScalarOneOrNone(BySubOrEmail(db.users, e.sub, e.email)).OneRow?
    ensures ProfileStepHolds(db, e, user, email, name, sub, config)
  {
    var u := ScalarOneOrNone(BySubOrEmail(db.users, e.sub, e.email)).user;
    assert u in BySubOrEmail(db.users, e.sub, e.email);
    hide BySubOrEmail, WithSession, BeforeAt, Names;
    var linked := db.(users := db.users[u := db.users[u].(googleSub := Some(e.sub))]);
    SessionKeepsUsers(linked, u, e.token, e.now, config, SignedIn(Linked, u), SignedInNoSession(Linked, u));
    SessionKeepsUsers(db, u, e.token, e.now, config, SignedIn(Existing, u), SignedInNoSession(Existing, u));
  }

  lemma OAuthAmbiguousProfile(db: Db, e: Event, user: UserId, email: string, name: string, sub: string, config: Config)
    requires e.OAuthCallback? && ScalarOneOrNone(BySubOrEmail(db.users, e.sub, e.email)).ManyRows?
    ensures ProfileStepHolds(db, e, user, email, name, sub, config)
  {
    hide BySubOrEmail;
  }

  lemma OAuthProfile(db: Db, e: Event, user: UserId, email: string, name: string, sub: string, config: Config)
    requires e.OAuthCallback?
    ensures ProfileStepHolds(db, e, user, email, name, sub, config)
  {
    hide ProfileStepHolds;
    match ScalarOneOrNone(BySubOrEmail(db.users, e.sub, e.email))
    case NoRow => OAuthNewProfile(db, e, user, email, name, sub, config);
    case OneRow(_) => OAuthKnownProfile(db, e, user, email, name, sub, config);
    case ManyRows => OAuthAmbiguousProfile(db, e, user, email, name, sub, config);
  }

  lemma OtherProfile(db: Db, e: Event, user: UserId, email: string, name: string, sub: string, config: Config)
    requires !e.Register? && !e.OAuthCallback?
    ensures ProfileStepHolds(db, e, user, email, name, sub, config)
  {
    if !e.ResetComplete? {
      OthersKeepUsers(db, e, config);
      hide Step;
    }
  }

  /** Every account has the address and name of its creation, and the subject of its creation or linking. */
  lemma {:induction false} ProfilesEqualHistory(run: seq<Event>, user: UserId, email: string, name: string, sub: string, config: Config)
    ensures var db := Exec(run, config); var log := Trace(run, config);
            && (HasEmail(db, user, email) <==> Latest(log, FoundsWith(user, email), Never()))
            && (HasName(db, user, name) <==> Latest(log, FoundsNamed(user, name), Never()))
            && (Holds(db, user, sub) <==> Latest(log, StoresSubject(user, sub), Never()))
  {
    if run != [] {
      var init, e := run[..|run| - 1], run[|run| - 1];
      ProfilesEqualHistory(init, user, email, name, sub, config);
      var db := Exec(init, config);
      if e.Register? {
        RegisterProfile(db, e, user, email, name, sub, config);
      } else if e.OAuthCallback? {
        OAuthProfile(db, e, user, email, name, sub, config);
      } else {
        OtherProfile(db, e, user, email, name, sub, config);
      }
      hide Step, HasEmail, HasName, Holds;
      var log, en := Trace(init, config), Entry(e, Step(db, e, config).answer);
      LatestSnoc(log, en, FoundsWith(user, email), Never());
      LatestSnoc(log, en, FoundsNamed(user, name), Never());
      LatestSnoc(log, en, StoresSubject(user, sub), Never());
    }
  }

  // ------------------------------------------------------------ opened sessions

  /** base, with one more session for the user; or base alone when the drawn token is stored already. */
  ghost predicate OpensSession(base: Db, o: Outcome, user: UserId, e: Event, config: Config, done: Answer, failed: Answer)
    requires e.Register? || e.Login? || e.OAuthCallback?
  {
    var h := Sha256(e.token);
    o == if h in base.sessions then Outcome(base, failed)
         else Outcome(base.(sessions := base.sessions[h := SessionRow(user, e.now + config.sessionTtlDays * DAY)]), done)
  }

  lemma WithSessionOpens(base: Db, user: UserId, e: Event, config: Config, done: Answer, failed: Answer)
    requires e.Register? || e.Login? || e.OAuthCallback?
    ensures OpensSession(base, WithSession(base, user, e.token, e.now, config, done, failed), user, e, config, done, failed)
  {
  }

  // --------------------------------------------------------------- registration

  /** What a registration under a free address does. */
  ghost predicate RegistersNew(db: Db, e: Event, o: Outcome, name: string, config: Config)
    requires e.Register?
  {
    var row := UserRow(e.email, name, Some(Argon2(e.password)), None);
    if e.id in db.users then o == Outcome(db, ServerError500)
    else OpensSession(db.(users := db.users[e.id := row]), o, e.id, e, config, Registered(e.id), RegisteredNoSession(e.id))
  }

  /** A registration founds its account and session iff no account has the address; else nothing changes. */
  lemma RegistrationCreatesIfFree(run: seq<Event>, e: Event, name: string, config: Config)
    requires e.Register? && IsLocalPart(name, e.email)
    ensures var db := Exec(run, config); var o := DoRegister(db, e, config);
            if forall u :: !HasEmail(db, u, e.email) then RegistersNew(db, e, o, name, config)
            else o == Outcome(db, DuplicateEmail)
  {
    var db := Exec(run, config);
    Reachable(run, config);
    AtMostOneRow(ByEmail(db.users, e.email));
    LocalPartIsUnique(name, BeforeAt(e.email), e.email);
    assert forall u: UserId :: u in ByEmail(db.users, e.email) <==> HasEmail(db, u, e.email);
    hide WithSession, OpensSession, Exec;
    if e.id !in db.users {
      var row := UserRow(e.email, name, Some(Argon2(e.password)), None);
      WithSessionOpens(db.(users := db.users[e.id := row]), e.id, e, config, Registered(e.id), RegisteredNoSession(e.id));
    }
    if forall u :: !HasEmail(db, u, e.email) {
      assert ByEmail(db.users, e.email) == {};
    }
  }

  lemma AtMostOneRow(rows: set<UserId>)
    requires forall x, y :: x in rows && y in rows ==> x == y
    ensures !ScalarOneOrNone(rows).ManyRows?
  {
    if rows != {} {
      var x :| x in rows;
      assert rows == {x};
    }
  }

  // ---------------------------------------------------------------------- login

  /** The log makes the address and the password the user's: founded with one, last set to the other. */
  ghost predicate Correct(log: seq<Entry>, user: UserId, email: string, password: string) {
    Latest(log, FoundsWith(user, email), Never()) && Latest(log, SetsPassword(user, password), SetsAnyPassword(user))
  }

  /** The log makes the address and the password nobody's. */
  ghost predicate NobodyCorrect(log: seq<Entry>, email: string, password: string) {
    forall u :: !Correct(log, u, email, password)
  }

  lemma CorrectInTables(run: seq<Event>, user: UserId, email: string, password: string, config: Config)
    ensures var db := Exec(run, config);
            Correct(Trace(run, config), user, email, password) <==>
            HasEmail(db, user, email) && db.users[user].password == Some(Argon2(password))
  {
    hide Step, Latest;
    ProfilesEqualHistory(run, user, email, "", "", config);
    PasswordsEqualHistory(run, user, password, config);
  }

  /** A login whose address and password are no account's: recorded against the IP, answered 401. */
  ghost predicate Refuses(db: Db, e: Event, o: Outcome, config: Config)
    requires e.Login?
  {
    && o == Outcome(db.(failures := Recorded(db.failures, e.ip, e.now, config.limits)), BadCredentials401)
    && e.now in Lookup(o.db.failures, e.ip)
  }

  /** A login with the user's address and password: the IP is cleared and a session opened. */
  ghost predicate LogsIn(db: Db, e: Event, o: Outcome, user: UserId, config: Config)
    requires e.Login?
  {
    OpensSession(db.(failures := db.failures - {e.ip}), o, user, e, config, LoggedIn(user), LoggedInNoSession(user))
  }

  lemma LoginOfMatch(db: Db, e: Event, user: UserId, config: Config)
    requires e.Login? && Invariant(db) && Check(db.failures, e.ip, e.now, config.limits).Admitted?
    ensures HasEmail(db, user, e.email) && db.users[user].password == Some(Argon2(e.password))
            ==> LogsIn(db, e, DoLogin(db, e, config), user, config)
  {
    EmailFinds(db, e.email, user);
    hide Check, WithSession, OpensSession, ByEmail;
    WithSessionOpens(db.(failures := db.failures - {e.ip}), user, e, config, LoggedIn(user), LoggedInNoSession(user));
  }

  lemma LoginOfNoMatch(db: Db, e: Event, config: Config)
    requires e.Login? && Invariant(db) && Check(db.failures, e.ip, e.now, config.limits).Admitted?
    requires forall u :: HasEmail(db, u, e.email) ==> db.users[u].password != Some(Argon2(e.password))
    ensures Refuses(db, e, DoLogin(db, e, config), config)
  {
    AtMostOneRow(ByEmail(db.users, e.email));
    assert forall u: UserId :: u in ByEmail(db.users, e.email) <==> HasEmail(db, u, e.email);
    var m := ScalarOneOrNone(ByEmail(db.users, e.email));
    if m.OneRow? {
      assert m.user in ByEmail(db.users, e.email);
    }
    RecordEvicts(db.failures, e.ip, e.now, config.limits);
    hide Check, WithSession;
  }

  /**
   * An unlocked login is accepted for exactly the account whose address and latest password it
   * gives, and refused and recorded when there is none.
   */
  lemma LoginEqualsHistory(run: seq<Event>, e: Event, config: Config)
    requires e.Login? && Check(Exec(run, config).failures, e.ip, e.now, config.limits).Admitted?
    ensures var db := Exec(run, config); var log := Trace(run, config); var o := DoLogin(db, e, config);
            && (forall u :: Correct(log, u, e.email, e.password) ==> LogsIn(db, e, o, u, config))
            && (NobodyCorrect(log, e.email, e.password) ==> Refuses(db, e, o, config))
  {
    hide Step, Exec, Trace, Check, Correct, DoLogin, LogsIn, Refuses, Invariant;
    Reachable(run, config);
    var db, log := Exec(run, config), Trace(run, config);
    forall u: UserId
      ensures Correct(log, u, e.email, e.password) <==> HasEmail(db, u, e.email) && db.users[u].password == Some(Argon2(e.password))
      ensures Correct(log, u, e.email, e.password) ==> LogsIn(db, e, DoLogin(db, e, config), u, config)
    {
      CorrectInTables(run, u, e.email, e.password, config);
      LoginOfMatch(db, e, u, config);
    }
    if NobodyCorrect(log, e.email, e.password) {
      LoginOfNoMatch(db, e, config);
    }
  }

  /**
   * The record and reset calls the logins of a log call for: unless it was locked out, a login
   * clears its IP when its address and password are an account's, and is recorded otherwise.
   */
  ghost function LimiterCalls(log: seq<Entry>): seq<LimiterEvent> {
    if log == [] then []
    else
      var before, en := log[..|log| - 1], log[|log| - 1];
      LimiterCalls(before) +
      if !en.event.Login? || en.answer.LockedOut429? then []
      else if !NobodyCorrect(before, en.event.email, en.event.password) then [Cleared(en.event.ip)]
      else [Failed(en.event.ip, en.event.now)]
  }

  /** What the next login makes of the limiter's store. */
  ghost function StoreAfter(log: seq<Entry>, store: Store, e: Event, config: Config): Store
    requires e.Login?
  {
    if Check(store, e.ip, e.now, config.limits).TooMany429? then store
    else if !NobodyCorrect(log, e.email, e.password) then store - {e.ip}
    else Recorded(store, e.ip, e.now, config.limits)
  }

  lemma LoginStore(run: seq<Event>, e: Event, config: Config)
    requires e.Login?
    ensures var db := Exec(run, config); var o := DoLogin(db, e, config);
            && o.db.failures == StoreAfter(Trace(run, config), db.failures, e, config)
            && (o.answer.LockedOut429? <==> Check(db.failures, e.ip, e.now, config.limits).TooMany429?)
  {
    var db := Exec(run, config);
    if Check(db.failures, e.ip, e.now, config.limits).Admitted? {
      LoginEqualsHistory(run, e, config);
      hide Step, Exec, Trace, Check, Correct, DoLogin, Recorded;
      if !NobodyCorrect(Trace(run, config), e.email, e.password) {
        var u :| Correct(Trace(run, config), u, e.email, e.password);
        assert LogsIn(db, e, DoLogin(db, e, config), u, config);
      }
    } else {
      hide Step, Exec, Trace, Check, Correct, Recorded;
    }
  }

  lemma OthersKeepFailures(db: Db, e: Event, config: Config)
    requires !e.Login?
    ensures Step(db, e, config).db.failures == db.failures
  {
  }

  lemma ReplaySnoc(calls: seq<LimiterEvent>, c: LimiterEvent, limits: Limits)
    ensures Replay(calls + [c], limits) ==
            if c.Failed? then Recorded(Replay(calls, limits), c.ip, c.at, limits) else Replay(calls, limits) - {c.ip}
  {
    assert (calls + [c])[..|calls|] == calls;
  }

  lemma CallsSnoc(log: seq<Entry>, en: Entry, config: Config)
    requires en.event.Login? ==> (en.answer.LockedOut429? <==>
               Check(Replay(LimiterCalls(log), config.limits), en.event.ip, en.event.now, config.limits).TooMany429?)
    ensures var store := Replay(LimiterCalls(log), config.limits);
            Replay(LimiterCalls(log + [en]), config.limits) ==
            if en.event.Login? then StoreAfter(log, store, en.event, config) else store
  {
    hide Recorded, Check, Correct, Replay;
    assert (log + [en])[..|log|] == log;
    var calls := LimiterCalls(log);
    if en.event.Login? {
      ReplaySnoc(calls, Cleared(en.event.ip), config.limits);
      ReplaySnoc(calls, Failed(en.event.ip, en.event.now), config.limits);
    }
    assert calls + [] == calls;
  }

  lemma {:induction false} FailuresReplayLog(run: seq<Event>, config: Config)
    ensures Exec(run, config).failures == Replay(LimiterCalls(Trace(run, config)), config.limits)
  {
    if run != [] {
      var init, e := run[..|run| - 1], run[|run| - 1];
      FailuresReplayLog(init, config);
      StoreStep(init, e, config);
      hide Step, LimiterCalls, StoreAfter, Check, Replay;
      CallsSnoc(Trace(init, config), Entry(e, Step(Exec(init, config), e, config).answer), config);
    }
  }

  lemma StoreStep(run: seq<Event>, e: Event, config: Config)
    ensures var db := Exec(run, config); var o := Step(db, e, config);
            && o.db.failures == (if e.Login? then StoreAfter(Trace(run, config), db.failures, e, config) else db.failures)
            && (e.Login? ==> (o.answer.LockedOut429? <==> Check(db.failures, e.ip, e.now, config.limits).TooMany429?))
  {
    hide Exec, Trace, StoreAfter, Check;
    if e.Login? {
      LoginStore(run, e, config);
      hide DoLogin;
    } else {
      OthersKeepFailures(Exec(run, config), e, config);
    }
  }

  /**
   * A login is answered 429, with the window as Retry-After and nothing changed, iff the log holds
   * at least `attempts` logins from the same IP inside the window that gave no account's address
   * and password, with no correct one from that IP since.
   */
  lemma LockedIffLogSaysSo(run: seq<Event>, e: Event, config: Config)
    requires e.Login? && NoneLaterThan(LimiterCalls(Trace(run, config)), e.now)
    ensures var o := DoLogin(Exec(run, config), e, config);
            if |LiveFailures(LimiterCalls(Trace(run, config)), e.ip, e.now, config.limits)| >= config.limits.attempts
            then o == Outcome(Exec(run, config), LockedOut429(config.limits.windowSeconds))
            else !o.answer.LockedOut429?
  {
    hide Step, Exec, Trace, LimiterCalls, LiveFailures, WithSession, Check, StoreAfter;
    FailuresReplayLog(run, config);
    EvictionIsInvisible(LimiterCalls(Trace(run, config)), e.ip, e.now, config.limits);
    LoginStore(run, e, config);
  }

  /** The limiter sees a whole login as the serial login of its protocol. */
  lemma LoginIsSerial(run: seq<Event>, e: Event, config: Config)
    requires e.Login?
    ensures var db := Exec(run, config); var o := DoLogin(db, e, config);
            var correct := !NobodyCorrect(Trace(run, config), e.email, e.password);
            L.SerialLogin(db.failures, L.Attempt(e.ip, correct, e.now), config.limits) ==
              (o.db.failures, if o.answer.LockedOut429? then TooMany429(o.answer.retryAfter) else Admitted)
  {
    LoginStore(run, e, config);
    hide Step, Exec, Trace, Check, Correct, Recorded, WithSession;
  }

  // ------------------------------------------------------------ Google callback

  /** The account holds the subject or has the address. */
  predicate Matches(db: Db, user: UserId, e: Event)
    requires e.OAuthCallback?
  {
    Holds(db, user, e.sub) || HasEmail(db, user, e.email)
  }

  /** The one matching account: its subject is set if it had none, and it is signed in. */
  ghost predicate SignsInExisting(db: Db, e: Event, o: Outcome, user: UserId, config: Config)
    requires e.OAuthCallback? && user in db.users
  {
    var row := db.users[user];
    if row.googleSub.Some? then
      OpensSession(db, o, user, e, config, SignedIn(Existing, user), SignedInNoSession(Existing, user))
    else
      var linked := UserRow(row.email, row.displayName, row.password, Some(e.sub));
      OpensSession(db.(users := db.users[user := linked]), o, user, e, config, SignedIn(Linked, user), SignedInNoSession(Linked, user))
  }

  /** No matching account: one is created, without a password, and signed in. */
  ghost predicate SignsInNew(db: Db, e: Event, o: Outcome, name: string, config: Config)
    requires e.OAuthCallback?
  {
    var row := UserRow(e.email, name, None, Some(e.sub));
    if e.id in db.users then o == Outcome(db, ServerError500)
    else OpensSession(db.(users := db.users[e.id := row]), o, e.id, e, config, SignedIn(Created, e.id), SignedInNoSession(Created, e.id))
  }

  lemma MatchesAreRows(db: Db, e: Event)
    requires e.OAuthCallback?
    ensures forall v: UserId :: v in BySubOrEmail(db.users, e.sub, e.email) <==> Matches(db, v, e)
  {
  }

  /**
   * Whom a callback with both claims signs in: the account holding the subject or having the
   * address, linked if it had no subject yet; or a new account when there is none.
   */
  lemma CallbackSignsIn(db: Db, e: Event, user: UserId, name: string, config: Config)
    requires e.OAuthCallback? && e.sub != "" && e.email != "" && Names(e, name)
    ensures var o := DoOAuth(db, e, config);
            && (Matches(db, user, e) && (forall v :: Matches(db, v, e) ==> v == user) ==> SignsInExisting(db, e, o, user, config))
            && ((forall v :: !Matches(db, v, e)) ==> SignsInNew(db, e, o, name, config))
  {
    var rows := BySubOrEmail(db.users, e.sub, e.email);
    MatchesAreRows(db, e);
    if Matches(db, user, e) && forall v :: Matches(db, v, e) ==> v == user {
      assert rows == {user};
      KnownSignsIn(db, e, user, config);
    } else if forall v :: !Matches(db, v, e) {
      assert rows == {};
      NewSignsIn(db, e, name, config);
    }
  }

  lemma KnownSignsIn(db: Db, e: Event, user: UserId, config: Config)
    requires e.OAuthCallback? && e.sub != "" && e.email != "" && user in db.users
    requires ScalarOneOrNone(BySubOrEmail(db.users, e.sub, e.email)) == OneRow(user)
    ensures SignsInExisting(db, e, DoOAuth(db, e, config), user, config)
  {
    hide WithSession, OpensSession, BySubOrEmail;
    var row := db.users[user];
    WithSessionOpens(db, user, e, config, SignedIn(Existing, user), SignedInNoSession(Existing, user));
    var linked := UserRow(row.email, row.displayName, row.password, Some(e.sub));
    WithSessionOpens(db.(users := db.users[user := linked]), user, e, config, SignedIn(Linked, user), SignedInNoSession(Linked, user));
  }

  lemma NewSignsIn(db: Db, e: Event, name: string, config: Config)
    requires e.OAuthCallback? && e.sub != "" && e.email != "" && Names(e, name)
    requires ScalarOneOrNone(BySubOrEmail(db.users, e.sub, e.email)) == NoRow
    ensures SignsInNew(db, e, DoOAuth(db, e, config), name, config)
  {
    hide WithSession, OpensSession, BySubOrEmail;
    if e.name.None? {
      LocalPartIsUnique(name, BeforeAt(e.email), e.email);
    }
    var row := UserRow(e.email, name, None, Some(e.sub));
    WithSessionOpens(db.(users := db.users[e.id := row]), e.id, e, config, SignedIn(Created, e.id), SignedInNoSession(Created, e.id));
  }

  /** A callback lacking a claim is rejected, one matching two accounts fails; neither changes anything. */
  lemma AmbiguousCallbackChangesNothing(db: Db, e: Event, u: UserId, v: UserId, config: Config)
    requires e.OAuthCallback?
    ensures e.sub == "" || e.email == "" ==> DoOAuth(db, e, config) == Outcome(db, OAuthRejected)
    ensures e.sub != "" && e.email != "" && u != v && Matches(db, u, e) && Matches(db, v, e) ==>
              DoOAuth(db, e, config) == Outcome(db, ServerError500)
  {
    MatchesAreRows(db, e);
    var rows := BySubOrEmail(db.users, e.sub, e.email);
    if u != v && Matches(db, u, e) && Matches(db, v, e) {
      assert u in rows && v in rows;
      assert forall w: UserId :: rows != {w};
    }
  }

  // ------------------------------------------------------------- reset requests

  /** What a reset request for the account does: a token for one hour, unless it is stored already. */
  ghost predicate MailsReset(db: Db, e: Event, o: Outcome, user: UserId)
    requires e.ResetRequest?
  {
    var h := Sha256(e.token);
    o == if h in db.resets then Outcome(db, ServerError500)
         else Outcome(db.(resets := db.resets[h := ResetRow(user, e.now + HOUR, None)]), ResetMailed(user))
  }

  /** A reset token is mailed to exactly the account with the address, if it has a password. */
  lemma MailGoesToPasswordAccounts(run: seq<Event>, e: Event, user: UserId, config: Config)
    requires e.ResetRequest?
    ensures var db := Exec(run, config); var o := DoResetRequest(db, e);
            && (HasEmail(db, user, e.email) && db.users[user].password.Some? ==> MailsReset(db, e, o, user))
            && ((forall u :: HasEmail(db, u, e.email) ==> db.users[u].password.None?) ==> o == Outcome(db, ResetIgnored))
  {
    var db := Exec(run, config);
    Reachable(run, config);
    EmailFinds(db, e.email, user);
    AtMostOneRow(ByEmail(db.users, e.email));
    assert forall u: UserId :: u in ByEmail(db.users, e.email) <==> HasEmail(db, u, e.email);
    hide Exec, Invariant, ByEmail;
  }

  // --------------------------------------------------------------------- frames

  /** Which tables a request can change at all, and what the read-only and logout handlers do. */
  lemma OnlyOwnTables(db: Db, e: Event, config: Config)
    ensures var o := Step(db, e, config);
            && (e.SessionInfo? || e.ResetValidate? ==> o.db == db)
            && (e.Logout? ==> o == Outcome(db.(sessions := if e.cookie.Some? && e.cookie.value != ""
                                                           then db.sessions - {Sha256(e.cookie.value)} else db.sessions), LoggedOut))
            && (e.Login? || e.ResetRequest? ==> o.db.users == db.users)
            && (e.ResetRequest? ==> o.db.sessions == db.sessions)
            && (!e.Login? ==> o.db.failures == db.failures)
            && (!e.ResetRequest? && !e.ResetComplete? ==> o.db.resets == db.resets)
  {
    hide Check, Recorded, Resolve;
    assert db.(sessions := db.sessions) == db;
    if !e.ResetRequest? && !e.ResetComplete? {
      OthersKeepResets(db, e, config);
    }
    if e.Login? || e.ResetRequest? {
      OthersKeepUsers(db, e, config);
    }
    if !e.Login? {
      OthersKeepFailures(db, e, config);
    }
  }
}
