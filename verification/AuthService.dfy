/** The auth handlers, changing the users, sessions and reset_tokens tables in place. */
module AuthService {
  import opened Wrappers
  import opened RateLimiter
  import opened Accounts

  class AuthService {
    const config: Config
    const limiter: LoginLimiter
    var users: map<UserId, UserRow>
    var sessions: map<TokenHash, SessionRow>
    var resets: map<TokenHash, ResetRow>

    constructor (config: Config)
      ensures Valid() && fresh(limiter) && this.config == config && Tables() == EMPTY
    {
      this.config := config;
      limiter := new LoginLimiter(config.limits);
      users, sessions, resets := map[], map[], map[];
    }

    /** The limiter was set up from the same settings. */
    ghost predicate Valid() {
      limiter.limits == config.limits
    }

    ghost function Tables(): Db
      reads this, limiter
    {
      Db(users, sessions, resets, limiter.store)
    }

    method One(rows: set<UserId>) returns (m: Match)
      ensures m == ScalarOneOrNone(rows)
    {
      if rows == {} {
        return NoRow;
      }
      var u :| u in rows;
      if rows == {u} {
        return OneRow(u);
      }
      return ManyRows;
    }

    // ------------------------------------------------------------- sessions

    /** False when the token's hash is already stored: the UNIQUE constraint fails the INSERT. */
    method CreateSession(user: UserId, token: string, now: Time) returns (ok: bool)
      modifies this`sessions
      ensures ok <==> OpenSession(old(Tables()), user, token, now, config).Some?
      ensures Tables() == if ok then OpenSession(old(Tables()), user, token, now, config).value else old(Tables())
    {
      var h := Sha256(token);
      if h in sessions {
        return false;
      }
      sessions := sessions[h := SessionRow(user, now + SessionTtl(config))];
      return true;
    }

    method GetSessionUser(token: string, now: Time) returns (user: Option<UserId>)
      ensures user == Resolve(Tables(), token, now)
    {
      var h := Sha256(token);
      if h in sessions && sessions[h].expiresAt > now && sessions[h].user in users {
        return Some(sessions[h].user);
      }
      return None;
    }

    /** Exactly the session of this token is gone. */
    method InvalidateSession(token: string)
      modifies this`sessions
      ensures sessions == old(sessions) - {Sha256(token)}
    {
      sessions := sessions - {Sha256(token)};
    }

    /** Exactly the sessions of other users remain. */
    method InvalidateAllUserSessions(user: UserId)
      modifies this`sessions
      ensures sessions == SessionsOfOthers(old(sessions), user)
    {
      sessions := map h | h in sessions && sessions[h].user != user :: sessions[h];
    }

    // ------------------------------------------------------------- handlers

    method Register(email: string, password: string, id: UserId, token: string, now: Time) returns (a: Answer)
      modifies this
      ensures Step(old(Tables()), Event.Register(email, password, id, token, now), config) == Outcome(Tables(), a)
    {
      var existing := One(ByEmail(users, email));
      if existing.ManyRows? {
        return ServerError500;
      }
      if existing.OneRow? {
        return DuplicateEmail;
      }
      if id in users {
        return ServerError500;
      }
      users := users[id := UserRow(email, BeforeAt(email), Some(Argon2(password)), None)];
      var ok := CreateSession(id, token, now);
      return if ok then Registered(id) else RegisteredNoSession(id);
    }

    method Login(email: string, password: string, ip: Ip, token: string, now: Time) returns (a: Answer)
      requires Valid()
      modifies this, limiter
      ensures Step(old(Tables()), Event.Login(email, password, ip, token, now), config) == Outcome(Tables(), a)
    {
      var verdict := limiter.CheckLoginRateLimit(ip, now);
      if verdict.TooMany429? {
        return LockedOut429(verdict.retryAfter);
      }
      var found := One(ByEmail(users, email));
      if found.ManyRows? {
        return ServerError500;
      }
      assert found.OneRow? ==> found.user in ByEmail(users, email);
      if found.NoRow? || users[found.user].password.None? {
        limiter.RecordFailedLogin(ip, now);
        return BadCredentials401;
      }
      if users[found.user].password.value != Argon2(password) {
        limiter.RecordFailedLogin(ip, now);
        return BadCredentials401;
      }
      limiter.ResetFailedLogins(ip);
      var ok := CreateSession(found.user, token, now);
      return if ok then LoggedIn(found.user) else LoggedInNoSession(found.user);
    }

    method Logout(cookie: Option<string>) returns (a: Answer)
      modifies this
      ensures Step(old(Tables()), Event.Logout(cookie), config) == Outcome(Tables(), a)
    {
      if cookie.Some? && cookie.value != "" {
        InvalidateSession(cookie.value);
      }
      return LoggedOut;
    }

    method RequireAuth(cookie: Option<string>, now: Time) returns (a: Answer)
      ensures Step(Tables(), Event.SessionInfo(cookie, now), config) == Outcome(Tables(), a)
    {
      if cookie.None? {
        return Unauthenticated401;
      }
      var user := GetSessionUser(cookie.value, now);
      return if user.Some? then CurrentUser(user.value) else Unauthenticated401;
    }

    method PasswordResetRequest(email: string, token: string, now: Time) returns (a: Answer)
      modifies this
      ensures Step(old(Tables()), Event.ResetRequest(email, token, now), config) == Outcome(Tables(), a)
    {
      var found := One(ByEmail(users, email));
      if found.ManyRows? {
        return ServerError500;
      }
      assert found.OneRow? ==> found.user in ByEmail(users, email);
      if found.NoRow? || users[found.user].password.None? {
        return ResetIgnored;
      }
      var h := Sha256(token);
      if h in resets {
        return ServerError500;
      }
      resets := resets[h := ResetRow(found.user, now + RESET_TTL, None)];
      return ResetMailed(found.user);
    }

    method PasswordResetValidate(token: string, now: Time) returns (a: Answer)
      ensures Step(Tables(), Event.ResetValidate(token, now), config) == Outcome(Tables(), a)
    {
      var h := Sha256(token);
      if h in resets && resets[h].expiresAt > now && resets[h].usedAt.None? {
        return TokenValid;
      }
      return TokenInvalid400;
    }

    /** Marks the token used, sets the password and drops the user's sessions, in one transaction. */
    method PasswordResetComplete(token: string, newPassword: string, now: Time) returns (a: Answer)
      modifies this
      ensures Step(old(Tables()), Event.ResetComplete(token, newPassword, now), config) == Outcome(Tables(), a)
    {
      var h := Sha256(token);
      if h !in resets || resets[h].expiresAt <= now || resets[h].usedAt.Some? {
        return TokenInvalid400;
      }
      var user := resets[h].user;
      if user !in users {
        return ServerError500;
      }
      resets := resets[h := resets[h].(usedAt := Some(now))];
      users := users[user := users[user].(password := Some(Argon2(newPassword)))];
      InvalidateAllUserSessions(user);
      return ResetDone(user);
    }

    method OAuthGoogleCallback(sub: string, email: string, name: Option<string>, id: UserId, token: string, now: Time)
      returns (a: Answer)
      modifies this
      ensures Step(old(Tables()), Event.OAuthCallback(sub, email, name, id, token, now), config) == Outcome(Tables(), a)
    {
      var displayName := if name.Some? then name.value else BeforeAt(email);
      if sub == "" || email == "" {
        return OAuthRejected;
      }
      var found := One(BySubOrEmail(users, sub, email));
      if found.ManyRows? {
        return ServerError500;
      }
      var how, user;
      if found.NoRow? {
        if id in users {
          return ServerError500;
        }
        how, user := Created, id;
        users := users[id := UserRow(email, displayName, None, Some(sub))];
      } else {
        user := found.user;
        assert user in BySubOrEmail(users, sub, email);
        if users[user].googleSub.None? {
          how := Linked;
          users := users[user := users[user].(googleSub := Some(sub))];
        } else {
          how := Existing;
        }
      }
      var ok := CreateSession(user, token, now);
      return if ok then SignedIn(how, user) else SignedInNoSession(how, user);
    }
  }
}
