/** Logins as they interleave: the check, the database awaits, then record or reset. */
module LoginProtocol {
  import opened RateLimiter

  /** Arrive runs the check; Finish ends an admitted login's password comparison; Abort is an
      exception before it, which neither records nor resets. */
  datatype LoginEvent =
    | Arrive(id: nat, ip: Ip, at: Time)
    | Finish(id: nat, accepted: bool, at: Time)
    | Abort(id: nat, at: Time)

  /** inFlight maps each admitted, unfinished login to its IP. */
  datatype LoginState = LoginState(store: Store, inFlight: map<nat, Ip>)

  const IDLE := LoginState(map[], map[])

  function LoginStep(s: LoginState, e: LoginEvent, limits: Limits): LoginState {
    match e
    case Arrive(id, ip, at) =>
      if id in s.inFlight || Check(s.store, ip, at, limits).TooMany429? then s
      else s.(inFlight := s.inFlight[id := ip])
    case Finish(id, accepted, at) =>
      if id !in s.inFlight then s
      else
        var ip := s.inFlight[id];
        var store := if accepted then s.store - {ip} else Recorded(s.store, ip, at, limits);
        LoginState(store, s.inFlight - {id})
    case Abort(id, _) => s.(inFlight := s.inFlight - {id})
  }

  function Exec(run: seq<LoginEvent>, limits: Limits): LoginState {
    if run == [] then IDLE else LoginStep(Exec(run[..|run| - 1], limits), run[|run| - 1], limits)
  }

  function InFlight(s: LoginState, ip: Ip): set<nat> {
    set id | id in s.inFlight && s.inFlight[id] == ip
  }

  /** The record and reset calls a run makes, in order. */
  function Calls(run: seq<LoginEvent>, limits: Limits): seq<LimiterEvent> {
    if run == [] then []
    else
      var init, e := run[..|run| - 1], run[|run| - 1];
      var s := Exec(init, limits);
      Calls(init, limits) +
      if e.Finish? && e.id in s.inFlight
      then [if e.accepted then Cleared(s.inFlight[e.id]) else Failed(s.inFlight[e.id], e.at)]
      else []
  }

  predicate NotAfter(run: seq<LoginEvent>, now: Time) {
    forall i :: 0 <= i < |run| ==> run[i].at <= now
  }

  /** At every moment of the run at most k logins of this IP are between check and record. */
  ghost predicate AtMostInFlight(run: seq<LoginEvent>, ip: Ip, k: nat, limits: Limits) {
    forall n :: 0 <= n <= |run| ==> |InFlight(Exec(run[..n], limits), ip)| <= k
  }

  lemma {:induction false} StoreReplaysCalls(run: seq<LoginEvent>, limits: Limits, now: Time)
    requires NotAfter(run, now)
    ensures Exec(run, limits).store == Replay(Calls(run, limits), limits)
    ensures NoneLaterThan(Calls(run, limits), now)
  {
    if run != [] {
      var init := run[..|run| - 1];
      StoreReplaysCalls(init, limits, now);
      var calls := Calls(run, limits);
      if calls != Calls(init, limits) {
        assert calls[..|calls| - 1] == Calls(init, limits);
      }
    }
  }

  lemma AtMostInFlightInit(run: seq<LoginEvent>, ip: Ip, k: nat, limits: Limits)
    requires run != [] && AtMostInFlight(run, ip, k, limits)
    ensures AtMostInFlight(run[..|run| - 1], ip, k, limits)
    ensures |InFlight(Exec(run, limits), ip)| <= k
  {
    var init := run[..|run| - 1];
    forall n | 0 <= n <= |init| ensures |InFlight(Exec(init[..n], limits), ip)| <= k {
      assert init[..n] == run[..n];
    }
    assert run[..|run|] == run;
  }

  lemma FinishLeaves(s: LoginState, e: LoginEvent, ip: Ip, limits: Limits)
    requires (e.Finish? || e.Abort?) && e.id in s.inFlight
    ensures InFlight(LoginStep(s, e, limits), ip) == InFlight(s, ip) - {e.id}
    ensures s.inFlight[e.id] == ip ==> |InFlight(LoginStep(s, e, limits), ip)| == |InFlight(s, ip)| - 1
    ensures s.inFlight[e.id] != ip ==> |InFlight(LoginStep(s, e, limits), ip)| == |InFlight(s, ip)|
  {
    var after := InFlight(LoginStep(s, e, limits), ip);
    assert after == InFlight(s, ip) - {e.id};
    if s.inFlight[e.id] == ip {
      assert e.id in InFlight(s, ip);
    } else {
      assert after == InFlight(s, ip);
    }
  }

  /** The inductive invariant: live failures plus logins past the check. */
  lemma {:induction false} LockoutInvariant(run: seq<LoginEvent>, ip: Ip, k: nat, now: Time, limits: Limits)
    requires NotAfter(run, now) && AtMostInFlight(run, ip, k, limits)
    ensures var s := Exec(run, limits);
            |Recent(Lookup(s.store, ip), now, Window(limits))| + |InFlight(s, ip)| <= limits.attempts - 1 + k
  {
    var s := Exec(run, limits);
    if run == [] {
      assert InFlight(s, ip) == {};
    } else {
      var init, e := run[..|run| - 1], run[|run| - 1];
      AtMostInFlightInit(run, ip, k, limits);
      LockoutInvariant(init, ip, k, now, limits);
      LockoutInvariantStep(Exec(init, limits), e, ip, k, now, limits);
    }
  }

  lemma LockoutInvariantStep(before: LoginState, e: LoginEvent, ip: Ip, k: nat, now: Time, limits: Limits)
    requires e.at <= now
    requires |Recent(Lookup(before.store, ip), now, Window(limits))| + |InFlight(before, ip)| <= limits.attempts - 1 + k
    requires |InFlight(LoginStep(before, e, limits), ip)| <= k
    ensures var s := LoginStep(before, e, limits);
            |Recent(Lookup(s.store, ip), now, Window(limits))| + |InFlight(s, ip)| <= limits.attempts - 1 + k
  {
    var times, w := Lookup(before.store, ip), Window(limits);
    match e
    case Arrive(id, other, at) =>
      if id !in before.inFlight && Check(before.store, other, at, limits).Admitted? {
        if other == ip {
          RecentShrinks(times, at, now, w);
        } else {
          assert InFlight(LoginStep(before, e, limits), ip) == InFlight(before, ip);
        }
      }
    case Finish(id, accepted, at) =>
      if id in before.inFlight {
        FinishLeaves(before, e, ip, limits);
        if before.inFlight[id] == ip && !accepted {
          RecentAppend(Recent(times, at, w), at, now, w);
          RecentOfRecent(times, at, now, w);
        }
      }
    case Abort(id, _) =>
      if id in before.inFlight {
        FinishLeaves(before, e, ip, limits);
      } else {
        assert LoginStep(before, e, limits).inFlight == before.inFlight;
      }
  }

  /**
   * With at most k logins of an IP in flight, the failures recorded since its last reset and
   * still inside the window never exceed attempts - 1 + k, at any moment of any interleaving.
   */
  lemma LockoutBound(run: seq<LoginEvent>, ip: Ip, k: nat, now: Time, limits: Limits)
    requires NotAfter(run, now) && AtMostInFlight(run, ip, k, limits)
    ensures |LiveFailures(Calls(run, limits), ip, now, limits)| <= limits.attempts - 1 + k
  {
    LockoutInvariant(run, ip, k, now, limits);
    StoreReplaysCalls(run, limits, now);
    PrunedCountsHistory(Calls(run, limits), ip, now, limits);
  }

  // --------------------------------------------------------- the bound is attained

  /**
   * `serial` logins that arrive and fail one after the other, then `together` that pass the
   * check before any of them ends, of which `landed` have failed since.
   */
  function Burst(ip: Ip, serial: nat, together: nat, landed: nat): seq<LoginEvent>
    decreases serial, together, landed
  {
    if landed > 0 then Burst(ip, serial, together, landed - 1) + [Finish(serial + landed, false, 0)]
    else if together > 0 then Burst(ip, serial, together - 1, 0) + [Arrive(serial + together, ip, 0)]
    else if serial > 0 then Burst(ip, serial - 1, 1, 1)
    else []
  }

  function Zeros(n: nat): seq<Time> {
    seq(n, _ => 0)
  }

  lemma {:induction false} ZerosAreRecent(n: nat, limits: Limits)
    ensures Recent(Zeros(n), 0, Window(limits)) == Zeros(n)
  {
    if n > 0 {
      assert Zeros(n)[..n - 1] == Zeros(n - 1);
      ZerosAreRecent(n - 1, limits);
    }
  }

  /** The logins from+1..upTo, all of one IP, are in flight and no other. */
  ghost predicate Flying(s: LoginState, ip: Ip, failures: nat, from: nat, upTo: nat) {
    && Lookup(s.store, ip) == Zeros(failures)
    && (forall id :: id in s.inFlight <==> from < id <= upTo)
    && (forall id :: id in s.inFlight ==> s.inFlight[id] == ip)
  }

  lemma FlyingArrive(s: LoginState, ip: Ip, failures: nat, upTo: nat, limits: Limits)
    requires Flying(s, ip, failures, failures, upTo) && failures < limits.attempts && failures <= upTo
    ensures Flying(LoginStep(s, Arrive(upTo + 1, ip, 0), limits), ip, failures, failures, upTo + 1)
  {
    ZerosAreRecent(failures, limits);
  }

  lemma FlyingFinish(s: LoginState, ip: Ip, failures: nat, upTo: nat, limits: Limits)
    requires Flying(s, ip, failures, failures, upTo) && failures < upTo
    ensures Flying(LoginStep(s, Finish(failures + 1, false, 0), limits), ip, failures + 1, failures + 1, upTo)
  {
    ZerosAreRecent(failures, limits);
    assert Zeros(failures) + [0] == Zeros(failures + 1);
  }

  lemma {:induction false} FlyingSize(s: LoginState, ip: Ip, failures: nat, from: nat, upTo: nat)
    requires from <= upTo && Flying(s, ip, failures, from, upTo)
    ensures |InFlight(s, ip)| == upTo - from
    decreases upTo - from
  {
    if from == upTo {
      assert InFlight(s, ip) == {};
    } else {
      var fewer := s.(inFlight := s.inFlight - {upTo});
      FlyingSize(fewer, ip, failures, from, upTo - 1);
      assert InFlight(s, ip) == InFlight(fewer, ip) + {upTo};
    }
  }

  lemma AtMostInFlightSnoc(run: seq<LoginEvent>, e: LoginEvent, ip: Ip, k: nat, limits: Limits)
    requires AtMostInFlight(run, ip, k, limits)
    requires |InFlight(LoginStep(Exec(run, limits), e, limits), ip)| <= k
    ensures AtMostInFlight(run + [e], ip, k, limits)
    ensures Exec(run + [e], limits) == LoginStep(Exec(run, limits), e, limits)
  {
    hide LoginStep;
    var longer := run + [e];
    assert longer[..|run|] == run && longer[..|longer|] == longer;
    forall n | 0 <= n <= |run| ensures |InFlight(Exec(longer[..n], limits), ip)| <= k {
      assert longer[..n] == run[..n];
    }
  }

  /** A run at time 0, never more than k in flight, that ends with these failures and flights. */
  ghost predicate Reaches(run: seq<LoginEvent>, ip: Ip, failures: nat, upTo: nat, k: nat, limits: Limits) {
    && Flying(Exec(run, limits), ip, failures, failures, upTo)
    && AtMostInFlight(run, ip, k, limits)
    && NotAfter(run, 0)
  }

  lemma ReachesArrive(run: seq<LoginEvent>, ip: Ip, failures: nat, upTo: nat, k: nat, limits: Limits)
    requires Reaches(run, ip, failures, upTo, k, limits) && failures < limits.attempts && failures <= upTo < failures + k
    ensures Reaches(run + [Arrive(upTo + 1, ip, 0)], ip, failures, upTo + 1, k, limits)
  {
    var e := Arrive(upTo + 1, ip, 0);
    FlyingArrive(Exec(run, limits), ip, failures, upTo, limits);
    FlyingSize(LoginStep(Exec(run, limits), e, limits), ip, failures, failures, upTo + 1);
    AtMostInFlightSnoc(run, e, ip, k, limits);
  }

  lemma ReachesFinish(run: seq<LoginEvent>, ip: Ip, failures: nat, upTo: nat, k: nat, limits: Limits)
    requires Reaches(run, ip, failures, upTo, k, limits) && failures < upTo <= failures + k
    ensures Reaches(run + [Finish(failures + 1, false, 0)], ip, failures + 1, upTo, k, limits)
  {
    var e := Finish(failures + 1, false, 0);
    FlyingFinish(Exec(run, limits), ip, failures, upTo, limits);
    FlyingSize(LoginStep(Exec(run, limits), e, limits), ip, failures + 1, failures + 1, upTo);
    AtMostInFlightSnoc(run, e, ip, k, limits);
  }

  lemma ReachesNothing(ip: Ip, k: nat, limits: Limits)
    ensures Reaches([], ip, 0, 0, k, limits)
  {
    assert InFlight(IDLE, ip) == {};
  }

  lemma {:induction false} BurstReaches(ip: Ip, serial: nat, together: nat, landed: nat, k: nat, limits: Limits)
    requires serial < limits.attempts && landed <= together <= k && 1 <= k
    ensures Reaches(Burst(ip, serial, together, landed), ip, serial + landed, serial + together, k, limits)
    decreases serial, together, landed
  {
    hide Reaches;
    if landed > 0 {
      BurstReaches(ip, serial, together, landed - 1, k, limits);
      ReachesFinish(Burst(ip, serial, together, landed - 1), ip, serial + landed - 1, serial + together, k, limits);
    } else if together > 0 {
      BurstReaches(ip, serial, together - 1, 0, k, limits);
      ReachesArrive(Burst(ip, serial, together - 1, 0), ip, serial, serial + together - 1, k, limits);
    } else if serial > 0 {
      BurstReaches(ip, serial - 1, 1, 1, k, limits);
    } else {
      ReachesNothing(ip, k, limits);
    }
  }

  lemma ReachedFailures(run: seq<LoginEvent>, ip: Ip, failures: nat, upTo: nat, k: nat, limits: Limits)
    requires Reaches(run, ip, failures, upTo, k, limits)
    ensures |LiveFailures(Calls(run, limits), ip, 0, limits)| == failures
  {
    hide Calls, Exec, AtMostInFlight, LiveFailures;
    ZerosAreRecent(failures, limits);
    StoreReplaysCalls(run, limits, 0);
    PrunedCountsHistory(Calls(run, limits), ip, 0, limits);
  }

  /** No smaller bound holds: for every k >= 1 some interleaving reaches attempts - 1 + k. */
  lemma LockoutBoundIsTight(ip: Ip, k: nat, limits: Limits)
    requires 1 <= k
    ensures exists run :: NotAfter(run, 0) && AtMostInFlight(run, ip, k, limits)
              && |LiveFailures(Calls(run, limits), ip, 0, limits)| == limits.attempts - 1 + k
  {
    hide Calls, Exec, AtMostInFlight, LiveFailures, Burst;
    var serial := limits.attempts - 1;
    BurstReaches(ip, serial, k, k, k, limits);
    ReachedFailures(Burst(ip, serial, k, k), ip, serial + k, serial + k, k, limits);
  }

  // ------------------------------------------------- lockouts end, serial logins

  /** One whole login request: nothing runs between its check and its outcome. */
  datatype Attempt = Attempt(ip: Ip, accepted: bool, at: Time)

  function SerialLogin(store: Store, a: Attempt, limits: Limits): (Store, Verdict) {
    var verdict := Check(store, a.ip, a.at, limits);
    if verdict.TooMany429? then (store, verdict)
    else (if a.accepted then store - {a.ip} else Recorded(store, a.ip, a.at, limits), verdict)
  }

  function SerialLogins(store: Store, tries: seq<Attempt>, limits: Limits): Store {
    if tries == [] then store
    else SerialLogin(SerialLogins(store, tries[..|tries| - 1], limits), tries[|tries| - 1], limits).0
  }

  /** A serial login is the two-step protocol run with nothing in between. */
  lemma SerialIsArriveFinish(s: LoginState, a: Attempt, id: nat, limits: Limits)
    requires id !in s.inFlight
    ensures var after := LoginStep(LoginStep(s, Arrive(id, a.ip, a.at), limits), Finish(id, a.accepted, a.at), limits);
            after == s.(store := SerialLogin(s.store, a, limits).0)
  {
    var arrived := LoginStep(s, Arrive(id, a.ip, a.at), limits);
    if Check(s.store, a.ip, a.at, limits).Admitted? {
      assert arrived.inFlight - {id} == s.inFlight;
    }
  }

  /** Every try on this IP falls at or after t and before the unlock time. */
  ghost predicate Within(tries: seq<Attempt>, ip: Ip, t: Time, unlock: Time) {
    forall a :: a in tries && a.ip == ip ==> t <= a.at < unlock
  }

  ghost predicate AllRefused(store: Store, tries: seq<Attempt>, ip: Ip, limits: Limits) {
    forall i :: 0 <= i < |tries| && tries[i].ip == ip ==>
      SerialLogin(SerialLogins(store, tries[..i], limits), tries[i], limits).1 == TooMany429(limits.windowSeconds)
  }

  /** Whatever is tried during a lockout is refused and leaves the IP's failures alone. */
  lemma {:induction false} LockoutHolds(store: Store, ip: Ip, t: Time, tries: seq<Attempt>, limits: Limits)
    requires OrderedUpTo(Lookup(store, ip), t) && |Lookup(store, ip)| >= limits.attempts
    requires Within(tries, ip, t, UnlockTime(Lookup(store, ip), limits))
    ensures Lookup(SerialLogins(store, tries, limits), ip) == Lookup(store, ip)
    ensures AllRefused(store, tries, ip, limits)
  {
    if tries != [] {
      var init, a := tries[..|tries| - 1], tries[|tries| - 1];
      assert a in tries && forall b :: b in init ==> b in tries;
      LockoutHolds(store, ip, t, init, limits);
      var before := SerialLogins(store, init, limits);
      if a.ip == ip {
        BlockedUntilUnlock(before, ip, a.at, t, limits);
      }
      forall i | 0 <= i < |tries| && tries[i].ip == ip
        ensures SerialLogin(SerialLogins(store, tries[..i], limits), tries[i], limits).1 == TooMany429(limits.windowSeconds)
      {
        if i < |init| {
          assert init[..i] == tries[..i] && init[i] == tries[i];
        }
      }
    }
  }

  /**
   * After any history, a lockout seen at time t refuses every try until its unlock time and
   * admits from then on, whatever was tried meanwhile; waiting the Retry-After seconds is enough.
   */
  lemma LockoutEnds(history: seq<LimiterEvent>, ip: Ip, t: Time, tries: seq<Attempt>, now: Time, limits: Limits)
    requires ClockMoves(history) && NoneLaterThan(history, t)
    requires Check(Replay(history, limits), ip, t, limits).TooMany429?
    ensures |Lookup(Replay(history, limits), ip)| >= limits.attempts
    ensures var store := Replay(history, limits);
            var unlock := UnlockTime(Lookup(store, ip), limits);
            && t < unlock <= t + Check(store, ip, t, limits).retryAfter * TICKS_PER_SECOND
            && (Within(tries, ip, t, unlock) ==>
                  && AllRefused(store, tries, ip, limits)
                  && (Check(SerialLogins(store, tries, limits), ip, now, limits).Admitted? <==> unlock <= now))
  {
    var store := Replay(history, limits);
    StoresAreSorted(history, ip, t, limits);
    BlockedUntilUnlock(store, ip, t, t, limits);
    var unlock := UnlockTime(Lookup(store, ip), limits);
    if Within(tries, ip, t, unlock) {
      LockoutHolds(store, ip, t, tries, limits);
      BlockedUntilUnlock(SerialLogins(store, tries, limits), ip, now, t, limits);
    }
  }
}
