/** The in-memory failed-login limiter: a pruned list of failure times per IP. */
module RateLimiter {
  type Ip = string
  type Time = int  // microseconds, the resolution of the source's timestamps

  const TICKS_PER_SECOND: nat := 1_000_000

  datatype RawLimits = RawLimits(attempts: nat, windowSeconds: nat)
  type Limits = s: RawLimits | 1 <= s.attempts && 1 <= s.windowSeconds witness RawLimits(10, 900)

  type Store = map<Ip, seq<Time>>

  function Window(limits: Limits): int {
    limits.windowSeconds * TICKS_PER_SECOND
  }

  function Lookup(store: Store, ip: Ip): seq<Time> {
    if ip in store then store[ip] else []
  }

  /** The entries still inside the window, in order. */
  function Recent(times: seq<Time>, now: Time, window: int): seq<Time> {
    if times == [] then []
    else
      var last := times[|times| - 1];
      Recent(times[..|times| - 1], now, window) + if now - last < window then [last] else []
  }

  function Recorded(store: Store, ip: Ip, now: Time, limits: Limits): Store {
    store[ip := Recent(Lookup(store, ip), now, Window(limits)) + [now]]
  }

  predicate Blocked(store: Store, ip: Ip, now: Time, limits: Limits) {
    |Recent(Lookup(store, ip), now, Window(limits))| >= limits.attempts
  }

  /** The answer of the check; retryAfter is the Retry-After header, in seconds. */
  datatype Verdict = Admitted | TooMany429(retryAfter: nat)

  function Check(store: Store, ip: Ip, now: Time, limits: Limits): Verdict {
    if Blocked(store, ip, now, limits) then TooMany429(limits.windowSeconds) else Admitted
  }

  class LoginLimiter {
    const limits: Limits
    var store: Store

    constructor (limits: Limits)
      ensures this.limits == limits && store == map[]
    {
      this.limits := limits;
      store := map[];
    }

    method RecordFailedLogin(ip: Ip, now: Time)
      modifies this
      ensures store == Recorded(old(store), ip, now, limits)
    {
      var attempts := if ip in store then store[ip] else [];
      store := store[ip := Recent(attempts, now, Window(limits))];
      store := store[ip := store[ip] + [now]];
    }

    method CheckLoginRateLimit(ip: Ip, now: Time) returns (verdict: Verdict)
      ensures verdict == Check(store, ip, now, limits)
    {
      var attempts := if ip in store then store[ip] else [];
      var recent := Recent(attempts, now, Window(limits));
      if |recent| >= limits.attempts {
        return TooMany429(limits.windowSeconds);
      }
      return Admitted;
    }

    method ResetFailedLogins(ip: Ip)
      modifies this
      ensures store == old(store) - {ip}
    {
      store := store - {ip};
    }
  }

  // ---------------------------------------------------------------- the window

  lemma RecentAppend(a: seq<Time>, t: Time, now: Time, window: int)
    ensures Recent(a + [t], now, window) == Recent(a, now, window) + if now - t < window then [t] else []
  {
    assert (a + [t])[..|a|] == a;
  }

  /** Evicting at an earlier time loses nothing that a later look would see. */
  lemma {:induction false} RecentOfRecent(times: seq<Time>, earlier: Time, now: Time, window: int)
    requires earlier <= now
    ensures Recent(Recent(times, earlier, window), now, window) == Recent(times, now, window)
  {
    if times != [] {
      var init := times[..|times| - 1];
      RecentOfRecent(init, earlier, now, window);
      var kept := Recent(init, earlier, window);
      RecentAppend(kept, times[|times| - 1], now, window);
      assert kept + [] == kept;
    }
  }

  lemma {:induction false} RecentShrinks(times: seq<Time>, earlier: Time, now: Time, window: int)
    requires earlier <= now
    ensures |Recent(times, now, window)| <= |Recent(times, earlier, window)|
  {
    if times != [] {
      RecentShrinks(times[..|times| - 1], earlier, now, window);
    }
  }

  lemma {:induction false} RecentContents(times: seq<Time>, now: Time, window: int)
    ensures forall t :: t in Recent(times, now, window) <==> t in times && now - t < window
  {
    if times != [] {
      var init := times[..|times| - 1];
      RecentContents(init, now, window);
      assert times == init + [times[|times| - 1]];
    }
  }

  /** After a record the IP's list holds the new time and the old ones still inside the window, no other. */
  lemma RecordEvicts(store: Store, ip: Ip, now: Time, limits: Limits)
    ensures forall t :: t in Recorded(store, ip, now, limits)[ip] <==>
              t == now || (t in Lookup(store, ip) && now - t < Window(limits))
  {
    RecentContents(Lookup(store, ip), now, Window(limits));
  }

  // ------------------------------------------------- eviction cannot be observed

  datatype LimiterEvent = Failed(ip: Ip, at: Time) | Cleared(ip: Ip)

  function Replay(run: seq<LimiterEvent>, limits: Limits): Store {
    if run == [] then map[]
    else
      var before := Replay(run[..|run| - 1], limits);
      match run[|run| - 1]
      case Failed(ip, at) => Recorded(before, ip, at, limits)
      case Cleared(ip) => before - {ip}
  }

  /** Position i of the full, unpruned history is a failure of this IP that counts at time now. */
  predicate Counts(run: seq<LimiterEvent>, i: nat, ip: Ip, now: Time, limits: Limits)
    requires i < |run|
  {
    && run[i].Failed? && run[i].ip == ip
    && now - run[i].at < limits.windowSeconds * TICKS_PER_SECOND
    && forall j :: i < j < |run| ==> run[j] != Cleared(ip)
  }

  /** The failures of this IP since its last reset that are younger than the window. */
  function LiveFailures(run: seq<LimiterEvent>, ip: Ip, now: Time, limits: Limits): set<nat> {
    set i: nat | i < |run| && Counts(run, i, ip, now, limits)
  }

  /** The clock never went backwards: nothing was recorded later than now. */
  predicate NoneLaterThan(run: seq<LimiterEvent>, now: Time) {
    forall i :: 0 <= i < |run| && run[i].Failed? ==> run[i].at <= now
  }

  lemma LiveFailuresSnoc(run: seq<LimiterEvent>, e: LimiterEvent, ip: Ip, now: Time, limits: Limits)
    ensures var before := LiveFailures(run, ip, now, limits);
            LiveFailures(run + [e], ip, now, limits) ==
              if e == Cleared(ip) then {}
              else if e.Failed? && e.ip == ip && now - e.at < Window(limits) then before + {|run|}
              else before
    ensures |run| !in LiveFailures(run, ip, now, limits)
  {
    var longer := run + [e];
    forall i: nat | i < |run|
      ensures Counts(longer, i, ip, now, limits) <==> Counts(run, i, ip, now, limits) && e != Cleared(ip)
    {
      assert longer[i] == run[i] && longer[|run|] == e;
      if Counts(longer, i, ip, now, limits) {
        forall j | i < j < |run| ensures run[j] != Cleared(ip) {
          assert longer[j] == run[j];
        }
      }
    }
  }

  /** The pruned list and the unpruned history always hold equally many live failures. */
  lemma {:induction false} PrunedCountsHistory(run: seq<LimiterEvent>, ip: Ip, now: Time, limits: Limits)
    requires NoneLaterThan(run, now)
    ensures |Recent(Lookup(Replay(run, limits), ip), now, Window(limits))| == |LiveFailures(run, ip, now, limits)|
  {
    if run != [] {
      var init, e := run[..|run| - 1], run[|run| - 1];
      assert run == init + [e];
      PrunedCountsHistory(init, ip, now, limits);
      LiveFailuresSnoc(init, e, ip, now, limits);
      if e.Failed? && e.ip == ip {
        var times := Lookup(Replay(init, limits), ip);
        RecentAppend(Recent(times, e.at, Window(limits)), e.at, now, Window(limits));
        RecentOfRecent(times, e.at, now, Window(limits));
      }
    }
  }

  /** The check on the pruned store decides exactly as the full history would. */
  lemma EvictionIsInvisible(run: seq<LimiterEvent>, ip: Ip, now: Time, limits: Limits)
    requires NoneLaterThan(run, now)
    ensures Check(Replay(run, limits), ip, now, limits) ==
            if |LiveFailures(run, ip, now, limits)| >= limits.attempts
            then TooMany429(limits.windowSeconds) else Admitted
  {
    PrunedCountsHistory(run, ip, now, limits);
  }

  function OnlyIp(run: seq<LimiterEvent>, ip: Ip): seq<LimiterEvent> {
    if run == [] then []
    else OnlyIp(run[..|run| - 1], ip) + if run[|run| - 1].ip == ip then [run[|run| - 1]] else []
  }

  /** What other IPs do never changes the verdict on this one, at any time. */
  lemma {:induction false} IpsAreIsolated(run: seq<LimiterEvent>, ip: Ip, now: Time, limits: Limits)
    ensures Lookup(Replay(run, limits), ip) == Lookup(Replay(OnlyIp(run, ip), limits), ip)
    ensures Check(Replay(run, limits), ip, now, limits) == Check(Replay(OnlyIp(run, ip), limits), ip, now, limits)
  {
    if run != [] {
      var init, e := run[..|run| - 1], run[|run| - 1];
      IpsAreIsolated(init, ip, now, limits);
      if e.ip == ip {
        assert (OnlyIp(init, ip) + [e])[..|OnlyIp(init, ip)|] == OnlyIp(init, ip);
      } else {
        assert OnlyIp(run, ip) == OnlyIp(init, ip);
      }
    }
  }

  /** Two failures one second apart, under a limit of two per second. */
  const TWO_PER_SECOND: Limits := RawLimits(2, 1)

  function SecondApart(ip: Ip): seq<LimiterEvent> {
    [Failed(ip, 0), Failed(ip, TICKS_PER_SECOND)]
  }

  /** The assumption on the clock is needed: one step back and an evicted failure is missed. */
  lemma ClockMustNotGoBack(ip: Ip)
    ensures var run, now := SecondApart(ip), TICKS_PER_SECOND - 1;
            && |LiveFailures(run, ip, now, TWO_PER_SECOND)| == TWO_PER_SECOND.attempts
            && Check(Replay(run, TWO_PER_SECOND), ip, now, TWO_PER_SECOND).Admitted?
  {
    hide Recent;
    var now, w := TICKS_PER_SECOND - 1, Window(TWO_PER_SECOND);
    SecondApartStored(ip);
    RecentOfNothing(now, w);
    RecentAppend([], TICKS_PER_SECOND, now, w);
    assert [] + [TICKS_PER_SECOND] == [TICKS_PER_SECOND];
    SecondApartLive(ip, now);
  }

  lemma SecondApartLive(ip: Ip, now: Time)
    requires now == TICKS_PER_SECOND - 1
    ensures LiveFailures(SecondApart(ip), ip, now, TWO_PER_SECOND) == {0, 1}
  {
    assert Counts(SecondApart(ip), 0, ip, now, TWO_PER_SECOND);
    assert Counts(SecondApart(ip), 1, ip, now, TWO_PER_SECOND);
  }

  lemma SecondApartStored(ip: Ip)
    ensures Lookup(Replay(SecondApart(ip), TWO_PER_SECOND), ip) == [TICKS_PER_SECOND]
  {
    hide Recent;
    var first, w := [Failed(ip, 0)], Window(TWO_PER_SECOND);
    assert SecondApart(ip)[..1] == first && first[..0] == [];
    RecentOfNothing(0, w);
    RecentOfNothing(TICKS_PER_SECOND, w);
    RecentAppend([], 0, TICKS_PER_SECOND, w);
    assert [] + [0] == [0];
    assert Lookup(Replay(first, TWO_PER_SECOND), ip) == [0];
  }

  lemma RecentOfNothing(now: Time, window: int)
    ensures Recent([], now, window) == []
  {
  }

  // ------------------------------------------------------------ lockouts end

  predicate OrderedUpTo(times: seq<Time>, now: Time) {
    && (forall i, j :: 0 <= i < j < |times| ==> times[i] <= times[j])
    && (forall i :: 0 <= i < |times| ==> times[i] <= now)
  }

  lemma {:induction false} RecentIsSorted(times: seq<Time>, now: Time, window: int, bound: Time)
    requires OrderedUpTo(times, bound)
    ensures OrderedUpTo(Recent(times, now, window), bound)
    ensures forall t :: t in Recent(times, now, window) ==> t in times
  {
    if times != [] {
      var init := times[..|times| - 1];
      RecentIsSorted(init, now, window, bound);
      var kept := Recent(init, now, window);
      forall i | 0 <= i < |kept| ensures kept[i] <= times[|times| - 1] {
        assert kept[i] in init;
      }
    }
  }

  /** Times never decrease along the run. */
  predicate ClockMoves(run: seq<LimiterEvent>) {
    forall i, j :: 0 <= i < j < |run| && run[i].Failed? && run[j].Failed? ==> run[i].at <= run[j].at
  }

  /** Under a clock that never goes back, every stored list is sorted. */
  lemma {:induction false} StoresAreSorted(run: seq<LimiterEvent>, ip: Ip, now: Time, limits: Limits)
    requires ClockMoves(run) && NoneLaterThan(run, now)
    ensures OrderedUpTo(Lookup(Replay(run, limits), ip), now)
  {
    if run != [] {
      var init, e := run[..|run| - 1], run[|run| - 1];
      match e
      case Failed(other, at) =>
        StoresAreSorted(init, ip, at, limits);
        RecentIsSorted(Lookup(Replay(init, limits), ip), at, Window(limits), at);
      case Cleared(_) =>
        StoresAreSorted(init, ip, now, limits);
    }
  }

  /** When the lockout of this list of failures is over. */
  function UnlockTime(times: seq<Time>, limits: Limits): Time
    requires |times| >= limits.attempts
  {
    times[|times| - limits.attempts] + Window(limits)
  }

  lemma {:induction false} EnoughRecent(times: seq<Time>, now: Time, bound: Time, window: int, n: nat)
    requires OrderedUpTo(times, bound) && 1 <= n
    ensures |Recent(times, now, window)| >= n <==> |times| >= n && now - times[|times| - n] < window
  {
    if times != [] {
      var init, last := times[..|times| - 1], times[|times| - 1];
      if 1 < n {
        EnoughRecent(init, now, bound, window, n - 1);
      }
      if now - last >= window {
        NoneRecent(times, now, window);
      }
    }
  }

  lemma {:induction false} NoneRecent(times: seq<Time>, now: Time, window: int)
    requires forall i :: 0 <= i < |times| ==> now - times[i] >= window
    ensures Recent(times, now, window) == []
  {
    if times != [] {
      NoneRecent(times[..|times| - 1], now, window);
    }
  }

  /** Blocked exactly until the attempts-th newest failure leaves the window. */
  lemma BlockedUntilUnlock(store: Store, ip: Ip, now: Time, bound: Time, limits: Limits)
    requires OrderedUpTo(Lookup(store, ip), bound)
    ensures Blocked(store, ip, now, limits) <==>
            |Lookup(store, ip)| >= limits.attempts && now < UnlockTime(Lookup(store, ip), limits)
  {
    EnoughRecent(Lookup(store, ip), now, bound, Window(limits), limits.attempts);
  }
}
