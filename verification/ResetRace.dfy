/**
 * Completing a reset as it really interleaves: the token is read, other requests run, and only
 * then are the three effects committed. Nothing locks the row in between.
 */
module ResetRace {
  import opened Wrappers
  import opened RateLimiter
  import opened Accounts
  import opened AccountsHistory

  /** Begin reads the token, Commit writes; any other request runs as a whole. */
  datatype RaceEvent =
    | Begin(id: nat, token: string, now: Time)
    | Commit(id: nat, newPassword: string)
    | Other(event: Event)

  /** What a completion holds between its read and its commit. */
  datatype Held = Held(token: string, user: UserId, now: Time)

  datatype RaceState = RaceState(db: Db, held: map<nat, Held>)

  function Mark(db: Db, h: Held, newPassword: string): Db
    requires Sha256(h.token) in db.resets && h.user in db.users
  {
    db.(resets := db.resets[Sha256(h.token) := db.resets[Sha256(h.token)].(usedAt := Some(h.now))],
        users := db.users[h.user := db.users[h.user].(password := Some(Argon2(newPassword)))],
        sessions := SessionsOfOthers(db.sessions, h.user))
  }

  /** The commit finds the rows it read; otherwise (never, see HeldRowsStay) it fails. */
  predicate Commits(s: RaceState, id: nat) {
    id in s.held && Sha256(s.held[id].token) in s.db.resets && s.held[id].user in s.db.users
  }

  ghost function RaceStep(s: RaceState, e: RaceEvent, config: Config): RaceState {
    match e
    case Begin(id, token, now) =>
      var live := LiveReset(s.db, token, now);
      if id in s.held || live.None? || live.value.user !in s.db.users then s
      else s.(held := s.held[id := Held(token, live.value.user, now)])
    case Commit(id, newPassword) =>
      if !Commits(s, id) then s.(held := s.held - {id})
      else RaceState(Mark(s.db, s.held[id], newPassword), s.held - {id})
    case Other(event) =>
      if event.ResetComplete? then s else s.(db := Step(s.db, event, config).db)
  }

  const START := RaceState(EMPTY, map[])

  ghost function Race(run: seq<RaceEvent>, config: Config): RaceState {
    if run == [] then START else RaceStep(Race(run[..|run| - 1], config), run[|run| - 1], config)
  }

  predicate Completes(s: RaceState, e: RaceEvent, token: string) {
    e.Commit? && Commits(s, e.id) && s.held[e.id].token == token
  }

  /** How many completions of the token were committed. */
  ghost function Completions(run: seq<RaceEvent>, token: string, config: Config): nat {
    if run == [] then 0
    else
      var init := run[..|run| - 1];
      Completions(init, token, config) + if Completes(Race(init, config), run[|run| - 1], token) then 1 else 0
  }

  function Holding(s: RaceState, token: string): set<nat> {
    set id | id in s.held && s.held[id].token == token
  }

  /** At every moment at most k completions of the token are between read and commit. */
  ghost predicate AtMostHolding(run: seq<RaceEvent>, token: string, k: nat, config: Config) {
    && |Holding(Race(run, config), token)| <= k
    && (run == [] || AtMostHolding(run[..|run| - 1], token, k, config))
  }

  // ----------------------------------------------------------------- the bound

  lemma CommitReleases(s: RaceState, e: RaceEvent, token: string, config: Config)
    requires e.Commit?
    ensures Completes(s, e, token) ==> |Holding(RaceStep(s, e, config), token)| == |Holding(s, token)| - 1
    ensures |Holding(RaceStep(s, e, config), token)| <= |Holding(s, token)|
    ensures Used(s.db, token) ==> Used(RaceStep(s, e, config).db, token)
    ensures Completes(s, e, token) ==> Used(RaceStep(s, e, config).db, token)
  {
    var after := Holding(RaceStep(s, e, config), token);
    assert after == Holding(s, token) - {e.id};
    if Completes(s, e, token) {
      assert e.id in Holding(s, token);
    }
  }

  lemma BeginNeedsUnused(s: RaceState, e: RaceEvent, token: string, config: Config)
    requires e.Begin? && Used(s.db, token)
    ensures Holding(RaceStep(s, e, config), token) == Holding(s, token)
  {
  }

  /** Once used, a token's completions and those still held number at most k together. */
  lemma {:induction false} CompletionInvariant(run: seq<RaceEvent>, token: string, k: nat, config: Config)
    requires AtMostHolding(run, token, k, config)
    ensures var s := Race(run, config); var done := Completions(run, token, config);
            done == 0 || (Used(s.db, token) && done + |Holding(s, token)| <= k)
  {
    if run != [] {
      var init, e := run[..|run| - 1], run[|run| - 1];
      var s := Race(init, config);
      CompletionInvariant(init, token, k, config);
      match e
      case Begin(_, _, _) =>
        if Used(s.db, token) {
          BeginNeedsUnused(s, e, token, config);
        }
      case Commit(_, _) =>
        CommitReleases(s, e, token, config);
      case Other(event) =>
        if Used(s.db, token) {
          UsedStaysUsed(s.db, event, token, config);
        }
      hide Step;
    }
  }

  /** With at most k completions of a token overlapping, at most k of them succeed, over the whole run. */
  lemma OverlapBoundsCompletions(run: seq<RaceEvent>, token: string, k: nat, config: Config)
    requires AtMostHolding(run, token, k, config)
    ensures Completions(run, token, config) <= k
  {
    CompletionInvariant(run, token, k, config);
  }

  /** The account and the token each completion has read are stored. */
  ghost predicate Sound(s: RaceState) {
    Invariant(s.db) && forall id :: id in s.held ==> Commits(s, id)
  }

  lemma BeginKeepsSound(s: RaceState, id: nat, token: string, now: Time, config: Config)
    requires Sound(s)
    ensures Sound(RaceStep(s, Begin(id, token, now), config))
  {
    hide Invariant;
  }

  lemma CommitKeepsSound(s: RaceState, id: nat, newPassword: string, config: Config)
    requires Sound(s)
    ensures Sound(RaceStep(s, Commit(id, newPassword), config))
  {
    if id in s.held {
      MarkKeepsInvariant(s.db, s.held[id], newPassword);
    }
    hide Invariant;
  }

  lemma OtherKeepsSound(s: RaceState, e: Event, config: Config)
    requires Sound(s)
    ensures Sound(RaceStep(s, Other(e), config))
  {
    StepKeepsInvariant(s.db, e, config);
    StepKeepsAccounts(s.db, e, config);
    StepKeepsResets(s.db, e, config);
    hide Step, Invariant;
  }

  /** Rows a completion has read are still there when it commits: no commit ever fails. */
  lemma {:induction false} HeldRowsStay(run: seq<RaceEvent>, config: Config)
    ensures var s := Race(run, config);
            Invariant(s.db) && forall id :: id in s.held ==> Commits(s, id)
  {
    if run != [] {
      var s := Race(run[..|run| - 1], config);
      HeldRowsStay(run[..|run| - 1], config);
      hide Step, Invariant, Commits, RaceStep;
      match run[|run| - 1]
      case Begin(id, token, now) => BeginKeepsSound(s, id, token, now, config);
      case Commit(id, newPassword) => CommitKeepsSound(s, id, newPassword, config);
      case Other(e) => OtherKeepsSound(s, e, config);
    }
  }

  lemma MarkKeepsInvariant(db: Db, h: Held, newPassword: string)
    requires Invariant(db) && Sha256(h.token) in db.resets && h.user in db.users
    ensures Invariant(Mark(db, h, newPassword))
  {
  }

  lemma StepKeepsResets(db: Db, e: Event, config: Config)
    ensures db.resets.Keys <= Step(db, e, config).db.resets.Keys
  {
    hide Check, Recorded, Resolve;
    if !e.ResetRequest? && !e.ResetComplete? {
      OthersKeepResets(db, e, config);
    }
  }

  /** A completion with nothing between its two steps is the serial handler. */
  lemma SerialIsBeginCommit(s: RaceState, id: nat, token: string, newPassword: string, now: Time, config: Config)
    requires Sound(s) && id !in s.held
    ensures RaceStep(RaceStep(s, Begin(id, token, now), config), Commit(id, newPassword), config)
            == s.(db := DoResetComplete(s.db, token, newPassword, now).db)
  {
    var begun := RaceStep(s, Begin(id, token, now), config);
    if LiveReset(s.db, token, now).Some? {
      assert begun.held - {id} == s.held;
    } else {
      assert s.held - {id} == s.held;
    }
  }

  // -------------------------------------------------------- the bound is attained

  /** An account, a mailed token, `begun` completions that read it, of which `done` have committed. */
  function Overlap(begun: nat, done: nat): seq<RaceEvent>
    decreases begun, done
  {
    if done > 0 then Overlap(begun, done - 1) + [Commit(done, "new")]
    else if begun > 0 then Overlap(begun - 1, 0) + [Begin(begun, "t", 0)]
    else [Other(Register("a", "old", 0, "s", 0)), Other(ResetRequest("a", "t", 0))]
  }

  /** Completions done+1..begun are held, the token is stored for user 0, used iff one committed. */
  ghost predicate Overlapping(s: RaceState, begun: nat, done: nat) {
    && 0 in s.db.users && Sha256("t") in s.db.resets
    && s.db.resets[Sha256("t")].user == 0 && s.db.resets[Sha256("t")].expiresAt == RESET_TTL
    && (s.db.resets[Sha256("t")].usedAt.Some? <==> done > 0)
    && (forall id :: id in s.held <==> done < id <= begun)
    && (forall id :: id in s.held ==> s.held[id] == Held("t", 0, 0))
  }

  lemma {:induction false} OverlapSize(s: RaceState, begun: nat, done: nat)
    requires done <= begun && Overlapping(s, begun, done)
    ensures |Holding(s, "t")| == begun - done
    decreases begun - done
  {
    IdRangeSize(Holding(s, "t"), done, begun);
  }

  lemma {:induction false} IdRangeSize(ids: set<nat>, from: nat, upTo: nat)
    requires from <= upTo && forall id :: id in ids <==> from < id <= upTo
    ensures |ids| == upTo - from
    decreases upTo
  {
    if from < upTo {
      IdRangeSize(ids - {upTo}, from, upTo - 1);
    } else {
      assert ids == {};
    }
  }

  lemma MailedToken(config: Config)
    ensures Overlapping(Race(Overlap(0, 0), config), 0, 0)
    ensures Race([], config).held == map[] && Race(Overlap(0, 0)[..1], config).held == map[]
  {
    var run := Overlap(0, 0);
    var register, request := Register("a", "old", 0, "s", 0), ResetRequest("a", "t", 0);
    assert run[..1] == [Other(register)] && run[..1][..0] == [];
    assert ByEmail(EMPTY.users, "a") == {};
    var db := Step(EMPTY, register, config).db;
    assert ByEmail(db.users, "a") == {0};
    assert Race(run[..1], config) == RaceState(db, map[]);
    assert Race(run, config) == RaceState(Step(db, request, config).db, map[]);
  }

  /** The run ends in this overlap, with this many completions, never more than k overlapping. */
  ghost predicate Reaches(run: seq<RaceEvent>, begun: nat, done: nat, k: nat, config: Config) {
    && Overlapping(Race(run, config), begun, done)
    && Completions(run, "t", config) == done
    && AtMostHolding(run, "t", k, config)
  }

  lemma OverlapStarts(k: nat, config: Config)
    ensures Reaches(Overlap(0, 0), 0, 0, k, config)
  {
    hide RaceStep;
    var run := Overlap(0, 0);
    MailedToken(config);
    OverlapSize(Race(run, config), 0, 0);
    var first := run[..1];
    assert first[..|first| - 1] == [] && run[..|run| - 1] == first;
    assert Holding(Race([], config), "t") == {} && AtMostHolding([], "t", k, config);
    assert Holding(Race(first, config), "t") == {} && AtMostHolding(first, "t", k, config);
    assert Completions([], "t", config) == 0 && Completions(first, "t", config) == 0;
  }

  lemma OverlapBegin(s: RaceState, begun: nat, config: Config)
    requires Overlapping(s, begun, 0)
    ensures Overlapping(RaceStep(s, Begin(begun + 1, "t", 0), config), begun + 1, 0)
  {
  }

  lemma OverlapCommit(s: RaceState, begun: nat, done: nat, config: Config)
    requires Overlapping(s, begun, done) && done < begun
    ensures Completes(s, Commit(done + 1, "new"), "t")
    ensures Overlapping(RaceStep(s, Commit(done + 1, "new"), config), begun, done + 1)
  {
  }

  lemma ReachesBegin(run: seq<RaceEvent>, begun: nat, k: nat, config: Config)
    requires Reaches(run, begun, 0, k, config) && begun < k
    ensures Reaches(run + [Begin(begun + 1, "t", 0)], begun + 1, 0, k, config)
  {
    hide RaceStep, Overlapping;
    var longer := run + [Begin(begun + 1, "t", 0)];
    assert longer[..|longer| - 1] == run;
    OverlapBegin(Race(run, config), begun, config);
    OverlapSize(Race(longer, config), begun + 1, 0);
  }

  lemma ReachesCommit(run: seq<RaceEvent>, begun: nat, done: nat, k: nat, config: Config)
    requires Reaches(run, begun, done, k, config) && done < begun <= k
    ensures Reaches(run + [Commit(done + 1, "new")], begun, done + 1, k, config)
  {
    hide RaceStep, Overlapping;
    var longer := run + [Commit(done + 1, "new")];
    assert longer[..|longer| - 1] == run;
    OverlapCommit(Race(run, config), begun, done, config);
    OverlapSize(Race(longer, config), begun, done + 1);
  }

  lemma {:induction false} OverlapReaches(begun: nat, done: nat, k: nat, config: Config)
    requires done <= begun <= k
    ensures Reaches(Overlap(begun, done), begun, done, k, config)
    decreases begun, done
  {
    hide Reaches;
    if done > 0 {
      OverlapReaches(begun, done - 1, k, config);
      ReachesCommit(Overlap(begun, done - 1), begun, done - 1, k, config);
    } else if begun > 0 {
      OverlapReaches(begun - 1, 0, k, config);
      ReachesBegin(Overlap(begun - 1, 0), begun - 1, k, config);
    } else {
      OverlapStarts(k, config);
    }
  }

  /** Without serial handlers single use fails: k overlapping completions of one token can all succeed. */
  lemma OverlapBoundIsTight(k: nat, config: Config)
    ensures exists run :: AtMostHolding(run, "t", k, config) && Completions(run, "t", config) == k
  {
    OverlapReaches(k, k, k, config);
    assert Reaches(Overlap(k, k), k, k, k, config);
  }
}
