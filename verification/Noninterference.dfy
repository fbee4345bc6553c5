/**
 * A stranger to a list cannot tell it from a list that never existed: dropping from a run every
 * request other users aim at the list leaves every answer the stranger gets unchanged.
 */
module Noninterference {
  import opened Wrappers
  import opened Sharing
  import opened SharingInvariant
  import P = Permissions

  /** The request names the list in its path, or creates it. */
  predicate AimedAt(op: Op, list: ListId) {
    if op.CreateList? then op.newList == list else !op.ListLists? && op.list == list
  }

  /** The user neither owns the list nor holds a share on it. */
  predicate Stranger(db: Db, list: ListId, user: UserId) {
    !IsOwner(db, list, user) && ShareKey(list, user) !in db.shares
  }

  /** At no moment of the run was the user anything but a stranger to the list. */
  predicate AlwaysStranger(run: seq<Event>, list: ListId, user: UserId) {
    Stranger(Exec(run).db, list, user) && (run == [] || AlwaysStranger(run[..|run| - 1], list, user))
  }

  predicate Hidden(e: Event, list: ListId, user: UserId) {
    e.Request? && e.caller != user && AimedAt(e.op, list)
  }

  /** The run without the other users' requests aimed at the list. */
  function Without(run: seq<Event>, list: ListId, user: UserId): seq<Event> {
    if run == [] then []
    else
      var e := run[|run| - 1];
      Without(run[..|run| - 1], list, user) + if Hidden(e, list, user) then [] else [e]
  }

  /** Everything the user is answered, in order. */
  function View(run: seq<Event>, user: UserId): seq<Response> {
    if run == [] then []
    else
      var init, e := run[..|run| - 1], run[|run| - 1];
      View(init, user) + if e.Request? && e.caller == user then [Step(Exec(init), e).response] else []
  }

  /** The state with the list, its items, its shares and its suspended creates taken out. */
  function Erase(s: State, list: ListId): State {
    State(Cascade(s.db, list), set q | q in s.pending && q.list != list)
  }

  // ------------------------------------------------------------- one decision

  /** Whether an effect touches rows of the list. */
  predicate Touches(effect: Effect, db: Db, list: ListId) {
    match effect
    case NoEffect => false
    case PutList(l, _) => l == list
    case DropList(l) => l == list
    case PutItem(_, row) => row.list == list
    case DropItem(i) => i in db.items && db.items[i].list == list
    case PutShare(k, _) => k.list == list
    case DropShare(k) => k.list == list
  }

  lemma ErasedEffect(db: Db, effect: Effect, list: ListId)
    requires Touches(effect, db, list)
    requires effect.PutItem? && effect.item in db.items ==> db.items[effect.item].list == list
    ensures Cascade(Apply(db, effect), list) == Cascade(db, list)
  {
  }

  lemma CascadesCommute(db: Db, list: ListId, other: ListId)
    ensures Cascade(Cascade(db, other), list) == Cascade(Cascade(db, list), other)
  {
    assert db.lists - {list} - {other} == db.lists - {other} - {list};
  }

  lemma KeptEffect(db: Db, effect: Effect, list: ListId)
    requires !Touches(effect, db, list)
    ensures Cascade(Apply(db, effect), list) == Apply(Cascade(db, list), effect)
  {
    match effect
    case DropItem(i) =>
      assert Cascade(db, list).items - {i} == Cascade(Apply(db, effect), list).items;
    case PutList(l, row) =>
      assert (db.lists - {list})[l := row] == db.lists[l := row] - {list};
    case DropList(l) =>
      CascadesCommute(db, list, l);
      hide Cascade;
    case _ =>
  }

  lemma AuthorizedElsewhere(db: Db, list: ListId, other: ListId, user: UserId, action: P.Action)
    requires other != list
    ensures Authorize(Cascade(db, list), other, user, action) == Authorize(db, other, user, action)
  {
  }

  lemma GrantedElsewhere(db: Db, list: ListId, caller: UserId, op: Op)
    requires !op.CreateList? && !op.ListLists? && !op.CommitShare? && op.list != list
    requires op.CreateItem? ==> op.newItem !in db.items
    ensures DecideGranted(Cascade(db, list), caller, op) == DecideGranted(db, caller, op)
    ensures !Touches(DecideGranted(db, caller, op).effect, db, list)
  {
    assert ItemsIn(Cascade(db, list), op.list) == ItemsIn(db, op.list);
    assert SharesOn(Cascade(db, list), op.list) == SharesOn(db, op.list);
  }

  /** Requests aimed elsewhere decide alike with the list erased, item ids of the list included. */
  lemma AimedElsewhere(db: Db, list: ListId, caller: UserId, op: Op)
    requires !AimedAt(op, list) && !op.CommitShare?
    requires op.CreateItem? ==> op.newItem !in db.items
    ensures var d := Decide(db, caller, op);
            && !Touches(d.effect, db, list)
            && Decide(Cascade(db, list), caller, op).effect == d.effect
            && (op.ListLists? ==> Stranger(db, list, caller) ==> Decide(Cascade(db, list), caller, op).response == d.response)
            && (!op.ListLists? ==> Decide(Cascade(db, list), caller, op).response == d.response)
  {
    hide Authorize, DecideGranted;
    if op.ListLists? {
      if Stranger(db, list, caller) {
        assert VisibleLists(Cascade(db, list), caller) == VisibleLists(db, caller);
      }
    } else if !op.CreateList? {
      AuthorizedElsewhere(db, list, op.list, caller, ActionOf(op));
      GrantedElsewhere(db, list, caller, op);
    }
  }

  /** A stranger is refused alike on the list and on its absence. */
  lemma StrangerIsDenied(db: Db, list: ListId, user: UserId, op: Op)
    requires Stranger(db, list, user) && AimedAt(op, list) && !op.CreateList? && !op.CommitShare?
    ensures Decide(db, user, op) == Decision(NoEffect, if user in db.users then NotFound404 else Unauthorized401)
    ensures Decide(Cascade(db, list), user, op) == Decide(db, user, op)
  {
    assert RoleOf(db, list, user) == Returns(None);
    assert RoleOf(Cascade(db, list), list, user) == Returns(None);
  }

  lemma AimedAtList(db: Db, list: ListId, caller: UserId, op: Op)
    requires AimedAt(op, list) && !op.CommitShare?
    ensures var d := Decide(db, caller, op);
            Cascade(Apply(db, d.effect), list) == Cascade(db, list)
  {
    var d := Decide(db, caller, op);
    if d.effect != NoEffect {
      ErasedEffect(db, d.effect, list);
    }
  }

  // ----------------------------------------------------------------- one step

  /** A hidden event changes nothing outside the list. */
  lemma HiddenStep(s: State, e: Event, list: ListId)
    requires e.Request? && AimedAt(e.op, list)
    ensures Erase(Step(s, e).state, list) == Erase(s, list)
  {
    var after := Step(s, e).state;
    if e.op.CommitShare? {
      var q := ShareRequest(e.caller, list, e.op.target, e.op.role, e.op.serial);
      if q in s.pending {
        var d := DecideInsert(s.db, ShareKey(list, e.op.target), e.op.role);
        if d.effect != NoEffect {
          ErasedEffect(s.db, d.effect, list);
        }
      }
    } else {
      AimedAtList(s.db, list, e.caller, e.op);
    }
    assert Erase(after, list).pending == Erase(s, list).pending;
  }

  lemma ElsewhereCommit(s: State, q: ShareRequest, list: ListId)
    requires q.list != list
    ensures var e := Request(q.caller, CommitShare(q.list, q.target, q.role, q.serial));
            && Step(Erase(s, list), e).state == Erase(Step(s, e).state, list)
            && Step(Erase(s, list), e).response == Step(s, e).response
  {
    assert q == ShareRequest(q.caller, q.list, q.target, q.role, q.serial);
    if q in s.pending {
      var key := ShareKey(q.list, q.target);
      var d := DecideInsert(s.db, key, q.role);
      assert DecideInsert(Cascade(s.db, list), key, q.role) == d;
      KeptEffect(s.db, d.effect, list);
      hide DecideInsert, Cascade;
      var left := State(Apply(s.db, d.effect), s.pending - {q});
      assert Erase(left, list).pending == Erase(s, list).pending - {q};
    }
  }

  /** Any event aimed elsewhere does the same to the erased state. */
  lemma ElsewhereStep(s: State, e: Event, list: ListId)
    requires e.Request? && !AimedAt(e.op, list)
    requires e.op.CreateItem? ==> e.op.newItem !in s.db.items
    ensures Step(Erase(s, list), e).state == Erase(Step(s, e).state, list)
    ensures Stranger(s.db, list, e.caller) ==> Step(Erase(s, list), e).response == Step(s, e).response
  {
    if e.op.CommitShare? {
      ElsewhereCommit(s, ShareRequest(e.caller, e.op.list, e.op.target, e.op.role, e.op.serial), list);
      hide Step;
    } else {
      AimedElsewhere(s.db, list, e.caller, e.op);
      KeptEffect(s.db, Decide(s.db, e.caller, e.op).effect, list);
      hide Decide, Cascade;
      assert Erase(Step(s, e).state, list).pending == Step(Erase(s, list), e).state.pending;
    }
  }

  /** The stranger's own requests at the list are answered alike and change nothing. */
  lemma StrangerStep(s: State, e: Event, list: ListId)
    requires e.Request? && AimedAt(e.op, list) && Stranger(s.db, list, e.caller)
    requires e.op.CreateList? ==> e.caller !in s.db.users
    requires forall q :: q in s.pending && q.list == list ==> q.caller != e.caller
    ensures Step(Erase(s, list), e).state == Erase(Step(s, e).state, list)
    ensures Step(Erase(s, list), e).response == Step(s, e).response
  {
    if !e.op.CommitShare? && !e.op.CreateList? {
      StrangerIsDenied(s.db, list, e.caller, e.op);
    }
  }

  // -------------------------------------------------------------- whole runs

  /** Nobody but the owner of a list ever has a create_share on it suspended. */
  ghost predicate NoPendingOf(s: State, list: ListId, user: UserId) {
    forall q :: q in s.pending && q.list == list ==> q.caller != user
  }

  lemma StrangerStaysWithoutPending(s: State, e: Event, list: ListId, user: UserId)
    requires KeyConstraints(s.db) && Stranger(s.db, list, user) && NoPendingOf(s, list, user)
    ensures NoPendingOf(Step(s, e).state, list, user)
  {
    if e.Request? && !e.op.CommitShare? {
      DecideIsSound(s.db, e.caller, e.op);
    }
  }

  lemma {:induction false} StrangersHaveNoPending(run: seq<Event>, list: ListId, user: UserId)
    requires FreshIds(run) && AlwaysStranger(run, list, user)
    ensures NoPendingOf(Exec(run), list, user)
  {
    if run != [] {
      var init := run[..|run| - 1];
      StrangersHaveNoPending(init, list, user);
      Reachable(init);
      StrangerStaysWithoutPending(Exec(init), run[|run| - 1], list, user);
    }
  }

  /** Events that stay in the run act alike on the state and on the erased state. */
  lemma LockStep(run: seq<Event>, e: Event, list: ListId, user: UserId)
    requires FreshIds(run) && FreshEvent(run, e) && AlwaysStranger(run, list, user)
    requires Stranger(Exec(run).db, list, user) && Stranger(Step(Exec(run), e).state.db, list, user)
    requires !Hidden(e, list, user)
    ensures Step(Erase(Exec(run), list), e).state == Erase(Step(Exec(run), e).state, list)
    ensures e.Request? && e.caller == user ==> Step(Erase(Exec(run), list), e).response == Step(Exec(run), e).response
  {
    Reachable(run);
    if e.Request? {
      if AimedAt(e.op, list) {
        StrangersHaveNoPending(run, list, user);
        StrangerStep(Exec(run), e, list);
      } else {
        ElsewhereStep(Exec(run), e, list);
      }
    }
  }

  /** Simulation and answers: the two facts the induction carries. */
  ghost predicate SeesTheSame(run: seq<Event>, shorter: seq<Event>, list: ListId, user: UserId) {
    Exec(shorter) == Erase(Exec(run), list) && View(shorter, user) == View(run, user)
  }

  lemma SeesTheSameSnoc(run: seq<Event>, shorter: seq<Event>, e: Event, list: ListId, user: UserId)
    requires SeesTheSame(run, shorter, list, user)
    requires Step(Erase(Exec(run), list), e).state == Erase(Step(Exec(run), e).state, list)
    requires e.Request? && e.caller == user ==> Step(Erase(Exec(run), list), e).response == Step(Exec(run), e).response
    ensures SeesTheSame(run + [e], shorter + [e], list, user)
  {
    assert (run + [e])[..|run|] == run && (shorter + [e])[..|shorter|] == shorter;
  }

  lemma SeesTheSameHidden(run: seq<Event>, shorter: seq<Event>, e: Event, list: ListId, user: UserId)
    requires SeesTheSame(run, shorter, list, user) && Hidden(e, list, user)
    ensures SeesTheSame(run + [e], shorter, list, user)
  {
    assert (run + [e])[..|run|] == run;
    HiddenStep(Exec(run), e, list);
  }

  /**
   * Dropping what other users do to a list leaves every answer the stranger gets unchanged, and
   * the shorter run ends in the same state with the list erased.
   */
  lemma {:induction false} StrangerSeesNothing(run: seq<Event>, list: ListId, user: UserId)
    requires FreshIds(run) && AlwaysStranger(run, list, user)
    ensures View(Without(run, list, user), user) == View(run, user)
    ensures Exec(Without(run, list, user)) == Erase(Exec(run), list)
  {
    if run == [] {
      assert Erase(EMPTY, list) == EMPTY;
    } else {
      var init, e := run[..|run| - 1], run[|run| - 1];
      var shorter := Without(init, list, user);
      StrangerSeesNothing(init, list, user);
      assert run == init + [e] && SeesTheSame(init, shorter, list, user);
      if Hidden(e, list, user) {
        SeesTheSameHidden(init, shorter, e, list, user);
        assert shorter + [] == shorter;
      } else {
        LockStep(init, e, list, user);
        SeesTheSameSnoc(init, shorter, e, list, user);
      }
    }
  }
}
