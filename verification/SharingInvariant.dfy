/** What every reachable state keeps, under any interleaving of create_share's two steps. */
module SharingInvariant {
  import opened Wrappers
  import opened Sharing
  import P = Permissions

  /** Foreign keys and the CHECK on roles. */
  ghost predicate KeyConstraints(db: Db) {
    && (forall l :: l in db.lists ==> db.lists[l].owner in db.users)
    && (forall i :: i in db.items ==> db.items[i].list in db.lists)
    && (forall k :: k in db.shares ==> k.list in db.lists && k.user in db.users && !db.shares[k].OtherText?)
  }

  /** No share row names the owner of its list. */
  ghost predicate OwnersHoldNoShares(db: Db) {
    forall k :: k in db.shares && k.list in db.lists ==> db.lists[k.list].owner != k.user
  }

  /** A suspended create_share would still not share a list with its owner. */
  ghost predicate PendingSound(s: State, listIds: set<ListId>) {
    forall q :: q in s.pending ==>
      && q.target != q.caller
      && q.target in s.db.users
      && q.list in listIds
      && (q.list in s.db.lists ==> s.db.lists[q.list].owner == q.caller)
  }

  ghost predicate Invariant(s: State, listIds: set<ListId>, itemIds: set<ItemId>) {
    && KeyConstraints(s.db)
    && OwnersHoldNoShares(s.db)
    && PendingSound(s, listIds)
    && s.db.lists.Keys <= listIds
    && s.db.items.Keys <= itemIds
  }

  /** What a handler may commit: each effect comes with the facts its queries established. */
  ghost predicate Sound(db: Db, caller: UserId, op: Op, effect: Effect) {
    match effect
    case NoEffect => true
    case PutList(l, row) =>
      if l in db.lists then row.owner == db.lists[l].owner == caller
      else op.CreateList? && op.newList == l && row.owner == caller && caller in db.users
    case DropList(l) => IsOwner(db, l, caller)
    case PutItem(i, row) =>
      && row.list in db.lists
      && if i in db.items then row.list == db.items[i].list else op.CreateItem? && op.newItem == i
    case DropItem(i) => i in db.items
    case PutShare(k, role) => k in db.shares && !role.OtherText? && IsOwner(db, k.list, caller)
    case DropShare(k) => k in db.shares && IsOwner(db, k.list, caller)
  }

  /** Actions reserved to the owner are granted to nobody else. */
  lemma OwnerActions(db: Db, list: ListId, user: UserId, action: P.Action)
    requires action in {P.RenameList, P.DeleteList, P.ShareList, P.ChangeCollaboratorRole, P.RevokeShare}
    ensures Authorize(db, list, user, action).Granted? <==> IsOwner(db, list, user)
  {
  }

  /** With valid role texts a wired action is never met by an exception. */
  lemma NeverBroken(db: Db, list: ListId, user: UserId, action: P.Action)
    requires KeyConstraints(db) && !action.UnknownAction?
    ensures !Authorize(db, list, user, action).Broken?
  {
  }

  lemma DecideIsSound(db: Db, caller: UserId, op: Op)
    requires !op.CommitShare? && KeyConstraints(db)
    ensures Sound(db, caller, op, Decide(db, caller, op).effect)
    ensures Decide(db, caller, op).response.InFlight? ==>
              && op.PrecheckShare? && op.target != caller && op.target in db.users && IsOwner(db, op.list, caller)
  {
    if op.RenameList? || op.DeleteList? || op.PrecheckShare? || op.ListShares? || op.ChangeRole? || op.RevokeShare? {
      OwnerActions(db, op.list, caller, ActionOf(op));
    }
  }

  lemma ApplyKeepsConstraints(db: Db, caller: UserId, op: Op, effect: Effect)
    requires KeyConstraints(db) && OwnersHoldNoShares(db) && Sound(db, caller, op, effect)
    ensures KeyConstraints(Apply(db, effect)) && OwnersHoldNoShares(Apply(db, effect))
  {
  }

  lemma CommitKeepsInvariant(s: State, q: ShareRequest, listIds: set<ListId>, itemIds: set<ItemId>)
    requires Invariant(s, listIds, itemIds) && q in s.pending
    ensures var d := DecideInsert(s.db, ShareKey(q.list, q.target), q.role);
            Invariant(State(Apply(s.db, d.effect), s.pending - {q}), listIds, itemIds)
  {
  }

  /** A suspended create is added only by the list's owner, for another existing user. */
  lemma HandlerKeepsPending(s: State, caller: UserId, op: Op, listIds: set<ListId>)
    requires !op.CommitShare? && KeyConstraints(s.db) && PendingSound(s, listIds) && s.db.lists.Keys <= listIds
    requires op.CreateList? ==> op.newList !in listIds
    ensures PendingSound(Step(s, Request(caller, op)).state, listIds + if op.CreateList? then {op.newList} else {})
  {
    DecideIsSound(s.db, caller, op);
    hide Decide, KeyConstraints;
  }

  lemma HandlerKeepsInvariant(s: State, caller: UserId, op: Op, run: seq<Event>)
    requires !op.CommitShare?
    requires Invariant(s, ListIds(run), ItemIds(run)) && FreshEvent(run, Request(caller, op))
    ensures Invariant(Step(s, Request(caller, op)).state, ListIds(run + [Request(caller, op)]), ItemIds(run + [Request(caller, op)]))
  {
    IdsSnoc(run, Request(caller, op));
    DecideIsSound(s.db, caller, op);
    ApplyKeepsConstraints(s.db, caller, op, Decide(s.db, caller, op).effect);
    HandlerKeepsPending(s, caller, op, ListIds(run));
    StepIsDecision(s, caller, op);
    hide Step, Decide, KeyConstraints, OwnersHoldNoShares, PendingSound, ListIds, ItemIds;
  }

  lemma StepKeepsInvariant(s: State, e: Event, run: seq<Event>)
    requires Invariant(s, ListIds(run), ItemIds(run)) && FreshEvent(run, e)
    ensures Invariant(Step(s, e).state, ListIds(run + [e]), ItemIds(run + [e]))
  {
    match e
    case SignUp(_) =>
      IdsSnoc(run, e);
    case Request(caller, op) =>
      IdsSnoc(run, e);
      if op.CommitShare? {
        var q := ShareRequest(caller, op.list, op.target, op.role, op.serial);
        if q in s.pending {
          CommitKeepsInvariant(s, q, ListIds(run), ItemIds(run));
        }
      } else {
        HandlerKeepsInvariant(s, caller, op, run);
      }
      hide Decide, KeyConstraints, OwnersHoldNoShares, ListIds, ItemIds, FreshEvent;
  }

  /** Every state of every run over fresh ids satisfies the invariant. */
  lemma {:induction false} Reachable(run: seq<Event>)
    requires FreshIds(run)
    ensures Invariant(Exec(run), ListIds(run), ItemIds(run))
  {
    if run != [] {
      var init, e := run[..|run| - 1], run[|run| - 1];
      Reachable(init);
      StepKeepsInvariant(Exec(init), e, init);
      assert run == init + [e];
    }
  }
}
