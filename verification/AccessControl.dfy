/** Who gets what: every answer and every change, against the role the log gives the caller. */
module AccessControl {
  import opened Wrappers
  import opened Sharing
  import opened SharingInvariant
  import opened SharingHistory
  import P = Permissions

  /** A request on one list's path. */
  predicate OnPath(op: Op) {
    !op.CreateList? && !op.ListLists? && !op.CommitShare?
  }

  /** Reading takes any role, items take owner or editor, all else on a list's path its owner. */
  predicate RoleSuffices(op: Op, role: P.Role)
    requires OnPath(op)
  {
    match op
    case GetList(_) => true
    case ListItems(_) => true
    case CreateItem(_, _, _, _) => role == P.Owner || role == P.Editor
    case UpdateItem(_, _, _) => role == P.Owner || role == P.Editor
    case DeleteItem(_, _) => role == P.Owner || role == P.Editor
    case _ => role == P.Owner
  }

  /** The log's role for the caller suffices for the request. */
  ghost predicate Permitted(run: seq<Event>, caller: UserId, op: Op)
    requires OnPath(op)
  {
    var role := HistoryRole(Trace(run), op.list, caller);
    role.Some? && RoleSuffices(op, role.value)
  }

  /** The action wired to each endpoint is granted to exactly the roles that suffice. */
  lemma WiredActions(db: Db, caller: UserId, op: Op, role: Option<P.Role>)
    requires OnPath(op) && RoleOf(db, op.list, caller) == Returns(role)
    ensures Authorize(db, op.list, caller, ActionOf(op)) ==
            if role.Some? && RoleSuffices(op, role.value) then Granted(role.value) else Denied
  {
  }

  /** Who never signed up is answered 401, and nothing changes. */
  lemma SignedOutIsRefused(run: seq<Event>, caller: UserId, op: Op)
    requires !op.CommitShare? && SignUp(caller) !in run
    ensures Decide(Exec(run).db, caller, op) == Decision(NoEffect, Unauthorized401)
  {
    UsersFromHistory(run, caller);
  }

  /** Without a role that suffices, a request on a list is answered 404 and changes nothing. */
  lemma UnpermittedIsNotFound(run: seq<Event>, caller: UserId, op: Op)
    requires FreshIds(run) && OnPath(op) && SignUp(caller) in run
    ensures !Permitted(run, caller, op) ==> Decide(Exec(run).db, caller, op) == Decision(NoEffect, NotFound404)
  {
    hide RoleOf, HistoryRole, RoleSuffices, Authorize;
    UsersFromHistory(run, caller);
    RoleEqualsHistory(run, op.list, caller);
    WiredActions(Exec(run).db, caller, op, HistoryRole(Trace(run), op.list, caller));
  }

  predicate FieldPatched<T(==)>(before: T, sent: Option<T>, after: T) {
    match sent
    case Some(value) => after == value
    case None => after == before
  }

  /** What the source promises for each request its permission check lets through. */
  ghost predicate Served(db: Db, caller: UserId, op: Op, d: Decision)
    requires OnPath(op)
  {
    var after := Apply(db, d.effect);
    match op
    case GetList(l) =>
      after == db && d.response == if l in db.lists then Ok200(ListBody(l, db.lists[l])) else NotFound404
    case RenameList(l, name) =>
      if l in db.lists then
        var row := ListRow(db.lists[l].owner, name);
        d.response == Ok200(ListBody(l, row)) && after == db.(lists := db.lists[l := row])
      else d.response == NotFound404 && after == db
    case DeleteList(l) =>
      if l in db.lists then d.response == NoContent204 && OnlyListGone(db, after, l)
      else d.response == NotFound404 && after == db
    case CreateItem(l, id, content, order) =>
      if l in db.lists && id !in db.items then
        var row := ItemRow(l, content, false, order);
        d.response == Created201(ItemBody(id, row)) && after == db.(items := db.items[id := row])
      else d.response == ServerError500 && after == db
    case ListItems(l) =>
      && after == db
      && d.response.Ok200? && d.response.body.ItemsBody?
      && d.response.body.items.Keys == ItemsOf(db, l)
      && forall i :: i in ItemsOf(db, l) ==> d.response.body.items[i] == db.items[i]
    case UpdateItem(l, i, patch) =>
      if i in ItemsOf(db, l) then
        && i in after.items
        && d.response == Ok200(ItemBody(i, after.items[i]))
        && after == db.(items := db.items[i := after.items[i]])
        && after.items[i].list == l
        && FieldPatched(db.items[i].content, patch.content, after.items[i].content)
        && FieldPatched(db.items[i].completed, patch.completed, after.items[i].completed)
        && FieldPatched(db.items[i].order, patch.order, after.items[i].order)
      else d.response == NotFound404 && after == db
    case DeleteItem(l, i) =>
      if i in ItemsOf(db, l) then d.response == NoContent204 && after == db.(items := db.items - {i})
      else d.response == NotFound404 && after == db
    case PrecheckShare(l, target, _, _) =>
      && after == db
      && d.response ==
           if target == caller then BadRequest400
           else if target !in db.users then NotFound404
           else if ShareKey(l, target) in db.shares then Conflict409
           else InFlight
    case ListShares(l) =>
      && after == db
      && d.response.Ok200? && d.response.body.SharesBody?
      && forall k :: (k in d.response.body.shares <==> k in db.shares && k.list == l)
                     && (k in d.response.body.shares ==> d.response.body.shares[k] == db.shares[k])
    case ChangeRole(l, target, role) =>
      var key := ShareKey(l, target);
      if key !in db.shares then d.response == NotFound404 && after == db
      else if role.OtherText? then d.response == ServerError500 && after == db
      else d.response == Ok200(ShareBody(key, role)) && after == db.(shares := db.shares[key := role])
    case RevokeShare(l, target) =>
      var key := ShareKey(l, target);
      if key in db.shares then d.response == NoContent204 && after == db.(shares := db.shares - {key})
      else d.response == NotFound404 && after == db
  }

  /** Behind a grant every handler body serves its request from the rows. */
  lemma GrantedIsServed(db: Db, caller: UserId, op: Op)
    requires OnPath(op)
    ensures Served(db, caller, op, DecideGranted(db, caller, op))
  {
  }

  /** A permitted request is served: its list exists, and answer and change are the promised ones. */
  lemma PermittedIsServed(run: seq<Event>, caller: UserId, op: Op)
    requires FreshIds(run) && OnPath(op) && SignUp(caller) in run && Permitted(run, caller, op)
    ensures op.list in Exec(run).db.lists
    ensures Served(Exec(run).db, caller, op, Decide(Exec(run).db, caller, op))
  {
    hide RoleOf, HistoryRole, RoleSuffices, Authorize, Served, DecideGranted, KeyConstraints, OwnersHoldNoShares;
    UsersFromHistory(run, caller);
    RoleEqualsHistory(run, op.list, caller);
    WiredActions(Exec(run).db, caller, op, HistoryRole(Trace(run), op.list, caller));
    Reachable(run);
    GrantMeansList(Exec(run).db, op.list, caller, ActionOf(op));
    GrantedIsServed(Exec(run).db, caller, op);
  }

  /** A signed-up user founds the list under the drawn id; an id in use changes nothing. */
  lemma CreateListIsServed(run: seq<Event>, caller: UserId, id: ListId, name: string)
    requires SignUp(caller) in run
    ensures var db := Exec(run).db; var d := Decide(db, caller, Op.CreateList(id, name)); var row := ListRow(caller, name);
            if id in db.lists then d == Decision(NoEffect, ServerError500)
            else d.response == Created201(ListBody(id, row)) && Apply(db, d.effect) == db.(lists := db.lists[id := row])
  {
    UsersFromHistory(run, caller);
  }

  /** The dashboard shows exactly the lists on which the log gives the caller a role, as they are. */
  lemma DashboardEqualsHistory(run: seq<Event>, caller: UserId)
    requires FreshIds(run) && SignUp(caller) in run
    ensures var db := Exec(run).db; var d := Decide(db, caller, Op.ListLists);
            && d.effect == NoEffect && d.response.Ok200? && d.response.body.ListsBody?
            && (forall l :: l in d.response.body.lists <==> HistoryRole(Trace(run), l, caller).Some?)
            && (forall l :: l in d.response.body.lists ==> l in db.lists && d.response.body.lists[l] == db.lists[l])
  {
    hide HistoryRole;
    UsersFromHistory(run, caller);
    Reachable(run);
    forall l {
      RoleEqualsHistory(run, l, caller);
    }
  }

  /** A role text the schema forbids, on a share that counts, is an internal error and changes nothing. */
  lemma UnknownRolesRaise(db: Db, caller: UserId, op: Op)
    requires OnPath(op) && caller in db.users && !IsOwner(db, op.list, caller)
    ensures ShareRole(db, op.list, caller).Some? && ShareRole(db, op.list, caller).value.OtherText? ==>
              Decide(db, caller, op) == Decision(NoEffect, ServerError500)
  {
  }

  /** An action no endpoint is wired to raises for everybody but strangers. */
  lemma UnknownActionsRaise(db: Db, list: ListId, user: UserId, name: string)
    ensures Authorize(db, list, user, P.UnknownAction(name)) ==
            if !IsOwner(db, list, user) && ShareKey(list, user) !in db.shares then Denied else Broken
  {
  }

  lemma ItemWriters(s: State, e: Event, list: ListId)
    ensures ItemsIn(Step(s, e).state.db, list) == ItemsIn(s.db, list)
            || (e.Request? && RoleOf(s.db, list, e.caller) in {Returns(Some(P.Owner)), Returns(Some(P.Editor))})
  {
    if e.Request? && !e.op.CommitShare? {
      StepIsDecision(s, e.caller, e.op);
      ItemEffects(s.db, e.caller, e.op, list);
    } else {
      assert Step(s, e).state.db.items == s.db.items;
    }
  }

  /** An effect on the list's items comes from a request on its path by an owner or editor. */
  lemma ItemEffects(db: Db, caller: UserId, op: Op, list: ListId)
    requires !op.CommitShare?
    ensures ItemsIn(Apply(db, Decide(db, caller, op).effect), list) == ItemsIn(db, list)
            || RoleOf(db, list, caller) in {Returns(Some(P.Owner)), Returns(Some(P.Editor))}
  {
    var d := Decide(db, caller, op);
    if d.effect.PutItem? || d.effect.DropItem? || d.effect.DropList? {
      ItemActions(db, op.list, caller, ActionOf(op));
      hide Authorize;
      if op.list != list {
        assert ItemsIn(Apply(db, d.effect), list) == ItemsIn(db, list);
      }
    } else {
      assert Apply(db, d.effect).items == db.items;
    }
  }

  lemma ItemActions(db: Db, list: ListId, user: UserId, action: P.Action)
    requires action in {P.CreateItem, P.UpdateItem, P.DeleteItem, P.DeleteList}
    ensures Authorize(db, list, user, action).Granted? ==> RoleOf(db, list, user) in {Returns(Some(P.Owner)), Returns(Some(P.Editor))}
  {
  }

  /** Nobody but a list's owner or an editor ever adds, changes or removes one of its items. */
  lemma OnlyEditorsChangeItems(run: seq<Event>, e: Event, list: ListId)
    requires FreshIds(run + [e])
    ensures ItemsIn(Exec(run + [e]).db, list) == ItemsIn(Exec(run).db, list)
            || (e.Request? && HistoryRole(Trace(run), list, e.caller) in {Some(P.Owner), Some(P.Editor)})
  {
    hide Step, ItemsIn, KeyConstraints, HistoryRole;
    assert (run + [e])[..|run|] == run;
    Reachable(run);
    ItemWriters(Exec(run), e, list);
    if e.Request? {
      RoleEqualsHistory(run, list, e.caller);
    }
  }

  lemma ListWriters(s: State, e: Event, list: ListId)
    requires KeyConstraints(s.db) && list in s.db.lists
    ensures var after := Step(s, e).state.db.lists;
            (list in after && after[list] == s.db.lists[list]) || (e.Request? && IsOwner(s.db, list, e.caller))
  {
    hide Authorize;
    if e.Request? && !e.op.CommitShare? {
      DecideIsSound(s.db, e.caller, e.op);
    }
  }

  /** Nobody but its owner renames or removes a list. */
  lemma OnlyOwnersChangeLists(run: seq<Event>, e: Event, list: ListId)
    requires FreshIds(run + [e]) && list in Exec(run).db.lists
    ensures var after := Exec(run + [e]).db.lists;
            (list in after && after[list] == Exec(run).db.lists[list])
            || (e.Request? && HistoryRole(Trace(run), list, e.caller) == Some(P.Owner))
  {
    hide Step, KeyConstraints, HistoryRole;
    assert (run + [e])[..|run|] == run;
    Reachable(run);
    ListWriters(Exec(run), e, list);
    if e.Request? {
      RoleEqualsHistory(run, list, e.caller);
    }
  }

}
