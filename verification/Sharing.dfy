/**
 * Lists, items and shares: the tables, what each handler decides, and the machine that runs
 * whole requests, except that create_share runs as two steps with anything in between.
 */
module Sharing {
  import opened Wrappers
  import P = Permissions

  type UserId = nat
  type ListId = nat
  type ItemId = nat

  datatype ListRow = ListRow(owner: UserId, name: string)
  datatype ItemRow = ItemRow(list: ListId, content: string, completed: bool, order: int)
  datatype ShareKey = ShareKey(list: ListId, user: UserId)

  /** The four tables, each keyed by its primary key. */
  datatype Db = Db(
    users: set<UserId>,
    lists: map<ListId, ListRow>,
    items: map<ItemId, ItemRow>,
    shares: map<ShareKey, P.RoleText>)

  // ------------------------------------------------------------------ effects

  /** What a handler commits: at most one row written or deleted. */
  datatype Effect =
    | NoEffect
    | PutList(list: ListId, listRow: ListRow)
    | DropList(list: ListId)
    | PutItem(item: ItemId, itemRow: ItemRow)
    | DropItem(item: ItemId)
    | PutShare(key: ShareKey, role: P.RoleText)
    | DropShare(key: ShareKey)

  /** The list row goes, and ON DELETE CASCADE takes its items and shares along. */
  function Cascade(db: Db, list: ListId): Db {
    db.(lists := db.lists - {list},
        items := map i | i in db.items && db.items[i].list != list :: db.items[i],
        shares := map k | k in db.shares && k.list != list :: db.shares[k])
  }

  function Apply(db: Db, effect: Effect): Db {
    match effect
    case NoEffect => db
    case PutList(l, row) => db.(lists := db.lists[l := row])
    case DropList(l) => Cascade(db, l)
    case PutItem(i, row) => db.(items := db.items[i := row])
    case DropItem(i) => db.(items := db.items - {i})
    case PutShare(k, role) => db.(shares := db.shares[k := role])
    case DropShare(k) => db.(shares := db.shares - {k})
  }

  // ------------------------------------------------------------ authorization

  datatype Permission = Granted(role: P.Role) | Denied | Broken

  function ShareRole(db: Db, list: ListId, user: UserId): Option<P.RoleText> {
    var key := ShareKey(list, user);
    if key in db.shares then Some(db.shares[key]) else None
  }

  predicate IsOwner(db: Db, list: ListId, user: UserId) {
    list in db.lists && db.lists[list].owner == user
  }

  function RoleOf(db: Db, list: ListId, user: UserId): Checked<Option<P.Role>> {
    P.EffectiveRole(IsOwner(db, list, user), ShareRole(db, list, user))
  }

  function Authorize(db: Db, list: ListId, user: UserId, action: P.Action): Permission {
    match RoleOf(db, list, user)
    case ValueError => Broken
    case Returns(None) => Denied
    case Returns(Some(role)) =>
      match P.CanPerform(role, action)
      case ValueError => Broken
      case Returns(ok) => if ok then Granted(role) else Denied
  }

  // ----------------------------------------------------------------- requests

  datatype ItemPatch = ItemPatch(content: Option<string>, completed: Option<bool>, order: Option<int>)

  function ApplyPatch(row: ItemRow, patch: ItemPatch): ItemRow {
    row.(content := if patch.content.Some? then patch.content.value else row.content,
         completed := if patch.completed.Some? then patch.completed.value else row.completed,
         order := if patch.order.Some? then patch.order.value else row.order)
  }

  /** Ids of new rows are parameters: the source draws them from uuid4. */
  datatype Op =
    | CreateList(newList: ListId, name: string)
    | ListLists
    | GetList(list: ListId)
    | RenameList(list: ListId, name: string)
    | DeleteList(list: ListId)
    | CreateItem(list: ListId, newItem: ItemId, content: string, order: int)
    | ListItems(list: ListId)
    | UpdateItem(list: ListId, item: ItemId, patch: ItemPatch)
    | DeleteItem(list: ListId, item: ItemId)
    | PrecheckShare(list: ListId, target: UserId, role: P.RoleText, serial: nat)
    | CommitShare(list: ListId, target: UserId, role: P.RoleText, serial: nat)
    | ListShares(list: ListId)
    | ChangeRole(list: ListId, target: UserId, role: P.RoleText)
    | RevokeShare(list: ListId, target: UserId)

  datatype Body =
    | ListBody(list: ListId, listRow: ListRow)
    | ListsBody(lists: map<ListId, ListRow>)
    | ItemBody(item: ItemId, itemRow: ItemRow)
    | ItemsBody(items: map<ItemId, ItemRow>)
    | ShareBody(key: ShareKey, role: P.RoleText)
    | SharesBody(shares: map<ShareKey, P.RoleText>)

  /** InFlight: no answer yet. NotRunning: a step of a request that is not at that point. */
  datatype Response =
    | Ok200(body: Body) | Created201(body: Body) | NoContent204
    | BadRequest400 | Unauthorized401 | NotFound404 | Conflict409 | ServerError500
    | InFlight | NotRunning

  datatype Decision = Decision(effect: Effect, response: Response)

  function ActionOf(op: Op): P.Action
    requires !op.CreateList? && !op.ListLists? && !op.CommitShare?
  {
    match op
    case GetList(_) => P.ReadList
    case RenameList(_, _) => P.RenameList
    case DeleteList(_) => P.DeleteList
    case CreateItem(_, _, _, _) => P.CreateItem
    case ListItems(_) => P.ListItems
    case UpdateItem(_, _, _) => P.UpdateItem
    case DeleteItem(_, _) => P.DeleteItem
    case PrecheckShare(_, _, _, _) => P.ShareList
    case ListShares(_) => P.ShareList
    case ChangeRole(_, _, _) => P.ChangeCollaboratorRole
    case RevokeShare(_, _) => P.RevokeShare
  }

  function VisibleLists(db: Db, user: UserId): map<ListId, ListRow> {
    map l | l in db.lists && (db.lists[l].owner == user || ShareKey(l, user) in db.shares) :: db.lists[l]
  }

  function ItemsIn(db: Db, list: ListId): map<ItemId, ItemRow> {
    map i | i in db.items && db.items[i].list == list :: db.items[i]
  }

  function SharesOn(db: Db, list: ListId): map<ShareKey, P.RoleText> {
    map k | k in db.shares && k.list == list :: db.shares[k]
  }

  /** What the handler named by op does, once its caller is known to be signed in. */
  function Decide(db: Db, caller: UserId, op: Op): Decision
    requires !op.CommitShare?
  {
    if caller !in db.users then Decision(NoEffect, Unauthorized401)
    else if op.CreateList? then
      var row := ListRow(caller, op.name);
      if op.newList in db.lists then Decision(NoEffect, ServerError500)
      else Decision(PutList(op.newList, row), Created201(ListBody(op.newList, row)))
    else if op.ListLists? then Decision(NoEffect, Ok200(ListsBody(VisibleLists(db, caller))))
    else
      match Authorize(db, op.list, caller, ActionOf(op))
      case Broken => Decision(NoEffect, ServerError500)
      case Denied => Decision(NoEffect, NotFound404)
      case Granted(_) => DecideGranted(db, caller, op)
  }

  /** The handler bodies, behind the permission dependency. */
  function DecideGranted(db: Db, caller: UserId, op: Op): Decision
    requires !op.CreateList? && !op.ListLists? && !op.CommitShare?
  {
    match op
    case GetList(l) =>
      if l !in db.lists then Decision(NoEffect, NotFound404)
      else Decision(NoEffect, Ok200(ListBody(l, db.lists[l])))
    case RenameList(l, name) =>
      if l !in db.lists then Decision(NoEffect, NotFound404)
      else
        var row := db.lists[l].(name := name);
        Decision(PutList(l, row), Ok200(ListBody(l, row)))
    case DeleteList(l) =>
      if l !in db.lists then Decision(NoEffect, NotFound404) else Decision(DropList(l), NoContent204)
    case CreateItem(l, id, content, order) =>
      var row := ItemRow(l, content, false, order);
      if id in db.items || l !in db.lists then Decision(NoEffect, ServerError500)
      else Decision(PutItem(id, row), Created201(ItemBody(id, row)))
    case ListItems(l) =>
      Decision(NoEffect, Ok200(ItemsBody(ItemsIn(db, l))))
    case UpdateItem(l, i, patch) =>
      if i !in db.items || db.items[i].list != l then Decision(NoEffect, NotFound404)
      else
        var row := ApplyPatch(db.items[i], patch);
        Decision(PutItem(i, row), Ok200(ItemBody(i, row)))
    case DeleteItem(l, i) =>
      if i !in db.items || db.items[i].list != l then Decision(NoEffect, NotFound404)
      else Decision(DropItem(i), NoContent204)
    case PrecheckShare(l, target, _, _) =>
      if target == caller then Decision(NoEffect, BadRequest400)
      else if target !in db.users then Decision(NoEffect, NotFound404)
      else if ShareKey(l, target) in db.shares then Decision(NoEffect, Conflict409)
      else Decision(NoEffect, InFlight)
    case ListShares(l) =>
      Decision(NoEffect, Ok200(SharesBody(SharesOn(db, l))))
    case ChangeRole(l, target, role) =>
      var key := ShareKey(l, target);
      if key !in db.shares then Decision(NoEffect, NotFound404)
      else if role.OtherText? then Decision(NoEffect, ServerError500)
      else Decision(PutShare(key, role), Ok200(ShareBody(key, role)))
    case RevokeShare(l, target) =>
      var key := ShareKey(l, target);
      if key !in db.shares then Decision(NoEffect, NotFound404) else Decision(DropShare(key), NoContent204)
  }

  /** The INSERT of create_share under the table's CHECK, primary key and foreign keys. */
  function DecideInsert(db: Db, key: ShareKey, role: P.RoleText): Decision {
    if role.OtherText? then Decision(NoEffect, ServerError500)
    else if key in db.shares then Decision(NoEffect, Conflict409)
    else if key.list !in db.lists || key.user !in db.users then Decision(NoEffect, NotFound404)
    else Decision(PutShare(key, role), Created201(ShareBody(key, role)))
  }

  // ------------------------------------------------------------------ machine

  /** One create_share request; the serial number tells requests with equal bodies apart. */
  datatype ShareRequest = ShareRequest(caller: UserId, list: ListId, target: UserId, role: P.RoleText, serial: nat)

  /** The tables, and the create_share requests between their pre-check and their commit. */
  datatype State = State(db: Db, pending: set<ShareRequest>)
  datatype Event = SignUp(user: UserId) | Request(caller: UserId, op: Op)
  datatype Outcome = Outcome(state: State, response: Response)

  const EMPTY := State(Db({}, map[], map[], map[]), {})

  function Step(s: State, e: Event): Outcome {
    match e
    case SignUp(u) => Outcome(s.(db := s.db.(users := s.db.users + {u})), NoContent204)
    case Request(caller, CommitShare(l, target, role, serial)) =>
      var q := ShareRequest(caller, l, target, role, serial);
      if q !in s.pending then Outcome(s, NotRunning)
      else
        var d := DecideInsert(s.db, ShareKey(l, target), role);
        Outcome(State(Apply(s.db, d.effect), s.pending - {q}), d.response)
    case Request(caller, PrecheckShare(l, target, role, serial)) =>
      var q := ShareRequest(caller, l, target, role, serial);
      var d := Decide(s.db, caller, e.op);
      if q in s.pending then Outcome(s, NotRunning)
      else Outcome(s.(pending := s.pending + if d.response == InFlight then {q} else {}), d.response)
    case Request(caller, op) =>
      var d := Decide(s.db, caller, op);
      Outcome(s.(db := Apply(s.db, d.effect)), d.response)
  }

  /** Apart from create_share's second step, a request commits and answers what was decided. */
  lemma StepIsDecision(s: State, caller: UserId, op: Op)
    requires !op.CommitShare?
    ensures var o := Step(s, Request(caller, op)); var d := Decide(s.db, caller, op);
            if op.PrecheckShare? && ShareRequest(caller, op.list, op.target, op.role, op.serial) in s.pending
            then o == Outcome(s, NotRunning)
            else
              && o.response == d.response && o.state.db == Apply(s.db, d.effect)
              && o.state.pending == s.pending + if op.PrecheckShare? && d.response == InFlight
                                                then {ShareRequest(caller, op.list, op.target, op.role, op.serial)} else {}
  {
    hide Authorize;
  }

  function Exec(run: seq<Event>): State {
    if run == [] then EMPTY else Step(Exec(run[..|run| - 1]), run[|run| - 1]).state
  }

  /** What the i-th event of the run was answered. */
  function Answer(run: seq<Event>, i: nat): Response
    requires i < |run|
  {
    Step(Exec(run[..i]), run[i]).response
  }

  /** Ids drawn by create_list and create_item in a run. */
  function ListIds(run: seq<Event>): set<ListId> {
    set i | 0 <= i < |run| && run[i].Request? && run[i].op.CreateList? :: run[i].op.newList
  }

  function ItemIds(run: seq<Event>): set<ItemId> {
    set i | 0 <= i < |run| && run[i].Request? && run[i].op.CreateItem? :: run[i].op.newItem
  }

  predicate FreshEvent(run: seq<Event>, e: Event) {
    && (e.Request? && e.op.CreateList? ==> e.op.newList !in ListIds(run))
    && (e.Request? && e.op.CreateItem? ==> e.op.newItem !in ItemIds(run))
  }

  /** No generated id is drawn twice. */
  predicate FreshIds(run: seq<Event>) {
    run == [] || (FreshIds(run[..|run| - 1]) && FreshEvent(run[..|run| - 1], run[|run| - 1]))
  }

  lemma IdsSnoc(run: seq<Event>, e: Event)
    ensures ListIds(run + [e]) == ListIds(run) + if e.Request? && e.op.CreateList? then {e.op.newList} else {}
    ensures ItemIds(run + [e]) == ItemIds(run) + if e.Request? && e.op.CreateItem? then {e.op.newItem} else {}
  {
    var longer := run + [e];
    assert longer[|run|] == e;
    forall i | 0 <= i < |run| ensures longer[i] == run[i] {}
    assert ListIds(longer) == ListIds(run) + if e.Request? && e.op.CreateList? then {e.op.newList} else {} by {
      forall x | x in ListIds(run) ensures x in ListIds(longer) {
        var i :| 0 <= i < |run| && run[i].Request? && run[i].op.CreateList? && run[i].op.newList == x;
        assert longer[i] == run[i];
      }
    }
    assert ItemIds(longer) == ItemIds(run) + if e.Request? && e.op.CreateItem? then {e.op.newItem} else {} by {
      forall x | x in ItemIds(run) ensures x in ItemIds(longer) {
        var i :| 0 <= i < |run| && run[i].Request? && run[i].op.CreateItem? && run[i].op.newItem == x;
        assert longer[i] == run[i];
      }
    }
  }

  lemma {:induction false} FreshPrefix(run: seq<Event>, n: nat)
    requires FreshIds(run) && n <= |run|
    ensures FreshIds(run[..n])
    ensures n < |run| ==> FreshEvent(run[..n], run[n])
  {
    if n < |run| {
      var init := run[..|run| - 1];
      FreshPrefix(init, n);
      assert init[..n] == run[..n];
    } else {
      assert run[..n] == run;
    }
  }

  lemma ExecSnoc(run: seq<Event>, n: nat)
    requires n < |run|
    ensures Exec(run[..n + 1]) == Step(Exec(run[..n]), run[n]).state
  {
    assert run[..n + 1][..n] == run[..n];
  }
}
