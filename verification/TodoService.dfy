/** The list, item and share handlers, changing the tables in place. */
module TodoService {
  import opened Wrappers
  import opened Sharing
  import opened SharingInvariant
  import P = Permissions

  /** The handler left the tables and answered as decided for this operation. */
  ghost predicate Serves(before: Db, caller: UserId, op: Op, after: Db, r: Response)
    requires !op.CommitShare?
  {
    var d := Decide(before, caller, op);
    after == Apply(before, d.effect) && r == d.response
  }

  ghost predicate NoDuplicates<T(!new)>(s: seq<T>) {
    forall i, j :: 0 <= i < j < |s| ==> s[i] != s[j]
  }

  function OwnedBy(db: Db, user: UserId): set<ListId> {
    set l | l in db.lists && db.lists[l].owner == user
  }

  function SharedWith(db: Db, user: UserId): set<ListId> {
    set l | l in db.lists && ShareKey(l, user) in db.shares
  }

  /** The rows of a query, each once, in whatever order the database picks. */
  method Scan(ids: set<ListId>) returns (rows: seq<ListId>)
    ensures NoDuplicates(rows) && |rows| == |ids|
    ensures forall l :: l in rows <==> l in ids
  {
    rows := [];
    var left := ids;
    while left != {}
      invariant left <= ids && NoDuplicates(rows) && |rows| + |left| == |ids|
      invariant forall l :: l in rows <==> l in ids - left
      decreases left
    {
      var l :| l in left;
      assert l !in rows;
      rows := rows + [l];
      left := left - {l};
    }
  }

  class TodoService {
    var users: set<UserId>
    var lists: map<ListId, ListRow>
    var items: map<ItemId, ItemRow>
    var shares: map<ShareKey, P.RoleText>

    constructor ()
      ensures Tables() == EMPTY.db
    {
      users, lists, items, shares := {}, map[], map[], map[];
    }

    function Tables(): Db
      reads this
    {
      Db(users, lists, items, shares)
    }

    method CreateList(caller: UserId, id: ListId, name: string) returns (r: Response)
      modifies this
      ensures Serves(old(Tables()), caller, Op.CreateList(id, name), Tables(), r)
    {
      if caller !in users {
        return Unauthorized401;
      }
      if id in lists {
        return ServerError500;
      }
      var row := ListRow(caller, name);
      lists := lists[id := row];
      return Created201(ListBody(id, row));
    }

    /**
     * The dashboard. Under the key constraints it holds exactly the lists the permission check
     * would let the caller read, each once, owned lists first; when no owner holds a share on
     * the own list, the duplicate check drops nothing.
     */
    method ListLists(caller: UserId) returns (r: Response, result: seq<ListId>)
      ensures r == Decide(Tables(), caller, Op.ListLists).response
      ensures r.Ok200? ==> forall l :: l in result <==> l in VisibleLists(Tables(), caller)
      ensures r.Ok200? && KeyConstraints(Tables()) ==>
                forall l :: l in result <==> Authorize(Tables(), l, caller, P.ReadList).Granted?
      ensures NoDuplicates(result)
      ensures forall a, b :: 0 <= a < b < |result| && IsOwner(Tables(), result[b], caller) ==> IsOwner(Tables(), result[a], caller)
      ensures r.Ok200? && OwnersHoldNoShares(Tables()) ==>
                |result| == |OwnedBy(Tables(), caller)| + |SharedWith(Tables(), caller)|
    {
      hide OwnersHoldNoShares, KeyConstraints, Authorize;
      result := [];
      DashboardIsAuthorized(Tables(), caller);
      if caller !in users {
        return Unauthorized401, [];
      }
      var owned := Scan(OwnedBy(Tables(), caller));
      var shared := Scan(SharedWith(Tables(), caller));
      var rows := owned + shared;
      NothingListedTwice(Tables(), caller, owned, shared);
      var seen: set<ListId> := {};
      for i := 0 to |rows|
        invariant NoDuplicates(result)
        invariant forall l :: l in seen <==> l in result
        invariant forall l :: l in result <==> l in rows[..i]
        invariant if i <= |owned| then result == owned[..i] else owned <= result
        invariant NoDuplicates(rows) ==> result == rows[..i]
      {
        var l := rows[i];
        assert rows[..i + 1] == rows[..i] + [l];
        if l !in seen {
          seen := seen + {l};
          result := result + [l];
        }
      }
      assert rows[..|rows|] == rows;
      r := Ok200(ListsBody(VisibleLists(Tables(), caller)));
      OwnedComeFirst(Tables(), caller, owned, result);
    }

    method GetList(caller: UserId, list: ListId) returns (r: Response)
      ensures r == Decide(Tables(), caller, Op.GetList(list)).response
    {
      r := Guard(caller, list, P.ReadList);
      if r != InFlight {
        return;
      }
      if list !in lists {
        return NotFound404;
      }
      return Ok200(ListBody(list, lists[list]));
    }

    /** The permission dependency: InFlight lets the handler run, anything else is its answer. */
    method Guard(caller: UserId, list: ListId, action: P.Action) returns (r: Response)
      ensures r == if caller !in users then Unauthorized401
                   else match Authorize(Tables(), list, caller, action)
                        case Granted(_) => InFlight
                        case Denied => NotFound404
                        case Broken => ServerError500
    {
      if caller !in users {
        return Unauthorized401;
      }
      var isOwner := list in lists && lists[list].owner == caller;
      var key := ShareKey(list, caller);
      var share := if key in shares then Some(shares[key]) else None;
      match P.EffectiveRole(isOwner, share) {
        case ValueError =>
          return ServerError500;
        case Returns(None) =>
          return NotFound404;
        case Returns(Some(role)) =>
          match P.CanPerform(role, action) {
            case ValueError =>
              return ServerError500;
            case Returns(ok) =>
              return if ok then InFlight else NotFound404;
          }
      }
    }

    method RenameList(caller: UserId, list: ListId, name: string) returns (r: Response)
      modifies this
      ensures Serves(old(Tables()), caller, Op.RenameList(list, name), Tables(), r)
    {
      r := Guard(caller, list, P.RenameList);
      if r != InFlight {
        return;
      }
      if list !in lists {
        return NotFound404;
      }
      var row := lists[list].(name := name);
      lists := lists[list := row];
      return Ok200(ListBody(list, row));
    }

    method DeleteList(caller: UserId, list: ListId) returns (r: Response)
      modifies this
      ensures Serves(old(Tables()), caller, Op.DeleteList(list), Tables(), r)
    {
      r := Guard(caller, list, P.DeleteList);
      if r != InFlight {
        return;
      }
      if list !in lists {
        return NotFound404;
      }
      lists := lists - {list};
      items := map i | i in items && items[i].list != list :: items[i];
      shares := map k | k in shares && k.list != list :: shares[k];
      return NoContent204;
    }

    method CreateItem(caller: UserId, list: ListId, id: ItemId, content: string, order: int) returns (r: Response)
      modifies this
      ensures Serves(old(Tables()), caller, Op.CreateItem(list, id, content, order), Tables(), r)
    {
      r := Guard(caller, list, P.CreateItem);
      if r != InFlight {
        return;
      }
      if id in items || list !in lists {
        return ServerError500;
      }
      var row := ItemRow(list, content, false, order);
      items := items[id := row];
      return Created201(ItemBody(id, row));
    }

    method ListItems(caller: UserId, list: ListId) returns (r: Response)
      ensures r == Decide(Tables(), caller, Op.ListItems(list)).response
    {
      r := Guard(caller, list, P.ListItems);
      if r != InFlight {
        return;
      }
      return Ok200(ItemsBody(ItemsIn(Tables(), list)));
    }

    method UpdateItem(caller: UserId, list: ListId, item: ItemId, patch: ItemPatch) returns (r: Response)
      modifies this
      ensures Serves(old(Tables()), caller, Op.UpdateItem(list, item, patch), Tables(), r)
    {
      r := Guard(caller, list, P.UpdateItem);
      if r != InFlight {
        return;
      }
      if item !in items || items[item].list != list {
        return NotFound404;
      }
      var row := items[item];
      if patch.content.Some? {
        row := row.(content := patch.content.value);
      }
      if patch.completed.Some? {
        row := row.(completed := patch.completed.value);
      }
      if patch.order.Some? {
        row := row.(order := patch.order.value);
      }
      items := items[item := row];
      return Ok200(ItemBody(item, row));
    }

    method DeleteItem(caller: UserId, list: ListId, item: ItemId) returns (r: Response)
      modifies this
      ensures Serves(old(Tables()), caller, Op.DeleteItem(list, item), Tables(), r)
    {
      r := Guard(caller, list, P.DeleteItem);
      if r != InFlight {
        return;
      }
      if item !in items || items[item].list != list {
        return NotFound404;
      }
      items := items - {item};
      return NoContent204;
    }

    /** create_share up to its INSERT. */
    method PrecheckShare(caller: UserId, list: ListId, target: UserId, role: P.RoleText) returns (r: Response)
      ensures r == Decide(Tables(), caller, Op.PrecheckShare(list, target, role, 0)).response
    {
      r := Guard(caller, list, P.ShareList);
      if r != InFlight {
        return;
      }
      if target == caller {
        return BadRequest400;
      }
      if target !in users {
        return NotFound404;
      }
      if ShareKey(list, target) in shares {
        return Conflict409;
      }
      return InFlight;
    }

    /** The INSERT of create_share and the mapping of constraint violations to answers. */
    method CommitShare(list: ListId, target: UserId, role: P.RoleText) returns (r: Response)
      modifies this
      ensures var d := DecideInsert(old(Tables()), ShareKey(list, target), role);
              Tables() == Apply(old(Tables()), d.effect) && r == d.response
    {
      var key := ShareKey(list, target);
      if role.OtherText? {
        return ServerError500;
      }
      if key in shares {
        return Conflict409;
      }
      if list !in lists || target !in users {
        return NotFound404;
      }
      shares := shares[key := role];
      return Created201(ShareBody(key, role));
    }

    /** create_share with nothing between its two steps: the machine's two events in a row. */
    method CreateShare(caller: UserId, list: ListId, target: UserId, role: P.RoleText) returns (r: Response)
      modifies this
      ensures var checked := Step(State(old(Tables()), {}), Request(caller, Op.PrecheckShare(list, target, role, 0)));
              if checked.response == InFlight
              then Step(checked.state, Request(caller, Op.CommitShare(list, target, role, 0))) == Outcome(State(Tables(), {}), r)
              else checked == Outcome(State(Tables(), {}), r)
    {
      r := PrecheckShare(caller, list, target, role);
      if r == InFlight {
        r := CommitShare(list, target, role);
      }
    }

    method ListShares(caller: UserId, list: ListId) returns (r: Response)
      ensures r == Decide(Tables(), caller, Op.ListShares(list)).response
    {
      r := Guard(caller, list, P.ShareList);
      if r != InFlight {
        return;
      }
      return Ok200(SharesBody(SharesOn(Tables(), list)));
    }

    method ChangeRole(caller: UserId, list: ListId, target: UserId, role: P.RoleText) returns (r: Response)
      modifies this
      ensures Serves(old(Tables()), caller, Op.ChangeRole(list, target, role), Tables(), r)
    {
      r := Guard(caller, list, P.ChangeCollaboratorRole);
      if r != InFlight {
        return;
      }
      var key := ShareKey(list, target);
      if key !in shares {
        return NotFound404;
      }
      if role.OtherText? {
        return ServerError500;
      }
      shares := shares[key := role];
      return Ok200(ShareBody(key, role));
    }

    method RevokeShare(caller: UserId, list: ListId, target: UserId) returns (r: Response)
      modifies this
      ensures Serves(old(Tables()), caller, Op.RevokeShare(list, target), Tables(), r)
    {
      r := Guard(caller, list, P.RevokeShare);
      if r != InFlight {
        return;
      }
      var key := ShareKey(list, target);
      if key !in shares {
        return NotFound404;
      }
      shares := shares - {key};
      return NoContent204;
    }
  }

  /** With owners holding no shares, no list is both owned by and shared with a user. */
  lemma NothingListedTwice(db: Db, user: UserId, owned: seq<ListId>, shared: seq<ListId>)
    requires NoDuplicates(owned) && NoDuplicates(shared)
    requires forall l :: l in owned <==> l in OwnedBy(db, user)
    requires forall l :: l in shared <==> l in SharedWith(db, user)
    ensures OwnersHoldNoShares(db) ==> NoDuplicates(owned + shared)
  {
    if OwnersHoldNoShares(db) {
      forall i, j | 0 <= i < |owned| && 0 <= j < |shared| ensures owned[i] != shared[j] {
        assert owned[i] in owned && shared[j] in shared;
        assert ShareKey(shared[j], user) in db.shares;
      }
    }
  }

  /** Under the key constraints the visible lists are those the permission check lets the user read. */
  lemma DashboardIsAuthorized(db: Db, user: UserId)
    ensures KeyConstraints(db) ==>
              forall l :: l in VisibleLists(db, user) <==> Authorize(db, l, user, P.ReadList).Granted?
  {
  }

  lemma OwnedComeFirst(db: Db, user: UserId, owned: seq<ListId>, result: seq<ListId>)
    requires owned <= result && NoDuplicates(result)
    requires forall l :: l in owned <==> l in OwnedBy(db, user)
    ensures forall a, b :: 0 <= a < b < |result| && IsOwner(db, result[b], user) ==> IsOwner(db, result[a], user)
  {
    forall a, b | 0 <= a < b < |result| && IsOwner(db, result[b], user) ensures IsOwner(db, result[a], user) {
      assert result[b] in OwnedBy(db, user);
      assert result[b] in owned;
      var k :| 0 <= k < |owned| && owned[k] == result[b];
      assert result[k] == owned[k] && k == b;
      assert result[a] == owned[a] && owned[a] in owned;
      assert result[a] in OwnedBy(db, user);
    }
  }
}
