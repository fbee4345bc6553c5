/** The tables read back from the event log: roles, share rows, items, deletions. */
module SharingHistory {
  import opened Wrappers
  import opened Histories
  import opened Sharing
  import opened SharingInvariant
  import P = Permissions

  datatype Entry = Entry(event: Event, response: Response)

  /** The log of a run: every event with its answer. */
  function Trace(run: seq<Event>): (log: seq<Entry>)
    ensures |log| == |run|
  {
    if run == [] then []
    else
      var init, e := run[..|run| - 1], run[|run| - 1];
      Trace(init) + [Entry(e, Step(Exec(init), e).response)]
  }

  // ------------------------------------------------------- roles from the log

  /** A create_share or change_role request for this row that succeeded. */
  predicate GrantsTo(en: Entry, key: ShareKey) {
    en.event.Request?
    && ((en.event.op.CommitShare? && en.response.Created201?) || (en.event.op.ChangeRole? && en.response.Ok200?))
    && en.event.op.list == key.list && en.event.op.target == key.user
  }

  /** It asked for this role. */
  ghost function Grants(key: ShareKey, role: P.RoleText): Entry -> bool {
    en => GrantsTo(en, key) && en.event.op.role == role
  }

  predicate DeletesList(en: Entry, list: ListId) {
    en.event.Request? && en.event.op == DeleteList(list) && en.response.NoContent204?
  }

  predicate Revokes(en: Entry, key: ShareKey) {
    en.event.Request? && en.event.op == RevokeShare(key.list, key.user) && en.response.NoContent204?
  }

  /** Anything that decides the share row afresh: a grant, a revocation, the list's deletion. */
  ghost function Settles(key: ShareKey): Entry -> bool {
    en => Revokes(en, key) || DeletesList(en, key.list) || GrantsTo(en, key)
  }

  predicate CreatesList(en: Entry, list: ListId) {
    en.event.Request? && en.event.op.CreateList? && en.event.op.newList == list && en.response.Created201?
  }

  ghost function Founds(list: ListId, owner: UserId): Entry -> bool {
    en => CreatesList(en, list) && en.event.caller == owner
  }

  ghost function Refounds(list: ListId): Entry -> bool {
    en => CreatesList(en, list) || DeletesList(en, list)
  }

  /** The role the log gives: creator, else latest grant with no later revocation or deletion. */
  ghost function HistoryRole(log: seq<Entry>, list: ListId, user: UserId): Option<P.Role> {
    var key := ShareKey(list, user);
    if Latest(log, Founds(list, user), Refounds(list)) then Some(P.Owner)
    else if Latest(log, Grants(key, P.EditorText), Settles(key)) then Some(P.Editor)
    else if Latest(log, Grants(key, P.ViewerText), Settles(key)) then Some(P.Viewer)
    else None
  }

  /** A handler's request and answer tell which share rows and lists it touched. */
  lemma AnswerTellsEffect(db: Db, caller: UserId, op: Op, key: ShareKey, role: P.RoleText)
    requires !op.CommitShare?
    ensures var d := Decide(db, caller, op); var en := Entry(Request(caller, op), d.response);
            && (d.effect.PutShare? && d.effect.key == key <==> GrantsTo(en, key))
            && (d.effect == PutShare(key, role) <==> Grants(key, role)(en))
            && (d.effect == DropShare(key) <==> Revokes(en, key))
            && (d.effect == DropList(key.list) <==> DeletesList(en, key.list))
  {
    hide Authorize;
  }

  lemma ShareStep(s: State, e: Event, key: ShareKey, role: P.RoleText)
    ensures var o := Step(s, e); var en := Entry(e, o.response);
            ShareRole(o.state.db, key.list, key.user) == Some(role) <==>
            Grants(key, role)(en) || (!Settles(key)(en) && ShareRole(s.db, key.list, key.user) == Some(role))
  {
    if e.Request? && !e.op.CommitShare? {
      StepIsDecision(s, e.caller, e.op);
      AnswerTellsEffect(s.db, e.caller, e.op, key, role);
      assert e == Request(e.caller, e.op);
      hide Step, Decide;
    }
  }

  lemma OwnerStep(s: State, e: Event, list: ListId, user: UserId)
    requires KeyConstraints(s.db)
    ensures var o := Step(s, e); var en := Entry(e, o.response);
            IsOwner(o.state.db, list, user) <==>
            Founds(list, user)(en) || (!Refounds(list)(en) && IsOwner(s.db, list, user))
  {
    hide Authorize;
    if e.Request? && !e.op.CommitShare? {
      DecideIsSound(s.db, e.caller, e.op);
    }
  }

  lemma {:induction false} ShareFromHistory(run: seq<Event>, key: ShareKey, role: P.RoleText)
    ensures ShareRole(Exec(run).db, key.list, key.user) == Some(role)
            <==> Latest(Trace(run), Grants(key, role), Settles(key))
  {
    if run != [] {
      var init, e := run[..|run| - 1], run[|run| - 1];
      ShareFromHistory(init, key, role);
      ShareStep(Exec(init), e, key, role);
      LatestSnoc(Trace(init), Entry(e, Step(Exec(init), e).response), Grants(key, role), Settles(key));
    }
  }

  lemma {:induction false} OwnerFromHistory(run: seq<Event>, list: ListId, user: UserId)
    requires FreshIds(run)
    ensures IsOwner(Exec(run).db, list, user) <==> Latest(Trace(run), Founds(list, user), Refounds(list))
  {
    if run != [] {
      var init, e := run[..|run| - 1], run[|run| - 1];
      Reachable(init);
      OwnerFromHistory(init, list, user);
      OwnerStep(Exec(init), e, list, user);
      LatestSnoc(Trace(init), Entry(e, Step(Exec(init), e).response), Founds(list, user), Refounds(list));
    }
  }

  /** After any run the role computed from the tables is the one read off the log; it never raises. */
  lemma RoleEqualsHistory(run: seq<Event>, list: ListId, user: UserId)
    requires FreshIds(run)
    ensures RoleOf(Exec(run).db, list, user) == Returns(HistoryRole(Trace(run), list, user))
  {
    var key := ShareKey(list, user);
    Reachable(run);
    OwnerFromHistory(run, list, user);
    ShareFromHistory(run, key, P.EditorText);
    ShareFromHistory(run, key, P.ViewerText);
  }

  lemma RevokeStep(s: State, e: Event, key: ShareKey)
    requires OwnersHoldNoShares(s.db) && KeyConstraints(s.db) && Revokes(Entry(e, Step(s, e).response), key)
    ensures RoleOf(Step(s, e).state.db, key.list, key.user) == Returns(None)
  {
    hide Authorize;
    assert key == ShareKey(key.list, key.user) && key in s.db.shares;
  }

  /** A revoked collaborator is denied every action from the very next request on the list. */
  lemma RevocationBindsNextRequest(run: seq<Event>, list: ListId, user: UserId, action: P.Action)
    requires FreshIds(run) && run != [] && Revokes(Trace(run)[|run| - 1], ShareKey(list, user))
    ensures Authorize(Exec(run).db, list, user, action) == Denied
  {
    hide Step, OwnersHoldNoShares, KeyConstraints, RoleOf;
    var init := run[..|run| - 1];
    Reachable(init);
    RevokeStep(Exec(init), run[|run| - 1], ShareKey(list, user));
  }

  lemma RoleStep(s: State, e: Event, list: ListId, user: UserId)
    requires KeyConstraints(s.db)
    requires forall q :: q in s.pending && q.list in s.db.lists ==> s.db.lists[q.list].owner == q.caller
    requires RoleOf(Step(s, e).state.db, list, user) != RoleOf(s.db, list, user)
    ensures e.Request?
    ensures IsOwner(s.db, list, e.caller) || (e.op.CreateList? && e.op.newList == list && e.caller == user && list !in s.db.lists)
  {
    hide Authorize;
    if e.Request? && !e.op.CommitShare? {
      DecideIsSound(s.db, e.caller, e.op);
      StepIsDecision(s, e.caller, e.op);
      hide Step, Decide, KeyConstraints;
    }
  }

  /** Nobody's role on a list changes except by its owner's request, or by founding the list. */
  lemma OnlyOwnersChangeRoles(run: seq<Event>, e: Event, list: ListId, user: UserId)
    requires FreshIds(run + [e])
    ensures RoleOf(Exec(run + [e]).db, list, user) == RoleOf(Exec(run).db, list, user)
            || (e.Request? && IsOwner(Exec(run).db, list, e.caller))
            || (e.Request? && e.op.CreateList? && e.op.newList == list && e.caller == user && list !in Exec(run).db.lists)
  {
    hide Step, KeyConstraints, RoleOf, OwnersHoldNoShares;
    assert (run + [e])[..|run|] == run;
    Reachable(run);
    if RoleOf(Exec(run + [e]).db, list, user) != RoleOf(Exec(run).db, list, user) {
      RoleStep(Exec(run), e, list, user);
    }
  }

  // ------------------------------------------------------------ who signed up

  /** A user exists iff the run signed it up; users are never removed. */
  lemma {:induction false} UsersFromHistory(run: seq<Event>, user: UserId)
    ensures user in Exec(run).db.users <==> SignUp(user) in run
  {
    if run != [] {
      var init, e := run[..|run| - 1], run[|run| - 1];
      UsersFromHistory(init, user);
      assert run == init + [e];
      if e.Request? && !e.op.CommitShare? {
        StepIsDecision(Exec(init), e.caller, e.op);
        hide Decide, Step;
      }
    }
  }

  // -------------------------------------------------- create_share conserves rows

  predicate CreatesShare(en: Entry, key: ShareKey) {
    GrantsTo(en, key) && en.event.op.CommitShare?
  }

  /** How many create_share requests for this pair were answered 201. */
  function Wins(run: seq<Event>, key: ShareKey): nat {
    if run == [] then 0
    else
      var init, e := run[..|run| - 1], run[|run| - 1];
      Wins(init, key) + if CreatesShare(Entry(e, Step(Exec(init), e).response), key) then 1 else 0
  }

  /** This event took the row away: a revocation, or the cascade of the list's deletion. */
  predicate RemovesShare(s: State, e: Event, key: ShareKey) {
    var en := Entry(e, Step(s, e).response);
    Revokes(en, key) || (DeletesList(en, key.list) && key in s.db.shares)
  }

  function Removals(run: seq<Event>, key: ShareKey): nat {
    if run == [] then 0
    else
      var init, e := run[..|run| - 1], run[|run| - 1];
      Removals(init, key) + if RemovesShare(Exec(init), e, key) then 1 else 0
  }

  /** Over every interleaving: 201 answers minus removals is 0 or 1, and says whether the row is there. */
  lemma {:induction false} RowsAreConserved(run: seq<Event>, key: ShareKey)
    ensures Wins(run, key) - Removals(run, key) == if key in Exec(run).db.shares then 1 else 0
  {
    if run != [] {
      var init, e := run[..|run| - 1], run[|run| - 1];
      RowsAreConserved(init, key);
      RowStep(Exec(init), e, key);
    }
  }

  lemma RowStep(s: State, e: Event, key: ShareKey)
    ensures var o := Step(s, e); var created := CreatesShare(Entry(e, o.response), key);
            && (created ==> key !in s.db.shares && key in o.state.db.shares)
            && (RemovesShare(s, e, key) ==> !created && key in s.db.shares && key !in o.state.db.shares)
            && (!created && !RemovesShare(s, e, key) ==> (key in o.state.db.shares <==> key in s.db.shares))
  {
    hide Authorize;
  }

  lemma {:induction false} RemovalsBetween(run: seq<Event>, i: nat, j: nat, key: ShareKey)
    requires i <= j <= |run|
    ensures Wins(run[..i], key) <= Wins(run[..j], key)
    ensures Removals(run[..j], key) != Removals(run[..i], key) ==>
              exists m :: i <= m < j && RemovesShare(Exec(run[..m]), run[m], key)
    decreases j - i
  {
    if i < j {
      RemovalsBetween(run, i, j - 1, key);
      assert run[..j][..j - 1] == run[..j - 1];
    }
  }

  /** Between two successful creates for one pair the row was removed: racing creators have one winner. */
  lemma OneWinnerPerRemoval(run: seq<Event>, i: nat, j: nat, key: ShareKey)
    requires i < j < |run|
    requires CreatesShare(Entry(run[i], Answer(run, i)), key) && CreatesShare(Entry(run[j], Answer(run, j)), key)
    ensures exists m :: i < m < j && RemovesShare(Exec(run[..m]), run[m], key)
  {
    RowStep(Exec(run[..i]), run[i], key);
    RowStep(Exec(run[..j]), run[j], key);
    ExecSnoc(run, i);
    RowsAreConserved(run[..i + 1], key);
    RowsAreConserved(run[..j], key);
    RemovalsBetween(run, i + 1, j, key);
  }

  /** The request's pre-check let it go on to its commit. */
  ghost function Suspends(q: ShareRequest): Entry -> bool {
    (en: Entry) => en.event == Request(q.caller, PrecheckShare(q.list, q.target, q.role, q.serial)) && en.response == InFlight
  }

  ghost function Resumes(q: ShareRequest): Entry -> bool {
    (en: Entry) => en.event == Request(q.caller, CommitShare(q.list, q.target, q.role, q.serial))
  }

  lemma PendingStep(s: State, e: Event, q: ShareRequest)
    ensures var o := Step(s, e); var en := Entry(e, o.response);
            q in o.state.pending <==> Suspends(q)(en) || (!Resumes(q)(en) && q in s.pending)
  {
    assert q == ShareRequest(q.caller, q.list, q.target, q.role, q.serial);
    if e.Request? && !e.op.CommitShare? {
      StepIsDecision(s, e.caller, e.op);
      hide Step, Decide;
    }
  }

  /** A create_share is suspended, with its own target and role, from its pre-check to its commit. */
  lemma {:induction false} PendingEqualsHistory(run: seq<Event>, q: ShareRequest)
    ensures q in Exec(run).pending <==> Latest(Trace(run), Suspends(q), Resumes(q))
  {
    if run != [] {
      var init, e := run[..|run| - 1], run[|run| - 1];
      PendingEqualsHistory(init, q);
      PendingStep(Exec(init), e, q);
      LatestSnoc(Trace(init), Entry(e, Step(Exec(init), e).response), Suspends(q), Resumes(q));
    }
  }

  /** How the second step of a create_share ends, from the rows it finds. */
  ghost predicate CommitEnds(s: State, q: ShareRequest, o: Outcome) {
    var key := ShareKey(q.list, q.target);
    && o.state.pending == s.pending - {q}
    && if q.role.OtherText? then o.response == ServerError500 && o.state.db == s.db
       else if key in s.db.shares then o.response == Conflict409 && o.state.db == s.db
       else if q.list !in s.db.lists then o.response == NotFound404 && o.state.db == s.db
       else o.response == Created201(ShareBody(key, q.role)) && o.state.db == s.db.(shares := s.db.shares[key := q.role])
  }

  lemma CommitStep(s: State, q: ShareRequest)
    requires q in s.pending ==> q.target in s.db.users
    ensures var o := Step(s, Request(q.caller, CommitShare(q.list, q.target, q.role, q.serial)));
            if q in s.pending then CommitEnds(s, q, o) else o == Outcome(s, NotRunning)
  {
    assert q == ShareRequest(q.caller, q.list, q.target, q.role, q.serial);
  }

  /**
   * A suspended create_share ends with 201, the requested role stored and shown, or 409 to
   * losers, 404 when its list is gone, 500 on a role the table refuses; a request that is not
   * suspended has no second step.
   */
  lemma CommitAnswers(run: seq<Event>, q: ShareRequest)
    requires FreshIds(run)
    ensures var o := Step(Exec(run), Request(q.caller, CommitShare(q.list, q.target, q.role, q.serial)));
            if Latest(Trace(run), Suspends(q), Resumes(q)) then CommitEnds(Exec(run), q, o) else o == Outcome(Exec(run), NotRunning)
  {
    hide Step, Latest, CommitEnds, KeyConstraints, OwnersHoldNoShares;
    Reachable(run);
    PendingEqualsHistory(run, q);
    CommitStep(Exec(run), q);
  }

  /** Roles the request schemas let through. */
  ghost predicate SchemaValid(run: seq<Event>) {
    forall e :: e in run && e.Request? && (e.op.PrecheckShare? || e.op.ChangeRole?) ==> !e.op.role.OtherText?
  }

  lemma {:induction false} PendingRolesValid(run: seq<Event>)
    requires SchemaValid(run)
    ensures forall q :: q in Exec(run).pending ==> !q.role.OtherText?
  {
    if run != [] {
      var init, e := run[..|run| - 1], run[|run| - 1];
      assert e in run && forall x :: x in init ==> x in run;
      PendingRolesValid(init);
    }
  }

  /** With schema-valid roles and fresh ids no request is ever answered 500. */
  lemma NoServerErrors(run: seq<Event>, e: Event)
    requires FreshIds(run + [e]) && SchemaValid(run + [e])
    ensures !Step(Exec(run), e).response.ServerError500?
  {
    assert (run + [e])[..|run|] == run && e in run + [e];
    Reachable(run);
    forall x | x in run ensures x in run + [e] {}
    PendingRolesValid(run);
    hide Step, KeyConstraints;
    NoServerErrorStep(Exec(run), e);
  }

  lemma NoServerErrorStep(s: State, e: Event)
    requires KeyConstraints(s.db)
    requires e.Request? && (e.op.PrecheckShare? || e.op.ChangeRole?) ==> !e.op.role.OtherText?
    requires e.Request? && e.op.CreateList? ==> e.op.newList !in s.db.lists
    requires e.Request? && e.op.CreateItem? ==> e.op.newItem !in s.db.items
    requires forall q :: q in s.pending ==> !q.role.OtherText?
    ensures !Step(s, e).response.ServerError500?
  {
    if e.Request? && !e.op.CommitShare? && !e.op.CreateList? && !e.op.ListLists? && e.caller in s.db.users {
      NeverBroken(s.db, e.op.list, e.caller, ActionOf(e.op));
      GrantMeansList(s.db, e.op.list, e.caller, ActionOf(e.op));
      hide Authorize, KeyConstraints;
    }
  }

  /** A grant on a list implies the list is there. */
  lemma GrantMeansList(db: Db, list: ListId, user: UserId, action: P.Action)
    requires KeyConstraints(db)
    ensures Authorize(db, list, user, action).Granted? ==> list in db.lists
  {
  }

  // ------------------------------------------------ rows that stay, rows that go

  lemma {:induction false} IdsGrow(run: seq<Event>, n: nat, m: nat)
    requires n <= m <= |run|
    ensures ListIds(run[..n]) <= ListIds(run[..m]) && ItemIds(run[..n]) <= ItemIds(run[..m])
    decreases m - n
  {
    if n < m {
      IdsGrow(run, n, m - 1);
      assert run[..m] == run[..m - 1] + [run[m - 1]];
      IdsSnoc(run[..m - 1], run[m - 1]);
    }
  }

  /** One step keeps owners and item lists, and only draws rows back under a newly drawn id. */
  ghost predicate RowsKept(before: Db, after: Db, e: Event) {
    && (forall l :: l in after.lists ==>
          if l in before.lists then after.lists[l].owner == before.lists[l].owner
          else e.Request? && e.op.CreateList? && e.op.newList == l)
    && (forall i :: i in after.items ==>
          if i in before.items then after.items[i].list == before.items[i].list
          else e.Request? && e.op.CreateItem? && e.op.newItem == i)
  }

  lemma StepKeepsRows(s: State, e: Event)
    requires KeyConstraints(s.db)
    ensures RowsKept(s.db, Step(s, e).state.db, e)
  {
    hide Decide;
    if e.Request? && !e.op.CommitShare? {
      DecideIsSound(s.db, e.caller, e.op);
    }
  }

  /** A row seen at n and at m was there just before m too: ids are not drawn again. */
  lemma StillThere(run: seq<Event>, n: nat, m: nat)
    requires FreshIds(run) && n < m <= |run|
    ensures RowsKept(Exec(run[..m - 1]).db, Exec(run[..m]).db, run[m - 1])
    ensures forall l :: l in Exec(run[..n]).db.lists && l in Exec(run[..m]).db.lists ==> l in Exec(run[..m - 1]).db.lists
    ensures forall i :: i in Exec(run[..n]).db.items && i in Exec(run[..m]).db.items ==> i in Exec(run[..m - 1]).db.items
  {
    FreshPrefix(run, n);
    FreshPrefix(run, m - 1);
    Reachable(run[..n]);
    Reachable(run[..m - 1]);
    IdsGrow(run, n, m - 1);
    ExecSnoc(run, m - 1);
    StepKeepsRows(Exec(run[..m - 1]), run[m - 1]);
  }

  /** A list that once existed and still does has kept its owner. */
  lemma {:induction false} OwnerNeverChanges(run: seq<Event>, n: nat, m: nat, list: ListId)
    requires FreshIds(run) && n <= m <= |run|
    requires list in Exec(run[..n]).db.lists && list in Exec(run[..m]).db.lists
    ensures Exec(run[..n]).db.lists[list].owner == Exec(run[..m]).db.lists[list].owner
    decreases m - n
  {
    if n < m {
      StillThere(run, n, m);
      OwnerNeverChanges(run, n, m - 1, list);
    }
  }

  /** An item never moves to another list. */
  lemma {:induction false} ItemNeverMoves(run: seq<Event>, n: nat, m: nat, item: ItemId)
    requires FreshIds(run) && n <= m <= |run|
    requires item in Exec(run[..n]).db.items && item in Exec(run[..m]).db.items
    ensures Exec(run[..n]).db.items[item].list == Exec(run[..m]).db.items[item].list
    decreases m - n
  {
    if n < m {
      StillThere(run, n, m);
      ItemNeverMoves(run, n, m - 1, item);
    }
  }

  /** No row of any table mentions the list. */
  ghost predicate NoTrace(db: Db, list: ListId) {
    && list !in db.lists
    && (forall i :: i in db.items ==> db.items[i].list != list)
    && (forall k :: k in db.shares ==> k.list != list)
  }

  /** The list, its items and its shares are gone, and every other row is as it was. */
  ghost predicate OnlyListGone(before: Db, after: Db, list: ListId) {
    && NoTrace(after, list)
    && after.users == before.users
    && (forall l :: l in before.lists && l != list ==> l in after.lists && after.lists[l] == before.lists[l])
    && (forall i :: i in before.items && before.items[i].list != list ==> i in after.items && after.items[i] == before.items[i])
    && (forall k :: k in before.shares && k.list != list ==> k in after.shares && after.shares[k] == before.shares[k])
    && after.lists.Keys <= before.lists.Keys && after.items.Keys <= before.items.Keys && after.shares.Keys <= before.shares.Keys
  }

  /** A successful delete_list takes the list, its items and its shares, and no other row. */
  lemma DeleteIsExact(s: State, e: Event, list: ListId)
    requires DeletesList(Entry(e, Step(s, e).response), list)
    ensures OnlyListGone(s.db, Step(s, e).state.db, list)
  {
  }

  lemma DeletedStaysGone(run: seq<Event>, n: nat, m: nat, list: ListId)
    requires FreshIds(run) && n < m <= |run|
    requires list in Exec(run[..n]).db.lists && list !in Exec(run[..m - 1]).db.lists
    ensures NoTrace(Exec(run[..m]).db, list)
  {
    StillThere(run, n, m);
    FreshPrefix(run, m);
    Reachable(run[..m]);
  }

  /** A deleted list stays gone: everyone is denied on it and nobody's dashboard shows it, for good. */
  lemma {:induction false} DeletedForGood(run: seq<Event>, n: nat, m: nat, list: ListId, user: UserId, action: P.Action)
    requires FreshIds(run) && n < m <= |run|
    requires DeletesList(Entry(run[n], Answer(run, n)), list)
    ensures NoTrace(Exec(run[..m]).db, list)
    ensures Authorize(Exec(run[..m]).db, list, user, action) == Denied
    ensures list !in VisibleLists(Exec(run[..m]).db, user)
    decreases m
  {
    if n + 1 < m {
      DeletedForGood(run, n, m - 1, list, user, action);
      assert list in Exec(run[..n]).db.lists;
      DeletedStaysGone(run, n, m, list);
    } else {
      ExecSnoc(run, n);
      DeleteIsExact(Exec(run[..n]), run[n], list);
    }
    assert RoleOf(Exec(run[..m]).db, list, user) == Returns(None);
  }

  // --------------------------------------------------------------- item history

  /** The field values an answered request put into the item. */
  function Sent(en: Entry, item: ItemId): ItemPatch {
    if en.event.Request? && en.event.op.CreateItem? && en.event.op.newItem == item && en.response.Created201?
    then ItemPatch(Some(en.event.op.content), Some(false), Some(en.event.op.order))
    else if en.event.Request? && en.event.op.UpdateItem? && en.event.op.item == item && en.response.Ok200?
    then en.event.op.patch
    else ItemPatch(None, None, None)
  }

  ghost function SendsContent(item: ItemId, content: string): Entry -> bool {
    en => Sent(en, item).content == Some(content)
  }

  ghost function SendsAnyContent(item: ItemId): Entry -> bool {
    en => Sent(en, item).content.Some?
  }

  ghost function SendsCompleted(item: ItemId, completed: bool): Entry -> bool {
    en => Sent(en, item).completed == Some(completed)
  }

  ghost function SendsAnyCompleted(item: ItemId): Entry -> bool {
    en => Sent(en, item).completed.Some?
  }

  ghost function SendsOrder(item: ItemId, order: int): Entry -> bool {
    en => Sent(en, item).order == Some(order)
  }

  ghost function SendsAnyOrder(item: ItemId): Entry -> bool {
    en => Sent(en, item).order.Some?
  }

  lemma ItemStep(s: State, e: Event, item: ItemId)
    requires item in Step(s, e).state.db.items
    ensures var o := Step(s, e); var sent := Sent(Entry(e, o.response), item); var row := o.state.db.items[item];
            if item in s.db.items
            then row == ApplyPatch(s.db.items[item], sent)
            else sent == ItemPatch(Some(row.content), Some(row.completed), Some(row.order))
  {
    hide Authorize;
  }

  /** Each field of a live item holds the last value sent for it: at creation, or non-null in a patch. */
  lemma {:induction false} ItemFieldsFromHistory(run: seq<Event>, item: ItemId, row: ItemRow)
    requires item in Exec(run).db.items
    ensures var now := Exec(run).db.items[item]; var log := Trace(run);
            && (now.content == row.content <==> Latest(log, SendsContent(item, row.content), SendsAnyContent(item)))
            && (now.completed == row.completed <==> Latest(log, SendsCompleted(item, row.completed), SendsAnyCompleted(item)))
            && (now.order == row.order <==> Latest(log, SendsOrder(item, row.order), SendsAnyOrder(item)))
  {
    var init, e := run[..|run| - 1], run[|run| - 1];
    var log, en := Trace(init), Entry(e, Step(Exec(init), e).response);
    ItemStep(Exec(init), e, item);
    LatestSnoc(log, en, SendsContent(item, row.content), SendsAnyContent(item));
    LatestSnoc(log, en, SendsCompleted(item, row.completed), SendsAnyCompleted(item));
    LatestSnoc(log, en, SendsOrder(item, row.order), SendsAnyOrder(item));
    if item in Exec(init).db.items {
      ItemFieldsFromHistory(init, item, row);
    }
  }

  // ---------------------------------------------------------------- list names

  predicate NamesList(en: Entry, list: ListId) {
    CreatesList(en, list) || (en.event.Request? && en.event.op.RenameList? && en.event.op.list == list && en.response.Ok200?)
  }

  ghost function SendsName(list: ListId, name: string): Entry -> bool {
    en => NamesList(en, list) && en.event.op.name == name
  }

  ghost function SendsAnyName(list: ListId): Entry -> bool {
    en => NamesList(en, list)
  }

  lemma NameStep(s: State, e: Event, list: ListId)
    requires list in Step(s, e).state.db.lists
    ensures var o := Step(s, e); var en := Entry(e, o.response);
            if NamesList(en, list) then o.state.db.lists[list].name == e.op.name
            else list in s.db.lists && o.state.db.lists[list].name == s.db.lists[list].name
  {
    hide Authorize;
  }

  /** A live list carries the name of its creation or of the latest successful rename. */
  lemma {:induction false} NamesEqualHistory(run: seq<Event>, list: ListId, name: string)
    requires list in Exec(run).db.lists
    ensures Exec(run).db.lists[list].name == name <==> Latest(Trace(run), SendsName(list, name), SendsAnyName(list))
  {
    var init, e := run[..|run| - 1], run[|run| - 1];
    var log, en := Trace(init), Entry(e, Step(Exec(init), e).response);
    NameStep(Exec(init), e, list);
    LatestSnoc(log, en, SendsName(list, name), SendsAnyName(list));
    if !NamesList(en, list) {
      NamesEqualHistory(init, list, name);
    }
  }

  // ---------------------------------------------------------------- item counts

  function ItemsOf(db: Db, list: ListId): set<ItemId> {
    set i | i in db.items && db.items[i].list == list
  }

  predicate MakesItem(en: Entry, list: ListId) {
    en.event.Request? && en.event.op.CreateItem? && en.event.op.list == list && en.response.Created201?
  }

  predicate UnmakesItem(en: Entry, list: ListId) {
    en.event.Request? && en.event.op.DeleteItem? && en.event.op.list == list && en.response.NoContent204?
  }

  /** Successful creates minus successful deletes under this list's path. */
  function Balance(run: seq<Event>, list: ListId): int {
    if run == [] then 0
    else
      var init, e := run[..|run| - 1], run[|run| - 1];
      var en := Entry(e, Step(Exec(init), e).response);
      Balance(init, list) + (if MakesItem(en, list) then 1 else 0) - if UnmakesItem(en, list) then 1 else 0
  }

  lemma AnswerTellsItem(db: Db, caller: UserId, op: Op, list: ListId)
    requires !op.CommitShare?
    ensures var d := Decide(db, caller, op); var en := Entry(Request(caller, op), d.response);
            && (MakesItem(en, list) ==> op.newItem !in db.items && d.effect.PutItem? && d.effect.item == op.newItem && d.effect.itemRow.list == list)
            && (UnmakesItem(en, list) ==> op.item in db.items && db.items[op.item].list == list && d.effect == DropItem(op.item))
            && (d.effect.PutItem? && !MakesItem(en, list) ==>
                  if d.effect.item in db.items then d.effect.itemRow.list == db.items[d.effect.item].list else d.effect.itemRow.list != list)
            && (d.effect.DropItem? && !UnmakesItem(en, list) ==> d.effect.item in db.items && db.items[d.effect.item].list != list)
  {
    hide Authorize;
  }

  /** How one effect changes the number of a list's items. */
  lemma ItemsOfApply(db: Db, effect: Effect, list: ListId)
    requires effect != DropList(list)
    requires effect.PutItem? && effect.item in db.items ==> effect.itemRow.list == db.items[effect.item].list
    ensures var was := ItemsOf(db, list); var now := ItemsOf(Apply(db, effect), list);
            |now| ==
            if effect.PutItem? && effect.item !in db.items && effect.itemRow.list == list then |was| + 1
            else if effect.DropItem? && effect.item in was then |was| - 1
            else |was|
  {
    var was, now := ItemsOf(db, list), ItemsOf(Apply(db, effect), list);
    if effect.PutItem? && effect.item !in db.items && effect.itemRow.list == list {
      assert now == was + {effect.item};
    } else if effect.DropItem? && effect.item in was {
      assert now == was - {effect.item};
    } else {
      assert now == was;
    }
  }

  lemma ItemsOfStep(s: State, e: Event, list: ListId)
    requires list in s.db.lists && list in Step(s, e).state.db.lists
    ensures var en := Entry(e, Step(s, e).response);
            |ItemsOf(Step(s, e).state.db, list)| ==
            |ItemsOf(s.db, list)| + (if MakesItem(en, list) then 1 else 0) - if UnmakesItem(en, list) then 1 else 0
  {
    if e.Request? && !e.op.CommitShare? {
      StepIsDecision(s, e.caller, e.op);
      AnswerTellsItem(s.db, e.caller, e.op, list);
      if !e.op.PrecheckShare? {
        ItemsOfApply(s.db, Decide(s.db, e.caller, e.op).effect, list);
        hide Step, Decide;
      }
    } else {
      assert Step(s, e).state.db.items == s.db.items;
    }
  }

  lemma {:induction false} NoItemsBeforeList(run: seq<Event>, list: ListId)
    requires FreshIds(run) && list !in ListIds(run)
    ensures Balance(run, list) == 0 && ItemsOf(Exec(run).db, list) == {}
  {
    Reachable(run);
    if run != [] {
      var init, e := run[..|run| - 1], run[|run| - 1];
      assert run == init + [e];
      IdsSnoc(init, e);
      Reachable(init);
      NoItemsBeforeList(init, list);
    }
  }

  lemma ListIsBorn(run: seq<Event>, e: Event, list: ListId)
    requires FreshIds(run) && FreshEvent(run, e)
    requires list !in Exec(run).db.lists && list in Step(Exec(run), e).state.db.lists
    ensures ItemsOf(Step(Exec(run), e).state.db, list) == {} && Balance(run, list) == 0
    ensures e.Request? && e.op.CreateList?
  {
    Reachable(run);
    StepKeepsRows(Exec(run), e);
    NoItemsBeforeList(run, list);
  }

  /** A live list has as many items as were created in it and not deleted. */
  lemma {:induction false} ItemsAreCounted(run: seq<Event>, list: ListId)
    requires FreshIds(run) && list in Exec(run).db.lists
    ensures |ItemsOf(Exec(run).db, list)| == Balance(run, list)
  {
    var init, e := run[..|run| - 1], run[|run| - 1];
    if list in Exec(init).db.lists {
      ItemsAreCounted(init, list);
      ItemsOfStep(Exec(init), e, list);
    } else {
      ListIsBorn(init, e, list);
    }
  }
}
