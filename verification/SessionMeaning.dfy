/** What the statements of open transactions do, said of what the transactions see, lock and commit. */
module SessionMeaning {
  import opened Rows
  import opened Selection
  import opened Engine
  import opened Events
  import opened Sessions
  import opened Meaning

  // ----- what is seen -----

  /** Row `id` in the version that is pending, or `None` when it is to be deleted. */
  ghost predicate SeenAs(q: Table, id: nat, version: Option<Message>) {
    match version
    case Some(m) => id in q && q[id] == m
    case None => id !in q
  }

  ghost predicate SameAt(q: Table, r: Table, id: nat) {
    (id in q <==> id in r) && (id in q ==> q[id] == r[id])
  }

  /** A transaction sees its own changes, and the committed rows otherwise. */
  lemma ViewExactly(db: Db, t: nat, id: nat)
    requires t in db.open
    ensures var x := db.open[t];
            if id in x.writes then SeenAs(View(db, t), id, x.writes[id]) else SameAt(View(db, t), db.rows, id)
  {
  }

  /** A statement that can go on is held up by nothing but a statement of its own that is running, or a lock
      that another open transaction has on a row it names. */
  lemma WaitsExactly(db: Db, t: nat, stmt: Stmt)
    requires t in db.open
    ensures Possible(db, Exec(t, stmt)) <==>
              db.open[t].cut == {}
              && match stmt
                 case SetVtRows(ids, _) => NoneLocked(db, t, ids)
                 case DeleteRows(ids) => NoneLocked(db, t, ids)
                 case _ => true
  {
    match stmt
    case SetVtRows(ids, _) => NamedFree(db, t, ids);
    case DeleteRows(ids) => NamedFree(db, t, ids);
    case _ =>
  }

  lemma NamedFree(db: Db, t: nat, ids: set<nat>)
    requires t in db.open
    ensures ids * View(db, t).Keys !! OthersLocks(db, t) <==> NoneLocked(db, t, ids)
  {
    forall id ensures id in OthersLocks(db, t) <==> exists u :: u in db.open && u != t && id in db.open[u].locks {}
    if ids * View(db, t).Keys !! OthersLocks(db, t) {
      forall id, u | id in ids && id in View(db, t) && u in db.open && u != t ensures id !in db.open[u].locks {
        assert id !in OthersLocks(db, t);
      }
    }
  }

  /** No other open transaction has locked one of the rows `ids` that `t` sees. */
  ghost predicate NoneLocked(db: Db, t: nat, ids: set<nat>)
    requires t in db.open
  {
    forall id, u | id in ids && id in View(db, t) && u in db.open && u != t :: id !in db.open[u].locks
  }

  // ----- statements -----

  /** Only transaction `t` and the id counter change. */
  ghost predicate OnlyOwn(db: Db, after: Db, t: nat) {
    && after.rows == db.rows && after.now == db.now && after.history == db.history
    && t in after.open && after.open.Keys == db.open.Keys + {t}
    && forall u | u in db.open && u != t :: after.open[u] == db.open[u]
  }

  /** What the reads other than `read_grouped` take. */
  ghost predicate TakesFree(q: Table, now: int, kind: ReadKind, qty: nat, locked: set<nat>, blocked: set<string>,
                            ids: set<nat>) {
    match kind
    case Plain => OldestOf(Free(q, now, locked), ids, qty)
    case Head => OldestOf(FreeHeads(q, now, locked), ids, qty)
    case RoundRobin => exists batch :: LayersFirst(q, now, blocked, batch, qty) && ids == batch - locked
    case Grouped => false
  }

  /** The transaction has the rows `ids` besides those it had, and the event `ev` is on record. */
  ghost predicate Holds(x: Txn, y: Txn, ids: set<nat>, ev: Event) {
    y.locks == x.locks + ids && y.events == x.events + [ev] && y.cut == {}
  }

  ghost predicate StatementDoes(db: Db, t: nat, stmt: Stmt, after: Db)
    requires t in db.open && t in after.open
  {
    var q, r, x, y := View(db, t), View(after, t), db.open[t], after.open[t];
    OnlyOwn(db, after, t) && match stmt
      case SendRow(body, headers, deliverAt) =>
        && Gained(q, r, db.nextId, [(body, headers)], deliverAt, db.now) && after.nextId == db.nextId + 1
        && y.locks == x.locks + {db.nextId} && y.groups == x.groups && y.events == x.events && y.cut == {}
      case ReadRows(kind, timeout, qty) =>
        after.nextId == db.nextId
        && if kind == Grouped then ChoosesRows(db, t, timeout, qty, r, y)
           else ReadsRows(db, t, kind, timeout, qty, r, y)
      case PopRows(qty) =>
        after.nextId == db.nextId && y.groups == x.groups
        && exists ids :: OldestOf(Free(q, db.now, OthersLocks(db, t)), ids, qty) && RowsRemoved(q, r, ids)
                         && Holds(x, y, ids, Removed(ids))
      case SetVtRows(ids, vt) =>
        after.nextId == db.nextId && y.groups == x.groups
        && RowsRetimed(q, r, ids, vt) && Holds(x, y, ids * q.Keys, Retimed(ids * q.Keys))
      case DeleteRows(ids) =>
        after.nextId == db.nextId && y.groups == x.groups
        && RowsRemoved(q, r, ids) && Holds(x, y, ids * q.Keys, Removed(ids * q.Keys))
  }

  /** A read other than `read_grouped` leases what it takes, all of it visible. A round-robin read locks the
      groups whose oldest message is visible, unless another transaction has them. */
  ghost predicate ReadsRows(db: Db, t: nat, kind: ReadKind, timeout: int, qty: nat, r: Table, y: Txn)
    requires t in db.open
  {
    var q, x, blocked := View(db, t), db.open[t], OthersGroups(db, t);
    && (exists ids :: TakesFree(q, db.now, kind, qty, OthersLocks(db, t), blocked, ids)
                      && RowsLeased(q, r, ids, db.now, timeout)
                      && Holds(x, y, ids, Delivered(kind, ids, {}, db.now, db.now + timeout * 1_000_000)))
    && forall g :: g in y.groups <==>
                     g in x.groups || (kind == RoundRobin && RoundRobin.Eligible(q, db.now, blocked, g))
  }

  /** `read_grouped` chooses its rows, and locks the smallest visible id of every group that nobody else has
      locked. */
  ghost predicate ChoosesRows(db: Db, t: nat, timeout: int, qty: nat, r: Table, y: Txn)
    requires t in db.open
  {
    var q, x, others := View(db, t), db.open[t], OthersLocks(db, t);
    && r == q && GroupsFirst(q, db.now, others, y.cut, qty) && y.timeout == timeout
    && y.groups == x.groups && y.events == x.events
    && forall id :: id in y.locks <==>
                      id in x.locks || (id in q && FirstVisible(q, db.now, GroupOf(q[id]), id) && id !in others)
  }

  lemma SendTxn(db: Db, t: nat, body: Body, headers: HeaderCell, deliverAt: int)
    requires Possible(db, Exec(t, SendRow(body, headers, deliverAt)))
    ensures var after, x := Next(db, Exec(t, SendRow(body, headers, deliverAt))), db.open[t];
            var n, m := db.nextId, Message(0, db.now, None, deliverAt, body, headers);
            && t in after.open && after.rows == db.rows && after.now == db.now
            && after.open[t] == Txn(x.writes[n := Some(m)], x.locks + {n}, x.groups, x.events, {}, 0)
  {
    var n, m, x := db.nextId, Message(0, db.now, None, deliverAt, body, headers), db.open[t];
    var y := Extend(x, Outcome(db, t, SendRow(body, headers, deliverAt)));
    assert y.writes == x.writes[n := Some(m)] && y.locks == x.locks + {n} && y.groups == x.groups;
  }

  lemma SendSeen(db: Db, t: nat, n: nat, m: Message, after: Db)
    requires t in db.open && t in after.open && after.rows == db.rows
    requires after.open[t].writes == db.open[t].writes[n := Some(m)]
    requires forall id | id in View(db, t) :: id < n
    ensures Gained(View(db, t), View(after, t), n, [(m.body, m.headers)], m.vt, m.enqueuedAt)
            <== m.readCt == 0 && m.lastReadAt == None
  {
    assert View(after, t) == View(db, t)[n := m];
    assert FreshIds(n, n + 1) == {n};
  }

  lemma SendDoes(db: Db, t: nat, body: Body, headers: HeaderCell, deliverAt: int)
    requires Inv(db) && Possible(db, Exec(t, SendRow(body, headers, deliverAt)))
    ensures var stmt := SendRow(body, headers, deliverAt); StatementDoes(db, t, stmt, Next(db, Exec(t, stmt)))
  {
    var after := Next(db, Exec(t, SendRow(body, headers, deliverAt)));
    forall id | id in View(db, t) ensures id < db.nextId { ViewExplained(db, t, id); }
    SendTxn(db, t, body, headers, deliverAt);
    SendSeen(db, t, db.nextId, Message(0, db.now, None, deliverAt, body, headers), after);
  }

  lemma FreeTaken(q: Table, now: int, kind: ReadKind, qty: nat, locked: set<nat>, blocked: set<string>)
    requires kind != Grouped
    ensures TakesFree(q, now, kind, qty, locked, blocked, Picked(q, now, kind, qty, locked, blocked))
  {
    var ids := Picked(q, now, kind, qty, locked, blocked);
    match kind
    case Plain => PlainTakes(q, now, qty, locked, ids);
    case Head => HeadTakes(q, now, qty, locked, ids);
    case RoundRobin => RoundRobinTakes(q, now, qty, locked, blocked, RoundRobin.Batch(q, now, qty, blocked));
  }

  lemma EligibleLocked(db: Db, t: nat, g: string)
    requires t in db.open
    ensures g in RrGroups(db, t) <==> RoundRobin.Eligible(View(db, t), db.now, OthersGroups(db, t), g)
  {
    var q, blocked := View(db, t), OthersGroups(db, t);
    if RoundRobin.Eligible(q, db.now, blocked, g) {
      var h := Min(GroupIds(q, g));
      assert GroupHead(q, h) == h && h in EligibleHeads(q, db.now, blocked);
    }
  }

  /** The new version of the rows and the transaction after leasing `ids`. */
  lemma LeaseSeen(db: Db, t: nat, ids: set<nat>, timeout: int, after: Db)
    requires t in db.open && t in after.open && after.rows == db.rows && ids <= View(db, t).Keys
    requires after.open[t].writes
          == db.open[t].writes + map id | id in ids :: Some(Leased(View(db, t)[id], db.now, timeout))
    ensures RowsLeased(View(db, t), View(after, t), ids, db.now, timeout)
  {
  }

  lemma ReadDelivers(db: Db, t: nat, kind: ReadKind, timeout: int, qty: nat)
    requires kind != Grouped && t in db.open
    ensures var ids := Picked(View(db, t), db.now, kind, qty, OthersLocks(db, t), OthersGroups(db, t));
            Outcome(db, t, ReadRows(kind, timeout, qty))
            == LeaseEffect(View(db, t), kind, timeout, ids, if kind == RoundRobin then RrGroups(db, t) else {}, db.now)
  {
    var ids := Picked(View(db, t), db.now, kind, qty, OthersLocks(db, t), OthersGroups(db, t));
    assert ids - VisibleIds(View(db, t), db.now) == {};
  }

  lemma GroupsLocked(db: Db, t: nat, kind: ReadKind, x: Txn, y: Txn)
    requires t in db.open && y.groups == x.groups + if kind == RoundRobin then RrGroups(db, t) else {}
    ensures forall g :: g in y.groups <==>
              g in x.groups
              || (kind == RoundRobin && RoundRobin.Eligible(View(db, t), db.now, OthersGroups(db, t), g))
  {
    forall g ensures g in RrGroups(db, t) <==> RoundRobin.Eligible(View(db, t), db.now, OthersGroups(db, t), g) {
      EligibleLocked(db, t, g);
    }
  }

  lemma ExecutedOnlyOwn(db: Db, t: nat, e: Effect)
    requires t in db.open
    ensures OnlyOwn(db, Executed(db, t, e), t) && Executed(db, t, e).nextId == db.nextId + e.drawn
  {
  }

  function LeaseEffect(q: Table, kind: ReadKind, timeout: int, ids: set<nat>, groups: set<string>, now: int): Effect
    requires ids <= q.Keys
  {
    Effect(map id | id in ids :: Some(Leased(q[id], now, timeout)), {}, groups,
           [Delivered(kind, ids, {}, now, now + timeout * 1_000_000)], 0, {}, 0)
  }

  lemma LeaseHeld(db: Db, t: nat, kind: ReadKind, timeout: int, ids: set<nat>, groups: set<string>)
    requires t in db.open && ids <= View(db, t).Keys
    ensures var after := Executed(db, t, LeaseEffect(View(db, t), kind, timeout, ids, groups, db.now));
            && RowsLeased(View(db, t), View(after, t), ids, db.now, timeout)
            && Holds(db.open[t], after.open[t], ids, Delivered(kind, ids, {}, db.now, db.now + timeout * 1_000_000))
            && after.open[t].groups == db.open[t].groups + groups
  {
    var e := LeaseEffect(View(db, t), kind, timeout, ids, groups, db.now);
    LeaseSeen(db, t, ids, timeout, Executed(db, t, e));
    HeldAfter(db.open[t], e, ids);
  }

  /** Leasing free rows `ids`, as a statement of its own, is such a read. */
  lemma LeaseReads(db: Db, t: nat, kind: ReadKind, timeout: int, qty: nat, ids: set<nat>, groups: set<string>)
    requires t in db.open && ids <= View(db, t).Keys
    requires TakesFree(View(db, t), db.now, kind, qty, OthersLocks(db, t), OthersGroups(db, t), ids)
    requires groups == if kind == RoundRobin then RrGroups(db, t) else {}
    ensures var after := Executed(db, t, LeaseEffect(View(db, t), kind, timeout, ids, groups, db.now));
            ReadsRows(db, t, kind, timeout, qty, View(after, t), after.open[t])
  {
    LeaseHeld(db, t, kind, timeout, ids, groups);
    var after := Executed(db, t, LeaseEffect(View(db, t), kind, timeout, ids, groups, db.now));
    GroupsLocked(db, t, kind, db.open[t], after.open[t]);
  }

  lemma ReadsDo(db: Db, t: nat, kind: ReadKind, timeout: int, qty: nat)
    requires kind != Grouped && Possible(db, Exec(t, ReadRows(kind, timeout, qty)))
    ensures var stmt := ReadRows(kind, timeout, qty); StatementDoes(db, t, stmt, Next(db, Exec(t, stmt)))
  {
    var q, others, blocked := View(db, t), OthersLocks(db, t), OthersGroups(db, t);
    var ids := Picked(q, db.now, kind, qty, others, blocked);
    var groups := if kind == RoundRobin then RrGroups(db, t) else {};
    ReadDelivers(db, t, kind, timeout, qty);
    FreeTaken(q, db.now, kind, qty, others, blocked);
    LeaseReads(db, t, kind, timeout, qty, ids, groups);
    ExecutedOnlyOwn(db, t, LeaseEffect(q, kind, timeout, ids, groups, db.now));
  }

  lemma HeldAfter(x: Txn, e: Effect, ids: set<nat>)
    requires e.written.Keys == ids && e.locked == {} && |e.events| == 1 && e.cut == {}
    ensures Holds(x, Extend(x, e), ids, e.events[0])
  {
    assert e.events == [e.events[0]];
  }

  lemma ChoosingDoes(db: Db, t: nat, timeout: int, qty: nat)
    requires Possible(db, Exec(t, ReadRows(Grouped, timeout, qty)))
    ensures var stmt := ReadRows(Grouped, timeout, qty); StatementDoes(db, t, stmt, Next(db, Exec(t, stmt)))
  {
    var q, others, x := View(db, t), OthersLocks(db, t), db.open[t];
    var after := Next(db, Exec(t, ReadRows(Grouped, timeout, qty)));
    var y := after.open[t];
    assert y.writes == x.writes && y.groups == x.groups && y.events == x.events && View(after, t) == q;
    GroupedTakes(q, db.now, qty, others, y.cut);
    forall id ensures id in y.locks <==>
      id in x.locks || (id in q && FirstVisible(q, db.now, GroupOf(q[id]), id) && id !in others)
    {
      LocksFirstVisible(q, db.now, others, id);
    }
  }

  lemma RemovalSeen(db: Db, t: nat, ids: set<nat>, after: Db)
    requires t in db.open && t in after.open && after.rows == db.rows
    requires after.open[t].writes == db.open[t].writes + map id | id in ids :: None
    ensures RowsRemoved(View(db, t), View(after, t), ids)
  {
  }

  lemma PopRemoves(db: Db, t: nat, qty: nat)
    requires t in db.open
    ensures var ids := ReadSet(View(db, t), db.now, qty, OthersLocks(db, t));
            Outcome(db, t, PopRows(qty)) == Effect(map id | id in ids :: None, {}, {}, [Removed(ids)], 0, {}, 0)
  {
  }

  lemma RemovalIsSeen(db: Db, t: nat, ids: set<nat>)
    requires t in db.open
    ensures var after := Executed(db, t, Effect(map id | id in ids :: None, {}, {}, [Removed(ids)], 0, {}, 0));
            && RowsRemoved(View(db, t), View(after, t), ids) && Holds(db.open[t], after.open[t], ids, Removed(ids))
            && after.open[t].groups == db.open[t].groups
  {
    var e := Effect(map id | id in ids :: None, {}, {}, [Removed(ids)], 0, {}, 0);
    RemovalSeen(db, t, ids, Executed(db, t, e));
    HeldAfter(db.open[t], e, ids);
  }

  lemma PopsDo(db: Db, t: nat, qty: nat)
    requires Possible(db, Exec(t, PopRows(qty)))
    ensures StatementDoes(db, t, PopRows(qty), Next(db, Exec(t, PopRows(qty))))
  {
    var ids := ReadSet(View(db, t), db.now, qty, OthersLocks(db, t));
    PopRemoves(db, t, qty);
    PlainTakes(View(db, t), db.now, qty, OthersLocks(db, t), ids);
    RemovalIsSeen(db, t, ids);
    ExecutedOnlyOwn(db, t, Outcome(db, t, PopRows(qty)));
  }

  lemma DeletesDo(db: Db, t: nat, ids: set<nat>)
    requires Possible(db, Exec(t, DeleteRows(ids)))
    ensures StatementDoes(db, t, DeleteRows(ids), Next(db, Exec(t, DeleteRows(ids))))
  {
    var after, named := Next(db, Exec(t, DeleteRows(ids))), ids * View(db, t).Keys;
    RemovalSeen(db, t, named, after);
    HeldAfter(db.open[t], Outcome(db, t, DeleteRows(ids)), named);
    assert View(db, t).Keys - named == View(db, t).Keys - ids;
    assert db.open[t].groups + {} == db.open[t].groups;
  }

  lemma RetimingSeen(db: Db, t: nat, ids: set<nat>, vt: int, after: Db)
    requires t in db.open && t in after.open && after.rows == db.rows
    requires after.open[t].writes
          == db.open[t].writes + map id | id in ids * View(db, t).Keys :: Some(View(db, t)[id].(vt := vt))
    ensures RowsRetimed(View(db, t), View(after, t), ids, vt)
  {
  }

  lemma RetimesDo(db: Db, t: nat, ids: set<nat>, vt: int)
    requires Possible(db, Exec(t, SetVtRows(ids, vt)))
    ensures StatementDoes(db, t, SetVtRows(ids, vt), Next(db, Exec(t, SetVtRows(ids, vt))))
  {
    var after, named := Next(db, Exec(t, SetVtRows(ids, vt))), ids * View(db, t).Keys;
    RetimingSeen(db, t, ids, vt, after);
    HeldAfter(db.open[t], Outcome(db, t, SetVtRows(ids, vt)), named);
    assert db.open[t].groups + {} == db.open[t].groups;
  }

  /** Every statement does what it should to what its transaction sees, to its locks and to its events, and
      nothing to the committed rows and to other transactions. */
  lemma StatementsDo(db: Db, t: nat, stmt: Stmt)
    requires Inv(db) && Possible(db, Exec(t, stmt))
    ensures t in Next(db, Exec(t, stmt)).open && StatementDoes(db, t, stmt, Next(db, Exec(t, stmt)))
  {
    match stmt
    case SendRow(body, headers, deliverAt) => SendDoes(db, t, body, headers, deliverAt);
    case ReadRows(kind, timeout, qty) =>
      if kind == Grouped { ChoosingDoes(db, t, timeout, qty); } else { ReadsDo(db, t, kind, timeout, qty); }
    case PopRows(qty) => PopsDo(db, t, qty);
    case SetVtRows(ids, vt) => RetimesDo(db, t, ids, vt);
    case DeleteRows(ids) => DeletesDo(db, t, ids);
  }

  /** The update of one chosen row by `read_grouped`. */
  lemma UpdateDoes(db: Db, t: nat, id: nat)
    requires Possible(db, Take(t, id))
    ensures var after := Next(db, Take(t, id));
            && OnlyOwn(db, after, t) && after.nextId == db.nextId
            && var x, y, here := db.open[t], after.open[t], {id} * View(db, t).Keys;
               && RowsLeased(View(db, t), View(after, t), here, db.now, x.timeout)
               && y.cut == x.cut - {id} && y.timeout == x.timeout && y.groups == x.groups && y.locks == x.locks + here
  {
    UpdateIsSeen(db, t, id, Taken(db, t, id), Next(db, Take(t, id)));
  }

  lemma UpdateIsSeen(db: Db, t: nat, id: nat, e: Effect, after: Db)
    requires t in db.open && after == Executed(db, t, e) && e == Taken(db, t, id)
    ensures var x, y, here := db.open[t], after.open[t], {id} * View(db, t).Keys;
            && RowsLeased(View(db, t), View(after, t), here, db.now, x.timeout)
            && y.cut == x.cut - {id} && y.timeout == x.timeout && y.groups == x.groups && y.locks == x.locks + here
            && e.drawn == 0
  {
    var x, here := db.open[t], {id} * View(db, t).Keys;
    UpdateWrites(db, t, id);
    LeaseSeen(db, t, here, x.timeout, after);
    assert x.groups + {} == x.groups && x.locks + {} + here == x.locks + here;
  }

  lemma UpdateWrites(db: Db, t: nat, id: nat)
    requires t in db.open
    ensures var here, e := {id} * View(db, t).Keys, Taken(db, t, id);
            && e.written == (map k | k in here :: Some(Leased(View(db, t)[k], db.now, db.open[t].timeout)))
            && e.written.Keys == here && e.locked == {} && e.groups == {}
  {
  }

  // ----- transactions -----

  /** A commit makes the pending versions the committed ones and leaves every other row; the other
      transactions stay as they are. */
  lemma CommitDoes(db: Db, t: nat, id: nat)
    requires Possible(db, Commit(t))
    ensures var after, x := Next(db, Commit(t)), db.open[t];
            && (if id in x.writes then SeenAs(after.rows, id, x.writes[id]) else SameAt(after.rows, db.rows, id))
            && after.open == db.open - {t} && after.now == db.now && after.nextId == db.nextId
            && after.history == db.history + x.events
  {
  }

  /** A rollback drops the transaction, a new one has nothing, and time only passes. */
  lemma OtherActionsDo(db: Db, t: nat, elapsed: nat)
    ensures Possible(db, Rollback(t)) <==> t in db.open
    ensures Possible(db, Rollback(t)) ==> Next(db, Rollback(t)) == db.(open := db.open - {t})
    ensures Possible(db, Begin(t)) <==> t !in db.open
    ensures Possible(db, Begin(t)) ==> Next(db, Begin(t)) == db.(open := db.open[t := Txn(map[], {}, {}, [], {}, 0)])
    ensures Possible(db, Commit(t)) <==> t in db.open && db.open[t].cut == {}
    ensures Possible(db, Wait(elapsed)) && Next(db, Wait(elapsed)) == db.(now := db.now + elapsed)
  {
  }
}
