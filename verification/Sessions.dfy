/** Many sessions with open transactions on one queue. A statement sees the committed rows and its
    own transaction's changes, locks the rows it touches until the transaction ends, and skips rows
    (or waits for them) that other transactions have locked. */
module Sessions {
  import opened Rows
  import opened Selection
  import opened Engine
  import opened Events

  /** An open transaction: its pending row versions (`None` is a delete), its row locks, its advisory
      group locks, and what its statements did. While a `read_grouped` is running, `cut` holds the
      rows it has chosen and not yet updated, and `timeout` is its timeout. */
  datatype Txn = Txn(
    writes: map<nat, Option<Message>>,
    locks: set<nat>,
    groups: set<string>,
    events: seq<Event>,
    cut: set<nat>,
    timeout: int)

  const NEW: Txn := Txn(map[], {}, {}, [], {}, 0)

  /** `history` lists the events of committed transactions in commit order. */
  datatype Db = Db(rows: Table, nextId: nat, now: int, open: map<nat, Txn>, history: seq<Event>)

  const START: Db := Db(map[], 1, 0, map[], [])

  datatype Stmt =
    | SendRow(body: Body, headers: HeaderCell, deliverAt: int)
    | ReadRows(kind: ReadKind, timeout: int, qty: nat)
    | PopRows(qty: nat)
    | SetVtRows(ids: set<nat>, vt: int)
    | DeleteRows(ids: set<nat>)  // also the DELETE half of `archive`

  datatype Action =
    | Begin(t: nat)
    | Exec(t: nat, stmt: Stmt)
    | Take(t: nat, id: nat)  // the UPDATE of `read_grouped` reaches row `id`
    | Commit(t: nat)
    | Rollback(t: nat)
    | Wait(elapsed: nat)

  // ----- what a statement sees -----

  function Overlay(rows: Table, writes: map<nat, Option<Message>>): Table {
    map id | id in rows.Keys + writes.Keys && (id in writes ==> writes[id].Some?) ::
      if id in writes then writes[id].value else rows[id]
  }

  function View(db: Db, t: nat): Table
    requires t in db.open
  {
    Overlay(db.rows, db.open[t].writes)
  }

  /** The rows locked by transactions other than `t`. */
  function OthersLocks(db: Db, t: nat): set<nat> {
    set u, id | u in db.open && u != t && id in db.open[u].locks :: id
  }

  /** The groups whose advisory lock a transaction other than `t` holds. */
  function OthersGroups(db: Db, t: nat): set<string> {
    set u, g | u in db.open && u != t && g in db.open[u].groups :: g
  }

  /** What a read takes at once, the rows it has locked itself. `read_grouped` is not such a read. */
  function Picked(q: Table, now: int, kind: ReadKind, qty: nat, locked: set<nat>, blocked: set<string>): (ids: set<nat>)
    requires kind != Grouped
    ensures ids <= VisibleIds(q, now) && ids !! locked
  {
    match kind
    case Plain => ReadSet(q, now, qty, locked)
    case RoundRobin => RrSet(q, now, qty, locked, blocked)
    case Head => HeadSet(q, now, qty, locked)
  }

  // ----- what a statement does -----

  /** New row versions, row locks beyond them, advisory locks, the event, how many ids were drawn, and
      the rows of a `read_grouped` that are still to be updated. */
  datatype Effect = Effect(
    written: map<nat, Option<Message>>,
    locked: set<nat>,
    groups: set<string>,
    events: seq<Event>,
    drawn: nat,
    cut: set<nat>,
    timeout: int)

  /** The event of leasing the rows `ids` of `q`. */
  function Delivery(q: Table, kind: ReadKind, ids: set<nat>, now: int, timeout: int): Event {
    Delivered(kind, ids, ids - VisibleIds(q, now), now, now + timeout * SECOND)
  }

  /** A statement on named rows waits while another transaction has one of them. */
  function Enabled(db: Db, t: nat, stmt: Stmt): bool
    requires t in db.open
  {
    match stmt
    case SetVtRows(ids, _) => ids * View(db, t).Keys !! OthersLocks(db, t)
    case DeleteRows(ids) => ids * View(db, t).Keys !! OthersLocks(db, t)
    case _ => true
  }

  function Outcome(db: Db, t: nat, stmt: Stmt): Effect
    requires t in db.open
  {
    var q, others := View(db, t), OthersLocks(db, t);
    match stmt
    case SendRow(body, headers, deliverAt) =>
      Effect(map[db.nextId := Some(Message(0, db.now, None, deliverAt, body, headers))], {}, {}, [], 1, {}, 0)
    case ReadRows(kind, timeout, qty) =>
      if kind == Grouped then
        Effect(map[], LockedHeads(q, db.now, others), {}, [], 0, GroupedSet(q, db.now, qty, others), timeout)
      else
        var ids := Picked(q, db.now, kind, qty, others, OthersGroups(db, t));
        Effect(map id | id in ids :: Some(Leased(q[id], db.now, timeout)), {},
               if kind == RoundRobin then RrGroups(db, t) else {}, [Delivery(q, kind, ids, db.now, timeout)], 0, {}, 0)
    case PopRows(qty) =>
      var ids := Picked(q, db.now, Plain, qty, others, {});
      Effect(map id | id in ids :: None, {}, {}, [Removed(ids)], 0, {}, 0)
    case SetVtRows(ids, vt) =>
      Effect(map id | id in ids * q.Keys :: Some(q[id].(vt := vt)), {}, {}, [Retimed(ids * q.Keys)], 0, {}, 0)
    case DeleteRows(ids) =>
      Effect(map id | id in ids * q.Keys :: None, {}, {}, [Removed(ids * q.Keys)], 0, {}, 0)
  }

  /** The groups whose advisory locks `read_grouped_rr` takes. */
  function RrGroups(db: Db, t: nat): set<string>
    requires t in db.open
  {
    var q := View(db, t);
    set id | id in EligibleHeads(q, db.now, OthersGroups(db, t)) :: GroupOf(q[id])
  }

  /** `read_grouped` updates one row of its cut, in the version it finds by then. The only check is that
      the row is still there: its condition is `m.msg_id = sm.msg_id`. */
  function Taken(db: Db, t: nat, id: nat): Effect
    requires t in db.open
  {
    var q, x := View(db, t), db.open[t];
    if id in q then
      Effect(map[id := Some(Leased(q[id], db.now, x.timeout))], {}, {},
             [Delivery(q, Grouped, {id}, db.now, x.timeout)], 0, x.cut - {id}, x.timeout)
    else
      Effect(map[], {}, {}, [], 0, x.cut - {id}, x.timeout)
  }

  function Extend(x: Txn, e: Effect): Txn {
    Txn(x.writes + e.written, x.locks + e.locked + e.written.Keys, x.groups + e.groups, x.events + e.events,
        e.cut, e.timeout)
  }

  function Executed(db: Db, t: nat, e: Effect): Db
    requires t in db.open
  {
    db.(open := db.open[t := Extend(db.open[t], e)], nextId := db.nextId + e.drawn)
  }

  /** No statement of the transaction is running. */
  predicate Idle(db: Db, t: nat) { t in db.open && db.open[t].cut == {} }

  /** `read_grouped` waits for a chosen row while another transaction has it: the locking clause of its
      last query names no table, so it neither locks nor skips. */
  predicate Possible(db: Db, a: Action) {
    match a
    case Begin(t) => t !in db.open
    case Exec(t, stmt) => Idle(db, t) && Enabled(db, t, stmt)
    case Take(t, id) => t in db.open && id in db.open[t].cut && !(id in View(db, t) && id in OthersLocks(db, t))
    case Commit(t) => Idle(db, t)
    case Rollback(t) => t in db.open
    case Wait(_) => true
  }

  function Next(db: Db, a: Action): Db
    requires Possible(db, a)
  {
    match a
    case Begin(t) => db.(open := db.open[t := NEW])
    case Exec(t, stmt) => Executed(db, t, Outcome(db, t, stmt))
    case Take(t, id) => Executed(db, t, Taken(db, t, id))
    case Commit(t) =>
      db.(rows := View(db, t), open := db.open - {t}, history := db.history + db.open[t].events)
    case Rollback(t) => db.(open := db.open - {t})
    case Wait(elapsed) => db.(now := db.now + elapsed)
  }

  /** An interleaving: every action is possible where it happens. */
  predicate Interleaving(db: Db, run: seq<Action>)
    decreases run
  {
    run == [] || (Possible(db, run[0]) && Interleaving(Next(db, run[0]), run[1..]))
  }

  function After(db: Db, run: seq<Action>): Db
    requires Interleaving(db, run)
    decreases run
  {
    if run == [] then db else After(Next(db, run[0]), run[1..])
  }

  // ----- the invariant of every interleaving -----

  /** One transaction: it locks what it writes, its events are about what it wrote, and the committed
      events followed by its own explain its pending row versions. */
  ghost predicate TxnOk(db: Db, t: nat)
    requires t in db.open
  {
    var x := db.open[t];
    && x.writes.Keys <= x.locks
    && (forall id | id in x.locks :: id < db.nextId)
    && (forall id: nat :: id !in x.writes ==> Of(x.events, id) == [])
    && (forall id | id in x.writes && id in db.rows :: Of(x.events, id) != [])
    && (forall id | id in x.writes :: Explains(Of(db.history, id) + Of(x.events, id), id, x.writes[id], db.now))
  }

  ghost predicate RowsOk(db: Db) {
    forall id: nat {:trigger Of(db.history, id)} ::
      var e := Of(db.history, id);
      && (id in db.rows ==> id < db.nextId && Explains(e, id, Some(db.rows[id]), db.now))
      && (id !in db.rows ==> e == [] || Explains(e, id, None, db.now))
      && (id >= db.nextId ==> e == [])
  }

  /** No row is locked by two open transactions. */
  ghost predicate LocksExclusive(db: Db) {
    forall t, u | t in db.open && u in db.open && t != u :: db.open[t].locks !! db.open[u].locks
  }

  ghost predicate Inv(db: Db) {
    RowsOk(db) && LocksExclusive(db) && forall t | t in db.open :: TxnOk(db, t)
  }

  // ----- one statement -----

  /** What the proof needs of a statement's effect on one row. */
  ghost predicate RowEffect(db: Db, t: nat, e: Effect, id: nat)
    requires t in db.open && id in e.written
  {
    var q := View(db, t);
    if id in q then
      id !in OthersLocks(db, t) && |e.events| == 1 && id in e.events[0].ids
      && Wrote(q[id], e.written[id], e.events[0], id, db.now)
    else
      id == db.nextId && e.drawn == 1 && e.written[id].Some? && e.events == []
  }

  ghost predicate EffectOk(db: Db, t: nat, e: Effect)
    requires t in db.open
  {
    && (forall id | id in e.written :: RowEffect(db, t, e, id))
    && e.locked <= View(db, t).Keys && e.locked !! OthersLocks(db, t)
    && (forall i | 0 <= i < |e.events| :: e.events[i].ids <= e.written.Keys)
    && |e.events| <= 1
  }

  lemma OutcomeOk(db: Db, t: nat, stmt: Stmt)
    requires t in db.open && Enabled(db, t, stmt)
    requires db.nextId !in View(db, t)
    ensures EffectOk(db, t, Outcome(db, t, stmt)) && Outcome(db, t, stmt).drawn <= 1
    ensures stmt.ReadRows? && stmt.kind == Grouped ==>
              var e, q := Outcome(db, t, stmt), View(db, t);
              && e.written == map[] && e.events == []
              && e.locked == LockedHeads(q, db.now, OthersLocks(db, t))
              && e.cut == GroupedSet(q, db.now, stmt.qty, OthersLocks(db, t)) <= VisibleIds(q, db.now)
  {
    var e, q := Outcome(db, t, stmt), View(db, t);
    match stmt
    case ReadRows(kind, timeout, qty) => ReadOk(db, t, kind, timeout, qty);
    case SetVtRows(ids, vt) =>
      forall id | id in e.written ensures RowEffect(db, t, e, id) {
        assert e.written[id] == Some(q[id].(vt := vt));
      }
    case _ =>
  }

  lemma ReadOk(db: Db, t: nat, kind: ReadKind, timeout: int, qty: nat)
    requires t in db.open
    ensures EffectOk(db, t, Outcome(db, t, ReadRows(kind, timeout, qty)))
  {
    if kind != Grouped {
      var ids := Picked(View(db, t), db.now, kind, qty, OthersLocks(db, t), OthersGroups(db, t));
      LeaseOk(db, t, kind, timeout, ids, Outcome(db, t, ReadRows(kind, timeout, qty)));
    }
  }

  lemma LeaseOk(db: Db, t: nat, kind: ReadKind, timeout: int, ids: set<nat>, e: Effect)
    requires t in db.open && ids <= VisibleIds(View(db, t), db.now) && ids !! OthersLocks(db, t)
    requires e.written == map id | id in ids :: Some(Leased(View(db, t)[id], db.now, timeout))
    requires e.events == [Delivery(View(db, t), kind, ids, db.now, timeout)] && e.locked == {}
    ensures EffectOk(db, t, e)
  {
  }

  lemma TakenOk(db: Db, t: nat, id: nat)
    requires Possible(db, Take(t, id))
    ensures EffectOk(db, t, Taken(db, t, id)) && Taken(db, t, id).drawn == 0
    ensures id in View(db, t) ==>
              id !in OthersLocks(db, t)
              && Taken(db, t, id).written == map[id := Some(Leased(View(db, t)[id], db.now, db.open[t].timeout))]
    ensures id !in View(db, t) ==> Taken(db, t, id).written == map[]
  {
  }

  /** A transaction sees each row in a version that its events explain. */
  lemma ViewExplained(db: Db, t: nat, id: nat)
    requires Inv(db) && t in db.open && id in View(db, t)
    ensures Explains(Of(db.history, id) + Of(db.open[t].events, id), id, Some(View(db, t)[id]), db.now)
    ensures id < db.nextId
  {
    var h := Of(db.history, id);
    assert TxnOk(db, t);
    assert h + [] == h;
  }

  lemma WrittenExplained(db: Db, t: nat, e: Effect, id: nat)
    requires Inv(db) && t in db.open && EffectOk(db, t, e) && id in e.written
    ensures Explains(Of(db.history, id) + Of(db.open[t].events + e.events, id), id, e.written[id], db.now)
  {
    assert RowEffect(db, t, e, id);
    OfAppend(db.open[t].events, e.events, id);
    if id in View(db, t) {
      ViewExplained(db, t, id);
      AppendExplained(db, t, id, e.written[id], e.events[0]);
    } else {
      assert TxnOk(db, t);
    }
  }

  lemma AppendExplained(db: Db, t: nat, id: nat, row: Option<Message>, ev: Event)
    requires t in db.open && id in View(db, t) && Wrote(View(db, t)[id], row, ev, id, db.now)
    requires Explains(Of(db.history, id) + Of(db.open[t].events, id), id, Some(View(db, t)[id]), db.now)
    ensures Explains(Of(db.history, id) + (Of(db.open[t].events, id) + [ev]), id, row, db.now)
  {
    var h, mine := Of(db.history, id), Of(db.open[t].events, id);
    assert h + (mine + [ev]) == h + mine + [ev];
    WroteExplains(h + mine, id, View(db, t)[id], row, ev, db.now);
  }

  /** The events of a transaction go on telling which rows it has written. */
  lemma ExtendEvents(db: Db, t: nat, e: Effect, id: nat)
    requires Inv(db) && t in db.open && EffectOk(db, t, e)
    ensures var more := Of(Extend(db.open[t], e).events, id);
            && (id !in e.written ==> more == Of(db.open[t].events, id))
            && (id in e.written && id in db.rows ==> more != [])
  {
    OfAppend(db.open[t].events, e.events, id);
    if id in e.written { assert RowEffect(db, t, e, id); }
    if id in db.rows { assert Of(db.history, id) == Of(db.history, id); }
    assert TxnOk(db, t);
  }

  lemma ExtendOk(db: Db, t: nat, e: Effect)
    requires Inv(db) && t in db.open && EffectOk(db, t, e) && e.drawn <= 1
    requires forall id | id in View(db, t) :: id < db.nextId
    ensures TxnOk(Executed(db, t, e), t)
  {
    var x := db.open[t];
    var y := Extend(x, e);
    assert TxnOk(db, t);
    forall id: nat
      ensures id !in e.written ==> Of(y.events, id) == Of(x.events, id)
      ensures id in e.written && id in db.rows ==> Of(y.events, id) != []
    {
      ExtendEvents(db, t, e, id);
    }
    forall id | id in e.written
      ensures Explains(Of(db.history, id) + Of(y.events, id), id, y.writes[id], db.now) && id < db.nextId + e.drawn
    {
      assert RowEffect(db, t, e, id);
      WrittenExplained(db, t, e, id);
    }
  }

  lemma ExtendExclusive(db: Db, t: nat, e: Effect, u: nat)
    requires Inv(db) && t in db.open && EffectOk(db, t, e) && u in db.open && u != t
    ensures db.open[u].locks !! Extend(db.open[t], e).locks
  {
    assert TxnOk(db, u);
    forall id | id in db.open[u].locks ensures id in OthersLocks(db, t) && id < db.nextId {}
    forall id | id in e.written ensures id !in db.open[u].locks { assert RowEffect(db, t, e, id); }
  }

  lemma ExtendKeepsInv(db: Db, t: nat, e: Effect)
    requires Inv(db) && t in db.open && EffectOk(db, t, e) && e.drawn <= 1
    requires forall id | id in View(db, t) :: id < db.nextId
    ensures Inv(Executed(db, t, e))
  {
    var after := Executed(db, t, e);
    ExtendOk(db, t, e);
    forall u | u in after.open && u != t ensures TxnOk(after, u) && after.open[u].locks !! after.open[t].locks {
      assert TxnOk(db, u);
      ExtendExclusive(db, t, e, u);
    }
  }

  lemma ExecKeepsInv(db: Db, t: nat, stmt: Stmt)
    requires Inv(db) && Possible(db, Exec(t, stmt))
    ensures Inv(Next(db, Exec(t, stmt)))
  {
    forall id | id in View(db, t) ensures id < db.nextId { ViewExplained(db, t, id); }
    OutcomeOk(db, t, stmt);
    ExtendKeepsInv(db, t, Outcome(db, t, stmt));
  }

  lemma CommitKeepsInv(db: Db, t: nat)
    requires Inv(db) && Possible(db, Commit(t))
    ensures Inv(Next(db, Commit(t)))
  {
    var after, x := Next(db, Commit(t)), db.open[t];
    assert TxnOk(db, t);
    forall id: nat ensures Of(after.history, id) == Of(db.history, id) + Of(x.events, id) {
      OfConcat(db.history, x.events, id);
    }
    assert forall e: seq<Event> :: e + [] == e;
    forall u | u in after.open ensures TxnOk(after, u) {
      assert TxnOk(db, u);
    }
  }

  lemma NextKeepsInv(db: Db, a: Action)
    requires Inv(db) && Possible(db, a)
    ensures Inv(Next(db, a))
  {
    match a
    case Exec(t, stmt) => ExecKeepsInv(db, t, stmt);
    case Take(t, id) =>
      forall k | k in View(db, t) ensures k < db.nextId { ViewExplained(db, t, k); }
      TakenOk(db, t, id);
      ExtendKeepsInv(db, t, Taken(db, t, id));
    case Commit(t) => CommitKeepsInv(db, t);
    case _ =>
      var after := Next(db, a);
      forall u | u in after.open ensures TxnOk(after, u) {
        if u in db.open { assert TxnOk(db, u); }
      }
  }
}
