/** Strict order per group for `read_grouped_rr` when transactions stay open. */
module FifoSessions {
  import opened Rows
  import opened Selection
  import opened Engine
  import opened Sessions
  import opened HeadSessions
  import opened HeadOrder
  import opened RoundRobinSessions
  import Fifo
  import SessionMeaning

  // ----- the runs -----

  /** Transaction `t` has no sends of its own that it has not committed. */
  ghost predicate NothingSent(db: Db, t: nat) {
    forall p :: !Unsettled(db, t, p)
  }

  /** One action of a FIFO run: undelayed sends, round-robin reads with a timeout that is not negative by
      transactions that have sent nothing, commits in `msg_id` order, rollbacks, and the clock. */
  ghost predicate FifoAction(db: Db, a: Action) {
    match a
    case Exec(t, stmt) =>
      (match stmt
       case SendRow(_, _, deliverAt) => deliverAt <= db.now
       case ReadRows(kind, timeout, _) => kind == RoundRobin && 0 <= timeout && NothingSent(db, t)
       case _ => false)
    case Take(_, _) => false
    case Commit(t) => CommitsInOrder(db, t)
    case _ => true
  }

  /** A transaction that removes messages and commits at once. */
  predicate RemovesAtOnce(db: Db, a: Action, b: Action) {
    a.Exec? && a.t in db.open && db.open[a.t] == NEW && (a.stmt.DeleteRows? || a.stmt.PopRows?) && b == Commit(a.t)
  }

  ghost predicate FifoRun(db: Db, run: seq<Action>)
    requires Interleaving(db, run)
    decreases |run|
  {
    run == [] ||
      var next, rest := Next(db, run[0]), run[1..];
      assert Interleaving(next, rest);
      || (FifoAction(db, run[0]) && FifoRun(next, rest))
      || (rest != [] && RemovesAtOnce(db, run[0], rest[0]) && FifoRun(Next(next, rest[0]), rest[1..]))
  }

  // ----- the invariant -----

  /** What a transaction has read is in groups it has locked, and its sends are visible. */
  ghost predicate Tidy(rows: Table, now: int, x: Txn) {
    && x.cut == {} && x.locks == x.writes.Keys
    && (forall id | id in x.writes :: x.writes[id].Some?)
    && (forall id | id in x.writes && id in rows :: GroupOf(rows[id]) in x.groups)
    && (forall id | id in x.writes && id !in rows :: Visible(x.writes[id].value, now))
  }

  /** Besides, what the transaction sees is leased by prefixes. */
  ghost predicate TxnFifo(db: Db, t: nat)
    requires t in db.open
  {
    Tidy(db.rows, db.now, db.open[t]) && Fifo.PrefixLeased(View(db, t), db.now)
  }

  ghost predicate GroupsExclusive(db: Db) {
    forall t, u | t in db.open && u in db.open && t != u :: db.open[t].groups !! db.open[u].groups
  }

  /** The table and every transaction's view of it are leased by prefixes. */
  ghost predicate Leasing(db: Db) {
    && LocksExclusive(db) && GroupsExclusive(db) && ContentKept(db) && Fifo.PrefixLeased(db.rows, db.now)
    && forall t | t in db.open :: TxnFifo(db, t)
  }

  ghost predicate FifoOk(db: Db) {
    Sound(db) && Ordered(db) && Leasing(db)
  }

  // ----- reading -----

  /** A row that `t` sees and another transaction has locked is in a group that that one has locked. */
  lemma LockedByOther(db: Db, t: nat, u: nat, i: nat)
    requires Leasing(db) && t in db.open && i in View(db, t) && u in db.open && u != t && i in db.open[u].locks
    ensures GroupOf(View(db, t)[i]) in db.open[u].groups
  {
    assert TxnFifo(db, u) && TxnFifo(db, t);
  }

  lemma ServedIsFree(db: Db, t: nat, i: nat)
    requires Leasing(db) && t in db.open && i in View(db, t) && GroupOf(View(db, t)[i]) !in OthersGroups(db, t)
    ensures i !in OthersLocks(db, t)
  {
    if u :| u in db.open && u != t && i in db.open[u].locks { LockedByOther(db, t, u, i); }
  }

  /** Before a message that `t` may be served, the messages of its group are visible and free. */
  lemma NoGapBefore(db: Db, t: nat, i: nat, j: nat)
    requires Leasing(db) && t in db.open && j in RrCandidates(View(db, t), db.now, OthersGroups(db, t))
    requires i in GroupIds(View(db, t), GroupOf(View(db, t)[j]))
    ensures Visible(View(db, t)[i], db.now) && i !in OthersLocks(db, t)
  {
    var q, blocked := View(db, t), OthersGroups(db, t);
    RoundRobin.CandidatesAreReady(q, db.now, blocked, j);
    assert TxnFifo(db, t);
    ServedIsFree(db, t, i);
    ServedIsVisible(q, db.now, blocked, GroupOf(q[j]), i);
  }

  lemma RrHasNoGaps(db: Db, t: nat)
    requires Leasing(db) && t in db.open
    ensures Fifo.RrGapFree(View(db, t), db.now, OthersLocks(db, t), OthersGroups(db, t))
  {
    NoGaps(db, t, View(db, t), OthersLocks(db, t), OthersGroups(db, t));
  }

  lemma NoGaps(db: Db, t: nat, q: Table, locked: set<nat>, blocked: set<string>)
    requires Leasing(db) && t in db.open
    requires q == View(db, t) && locked == OthersLocks(db, t) && blocked == OthersGroups(db, t)
    ensures Fifo.RrGapFree(q, db.now, locked, blocked)
  {
    forall i, j | j in RrCandidates(q, db.now, blocked) && j !in locked && i in GroupIds(q, GroupOf(q[j])) && i < j
      ensures Visible(q[i], db.now) && i !in locked
    {
      NoGapBefore(db, t, i, j);
    }
  }

  lemma ServedIsVisible(q: Table, now: int, blocked: set<string>, g: string, i: nat)
    requires Fifo.PrefixLeased(q, now) && RoundRobin.Eligible(q, now, blocked, g) && i in GroupIds(q, g)
    ensures Visible(q[i], now)
  {
    var h := Min(GroupIds(q, g));
    assert h <= i;
  }

  lemma PickInOrder(db: Db, t: nat, qty: nat)
    requires Leasing(db) && t in db.open
    ensures Fifo.InOrder(View(db, t), RrPick(db, t, qty)) && RrPick(db, t, qty) <= VisibleIds(View(db, t), db.now)
  {
    RrHasNoGaps(db, t);
    Fifo.RrInOrderWithoutGaps(View(db, t), db.now, qty, OthersLocks(db, t), OthersGroups(db, t));
  }

  // ----- single actions -----

  /** Action `a` leaves transaction `u` and what it sees alone. */
  lemma UntouchedFifo(db: Db, after: Db, u: nat)
    requires u in db.open && u in after.open && after.open[u] == db.open[u] && after.rows == db.rows
    requires TxnFifo(db, u) && db.now <= after.now
    ensures TxnFifo(after, u)
  {
    assert View(after, u) == View(db, u);
    LaterStaysLeased(View(db, u), db.now, after.now);
  }

  lemma LaterStaysLeased(q: Table, now: int, later: int)
    requires Fifo.PrefixLeased(q, now) && now <= later
    ensures Fifo.PrefixLeased(q, later)
  {
  }

  lemma WithYoungest(q: Table, now: int, n: nat, m: Message)
    requires Fifo.PrefixLeased(q, now) && Visible(m, now) && n !in q
    requires forall i | i in q && GroupOf(q[i]) == GroupOf(m) :: i < n
    ensures Fifo.PrefixLeased(q[n := m], now)
  {
  }

  lemma SendKeepsFifo(db: Db, t: nat, body: Body, headers: HeaderCell, deliverAt: int)
    requires t in db.open && TxnFifo(db, t)
    requires Possible(db, Exec(t, SendRow(body, headers, deliverAt))) && deliverAt <= db.now
    requires forall id | id in db.rows || id in View(db, t) :: id < db.nextId
    ensures TxnFifo(Next(db, Exec(t, SendRow(body, headers, deliverAt))), t)
  {
    var after := Next(db, Exec(t, SendRow(body, headers, deliverAt)));
    var n, m := db.nextId, Message(0, db.now, None, deliverAt, body, headers);
    SessionMeaning.SendTxn(db, t, body, headers, deliverAt);
    assert View(after, t) == View(db, t)[n := m];
    WithYoungest(View(db, t), db.now, n, m);
  }

  lemma IdsAreOld(db: Db, t: nat)
    requires Inv(db) && t in db.open
    ensures forall id | id in db.rows || id in View(db, t) :: id < db.nextId
  {
    forall id | id in db.rows ensures id < db.nextId { CommittedIsOld(db, id); }
    forall id | id in View(db, t) ensures id < db.nextId { ViewExplained(db, t, id); }
  }

  lemma ReadTxn(db: Db, t: nat, timeout: int, qty: nat)
    requires Possible(db, Exec(t, ReadRows(RoundRobin, timeout, qty)))
    ensures var after, x, ids := Next(db, Exec(t, ReadRows(RoundRobin, timeout, qty))), db.open[t], RrPick(db, t, qty);
            && t in after.open && after.rows == db.rows && after.now == db.now && after.open[t].cut == {}
            && after.open[t].locks == x.locks + ids && after.open[t].groups == x.groups + RrGroups(db, t)
            && after.open[t].writes == x.writes + map id | id in ids :: Some(Leased(View(db, t)[id], db.now, timeout))
  {
    var e := Outcome(db, t, ReadRows(RoundRobin, timeout, qty));
    assert e.written.Keys == RrPick(db, t, qty);
  }

  lemma ReadView(db: Db, t: nat, timeout: int, qty: nat)
    requires Possible(db, Exec(t, ReadRows(RoundRobin, timeout, qty)))
    ensures var after := Next(db, Exec(t, ReadRows(RoundRobin, timeout, qty)));
            View(after, t) == Lease(View(db, t), RrPick(db, t, qty), db.now, timeout)
  {
    ReadTxn(db, t, timeout, qty);
    OverlayLease(db.rows, db.open[t].writes, RrPick(db, t, qty), db.now, timeout);
  }

  lemma OverlayLease(rows: Table, writes: map<nat, Option<Message>>, ids: set<nat>, now: int, timeout: int)
    requires ids <= Overlay(rows, writes).Keys
    ensures var q := Overlay(rows, writes);
            Overlay(rows, writes + map id | id in ids :: Some(Leased(q[id], now, timeout)))
            == Lease(q, ids, now, timeout)
  {
  }

  lemma ReadKeepsFifo(db: Db, t: nat, timeout: int, qty: nat)
    requires Leasing(db) && Possible(db, Exec(t, ReadRows(RoundRobin, timeout, qty)))
    requires 0 <= timeout && NothingSent(db, t)
    ensures TxnFifo(Next(db, Exec(t, ReadRows(RoundRobin, timeout, qty))), t)
  {
    ReadKeepsView(db, t, timeout, qty);
    ReadTxn(db, t, timeout, qty);
    ReadIsTidy(db, Next(db, Exec(t, ReadRows(RoundRobin, timeout, qty))), t, timeout, qty);
  }

  lemma ReadIsTidy(db: Db, after: Db, t: nat, timeout: int, qty: nat)
    requires t in db.open && TxnFifo(db, t) && ContentKept(db) && NothingSent(db, t)
    requires t in after.open && after.rows == db.rows && after.now == db.now && after.open[t].cut == {}
    requires after.open[t].locks == db.open[t].locks + RrPick(db, t, qty)
    requires after.open[t].groups == db.open[t].groups + RrGroups(db, t)
    requires after.open[t].writes
          == db.open[t].writes + map id | id in RrPick(db, t, qty) :: Some(Leased(View(db, t)[id], db.now, timeout))
    ensures Tidy(after.rows, after.now, after.open[t])
  {
    WrittenIsLocked(db, t, qty);
  }

  /** What `t` has written before, and what it writes by a read, is committed and in groups it has locked. */
  lemma WrittenIsLocked(db: Db, t: nat, qty: nat)
    requires t in db.open && TxnFifo(db, t) && ContentKept(db) && NothingSent(db, t)
    ensures forall id | id in db.open[t].writes :: id in db.rows && GroupOf(db.rows[id]) in db.open[t].groups
    ensures forall id | id in RrPick(db, t, qty) :: id in db.rows && GroupOf(db.rows[id]) in RrGroups(db, t)
  {
    forall id | id in db.open[t].writes ensures id in db.rows { assert !Unsettled(db, t, id); }
    forall id | id in RrPick(db, t, qty) ensures id in db.rows && GroupOf(db.rows[id]) in RrGroups(db, t) {
      PickedIsCommitted(db, t, qty, id);
    }
  }

  lemma ReadKeepsView(db: Db, t: nat, timeout: int, qty: nat)
    requires Leasing(db) && Possible(db, Exec(t, ReadRows(RoundRobin, timeout, qty))) && 0 <= timeout
    ensures Fifo.PrefixLeased(View(Next(db, Exec(t, ReadRows(RoundRobin, timeout, qty))), t), db.now)
  {
    assert TxnFifo(db, t);
    ReadView(db, t, timeout, qty);
    PickInOrder(db, t, qty);
    Fifo.LeaseKeepsPrefix(View(db, t), db.now, RrPick(db, t, qty), timeout);
  }

  lemma PickedIsCommitted(db: Db, t: nat, qty: nat, id: nat)
    requires t in db.open && TxnFifo(db, t) && ContentKept(db)
    requires NothingSent(db, t) && id in RrPick(db, t, qty)
    ensures id in db.rows && GroupOf(db.rows[id]) in RrGroups(db, t)
  {
    assert !Unsettled(db, t, id);
    PickedIsServed(db, t, qty, id);
    assert GroupOf(View(db, t)[id]) == GroupOf(db.rows[id]);
  }

  lemma PickedIsServed(db: Db, t: nat, qty: nat, id: nat)
    requires t in db.open && id in RrPick(db, t, qty)
    ensures id in View(db, t) && GroupOf(View(db, t)[id]) in RrGroups(db, t)
  {
    var q := View(db, t);
    var h := GroupHead(q, id);
    assert id in GroupIds(q, GroupOf(q[id]));
    assert GroupOf(q[h]) == GroupOf(q[id]) && h in EligibleHeads(q, db.now, OthersGroups(db, t));
  }

  lemma ReadKeepsGroups(db: Db, t: nat, timeout: int, qty: nat)
    requires GroupsExclusive(db) && Possible(db, Exec(t, ReadRows(RoundRobin, timeout, qty)))
    ensures GroupsExclusive(Next(db, Exec(t, ReadRows(RoundRobin, timeout, qty))))
  {
    ReadTxn(db, t, timeout, qty);
    assert RrGroups(db, t) !! OthersGroups(db, t);
  }

  // ----- commits -----

  /** What `u` sees of a committed row after `t` commits: what it has seen of it, if it has locked the
      group, or else what `t` has seen of it. */
  lemma CommitRow(db: Db, t: nat, u: nat, i: nat)
    requires Leasing(db) && Possible(db, Commit(t)) && u in db.open && u != t && i in db.rows
    ensures var q, g := View(Next(db, Commit(t)), u), GroupOf(db.rows[i]);
            && i in q && i in View(db, t) && i in View(db, u) && GroupOf(q[i]) == g
            && GroupOf(View(db, t)[i]) == g && GroupOf(View(db, u)[i]) == g
            && q[i] == if g in db.open[u].groups then View(db, u)[i] else View(db, t)[i]
  {
    assert TxnFifo(db, t) && TxnFifo(db, u);
  }

  /** What `u` sees besides is visible. */
  lemma CommitNew(db: Db, t: nat, u: nat, j: nat)
    requires Leasing(db) && Possible(db, Commit(t)) && u in db.open && u != t
    requires j in View(Next(db, Commit(t)), u) && j !in db.rows
    ensures Visible(View(Next(db, Commit(t)), u)[j], db.now)
  {
    assert TxnFifo(db, t) && TxnFifo(db, u);
  }

  /** A message older than a committed one of its group is committed. */
  lemma OldIsCommitted(db: Db, t: nat, u: nat, i: nat, j: nat)
    requires Ordered(db) && Leasing(db) && Possible(db, Commit(t)) && u in db.open && u != t && j in db.rows
    requires var q := View(Next(db, Commit(t)), u); i in q && GroupOf(q[i]) == GroupOf(db.rows[j]) && i < j
    ensures i in db.rows
  {
    var q := View(Next(db, Commit(t)), u);
    var g := GroupOf(db.rows[j]);
    assert NonePending(db, g, j);
    assert !Pending(db, u, g, j, t, i) && !Pending(db, t, g, j, u, i);
  }

  lemma CommitView(db: Db, t: nat, u: nat)
    requires Ordered(db) && Leasing(db) && Possible(db, Commit(t)) && u in db.open && u != t
    ensures Fifo.PrefixLeased(View(Next(db, Commit(t)), u), db.now)
  {
    var q := View(Next(db, Commit(t)), u);
    forall i, j | i in q && j in q && GroupOf(q[i]) == GroupOf(q[j]) && i < j && !Visible(q[j], db.now)
      ensures !Visible(q[i], db.now) && q[i].vt == q[j].vt
    {
      if j !in db.rows { CommitNew(db, t, u, j); }
      CommitRow(db, t, u, j);
      OldIsCommitted(db, t, u, i, j);
      CommitRow(db, t, u, i);
      assert TxnFifo(db, t) && TxnFifo(db, u);
    }
  }

  lemma CommitKeepsFifo(db: Db, t: nat, u: nat)
    requires Ordered(db) && Leasing(db) && Possible(db, Commit(t)) && u in db.open && u != t
    ensures TxnFifo(Next(db, Commit(t)), u)
  {
    CommitView(db, t, u);
    assert TxnFifo(db, t) && TxnFifo(db, u);
    var after := Next(db, Commit(t));
    forall id | id in after.open[u].writes && id in after.rows
      ensures GroupOf(after.rows[id]) in after.open[u].groups
    {
      assert id in db.rows;
      CommitRow(db, t, u, id);
    }
  }

  // ----- removals -----

  /** The effect of a removal: pending deletes of committed rows that nobody else has locked. */
  lemma RemovalOutcome(db: Db, d: nat, stmt: Stmt)
    requires Possible(db, Exec(d, stmt)) && db.open[d] == NEW && (stmt.DeleteRows? || stmt.PopRows?)
    ensures var e := Outcome(db, d, stmt);
            && e.written.Keys <= db.rows.Keys && e.written.Keys !! OthersLocks(db, d)
            && (forall id | id in e.written :: e.written[id] == None) && e.cut == {} && e.drawn == 0
  {
    assert View(db, d) == db.rows;
  }

  /** A removal that commits at once takes the removed rows out of the table and changes nothing else. */
  lemma RemovalEffect(db: Db, d: nat, stmt: Stmt)
    requires Possible(db, Exec(d, stmt)) && db.open[d] == NEW && (stmt.DeleteRows? || stmt.PopRows?)
    ensures Possible(Next(db, Exec(d, stmt)), Commit(d))
    ensures var after := Next(Next(db, Exec(d, stmt)), Commit(d));
            && after.rows == db.rows - Outcome(db, d, stmt).written.Keys
            && after.open == db.open - {d} && after.now == db.now
  {
    RemovalOutcome(db, d, stmt);
    var mid := Next(db, Exec(d, stmt));
    assert mid.open - {d} == db.open - {d};
    assert View(mid, d) == db.rows - Outcome(db, d, stmt).written.Keys;
  }

  lemma SubsetLeased(q: Table, ids: set<nat>, now: int)
    requires Fifo.PrefixLeased(q, now)
    ensures Fifo.PrefixLeased(q - ids, now)
  {
  }

  lemma RemovalKeepsFifo(db: Db, ids: set<nat>, after: Db, u: nat)
    requires after.rows == db.rows - ids && after.now == db.now && u in db.open && TxnFifo(db, u)
    requires u in after.open && after.open[u] == db.open[u] && ids !! db.open[u].locks && ids <= db.rows.Keys
    ensures TxnFifo(after, u)
  {
    assert View(after, u) == View(db, u) - ids;
    SubsetLeased(View(db, u), ids, db.now);
  }

  // ----- every run -----

  lemma ExecKeepsFifo(db: Db, t: nat, stmt: Stmt)
    requires FifoOk(db) && Possible(db, Exec(t, stmt)) && FifoAction(db, Exec(t, stmt))
    ensures TxnFifo(Next(db, Exec(t, stmt)), t)
  {
    match stmt
    case SendRow(body, headers, deliverAt) =>
      IdsAreOld(db, t);
      assert TxnFifo(db, t);
      SendKeepsFifo(db, t, body, headers, deliverAt);
    case ReadRows(_, timeout, qty) => ReadKeepsFifo(db, t, timeout, qty);
  }

  lemma ActionKeepsTxns(db: Db, a: Action, u: nat)
    requires FifoOk(db) && Possible(db, a) && FifoAction(db, a) && u in Next(db, a).open
    ensures TxnFifo(Next(db, a), u)
  {
    if a.Commit? { CommitKeepsFifo(db, a.t, u); }
    else if a.Exec? && a.t == u { ExecKeepsFifo(db, u, a.stmt); }
    else if u in db.open { OthersUntouched(db, a, u); UntouchedFifo(db, Next(db, a), u); }
    else { BegunFifo(db, u); }
  }

  lemma OthersUntouched(db: Db, a: Action, u: nat)
    requires Possible(db, a) && FifoAction(db, a) && !a.Commit? && !(a.Exec? && a.t == u)
    requires u in db.open && u in Next(db, a).open
    ensures Next(db, a).open[u] == db.open[u] && Next(db, a).rows == db.rows && db.now <= Next(db, a).now
  {
  }

  lemma BegunFifo(db: Db, u: nat)
    requires Leasing(db) && Possible(db, Begin(u))
    ensures TxnFifo(Next(db, Begin(u)), u)
  {
    assert View(Next(db, Begin(u)), u) == db.rows;
  }

  lemma ActionKeepsRows(db: Db, a: Action)
    requires FifoOk(db) && Possible(db, a) && FifoAction(db, a)
    ensures Fifo.PrefixLeased(Next(db, a).rows, Next(db, a).now) && GroupsExclusive(Next(db, a))
  {
    LaterStaysLeased(db.rows, db.now, Next(db, a).now);
    if a.Exec? && a.stmt.ReadRows? { ReadKeepsGroups(db, a.t, a.stmt.timeout, a.stmt.qty); }
    if a.Commit? { assert TxnFifo(db, a.t); }
  }

  lemma ActionKeepsFifo(db: Db, a: Action)
    requires FifoOk(db) && Possible(db, a) && FifoAction(db, a)
    ensures FifoOk(Next(db, a))
  {
    NextKeepsSound(db, a);
    StepKeepsOrdered(db, a);
    ActionKeepsRows(db, a);
    forall u | u in Next(db, a).open ensures TxnFifo(Next(db, a), u) { ActionKeepsTxns(db, a, u); }
  }

  lemma RemovalKeepsAll(db: Db, a: Action, b: Action)
    requires FifoOk(db) && RemovesAtOnce(db, a, b) && Possible(db, a) && Possible(Next(db, a), b)
    ensures FifoOk(Next(Next(db, a), b))
  {
    NextKeepsSound(db, a);
    StepKeepsOrdered(db, a);
    NextKeepsSound(Next(db, a), b);
    RemovalCommitsInOrder(db, a);
    StepKeepsOrdered(Next(db, a), b);
    RemovalKeepsLeasing(db, a.t, a.stmt);
  }

  lemma RemovalKeepsLeasing(db: Db, d: nat, stmt: Stmt)
    requires Leasing(db) && Possible(db, Exec(d, stmt)) && db.open[d] == NEW && (stmt.DeleteRows? || stmt.PopRows?)
    ensures Possible(Next(db, Exec(d, stmt)), Commit(d)) && Leasing(Next(Next(db, Exec(d, stmt)), Commit(d)))
  {
    RemovalOutcome(db, d, stmt);
    RemovalEffect(db, d, stmt);
    var ids, after := Outcome(db, d, stmt).written.Keys, Next(Next(db, Exec(d, stmt)), Commit(d));
    SubsetLeased(db.rows, ids, db.now);
    forall u | u in after.open ensures TxnFifo(after, u) {
      RemovalKeepsFifo(db, ids, after, u);
    }
  }

  lemma RemovalCommitsInOrder(db: Db, a: Action)
    requires a.Exec? && a.t in db.open && db.open[a.t] == NEW && (a.stmt.DeleteRows? || a.stmt.PopRows?)
    requires Possible(db, a)
    ensures CommitsInOrder(Next(db, a), a.t)
  {
  }

  lemma {:induction false} FifoThroughRun(db: Db, run: seq<Action>)
    requires FifoOk(db) && Interleaving(db, run) && FifoRun(db, run)
    ensures FifoOk(After(db, run))
    decreases |run|
  {
    if run != [] {
      var next, rest := Next(db, run[0]), run[1..];
      if FifoAction(db, run[0]) && FifoRun(next, rest) {
        ActionKeepsFifo(db, run[0]);
        FifoThroughRun(next, rest);
      } else {
        RemovalKeepsAll(db, run[0], rest[0]);
        FifoThroughRun(Next(next, rest[0]), rest[1..]);
      }
    }
  }

  /** Over every FIFO run of sessions: the invisible messages of each group stay a prefix sharing one
      `vt`, and no round-robin read of any open transaction, whatever the others have pending, delivers
      a message unless every earlier committed message of its group is in the same batch. */
  lemma OpenRoundRobinsDeliverInOrder(run: seq<Action>, t: nat, qty: nat)
    requires Interleaving(START, run) && FifoRun(START, run) && t in After(START, run).open
    ensures var db := After(START, run);
            && Fifo.PrefixLeased(db.rows, db.now)
            && Fifo.InOrder(View(db, t), RrPick(db, t, qty)) && Fifo.InOrder(db.rows, RrPick(db, t, qty))
  {
    FifoThroughRun(START, run);
    PickInOrder(After(START, run), t, qty);
    CommittedInOrder(After(START, run), t, RrPick(After(START, run), t, qty));
  }

  /** A batch in order for what a transaction sees is in order for the committed rows. */
  lemma CommittedInOrder(db: Db, t: nat, batch: set<nat>)
    requires Leasing(db) && t in db.open && Fifo.InOrder(View(db, t), batch)
    ensures Fifo.InOrder(db.rows, batch)
  {
    assert TxnFifo(db, t);
    forall id | id in db.rows ensures id in View(db, t) && GroupOf(View(db, t)[id]) == GroupOf(db.rows[id]) {}
  }
}
