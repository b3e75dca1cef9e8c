/** What open transactions guarantee, over every interleaving of any number of sessions. */
module SessionTheorems {
  import opened Rows
  import opened Engine
  import opened Events
  import opened Sessions

  lemma {:induction false} InterleavingKeepsInv(db: Db, run: seq<Action>)
    requires Inv(db) && Interleaving(db, run)
    ensures Inv(After(db, run))
    decreases run
  {
    if run != [] {
      NextKeepsInv(db, run[0]);
      InterleavingKeepsInv(Next(db, run[0]), run[1..]);
    }
  }

  /** Over every interleaving, the committed deliveries of a message with no committed `set_vt` between
      them are at least the first one's timeout apart, exactly when no delivery renewed a lease that was
      still running. Only `read_grouped` renews: its update does not look at `vt` again. */
  lemma CommittedDeliveriesSpaced(run: seq<Action>, id: nat)
    requires Interleaving(START, run)
    ensures var e := Of(After(START, run).history, id);
            && (Spaced(e) <==> forall k :: !Renewed(e, id, k))
            && forall k | Renewed(e, id, k) :: e[k].kind == Grouped
  {
    InterleavingKeepsInv(START, run);
    var db := After(START, run);
    SpacedIffNoneRenewed(Of(db.history, id), id, db.now);
  }

  /** Plain, round-robin and head reads keep the spacing without any condition: no delivery of theirs
      comes before the timeout of the delivery just before it, whoever made that one, and a message
      that only they have delivered has all its deliveries spaced. */
  lemma OtherReadsKeepSpacing(run: seq<Action>, id: nat)
    requires Interleaving(START, run)
    ensures var e := Of(After(START, run).history, id);
            && (forall k | Repeated(e, k) && e[k].kind != Grouped :: e[k - 1].until <= e[k].at)
            && ((forall k | 0 <= k < |e| && e[k].Delivered? :: e[k].kind != Grouped) ==> Spaced(e))
  {
    CommittedDeliveriesSpaced(run, id);
    InterleavingKeepsInv(START, run);
    var e := Of(After(START, run).history, id);
    forall k | Repeated(e, k) && e[k].kind != Grouped ensures e[k - 1].until <= e[k].at {
      OthersWait(e, id, k);
    }
  }

  /** A committed pop, delete or archive is the last committed event of its message, and afterwards
      no session sees the message any more. */
  lemma CommittedRemovalIsFinal(run: seq<Action>, id: nat, i: nat)
    requires Interleaving(START, run)
    requires var e := Of(After(START, run).history, id); i < |e| && e[i].Removed?
    ensures var db := After(START, run);
            && i == |Of(db.history, id)| - 1 && id !in db.rows
            && forall t | t in db.open :: id !in View(db, t)
  {
    InterleavingKeepsInv(START, run);
    RemovedIsLast(After(START, run), id, i);
  }

  lemma RemovedIsLast(db: Db, id: nat, i: nat)
    requires Inv(db) && i < |Of(db.history, id)| && Of(db.history, id)[i].Removed?
    ensures i == |Of(db.history, id)| - 1 && id !in db.rows
    ensures forall t | t in db.open :: id !in View(db, t)
  {
    var h := Of(db.history, id);
    assert !Alive(h);
    assert Explains(h, id, None, db.now);
    assert forall k | 0 <= k < |h| - 1 :: h[..|h| - 1][k] == h[k];
    forall t | t in db.open ensures id !in View(db, t) {
      if id in View(db, t) { SeenWasNeverRemoved(db, t, id); }
    }
  }

  lemma SeenWasNeverRemoved(db: Db, t: nat, id: nat)
    requires Inv(db) && t in db.open && id in View(db, t)
    ensures Alive(Of(db.history, id))
  {
    ViewExplained(db, t, id);
    var h, mine := Of(db.history, id), Of(db.open[t].events, id);
    assert forall k | 0 <= k < |h| :: (h + mine)[k] == h[k];
  }

  /** No message is held by two open transactions at once. */
  lemma HeldByOneTransaction(run: seq<Action>, t: nat, u: nat, id: nat)
    requires Interleaving(START, run)
    requires var db := After(START, run);
             t in db.open && u in db.open && Of(db.open[t].events, id) != [] && Of(db.open[u].events, id) != []
    ensures t == u
  {
    InterleavingKeepsInv(START, run);
    var db := After(START, run);
    assert TxnOk(db, t) && TxnOk(db, u);
  }

  // ----- a lock pins the committed row -----

  predicate Ends(a: Action, t: nat) { a == Commit(t) || a == Rollback(t) }

  ghost predicate SameRow(q: Table, r: Table, id: nat) {
    (id in q <==> id in r) && (id in q ==> q[id] == r[id])
  }

  lemma LockPinsRow(db: Db, a: Action, t: nat, id: nat)
    requires Inv(db) && Possible(db, a) && !Ends(a, t)
    requires t in db.open && id in db.open[t].locks
    ensures var after := Next(db, a);
            t in after.open && id in after.open[t].locks && SameRow(db.rows, after.rows, id)
  {
    if a.Commit? { assert TxnOk(db, a.t); }
  }

  lemma {:induction false} LockPinsRowThroughRun(db: Db, run: seq<Action>, t: nat, id: nat)
    requires Inv(db) && Interleaving(db, run) && forall i | 0 <= i < |run| :: !Ends(run[i], t)
    requires t in db.open && id in db.open[t].locks
    ensures var after := After(db, run);
            t in after.open && id in after.open[t].locks && SameRow(db.rows, after.rows, id)
    decreases run
  {
    if run != [] {
      LockPinsRow(db, run[0], t, id);
      NextKeepsInv(db, run[0]);
      LockPinsRowThroughRun(Next(db, run[0]), run[1..], t, id);
    }
  }

  lemma ExecLocks(db: Db, t: nat, stmt: Stmt, id: nat)
    requires Possible(db, Exec(t, stmt)) && id in Outcome(db, t, stmt).written
    ensures var held := Next(db, Exec(t, stmt));
            t in held.open && id in held.open[t].locks && held.rows == db.rows
  {
  }

  lemma LockedByOne(db: Db, t: nat, id: nat)
    requires Inv(db) && t in db.open && id in db.open[t].locks
    ensures forall u | u in Next(db, Rollback(t)).open :: id !in db.open[u].locks
  {
  }

  /** Whatever a transaction does to a row once it has locked it, and whatever the other sessions do
      meanwhile, rolling it back leaves the row as it was committed, `vt` and `read_ct` included, and
      unlocked. */
  lemma RollbackRestores(db: Db, t: nat, run: seq<Action>, id: nat)
    requires Inv(db) && t in db.open && id in db.open[t].locks
    requires Interleaving(db, run) && forall i | 0 <= i < |run| :: !Ends(run[i], t)
    ensures var last := After(db, run);
            && t in last.open
            && var restored := Next(last, Rollback(t));
               SameRow(db.rows, restored.rows, id)
               && forall u | u in restored.open :: id !in restored.open[u].locks
  {
    LockPinsRowThroughRun(db, run, t, id);
    InterleavingKeepsInv(db, run);
    LockedByOne(After(db, run), t, id);
  }
}
