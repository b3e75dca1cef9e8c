/** Sessions whose sends commit in the order of their ids: head reads then keep the order of each group. */
module HeadOrder {
  import opened Rows
  import opened Selection
  import opened Engine
  import opened Sessions
  import opened HeadSessions

  /** Transaction `u` has sent message `p` and not yet committed it. */
  ghost predicate Unsettled(db: Db, u: nat, p: nat) {
    u in db.open && p in db.open[u].writes && p !in db.rows && db.open[u].writes[p].Some?
  }

  /** No other open transaction has sent an older message of a group in which `t` has sent one. */
  ghost predicate CommitsInOrder(db: Db, t: nat) {
    forall n, u, p | Unsettled(db, t, n) && Unsettled(db, u, p) && u != t
                     && GroupOf(db.open[t].writes[n].value) == GroupOf(db.open[u].writes[p].value) :: n < p
  }

  /** The sends of the run commit in `msg_id` order, group by group. */
  ghost predicate OrderedRun(db: Db, run: seq<Action>)
    requires Interleaving(db, run)
    decreases run
  {
    run == [] || ((run[0].Commit? ==> CommitsInOrder(db, run[0].t)) && OrderedRun(Next(db, run[0]), run[1..]))
  }

  /** Nobody is about to commit a message below `m` in group `g`. */
  ghost predicate NonePending(db: Db, g: string, m: nat) {
    forall t, u, p :: !Pending(db, t, g, m, u, p)
  }

  /** What is still to be committed is younger than every committed message of its group. */
  ghost predicate Ordered(db: Db) {
    forall m | m in db.rows :: NonePending(db, GroupOf(db.rows[m]), m)
  }

  lemma NonePendingStays(db: Db, g: string, m: nat, a: Action)
    requires Sound(db) && Possible(db, a) && m < db.nextId && NonePending(db, g, m)
    ensures NonePending(Next(db, a), g, m)
  {
    forall t, u, p ensures !Pending(Next(db, a), t, g, m, u, p) {
      assert !Pending(db, t, g, m, u, p);
      if Pending(Next(db, a), t, g, m, u, p) { StepPending(db, t, g, m, a, u, p); }
    }
  }

  /** A message keeps its group while it is committed. */
  lemma GroupStays(db: Db, a: Action, m: nat)
    requires Sound(db) && Possible(db, a) && m in db.rows && m in Next(db, a).rows
    ensures GroupOf(Next(db, a).rows[m]) == GroupOf(db.rows[m])
  {
  }

  lemma NewlyCommitted(db: Db, t: nat, m: nat)
    requires Sound(db) && Possible(db, Commit(t)) && CommitsInOrder(db, t)
    requires m in Next(db, Commit(t)).rows && m !in db.rows
    ensures NonePending(Next(db, Commit(t)), GroupOf(Next(db, Commit(t)).rows[m]), m)
  {
    var after := Next(db, Commit(t));
    var g := GroupOf(after.rows[m]);
    assert Unsettled(db, t, m);
    forall w, u, p ensures !Pending(after, w, g, m, u, p) {
      if Pending(after, w, g, m, u, p) {
        assert TxnOk(db, t) && TxnOk(db, u);
        assert Unsettled(db, u, p);
      }
    }
  }

  lemma StepKeepsOrdered(db: Db, a: Action)
    requires Sound(db) && Ordered(db) && Possible(db, a) && (a.Commit? ==> CommitsInOrder(db, a.t))
    ensures Ordered(Next(db, a))
  {
    var after := Next(db, a);
    forall m | m in after.rows ensures NonePending(after, GroupOf(after.rows[m]), m) {
      if m in db.rows {
        CommittedIsOld(db, m);
        GroupStays(db, a, m);
        NonePendingStays(db, GroupOf(db.rows[m]), m, a);
      } else {
        NewlyCommitted(db, a.t, m);
      }
    }
  }

  lemma {:induction false} OrderedThroughRun(db: Db, run: seq<Action>)
    requires Sound(db) && Ordered(db) && Interleaving(db, run) && OrderedRun(db, run)
    ensures Sound(After(db, run)) && Ordered(After(db, run))
    decreases run
  {
    if run != [] {
      StepKeepsOrdered(db, run[0]);
      NextKeepsSound(db, run[0]);
      OrderedThroughRun(Next(db, run[0]), run[1..]);
    }
  }

  // ----- past a message -----

  /** The messages of group `g` below `m` are removed, by committed transactions or by `t`, and none is
      still to come. */
  ghost predicate Passed(db: Db, t: nat, g: string, m: nat) {
    && m < db.nextId && NonePending(db, g, m)
    && forall k | k in db.rows && k < m && GroupOf(db.rows[k]) == g ::
         t in db.open && k in db.open[t].writes && db.open[t].writes[k] == None
  }

  lemma RemovedStays(db: Db, t: nat, k: nat, a: Action)
    requires Sound(db) && Possible(db, a) && !(a == Commit(t) || a == Rollback(t))
    requires t in db.open && k in db.open[t].writes && db.open[t].writes[k] == None && k < db.nextId
    ensures var after := Next(db, a);
            t in after.open && k in after.open[t].writes && after.open[t].writes[k] == None
  {
    if a.Exec? && a.t == t {
      forall id | id in View(db, t) ensures id < db.nextId { ViewExplained(db, t, id); }
      OutcomeOk(db, t, a.stmt);
      WrittenIsSeen(db, t, Outcome(db, t, a.stmt), k);
    } else if a.Take? && a.t == t {
      TakenOk(db, t, a.id);
      WrittenIsSeen(db, t, Taken(db, t, a.id), k);
    }
  }

  lemma WrittenIsSeen(db: Db, t: nat, e: Effect, k: nat)
    requires t in db.open && EffectOk(db, t, e) && k !in View(db, t) && k != db.nextId
    ensures k !in e.written
  {
    forall id | id in e.written ensures id in View(db, t) || id == db.nextId { assert RowEffect(db, t, e, id); }
  }

  lemma CommitPasses(db: Db, t: nat, g: string, m: nat, u: nat, k: nat)
    requires Sound(db) && Passed(db, t, g, m) && Possible(db, Commit(u))
    requires k in View(db, u) && k < m && GroupOf(View(db, u)[k]) == g
    ensures u != t && k in db.rows && GroupOf(db.rows[k]) == g && t in db.open
    ensures k in db.open[t].writes && db.open[t].writes[k] == None
  {
    assert !Pending(db, u + 1, g, m, u, k);
  }

  /** Going past a message is final, unless `t` is rolled back. */
  lemma StepKeepsPassed(db: Db, t: nat, g: string, m: nat, a: Action)
    requires Sound(db) && Passed(db, t, g, m) && Possible(db, a) && a != Rollback(t)
    ensures Passed(Next(db, a), t, g, m)
  {
    var after := Next(db, a);
    NonePendingStays(db, g, m, a);
    forall k | k in after.rows && k < m && GroupOf(after.rows[k]) == g
      ensures t in after.open && k in after.open[t].writes && after.open[t].writes[k] == None
    {
      if a.Commit? { CommitPasses(db, t, g, m, a.t, k); }
      RemovedStays(db, t, k, a);
    }
  }

  /** No message of group `g` below `m` is committed any more. */
  ghost predicate Gone(db: Db, g: string, m: nat) {
    && m < db.nextId && NonePending(db, g, m)
    && forall k | k in db.rows && k < m :: GroupOf(db.rows[k]) != g
  }

  lemma StepKeepsGone(db: Db, g: string, m: nat, a: Action)
    requires Sound(db) && Gone(db, g, m) && Possible(db, a)
    ensures Gone(Next(db, a), g, m)
  {
    var t := if a.Rollback? then a.t + 1 else 0;
    StepKeepsPassed(db, t, g, m, a);
    forall k | k in Next(db, a).rows && k < m ensures GroupOf(Next(db, a).rows[k]) != g {
      if a.Commit? && GroupOf(View(db, a.t)[k]) == g { CommitPasses(db, t, g, m, a.t, k); }
    }
  }

  lemma {:induction false} GoneThroughRun(db: Db, g: string, m: nat, run: seq<Action>)
    requires Sound(db) && Gone(db, g, m) && Interleaving(db, run)
    ensures Sound(After(db, run)) && Gone(After(db, run), g, m)
    decreases run
  {
    if run != [] {
      StepKeepsGone(db, g, m, run[0]);
      NextKeepsSound(db, run[0]);
      GoneThroughRun(Next(db, run[0]), g, m, run[1..]);
    }
  }

  /** Transaction `t` is not rolled back in the run before it commits. */
  predicate Survives(t: nat, run: seq<Action>)
    decreases run
  {
    run == [] || run[0] == Commit(t) || (run[0] != Rollback(t) && Survives(t, run[1..]))
  }

  lemma CommitIsGone(db: Db, t: nat, g: string, m: nat)
    requires Sound(db) && Passed(db, t, g, m) && Possible(db, Commit(t))
    ensures Gone(Next(db, Commit(t)), g, m)
  {
    NonePendingStays(db, g, m, Commit(t));
    forall k | k in View(db, t) && k < m ensures GroupOf(View(db, t)[k]) != g {
      if GroupOf(View(db, t)[k]) == g { CommitPasses(db, t, g, m, t, k); }
    }
  }

  lemma {:induction false} PassedThroughRun(db: Db, t: nat, g: string, m: nat, run: seq<Action>)
    requires Sound(db) && Passed(db, t, g, m) && Interleaving(db, run) && Survives(t, run)
    ensures Sound(After(db, run)) && Passed(After(db, run), t, g, m)
    decreases run
  {
    if run != [] {
      var a := run[0];
      NextKeepsSound(db, a);
      if a == Commit(t) {
        CommitIsGone(db, t, g, m);
        GoneThroughRun(Next(db, a), g, m, run[1..]);
      } else {
        StepKeepsPassed(db, t, g, m, a);
        PassedThroughRun(Next(db, a), t, g, m, run[1..]);
      }
    }
  }

  // ----- head reads -----

  lemma PickedIsOldest(q: Table, now: int, qty: nat, locked: set<nat>, m: nat)
    requires m in HeadSet(q, now, qty, locked)
    ensures m in q && forall k | k in q && GroupOf(q[k]) == GroupOf(q[m]) :: m <= k
  {
    forall k | k in q && GroupOf(q[k]) == GroupOf(q[m]) ensures m <= k { assert k in GroupIds(q, GroupOf(q[m])); }
  }

  lemma HeadReadPasses(db: Db, t: nat, timeout: int, qty: nat, m: nat)
    requires Sound(db) && Ordered(db) && Idle(db, t) && m in HeadPick(db, t, qty) && m in db.rows
    ensures Passed(Next(db, Exec(t, ReadRows(Head, timeout, qty))), t, GroupOf(db.rows[m]), m)
  {
    var q, g := View(db, t), GroupOf(db.rows[m]);
    CommittedIsOld(db, m);
    PickedIsOldest(q, db.now, qty, OthersLocks(db, t), m);
    assert forall k | k in db.rows && k !in q :: k in db.open[t].writes && db.open[t].writes[k] == None;
    StepKeepsPassed(db, t, g, m, Exec(t, ReadRows(Head, timeout, qty)));
  }

  lemma PickedIsNotPassed(db: Db, t: nat, g: string, m: nat, u: nat, qty: nat, n: nat)
    requires Sound(db) && Passed(db, t, g, m) && u in db.open && n in HeadPick(db, u, qty)
    ensures n in View(db, u) && (GroupOf(View(db, u)[n]) == g ==> m <= n)
  {
    assert !Pending(db, u + 1, g, m, u, n);
  }

  /** Over every run of sessions whose sends commit in `msg_id` order, head reads keep the order of each
      group: once a head read of `t` has delivered the committed message `m`, and unless `t` is rolled
      back, no head read of any transaction delivers an older message of the group, whatever removals,
      other reads, `set_vt` calls and rollbacks of others come in between. */
  lemma HeadReadsKeepOrder(
    run: seq<Action>, t: nat, timeout: int, qty: nat, m: nat, between: seq<Action>, u: nat, qtyLater: nat, n: nat)
    requires Interleaving(START, run) && OrderedRun(START, run) && Survives(t, between)
    requires var db := After(START, run); Idle(db, t) && m in HeadPick(db, t, qty) && m in db.rows
    ensures var db := After(START, run);
            var held := Next(db, Exec(t, ReadRows(Head, timeout, qty)));
            Interleaving(held, between) && u in After(held, between).open
            && n in HeadPick(After(held, between), u, qtyLater) ==>
              var q := View(After(held, between), u);
              n in q && (GroupOf(q[n]) == GroupOf(db.rows[m]) ==> m <= n)
  {
    OrderedThroughRun(START, run);
    var db := After(START, run);
    var a, g := Exec(t, ReadRows(Head, timeout, qty)), GroupOf(db.rows[m]);
    HeadReadPasses(db, t, timeout, qty, m);
    NextKeepsSound(db, a);
    var held := Next(db, a);
    if Interleaving(held, between) && u in After(held, between).open
       && n in HeadPick(After(held, between), u, qtyLater) {
      PassedThroughRun(held, t, g, m, between);
      PickedIsNotPassed(After(held, between), t, g, m, u, qtyLater, n);
    }
  }

  /** In such runs a head read of a committed message needs no further condition to own its group, so
      that no other transaction reads the group's head before it ends. */
  lemma OrderedHeadReadOwns(run: seq<Action>, t: nat, timeout: int, qty: nat, m: nat)
    requires Interleaving(START, run) && OrderedRun(START, run)
    requires var db := After(START, run); Idle(db, t) && m in HeadPick(db, t, qty) && m in db.rows
    ensures var db := After(START, run);
            exists h :: Owns(Next(db, Exec(t, ReadRows(Head, timeout, qty))), t, GroupOf(db.rows[m]), h)
  {
    OrderedThroughRun(START, run);
    var db := After(START, run);
    assert NonePending(db, GroupOf(db.rows[m]), m);
    HeadReadOwns(db, t, timeout, qty, m);
  }
}
