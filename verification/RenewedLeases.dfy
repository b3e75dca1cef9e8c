/** When `read_grouped` hands out a message that another transaction has leased: it chooses its rows,
    waits for those that are locked, and then updates whatever version it finds. */
module RenewedLeases {
  import opened Rows
  import opened Selection
  import opened Engine
  import opened Events
  import opened Sessions
  import opened SessionTheorems

  /** The events of message `id` as transaction `t` knows them. */
  function Known(db: Db, t: nat, id: nat): seq<Event>
    requires t in db.open
  {
    Of(db.history, id) + Of(db.open[t].events, id)
  }

  /** The row that `read_grouped` is about to update is hidden by a lease that is still running. */
  ghost predicate Renews(db: Db, t: nat, id: nat)
    requires t in db.open
  {
    id in View(db, t) && !Visible(View(db, t)[id], db.now) && LeasedLast(Known(db, t, id))
  }

  /** The update of such a row, and of no other, is on record as a renewal. */
  lemma TakeRecordsRenewal(db: Db, t: nat, id: nat)
    requires Inv(db) && Possible(db, Take(t, id)) && id in View(db, t)
    ensures var e := Known(Next(db, Take(t, id)), t, id);
            |e| == |Known(db, t, id)| + 1 && (Renewed(e, id, |e| - 1) <==> Renews(db, t, id))
  {
    TakeAppends(db, t, id);
    ViewExplained(db, t, id);
  }

  lemma TakeAppends(db: Db, t: nat, id: nat)
    requires Possible(db, Take(t, id)) && id in View(db, t)
    ensures var ev := Delivery(View(db, t), Grouped, {id}, db.now, db.open[t].timeout);
            Known(Next(db, Take(t, id)), t, id) == Known(db, t, id) + [ev]
  {
    OfAppend(db.open[t].events, Taken(db, t, id).events, id);
  }

  // ----- what happens to a chosen row before it is updated -----

  /** Committed events only grow. A committed row that stays the same has no new ones. */
  lemma StepHistory(db: Db, a: Action, id: nat)
    requires Inv(db) && Possible(db, a)
    ensures var h, k := Of(db.history, id), Of(Next(db, a).history, id);
            |h| <= |k| && (|h| == |k| && id in db.rows ==> SameRow(db.rows, Next(db, a).rows, id))
  {
    if a.Commit? {
      OfConcat(db.history, db.open[a.t].events, id);
      assert TxnOk(db, a.t);
    }
  }

  lemma {:induction false} RunHistory(db: Db, run: seq<Action>, id: nat)
    requires Inv(db) && Interleaving(db, run)
    ensures var h, k := Of(db.history, id), Of(After(db, run).history, id);
            |h| <= |k| && (|h| == |k| && id in db.rows ==> SameRow(db.rows, After(db, run).rows, id))
    decreases run
  {
    if run != [] {
      StepHistory(db, run[0], id);
      NextKeepsInv(db, run[0]);
      RunHistory(Next(db, run[0]), run[1..], id);
    }
  }

  /** A lock keeps the committed events of a row as they are, too. */
  lemma LockPinsHistory(db: Db, a: Action, t: nat, id: nat)
    requires Inv(db) && Possible(db, a) && !Ends(a, t)
    requires t in db.open && id in db.open[t].locks
    ensures Of(Next(db, a).history, id) == Of(db.history, id)
  {
    if a.Commit? {
      OfConcat(db.history, db.open[a.t].events, id);
      assert TxnOk(db, a.t);
      assert Of(db.history, id) + [] == Of(db.history, id);
    }
  }

  lemma {:induction false} LockPinsHistoryThroughRun(db: Db, run: seq<Action>, t: nat, id: nat)
    requires Inv(db) && Interleaving(db, run) && forall i | 0 <= i < |run| :: !Ends(run[i], t)
    requires t in db.open && id in db.open[t].locks
    ensures Of(After(db, run).history, id) == Of(db.history, id)
    decreases run
  {
    if run != [] {
      LockPinsHistory(db, run[0], t, id);
      LockPinsRow(db, run[0], t, id);
      NextKeepsInv(db, run[0]);
      LockPinsHistoryThroughRun(Next(db, run[0]), run[1..], t, id);
    }
  }

  /** Transaction `t` has not got any further with row `id` of its cut. */
  ghost predicate Untaken(db: Db, later: Db, t: nat, id: nat)
    requires t in db.open
  {
    && t in later.open && id in later.open[t].cut && db.now <= later.now
    && var x, y := db.open[t], later.open[t];
       && x.locks <= y.locks && Of(y.events, id) == Of(x.events, id)
       && (id in x.writes <==> id in y.writes) && (id in x.writes ==> y.writes[id] == x.writes[id])
  }

  lemma StepLeavesUntaken(db: Db, a: Action, t: nat, id: nat)
    requires t in db.open && id in db.open[t].cut && Possible(db, a) && !Ends(a, t) && a != Take(t, id)
    ensures Untaken(db, Next(db, a), t, id)
  {
    if a.Take? && a.t == t {
      OfAppend(db.open[t].events, Taken(db, t, a.id).events, id);
    }
  }

  lemma {:induction false} RunLeavesUntaken(db: Db, run: seq<Action>, t: nat, id: nat)
    requires t in db.open && id in db.open[t].cut && Interleaving(db, run)
    requires forall i | 0 <= i < |run| :: !Ends(run[i], t) && run[i] != Take(t, id)
    ensures Untaken(db, After(db, run), t, id)
    decreases run
  {
    if run != [] {
      StepLeavesUntaken(db, run[0], t, id);
      RunLeavesUntaken(Next(db, run[0]), run[1..], t, id);
    }
  }

  // ----- the exact condition -----

  /** The latest committed event of message `id` came after `db`, and is a lease that is still running. */
  ghost predicate LeasedSince(db: Db, last: Db, id: nat) {
    var e := Of(last.history, id);
    |Of(db.history, id)| < |e| && LeasedLast(e) && last.now < e[|e| - 1].until
  }

  /** A `read_grouped` renews a lease on one of its rows exactly when, since it chose the row, another
      transaction has committed a delivery of it whose timeout has not passed yet. */
  lemma RenewsIffLeasedSince(db: Db, t: nat, timeout: int, qty: nat, run: seq<Action>, id: nat)
    requires Inv(db) && Possible(db, Exec(t, ReadRows(Grouped, timeout, qty)))
    requires id in Next(db, Exec(t, ReadRows(Grouped, timeout, qty))).open[t].cut
    requires forall i | 0 <= i < |run| :: !Ends(run[i], t) && run[i] != Take(t, id)
    ensures var chosen := Next(db, Exec(t, ReadRows(Grouped, timeout, qty)));
            Interleaving(chosen, run) ==>
              var last := After(chosen, run);
              t in last.open && (id in View(last, t) ==> (Renews(last, t, id) <==> LeasedSince(db, last, id)))
  {
    var chosen := Next(db, Exec(t, ReadRows(Grouped, timeout, qty)));
    NextKeepsInv(db, Exec(t, ReadRows(Grouped, timeout, qty)));
    if Interleaving(chosen, run) {
      ChosenIsVisible(db, t, timeout, qty, id);
      RunLeavesUntaken(chosen, run, t, id);
      InterleavingKeepsInv(chosen, run);
      RunHistory(chosen, run, id);
      if id in db.open[t].writes {
        assert TxnOk(db, t);
        LockPinsHistoryThroughRun(chosen, run, t, id);
      } else {
        UnwrittenRenews(chosen, After(chosen, run), t, id);
      }
    }
  }

  lemma ChosenIsVisible(db: Db, t: nat, timeout: int, qty: nat, id: nat)
    requires Inv(db) && Possible(db, Exec(t, ReadRows(Grouped, timeout, qty)))
    requires id in Next(db, Exec(t, ReadRows(Grouped, timeout, qty))).open[t].cut
    ensures var chosen := Next(db, Exec(t, ReadRows(Grouped, timeout, qty)));
            && chosen.rows == db.rows && chosen.history == db.history && chosen.now == db.now
            && id in View(chosen, t) && Visible(View(chosen, t)[id], db.now)
            && chosen.open[t].writes == db.open[t].writes && db.open[t].locks <= chosen.open[t].locks
  {
    ChoosingReadsOnly(db, t, timeout, qty);
    CutIsVisible(View(db, t), db.now, qty, OthersLocks(db, t));
    SameView(db, Next(db, Exec(t, ReadRows(Grouped, timeout, qty))), t);
  }

  lemma SameView(db: Db, after: Db, t: nat)
    requires t in db.open && t in after.open && after.rows == db.rows && after.open[t].writes == db.open[t].writes
    ensures View(after, t) == View(db, t)
  {
  }

  lemma ChoosingReadsOnly(db: Db, t: nat, timeout: int, qty: nat)
    requires Possible(db, Exec(t, ReadRows(Grouped, timeout, qty)))
    ensures var chosen := Next(db, Exec(t, ReadRows(Grouped, timeout, qty)));
            && chosen.rows == db.rows && chosen.history == db.history && chosen.now == db.now && t in chosen.open
            && var x, y := db.open[t], chosen.open[t];
               && y.writes == x.writes && x.locks <= y.locks
               && y.cut == GroupedSet(View(db, t), db.now, qty, OthersLocks(db, t))
  {
    assert db.open[t].writes + map[] == db.open[t].writes;
  }

  lemma CutIsVisible(q: Table, now: int, qty: nat, locked: set<nat>)
    ensures GroupedSet(q, now, qty, locked) <= VisibleIds(q, now)
  {
  }

  lemma UnwrittenRenews(chosen: Db, last: Db, t: nat, id: nat)
    requires Inv(chosen) && Inv(last) && t in chosen.open && Untaken(chosen, last, t, id)
    requires id in chosen.rows && Visible(chosen.rows[id], chosen.now) && id !in chosen.open[t].writes
    requires |Of(chosen.history, id)| <= |Of(last.history, id)|
    requires |Of(chosen.history, id)| == |Of(last.history, id)| ==> SameRow(chosen.rows, last.rows, id)
    ensures id in View(last, t) ==> (Renews(last, t, id) <==> LeasedSince(chosen, last, id))
  {
    if |Of(chosen.history, id)| < |Of(last.history, id)| { CommittedSinceRenews(chosen, last, t, id); }
  }

  lemma CommittedSinceRenews(chosen: Db, last: Db, t: nat, id: nat)
    requires Inv(last) && t in chosen.open && Untaken(chosen, last, t, id) && id !in chosen.open[t].writes
    requires |Of(chosen.history, id)| < |Of(last.history, id)|
    ensures id in View(last, t) ==> (Renews(last, t, id) <==> LeasedSince(chosen, last, id))
  {
    assert TxnOk(last, t);
    var e := Of(last.history, id);
    assert Known(last, t, id) == e;
    assert id in last.rows ==> Explains(e, id, Some(last.rows[id]), last.now);
  }

  /** The first rows of the groups are locked when they are chosen, so their leases are never renewed. */
  lemma HeadsAreNotRenewed(db: Db, t: nat, timeout: int, qty: nat, run: seq<Action>, id: nat)
    requires Inv(db) && Possible(db, Exec(t, ReadRows(Grouped, timeout, qty)))
    requires id in Next(db, Exec(t, ReadRows(Grouped, timeout, qty))).open[t].cut
    requires id in LockedHeads(View(db, t), db.now, OthersLocks(db, t))
    requires forall i | 0 <= i < |run| :: !Ends(run[i], t) && run[i] != Take(t, id)
    ensures var chosen := Next(db, Exec(t, ReadRows(Grouped, timeout, qty)));
            Interleaving(chosen, run) ==>
              var last := After(chosen, run);
              t in last.open && id in View(last, t) && !Renews(last, t, id)
  {
    var chosen := Next(db, Exec(t, ReadRows(Grouped, timeout, qty)));
    if Interleaving(chosen, run) {
      NextKeepsInv(db, Exec(t, ReadRows(Grouped, timeout, qty)));
      ChosenIsVisible(db, t, timeout, qty, id);
      RunLeavesUntaken(chosen, run, t, id);
      LockPinsHistoryThroughRun(chosen, run, t, id);
      LockPinsRowThroughRun(chosen, run, t, id);
      RenewsIffLeasedSince(db, t, timeout, qty, run, id);
    }
  }

  // ----- whole runs -----

  /** No step of the run updates row `id` while a lease of it is running. */
  ghost predicate NeverRenews(db: Db, run: seq<Action>, id: nat)
    requires Interleaving(db, run)
    decreases run
  {
    run == [] || ((run[0].Take? && run[0].id == id ==> !Renews(db, run[0].t, id))
                  && NeverRenews(Next(db, run[0]), run[1..], id))
  }

  ghost predicate NoneRenewed(e: seq<Event>, id: nat) {
    forall k :: !Renewed(e, id, k)
  }

  /** No renewal of message `id` is on record anywhere. */
  ghost predicate Clean(db: Db, id: nat) {
    NoneRenewed(Of(db.history, id), id) && forall t | t in db.open :: NoneRenewed(Known(db, t, id), id)
  }

  lemma AppendNoneRenewed(e: seq<Event>, id: nat, ev: Event)
    requires NoneRenewed(e, id) && !Renewed(e + [ev], id, |e|)
    ensures NoneRenewed(e + [ev], id)
  {
    var f := e + [ev];
    forall k ensures !Renewed(f, id, k) {
      assert !Renewed(e, id, k);
    }
  }

  lemma ExecutedKnown(db: Db, t: nat, e: Effect, id: nat)
    requires t in db.open && |e.events| <= 1
    ensures Known(Executed(db, t, e), t, id)
         == Known(db, t, id) + if |e.events| == 1 && id in e.events[0].ids then [e.events[0]] else []
  {
    OfAppend(db.open[t].events, e.events, id);
  }

  lemma ExecIsNotEarly(db: Db, t: nat, stmt: Stmt)
    requires Possible(db, Exec(t, stmt))
    ensures var e := Outcome(db, t, stmt);
            |e.events| <= 1 && (|e.events| == 1 && e.events[0].Delivered? ==> e.events[0].early == {})
  {
  }

  lemma ExecKeepsClean(db: Db, t: nat, stmt: Stmt, id: nat)
    requires Inv(db) && Possible(db, Exec(t, stmt)) && NoneRenewed(Known(db, t, id), id)
    ensures NoneRenewed(Known(Next(db, Exec(t, stmt)), t, id), id)
  {
    var e, known := Outcome(db, t, stmt), Known(db, t, id);
    ExecIsNotEarly(db, t, stmt);
    ExecutedKnown(db, t, e, id);
    assert known + [] == known;
    if |e.events| == 1 { AppendNoneRenewed(known, id, e.events[0]); }
  }

  lemma TakeKeepsClean(db: Db, t: nat, x: nat, id: nat)
    requires Inv(db) && Possible(db, Take(t, x)) && NoneRenewed(Known(db, t, id), id)
    requires x == id ==> !Renews(db, t, id)
    ensures NoneRenewed(Known(Next(db, Take(t, x)), t, id), id)
  {
    if x == id && id in View(db, t) {
      TakeAppends(db, t, id);
      TakeRecordsRenewal(db, t, id);
      AppendNoneRenewed(Known(db, t, id), id, Delivery(View(db, t), Grouped, {id}, db.now, db.open[t].timeout));
    } else {
      ExecutedKnown(db, t, Taken(db, t, x), id);
      assert Known(db, t, id) + [] == Known(db, t, id);
    }
  }

  lemma OneHasEvents(db: Db, t: nat, u: nat, id: nat)
    requires Inv(db) && t in db.open && u in db.open && t != u
    ensures Of(db.open[t].events, id) == [] || Of(db.open[u].events, id) == []
  {
    assert TxnOk(db, t) && TxnOk(db, u);
  }

  /** What a commit makes of the events of message `id`: they are what the transaction has known, and the
      others know what they have known, unless the transaction has changed the message. */
  lemma CommitKnown(db: Db, t: nat, id: nat, u: nat)
    requires Inv(db) && Possible(db, Commit(t)) && u in db.open && u != t
    ensures var after := Next(db, Commit(t));
            && Of(after.history, id) == Known(db, t, id)
            && (Known(after, u, id) == Known(db, u, id)
                || (Known(after, u, id) == Of(after.history, id) && Known(db, u, id) == Of(db.history, id)))
  {
    OfConcat(db.history, db.open[t].events, id);
    var h, mine, theirs := Of(db.history, id), Of(db.open[t].events, id), Of(db.open[u].events, id);
    OneHasEvents(db, t, u, id);
    assert h + [] == h && h + mine + [] == h + mine;
  }

  lemma CommitKeepsClean(db: Db, t: nat, id: nat)
    requires Inv(db) && Possible(db, Commit(t)) && Clean(db, id)
    ensures Clean(Next(db, Commit(t)), id)
  {
    OfConcat(db.history, db.open[t].events, id);
    forall u | u in db.open && u != t ensures NoneRenewed(Known(Next(db, Commit(t)), u, id), id) {
      CommitKnown(db, t, id, u);
    }
  }

  lemma StepKeepsClean(db: Db, a: Action, id: nat)
    requires Inv(db) && Possible(db, a) && Clean(db, id)
    requires a.Take? && a.id == id ==> !Renews(db, a.t, id)
    ensures Clean(Next(db, a), id)
  {
    match a
    case Exec(t, stmt) => ExecKeepsClean(db, t, stmt, id);
    case Take(t, x) => TakeKeepsClean(db, t, x, id);
    case Commit(t) => CommitKeepsClean(db, t, id);
    case Begin(t) => assert Of(db.history, id) + [] == Of(db.history, id);
    case _ =>
  }

  lemma {:induction false} RunKeepsClean(db: Db, run: seq<Action>, id: nat)
    requires Inv(db) && Interleaving(db, run) && Clean(db, id) && NeverRenews(db, run, id)
    ensures Clean(After(db, run), id)
    decreases run
  {
    if run != [] {
      StepKeepsClean(db, run[0], id);
      NextKeepsInv(db, run[0]);
      RunKeepsClean(Next(db, run[0]), run[1..], id);
    }
  }

  /** Over every run in which no `read_grouped` updates a message while a lease of it is running, the
      committed deliveries of the message are spaced. */
  lemma RunsWithoutRenewalsAreSpaced(run: seq<Action>, id: nat)
    requires Interleaving(START, run) && NeverRenews(START, run, id)
    ensures Spaced(Of(After(START, run).history, id))
  {
    RunKeepsClean(START, run, id);
    CommittedDeliveriesSpaced(run, id);
  }

  // ----- the converse -----

  lemma StepExtends(db: Db, a: Action, t: nat)
    requires t in db.open && Possible(db, a) && !Ends(a, t)
    ensures t in Next(db, a).open && db.open[t].events <= Next(db, a).open[t].events
    ensures db.open[t].locks <= Next(db, a).open[t].locks
  {
  }

  lemma {:induction false} RunExtends(db: Db, run: seq<Action>, t: nat)
    requires t in db.open && Interleaving(db, run) && forall i | 0 <= i < |run| :: !Ends(run[i], t)
    ensures t in After(db, run).open && db.open[t].events <= After(db, run).open[t].events
    decreases run
  {
    if run != [] {
      StepExtends(db, run[0], t);
      RunExtends(Next(db, run[0]), run[1..], t);
    }
  }

  lemma OfPrefix(a: seq<Event>, b: seq<Event>, id: nat)
    requires a <= b
    ensures Of(a, id) <= Of(b, id)
  {
    assert b == a + b[|a|..];
    OfConcat(a, b[|a|..], id);
  }

  /** When a transaction that has renewed a lease commits, whatever happens in between, the committed
      deliveries of the message are not spaced. */
  lemma CommittedRenewalBreaksSpacing(db: Db, t: nat, id: nat, run: seq<Action>)
    requires Inv(db) && Possible(db, Take(t, id)) && Renews(db, t, id)
    requires forall i | 0 <= i < |run| :: !Ends(run[i], t)
    ensures var taken := Next(db, Take(t, id));
            Interleaving(taken, run) && Possible(After(taken, run), Commit(t)) ==>
              !Spaced(Of(Next(After(taken, run), Commit(t)).history, id))
  {
    var taken := Next(db, Take(t, id));
    if Interleaving(taken, run) && Possible(After(taken, run), Commit(t)) {
      NextKeepsInv(db, Take(t, id));
      InterleavingKeepsInv(taken, run);
      TakeRecordsRenewal(db, t, id);
      RunKeepsKnown(taken, run, t, id);
      CommitShowsRenewal(After(taken, run), t, id, Known(taken, t, id));
    }
  }

  lemma RunKeepsKnown(db: Db, run: seq<Action>, t: nat, id: nat)
    requires Inv(db) && t in db.open && id in db.open[t].locks
    requires Interleaving(db, run) && forall i | 0 <= i < |run| :: !Ends(run[i], t)
    ensures t in After(db, run).open && Known(db, t, id) <= Known(After(db, run), t, id)
  {
    RunExtends(db, run, t);
    LockPinsHistoryThroughRun(db, run, t, id);
    OfPrefix(db.open[t].events, After(db, run).open[t].events, id);
  }

  lemma CommitShowsRenewal(db: Db, t: nat, id: nat, e: seq<Event>)
    requires Inv(db) && Possible(db, Commit(t)) && e <= Known(db, t, id) && Renewed(e, id, |e| - 1)
    ensures !Spaced(Of(Next(db, Commit(t)).history, id))
  {
    var after := Next(db, Commit(t));
    NextKeepsInv(db, Commit(t));
    OfConcat(db.history, db.open[t].events, id);
    var f := Of(after.history, id);
    assert Renewed(f, id, |e| - 1);
    SpacedIffNoneRenewed(f, id, after.now);
  }
}
