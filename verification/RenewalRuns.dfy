/** Which runs of open transactions keep the deliveries of a message spaced. */
module RenewalRuns {
  import opened Rows
  import opened Selection
  import opened GroupedReads
  import opened Engine
  import opened Events
  import opened Sessions
  import opened SessionTheorems
  import opened RenewedLeases

  /** Some transaction of the run updates row `id` while a lease of it is running, and then commits.
      `renewing` are the transactions that have done the first and not yet ended. */
  ghost predicate CommitsRenewal(db: Db, run: seq<Action>, id: nat, renewing: set<nat>)
    requires Interleaving(db, run)
    decreases run
  {
    run != [] && var a, next, rest := run[0], Next(db, run[0]), run[1..];
      match a
      case Commit(t) => t in renewing || CommitsRenewal(next, rest, id, renewing)
      case Rollback(t) => CommitsRenewal(next, rest, id, renewing - {t})
      case Take(t, x) =>
        CommitsRenewal(next, rest, id, if x == id && Renews(db, t, id) then renewing + {t} else renewing)
      case _ => CommitsRenewal(next, rest, id, renewing)
  }

  /** The transactions in `renewing` are those whose events show a renewal, and nothing committed does. */
  ghost predicate Tracks(db: Db, id: nat, renewing: set<nat>) {
    && NoneRenewed(Of(db.history, id), id) && renewing <= db.open.Keys
    && forall t | t in db.open :: t in renewing <==> !NoneRenewed(Known(db, t, id), id)
  }

  lemma RenewedStays(e: seq<Event>, f: seq<Event>, id: nat)
    requires e <= f && !NoneRenewed(e, id)
    ensures !NoneRenewed(f, id)
  {
    var k :| Renewed(e, id, k);
    assert Renewed(f, id, k);
  }

  lemma ExecTracks(db: Db, t: nat, stmt: Stmt, id: nat)
    requires Inv(db) && Possible(db, Exec(t, stmt))
    ensures NoneRenewed(Known(Next(db, Exec(t, stmt)), t, id), id) <==> NoneRenewed(Known(db, t, id), id)
  {
    if NoneRenewed(Known(db, t, id), id) {
      ExecKeepsClean(db, t, stmt, id);
    } else {
      ExecIsNotEarly(db, t, stmt);
      ExecutedKnown(db, t, Outcome(db, t, stmt), id);
      RenewedStays(Known(db, t, id), Known(Next(db, Exec(t, stmt)), t, id), id);
    }
  }

  lemma TakeTracks(db: Db, t: nat, x: nat, id: nat)
    requires Inv(db) && Possible(db, Take(t, x))
    ensures NoneRenewed(Known(Next(db, Take(t, x)), t, id), id)
       <==> NoneRenewed(Known(db, t, id), id) && !(x == id && Renews(db, t, id))
  {
    var known, after := Known(db, t, id), Known(Next(db, Take(t, x)), t, id);
    if !NoneRenewed(known, id) {
      ExecutedKnown(db, t, Taken(db, t, x), id);
      RenewedStays(known, after, id);
    } else if x == id && Renews(db, t, id) {
      TakeRecordsRenewal(db, t, id);
      assert Renewed(after, id, |after| - 1);
    } else {
      TakeKeepsClean(db, t, x, id);
    }
  }

  lemma CommitTracks(db: Db, t: nat, id: nat, renewing: set<nat>)
    requires Inv(db) && Possible(db, Commit(t)) && Tracks(db, id, renewing) && t !in renewing
    ensures Tracks(Next(db, Commit(t)), id, renewing)
  {
    var after := Next(db, Commit(t));
    OfConcat(db.history, db.open[t].events, id);
    assert Of(after.history, id) == Known(db, t, id);
    forall u | u in after.open ensures u in renewing <==> !NoneRenewed(Known(after, u, id), id) {
      CommitKnown(db, t, id, u);
    }
  }

  /** The transactions renewing after a step that is not the commit of one of them. */
  ghost function Renewing(db: Db, a: Action, id: nat, renewing: set<nat>): set<nat>
    requires Possible(db, a)
  {
    match a
    case Rollback(t) => renewing - {t}
    case Take(t, x) => if x == id && Renews(db, t, id) then renewing + {t} else renewing
    case _ => renewing
  }

  lemma OthersKnow(db: Db, a: Action, id: nat, u: nat)
    requires Possible(db, a) && !a.Commit? && u in db.open && u in Next(db, a).open
    requires (a.Exec? || a.Take?) ==> a.t != u
    ensures Known(Next(db, a), u, id) == Known(db, u, id)
  {
  }

  lemma StepTracks(db: Db, a: Action, id: nat, renewing: set<nat>)
    requires Inv(db) && Possible(db, a) && Tracks(db, id, renewing) && (a.Commit? ==> a.t !in renewing)
    ensures Tracks(Next(db, a), id, Renewing(db, a, id, renewing))
  {
    if a.Commit? {
      CommitTracks(db, a.t, id, renewing);
    } else {
      var after, now := Next(db, a), Renewing(db, a, id, renewing);
      forall u | u in after.open ensures u in now <==> !NoneRenewed(Known(after, u, id), id) {
        if a.Exec? && a.t == u { ExecTracks(db, u, a.stmt, id); }
        else if a.Take? && a.t == u { TakeTracks(db, u, a.id, id); }
        else if u in db.open { OthersKnow(db, a, id, u); }
        else { assert Of(db.history, id) + [] == Of(db.history, id) && after.open[u] == NEW; }
      }
    }
  }

  lemma {:induction false} HistoryExtends(db: Db, run: seq<Action>, id: nat)
    requires Interleaving(db, run)
    ensures Of(db.history, id) <= Of(After(db, run).history, id)
    decreases run
  {
    if run != [] {
      if run[0].Commit? { OfConcat(db.history, db.open[run[0].t].events, id); }
      HistoryExtends(Next(db, run[0]), run[1..], id);
    }
  }

  lemma {:induction false} RunRenewals(db: Db, run: seq<Action>, id: nat, renewing: set<nat>)
    requires Inv(db) && Interleaving(db, run) && Tracks(db, id, renewing)
    ensures NoneRenewed(Of(After(db, run).history, id), id) <==> !CommitsRenewal(db, run, id, renewing)
    decreases run
  {
    if run != [] {
      var a := run[0];
      if a.Commit? && a.t in renewing {
        OfConcat(db.history, db.open[a.t].events, id);
        HistoryExtends(Next(db, a), run[1..], id);
        RenewedStays(Known(db, a.t, id), Of(After(db, run).history, id), id);
      } else {
        StepTracks(db, a, id, renewing);
        NextKeepsInv(db, a);
        RunRenewals(Next(db, a), run[1..], id, Renewing(db, a, id, renewing));
      }
    }
  }

  /** Over every interleaving, the committed deliveries of a message with no `set_vt` between them are at
      least the first one's timeout apart, exactly when no transaction of the run that has updated the
      message while a lease of it was running commits. */
  lemma SpacedIffNoRenewalCommits(run: seq<Action>, id: nat)
    requires Interleaving(START, run)
    ensures Spaced(Of(After(START, run).history, id)) <==> !CommitsRenewal(START, run, id, {})
  {
    RunRenewals(START, run, id, {});
    CommittedDeliveriesSpaced(run, id);
  }

  // ----- one message at a time -----

  /** A `read_grouped` for one message chooses the first message of a group, which it has locked. */
  lemma SingleIsHead(q: Table, now: int, qty: nat, locked: set<nat>)
    requires qty <= 1
    ensures GroupedSet(q, now, qty, locked) <= LockedHeads(q, now, locked)
  {
    var heads := FilteredHeads(q, now, locked);
    GroupedTakesOldestGroupsFirst(q, now, qty, locked);
    var l := Concatenated(q, now, heads);
    forall id | id in GroupedSet(q, now, qty, locked) ensures id in LockedHeads(q, now, locked) {
      assert qty == 1 && l != [] && Ranking.Take(l, qty) == [l[0]] && id == l[0];
      FirstOfConcatenated(q, now, locked, heads);
    }
  }

  lemma FirstOfConcatenated(q: Table, now: int, locked: set<nat>, heads: set<nat>)
    requires heads == FilteredHeads(q, now, locked) && heads != {}
    ensures heads <= q.Keys && Concatenated(q, now, heads) != [] && Concatenated(q, now, heads)[0] in heads
  {
    var h := Min(heads);
    var g := Ascending(Ready(q, GroupOf(q[h]), now));
    assert h in g && h == FirstReady(q, now, h);
    assert g[0] in g;
    var i :| 0 <= i < |g| && g[i] == h;
    assert g[0] <= h;
  }

  /** Every `read_grouped` of the run is for at most one message. */
  predicate OneAtATime(run: seq<Action>) {
    forall i | 0 <= i < |run| && run[i].Exec? && run[i].stmt.ReadRows? && run[i].stmt.kind == Grouped ::
      run[i].stmt.qty <= 1
  }

  /** What every `read_grouped` has chosen and not yet updated is locked by it, and visible. */
  ghost predicate CutsHeld(db: Db) {
    forall t, id | t in db.open && id in db.open[t].cut ::
      id in db.open[t].locks && id in View(db, t) && Visible(View(db, t)[id], db.now)
  }

  lemma ExecKeepsCuts(db: Db, t: nat, stmt: Stmt)
    requires Inv(db) && CutsHeld(db) && Possible(db, Exec(t, stmt))
    requires stmt.ReadRows? && stmt.kind == Grouped ==> stmt.qty <= 1
    ensures forall id | id in Next(db, Exec(t, stmt)).open[t].cut ::
              var after := Next(db, Exec(t, stmt));
              id in after.open[t].locks && id in View(after, t) && Visible(View(after, t)[id], db.now)
  {
    if stmt.ReadRows? && stmt.kind == Grouped {
      SingleIsHead(View(db, t), db.now, stmt.qty, OthersLocks(db, t));
      ChoosingReadsOnly(db, t, stmt.timeout, stmt.qty);
      CutIsVisible(View(db, t), db.now, stmt.qty, OthersLocks(db, t));
      assert View(Next(db, Exec(t, stmt)), t) == View(db, t);
    }
  }

  /** A row locked by `t` that none of its own steps writes is seen by it as before. */
  lemma LockedViewKept(db: Db, a: Action, t: nat, id: nat)
    requires Inv(db) && Possible(db, a) && !Ends(a, t) && t in db.open && id in db.open[t].locks
    requires id in db.open[t].cut && a != Take(t, id)
    ensures var after := Next(db, a);
            t in after.open && SameRow(View(db, t), View(after, t), id) && id in after.open[t].locks
  {
    LockPinsRow(db, a, t, id);
    StepLeavesUntaken(db, a, t, id);
  }

  lemma StepKeepsCuts(db: Db, a: Action)
    requires Inv(db) && CutsHeld(db) && Possible(db, a)
    requires a.Exec? && a.stmt.ReadRows? && a.stmt.kind == Grouped ==> a.stmt.qty <= 1
    ensures CutsHeld(Next(db, a))
  {
    var after := Next(db, a);
    forall t, id | t in after.open && id in after.open[t].cut
      ensures id in after.open[t].locks && id in View(after, t) && Visible(View(after, t)[id], after.now)
    {
      if a.Exec? && a.t == t {
        ExecKeepsCuts(db, t, a.stmt);
      } else {
        CutIsOld(db, a, t, id);
        LockedViewKept(db, a, t, id);
      }
    }
  }

  lemma CutIsOld(db: Db, a: Action, t: nat, id: nat)
    requires Possible(db, a) && t in Next(db, a).open && id in Next(db, a).open[t].cut && !(a.Exec? && a.t == t)
    ensures t in db.open && id in db.open[t].cut && !Ends(a, t) && a != Take(t, id) && db.now <= Next(db, a).now
  {
  }

  lemma {:induction false} OneAtATimeNeverRenews(db: Db, run: seq<Action>, id: nat)
    requires Inv(db) && CutsHeld(db) && Interleaving(db, run) && OneAtATime(run)
    ensures NeverRenews(db, run, id)
    decreases run
  {
    if run != [] {
      StepKeepsCuts(db, run[0]);
      NextKeepsInv(db, run[0]);
      assert forall i | 0 <= i < |run[1..]| :: run[1..][i] == run[i + 1];
      OneAtATimeNeverRenews(Next(db, run[0]), run[1..], id);
    }
  }

  /** When every `read_grouped` asks for at most one message, the committed deliveries of every message
      are spaced, over every interleaving. */
  lemma SingleReadsAreSpaced(run: seq<Action>, id: nat)
    requires Interleaving(START, run) && OneAtATime(run)
    ensures Spaced(Of(After(START, run).history, id))
  {
    OneAtATimeNeverRenews(START, run, id);
    RunsWithoutRenewalsAreSpaced(run, id);
  }
}
