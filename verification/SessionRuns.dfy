/** Two runs of open transactions that share a beginning: a message is sent and not yet committed when
    a later one of its group is sent, committed and read. */
module SessionRuns {
  import opened Ranking
  import opened Rows
  import opened Selection
  import opened GroupedReads
  import opened Engine
  import opened Events
  import opened Sessions
  import opened HeadSessions

  const SENT: Message := Message(0, 0, None, 0, None, None)
  const LEASED: Message := Message(1, 0, Some(0), 60 * SECOND, None, None)

  const SEND: Stmt := SendRow(None, None, 0)

  /** Transaction 0 sends message 1 and stays open; transaction 3 sends message 2 and commits. */
  const LATE_COMMIT: seq<Action> := [] + [Begin(0)] + [Exec(0, SEND)] + [Begin(3)] + [Exec(3, SEND)] + [Commit(3)]

  const LATE: Db := Db(map[2 := SENT], 3, 0, map[0 := Sending(1)], [])

  ghost predicate Reaches(run: seq<Action>, db: Db) {
    Interleaving(START, run) && After(START, run) == db
  }

  lemma {:induction false} OneMore(db: Db, run: seq<Action>, a: Action)
    requires Interleaving(db, run) && Possible(After(db, run), a)
    ensures Interleaving(db, run + [a]) && After(db, run + [a]) == Next(After(db, run), a)
    decreases run
  {
    if run == [] {
      assert run + [a] == [a] && [a][1..] == [];
    } else {
      OneMore(Next(db, run[0]), run[1..], a);
      assert (run + [a])[0] == run[0] && (run + [a])[1..] == run[1..] + [a];
    }
  }

  lemma Step(run: seq<Action>, db: Db, a: Action)
    ensures Reaches(run, db) && Possible(db, a) ==> Reaches(run + [a], Next(db, a))
  {
    if Reaches(run, db) && Possible(db, a) { OneMore(START, run, a); }
  }

  function Sending(id: nat): Txn { Txn(map[id := Some(SENT)], {id}, {}, [], {}, 0) }

  lemma SendStep(db: Db, t: nat)
    requires t in db.open && db.open[t] == NEW && db.now == 0
    ensures Possible(db, Exec(t, SEND))
    ensures Next(db, Exec(t, SEND)) == db.(open := db.open[t := Sending(db.nextId)], nextId := db.nextId + 1)
  {
    var x := Extend(NEW, Outcome(db, t, SEND));
    assert x.writes == map[db.nextId := Some(SENT)] && x.locks == {db.nextId} && x.groups == {} && x.events == [];
  }

  lemma LateIsReached()
    ensures Reaches(LATE_COMMIT, LATE)
  {
    assert Reaches([], START);
    Step([], START, Begin(0));
    var a := Next(START, Begin(0));
    SendStep(a, 0);
    Step([] + [Begin(0)], a, Exec(0, SEND));
    var b := Next(a, Exec(0, SEND));
    Step([] + [Begin(0)] + [Exec(0, SEND)], b, Begin(3));
    var c := Next(b, Begin(3));
    SendStep(c, 3);
    Step([] + [Begin(0)] + [Exec(0, SEND)] + [Begin(3)], c, Exec(3, SEND));
    var d := Next(c, Exec(3, SEND));
    Step([] + [Begin(0)] + [Exec(0, SEND)] + [Begin(3)] + [Exec(3, SEND)], d, Commit(3));
    assert View(d, 3) == map[2 := SENT];
    assert d.open - {3} == LATE.open;
  }

  const BEGUN: Db := LATE.(open := map[0 := Sending(1), 1 := NEW])

  lemma BegunIsReached()
    ensures Reaches(LATE_COMMIT + [Begin(1)], BEGUN)
  {
    LateIsReached();
    Step(LATE_COMMIT, LATE, Begin(1));
    assert Next(LATE, Begin(1)).open == BEGUN.open;
  }

  lemma LocksOfTwo(db: Db, t: nat, u: nat)
    requires db.open.Keys == {t, u} && t != u
    ensures OthersLocks(db, t) == db.open[u].locks
  {
  }

  // ----- a read_grouped that leases a message again -----

  function Choosing(heads: set<nat>, cut: set<nat>): Txn { Txn(map[], heads, {}, [], cut, 60) }

  function Reading(qty: nat): Stmt { ReadRows(Grouped, 60, qty) }

  /** Transaction 1 reads message 2 and stays open, message 1 is committed, transaction 2 chooses both
      messages and waits for 2, transaction 1 commits, and transaction 2 takes 2 and 1 and commits. */
  const RENEWING: seq<Action> := WAITED_RUN + [Take(2, 2)] + [Take(2, 1)] + [Commit(2)]

  const WAITED_RUN: seq<Action> := OVERTAKEN_RUN + [Begin(2)] + [Exec(2, Reading(2))] + [Commit(1)]

  const OVERTAKEN_RUN: seq<Action> := LATE_COMMIT + [Begin(1)] + [Exec(1, Reading(1))] + [Take(1, 2)] + [Commit(0)]

  lemma CutIsEverything(q: Table, qty: nat, locked: set<nat>, heads: set<nat>)
    requires forall id | id in q :: q[id] == SENT
    requires LockedHeads(q, 0, locked) == heads && heads != {} && qty == |q|
    ensures GroupedSet(q, 0, qty, locked) == q.Keys
  {
    var c := Unlimited(q, 0, locked);
    var h :| h in heads;
    forall id | id in q ensures FirstReady(q, 0, id) == h { SameFirstReady(q, 0, id, h); }
    assert c.Keys == q.Keys;
    assert |c| == |c.Keys|;
    GroupedDistinct(q, 0, locked);
    LateralLimitNeutral(q, 0, qty, locked);
    FirstIsAll(c);
  }

  lemma OneChosen()
    ensures var q: Table := map[2 := SENT]; LockedHeads(q, 0, {1}) == {2} && GroupedSet(q, 0, 1, {1}) == {2}
  {
    var q: Table := map[2 := SENT];
    assert 2 in Ready(q, DEFAULT_GROUP, 0);
    assert FirstReady(q, 0, 2) == 2;
    assert LockedHeads(q, 0, {1}) == {2};
    assert q.Keys == {2} && |q.Keys| == 1;
    CutIsEverything(q, 1, {1}, {2});
  }

  lemma BothChosen()
    ensures var q: Table := map[1 := SENT, 2 := SENT];
            LockedHeads(q, 0, {2}) == {1} && GroupedSet(q, 0, 2, {2}) == {1, 2}
  {
    var q: Table := map[1 := SENT, 2 := SENT];
    assert 1 in Ready(q, DEFAULT_GROUP, 0);
    assert FirstReady(q, 0, 1) == 1 && FirstReady(q, 0, 2) == 1;
    assert LockedHeads(q, 0, {2}) == {1};
    assert q.Keys == {1, 2} && |q.Keys| == 2;
    CutIsEverything(q, 2, {2}, {1});
  }

  lemma ChooseStep(db: Db, t: nat, qty: nat, heads: set<nat>, cut: set<nat>)
    requires t in db.open && db.open[t] == NEW
    requires heads == LockedHeads(View(db, t), db.now, OthersLocks(db, t))
    requires cut == GroupedSet(View(db, t), db.now, qty, OthersLocks(db, t))
    ensures Possible(db, Exec(t, Reading(qty)))
    ensures Next(db, Exec(t, Reading(qty))) == db.(open := db.open[t := Choosing(heads, cut)])
  {
    var x := Extend(NEW, Outcome(db, t, Reading(qty)));
    assert x.writes == map[] && x.locks == heads && x.groups == {} && x.events == [];
  }

  lemma TakeStep(db: Db, t: nat, id: nat, ev: Event)
    requires Possible(db, Take(t, id)) && id in View(db, t)
    requires ev == Delivery(View(db, t), Grouped, {id}, db.now, db.open[t].timeout)
    ensures var x, m := db.open[t], Leased(View(db, t)[id], db.now, db.open[t].timeout);
            Next(db, Take(t, id)) == db.(open := db.open[t :=
              Txn(x.writes[id := Some(m)], x.locks + {id}, x.groups, x.events + [ev], x.cut - {id}, x.timeout)])
  {
    var x, e := db.open[t], Taken(db, t, id);
    assert x.writes + e.written == x.writes[id := e.written[id]];
    assert x.locks + {} + e.written.Keys == x.locks + {id} && x.groups + {} == x.groups;
  }

  const FIRST: Event := Delivered(Grouped, {2}, {}, 0, 60 * SECOND)
  const SECOND_TIME: Event := Delivered(Grouped, {2}, {2}, 0, 60 * SECOND)

  /** Transaction 1 has read message 2, and message 1 is committed after that. */
  const OVERTAKEN: Db := Db(map[1 := SENT, 2 := SENT], 3, 0,
                            map[1 := Txn(map[2 := Some(LEASED)], {2}, {}, [FIRST], {}, 60)], [])

  const CHOSEN: Db := BEGUN.(open := BEGUN.open[1 := Choosing({2}, {2})])

  lemma FirstChoice()
    ensures Possible(BEGUN, Exec(1, Reading(1))) && Next(BEGUN, Exec(1, Reading(1))) == CHOSEN
  {
    assert View(BEGUN, 1) == map[2 := SENT];
    LocksOfTwo(BEGUN, 1, 0);
    OneChosen();
    ChooseStep(BEGUN, 1, 1, {2}, {2});
  }

  lemma FirstUpdate()
    ensures Possible(CHOSEN, Take(1, 2))
    ensures var c := Next(CHOSEN, Take(1, 2)); Possible(c, Commit(0)) && Next(c, Commit(0)) == OVERTAKEN
  {
    assert View(CHOSEN, 1) == map[2 := SENT];
    LocksOfTwo(CHOSEN, 1, 0);
    TakeStep(CHOSEN, 1, 2, FIRST);
    var c := Next(CHOSEN, Take(1, 2));
    assert c.open[1] == OVERTAKEN.open[1];
    assert View(c, 0) == OVERTAKEN.rows;
    assert c.open - {0} == OVERTAKEN.open;
  }

  lemma ChosenIsReached()
    ensures Reaches(LATE_COMMIT + [Begin(1)] + [Exec(1, Reading(1))], CHOSEN)
  {
    BegunIsReached();
    FirstChoice();
    Step(LATE_COMMIT + [Begin(1)], BEGUN, Exec(1, Reading(1)));
  }

  lemma OvertakenIsReached()
    ensures Reaches(OVERTAKEN_RUN, OVERTAKEN)
  {
    ChosenIsReached();
    FirstUpdate();
    Step(LATE_COMMIT + [Begin(1)] + [Exec(1, Reading(1))], CHOSEN, Take(1, 2));
    Step(LATE_COMMIT + [Begin(1)] + [Exec(1, Reading(1))] + [Take(1, 2)], Next(CHOSEN, Take(1, 2)), Commit(0));
  }

  /** Transaction 2 has waited for transaction 1, which has committed its lease. */
  const WAITED: Db := Db(map[1 := SENT, 2 := LEASED], 3, 0, map[2 := Choosing({1}, {1, 2})], [FIRST])

  const WAITING: Db := BEGUN_AGAIN.(open := BEGUN_AGAIN.open[2 := Choosing({1}, {1, 2})])

  const BEGUN_AGAIN: Db := OVERTAKEN.(open := OVERTAKEN.open[2 := NEW])

  lemma SecondChoice()
    ensures Possible(BEGUN_AGAIN, Exec(2, Reading(2))) && Next(BEGUN_AGAIN, Exec(2, Reading(2))) == WAITING
  {
    assert View(BEGUN_AGAIN, 2) == OVERTAKEN.rows;
    LocksOfTwo(BEGUN_AGAIN, 2, 1);
    BothChosen();
    ChooseStep(BEGUN_AGAIN, 2, 2, {1}, {1, 2});
  }

  /** The update of message 2 waits for the commit of transaction 1. */
  lemma SecondWaits()
    ensures !Possible(WAITING, Take(2, 2)) && Possible(WAITING, Commit(1)) && Next(WAITING, Commit(1)) == WAITED
  {
    LocksOfTwo(WAITING, 2, 1);
    assert View(WAITING, 2) == OVERTAKEN.rows && View(WAITING, 1) == WAITED.rows;
    assert WAITING.open - {1} == WAITED.open;
  }

  lemma WaitingIsReached()
    ensures Reaches(OVERTAKEN_RUN + [Begin(2)] + [Exec(2, Reading(2))], WAITING)
  {
    OvertakenIsReached();
    SecondChoice();
    Step(OVERTAKEN_RUN, OVERTAKEN, Begin(2));
    Step(OVERTAKEN_RUN + [Begin(2)], BEGUN_AGAIN, Exec(2, Reading(2)));
  }

  lemma WaitedIsReached()
    ensures Reaches(WAITED_RUN, WAITED)
  {
    WaitingIsReached();
    SecondWaits();
    Step(OVERTAKEN_RUN + [Begin(2)] + [Exec(2, Reading(2))], WAITING, Commit(1));
  }

  lemma SecondUpdate() returns (b: Db)
    ensures Possible(WAITED, Take(2, 2))
    ensures var a := Next(WAITED, Take(2, 2)); Possible(a, Take(2, 1)) && Next(a, Take(2, 1)) == b
    ensures Possible(b, Commit(2)) && b.history == [FIRST] && |b.open[2].events| == 2
    ensures b.open[2].events[0] == SECOND_TIME && 2 !in b.open[2].events[1].ids
  {
    assert View(WAITED, 2) == WAITED.rows && OthersLocks(WAITED, 2) == {};
    assert VisibleIds(WAITED.rows, 0) == {1};
    TakeStep(WAITED, 2, 2, SECOND_TIME);
    var a := Next(WAITED, Take(2, 2));
    assert a.open[2].cut == {1} && View(a, 2).Keys == {1, 2} && OthersLocks(a, 2) == {};
    TakeStep(a, 2, 1, Delivery(View(a, 2), Grouped, {1}, 0, 60));
    b := Next(a, Take(2, 1));
  }

  lemma FinishedIsReached() returns (last: Db)
    ensures Reaches(RENEWING, last) && |last.history| == 3
    ensures last.history[..2] == [FIRST, SECOND_TIME] && 2 !in last.history[2].ids
  {
    WaitedIsReached();
    var b := SecondUpdate();
    Step(WAITED_RUN, WAITED, Take(2, 2));
    Step(WAITED_RUN + [Take(2, 2)], Next(WAITED, Take(2, 2)), Take(2, 1));
    Step(WAITED_RUN + [Take(2, 2)] + [Take(2, 1)], b, Commit(2));
    last := Next(b, Commit(2));
  }

  /** With nothing but sends and `read_grouped`, two committed deliveries of message 2 come at the same
      time, each with a timeout of a minute. */
  lemma GroupedReadRenewsALease()
    ensures Interleaving(START, RENEWING)
    ensures var e := Of(After(START, RENEWING).history, 2);
            e == [FIRST, SECOND_TIME] && Renewed(e, 2, 1) && !Spaced(e)
  {
    var last := FinishedIsReached();
    var h := last.history;
    assert h == h[..2] + [h[2]];
    OfAppend(h[..2], [h[2]], 2);
    assert [FIRST, SECOND_TIME][1..] == [SECOND_TIME] && [SECOND_TIME][1..] == [];
    assert Of([SECOND_TIME], 2) == [SECOND_TIME];
    assert Of([FIRST, SECOND_TIME], 2) == [FIRST, SECOND_TIME];
  }

  // ----- two head reads of one group -----

  /** Transaction 1 reads the head of the group, which is 2, and stays open, message 1 is committed, and
      transaction 2 reads the head of the group, which is 1 by then. */
  const TWO_HEADS: seq<Action> :=
    LATE_COMMIT + [Begin(1)] + [Exec(1, HEAD_READ)] + [Commit(0)] + [Begin(2)] + [Exec(2, HEAD_READ)]

  const HEAD_READ: Stmt := ReadRows(Head, 60, 1)

  function HeadEvent(h: nat): Event { Delivered(Head, {h}, {}, 0, 60 * SECOND) }

  function Holding(h: nat): Txn { Txn(map[h := Some(LEASED)], {h}, {}, [HeadEvent(h)], {}, 0) }

  lemma OnlyHead(q: Table, locked: set<nat>, h: nat)
    requires h in q && h !in locked && forall id | id in q :: q[id] == SENT && (id != h ==> id in locked)
    requires forall id | id in q :: h <= id
    ensures HeadSet(q, 0, 1, locked) == {h}
  {
    var c := HeadCandidates(q, 0, locked);
    assert h in GroupIds(q, DEFAULT_GROUP);
    assert c.Keys == {h} && |c| == |c.Keys|;
    FirstIsAll(c);
  }

  lemma HeadEffect(db: Db, t: nat, h: nat)
    requires t in db.open && db.now == 0 && HeadPick(db, t, 1) == {h}
    requires h in View(db, t) && View(db, t)[h] == SENT
    ensures Outcome(db, t, HEAD_READ) == Effect(map[h := Some(LEASED)], {}, {}, [HeadEvent(h)], 0, {}, 0)
  {
    var q := View(db, t);
    assert {h} - VisibleIds(q, 0) == {} && Leased(q[h], 0, 60) == LEASED;
    assert (map id | id in {h} :: Some(Leased(q[id], 0, 60))) == map[h := Some(LEASED)];
  }

  lemma HeldBy(h: nat)
    ensures Extend(NEW, Effect(map[h := Some(LEASED)], {}, {}, [HeadEvent(h)], 0, {}, 0)) == Holding(h)
  {
    var x := Extend(NEW, Effect(map[h := Some(LEASED)], {}, {}, [HeadEvent(h)], 0, {}, 0));
    assert x.writes == map[h := Some(LEASED)] && x.locks == {h} && x.groups == {} && x.events == [HeadEvent(h)];
  }

  lemma HeadReadStep(db: Db, t: nat, h: nat)
    requires t in db.open && db.open[t] == NEW && db.now == 0
    ensures Possible(db, Exec(t, HEAD_READ))
    ensures HeadPick(db, t, 1) == {h} && h in View(db, t) && View(db, t)[h] == SENT ==>
              Next(db, Exec(t, HEAD_READ)) == db.(open := db.open[t := Holding(h)])
  {
    if HeadPick(db, t, 1) == {h} && h in View(db, t) && View(db, t)[h] == SENT {
      HeadEffect(db, t, h);
      HeldBy(h);
    }
  }

  const ONE_READ: Db := BEGUN.(open := BEGUN.open[1 := Holding(2)])

  lemma NewestIsPicked()
    ensures HeadPick(BEGUN, 1, 1) == {2} && View(BEGUN, 1) == map[2 := SENT]
  {
    assert View(BEGUN, 1) == map[2 := SENT];
    LocksOfTwo(BEGUN, 1, 0);
    OnlyHead(View(BEGUN, 1), {1}, 2);
  }

  lemma NewestIsRead()
    ensures Possible(BEGUN, Exec(1, HEAD_READ)) && Next(BEGUN, Exec(1, HEAD_READ)) == ONE_READ
  {
    NewestIsPicked();
    HeadReadStep(BEGUN, 1, 2);
  }

  lemma OneReadIsReached()
    ensures Reaches(LATE_COMMIT + [Begin(1)] + [Exec(1, HEAD_READ)], ONE_READ)
  {
    BegunIsReached();
    NewestIsRead();
    Step(LATE_COMMIT + [Begin(1)], BEGUN, Exec(1, HEAD_READ));
  }

  const OLDER_COMMITTED: Db := Db(map[1 := SENT, 2 := SENT], 3, 0, map[1 := Holding(2), 2 := NEW], [])

  lemma OlderIsCommitted()
    ensures Possible(ONE_READ, Commit(0)) && Next(Next(ONE_READ, Commit(0)), Begin(2)) == OLDER_COMMITTED
  {
    assert View(ONE_READ, 0) == map[1 := SENT, 2 := SENT];
    assert Next(Next(ONE_READ, Commit(0)), Begin(2)).open == OLDER_COMMITTED.open;
  }

  lemma OlderIsPicked()
    ensures HeadPick(OLDER_COMMITTED, 2, 1) == {1} && View(OLDER_COMMITTED, 2) == map[1 := SENT, 2 := SENT]
  {
    LocksOfTwo(OLDER_COMMITTED, 2, 1);
    assert View(OLDER_COMMITTED, 2) == map[1 := SENT, 2 := SENT];
    OnlyHead(View(OLDER_COMMITTED, 2), {2}, 1);
  }

  lemma OlderCommittedIsReached()
    ensures Reaches(LATE_COMMIT + [Begin(1)] + [Exec(1, HEAD_READ)] + [Commit(0)] + [Begin(2)], OLDER_COMMITTED)
  {
    OneReadIsReached();
    OlderIsCommitted();
    Step(LATE_COMMIT + [Begin(1)] + [Exec(1, HEAD_READ)], ONE_READ, Commit(0));
    Step(LATE_COMMIT + [Begin(1)] + [Exec(1, HEAD_READ)] + [Commit(0)], Next(ONE_READ, Commit(0)), Begin(2));
  }

  /** Two open transactions hold heads of one group: the second one returned an older message that was
      committed after the first one's read. */
  lemma TwoHeadsOfOneGroup()
    ensures Interleaving(START, TWO_HEADS)
    ensures var last := After(START, TWO_HEADS);
            && 1 in last.open && last.open[1].events == [HeadEvent(2)]
            && 2 in last.open && last.open[2].events == [HeadEvent(1)]
            && last.rows == map[1 := SENT, 2 := SENT] && GroupOf(last.rows[1]) == GroupOf(last.rows[2])
  {
    OlderCommittedIsReached();
    OlderIsPicked();
    HeadReadStep(OLDER_COMMITTED, 2, 1);
    Step(LATE_COMMIT + [Begin(1)] + [Exec(1, HEAD_READ)] + [Commit(0)] + [Begin(2)],
         OLDER_COMMITTED, Exec(2, HEAD_READ));
  }
}
