/** Which groups a transaction has to itself: head reads of concurrent open transactions. */
module HeadSessions {
  import opened Rows
  import opened Selection
  import opened Engine
  import opened Events
  import opened Sessions
  import opened SessionTheorems
  import opened RenewedLeases

  /** Pending versions of a committed row keep its contents, its group included. */
  ghost predicate ContentKept(db: Db) {
    forall t, id | t in db.open && id in db.open[t].writes && id in db.rows && db.open[t].writes[id].Some? ::
      SameContent(db.rows[id], db.open[t].writes[id].value)
  }

  ghost predicate Sound(db: Db) { Inv(db) && ContentKept(db) }

  lemma CommittedIsOld(db: Db, id: nat)
    requires Inv(db) && id in db.rows
    ensures id < db.nextId
  {
    var e := Of(db.history, id);
  }

  lemma ExtendKeepsContent(db: Db, t: nat, e: Effect)
    requires Sound(db) && t in db.open && EffectOk(db, t, e)
    ensures ContentKept(Executed(db, t, e))
  {
    forall id | id in e.written && id in db.rows && e.written[id].Some?
      ensures SameContent(db.rows[id], e.written[id].value)
    {
      assert RowEffect(db, t, e, id);
      CommittedIsOld(db, id);
    }
  }

  lemma NextKeepsSound(db: Db, a: Action)
    requires Sound(db) && Possible(db, a)
    ensures Sound(Next(db, a))
  {
    NextKeepsInv(db, a);
    match a
    case Exec(t, stmt) =>
      forall id | id in View(db, t) ensures id < db.nextId { ViewExplained(db, t, id); }
      OutcomeOk(db, t, stmt);
      ExtendKeepsContent(db, t, Outcome(db, t, stmt));
    case Take(t, id) =>
      TakenOk(db, t, id);
      ExtendKeepsContent(db, t, Taken(db, t, id));
    case Commit(t) =>
      forall u, id | u in db.open && u != t && id in db.open[u].writes ensures id !in db.open[t].writes {
        assert TxnOk(db, u) && TxnOk(db, t);
      }
    case _ =>
  }

  lemma {:induction false} SoundThroughRun(db: Db, run: seq<Action>)
    requires Sound(db) && Interleaving(db, run)
    ensures Sound(After(db, run))
    decreases run
  {
    if run != [] {
      NextKeepsSound(db, run[0]);
      SoundThroughRun(Next(db, run[0]), run[1..]);
    }
  }

  /** Every state that sessions can reach is sound. */
  lemma ReachableIsSound(run: seq<Action>)
    requires Interleaving(START, run)
    ensures Sound(After(START, run))
  {
    SoundThroughRun(START, run);
  }

  // ----- owning a group -----

  /** Transaction `u` is in a `read_grouped` that waits for a row that `t` has locked. */
  ghost predicate Stuck(db: Db, t: nat, u: nat)
    requires t in db.open && u in db.open
  {
    exists x :: x in db.open[u].cut && x in View(db, u) && x in db.open[t].locks
  }

  /** Transaction `u`, not `t`, has sent a message of group `g` below `m` and not yet committed it. */
  ghost predicate Pending(db: Db, t: nat, g: string, m: nat, u: nat, id: nat) {
    && u in db.open && u != t && id in db.open[u].writes && id !in db.rows && id < m
    && db.open[u].writes[id].Some? && GroupOf(db.open[u].writes[id].value) == g
  }

  /** Transaction `u` can commit such a message while `t` is open. */
  ghost predicate PendingBelow(db: Db, t: nat, g: string, m: nat, u: nat, id: nat) {
    Pending(db, t, g, m, u, id) && t in db.open && !Stuck(db, t, u)
  }

  /** Transaction `t` has locked the oldest committed message `m` of group `g`, and nobody else can
      commit an older one while `t` is open. */
  ghost predicate Owns(db: Db, t: nat, g: string, m: nat) {
    && t in db.open && m in db.open[t].locks
    && IsHead(db.rows, m) && GroupOf(db.rows[m]) == g
    && forall u, id :: !PendingBelow(db, t, g, m, u, id)
  }

  /** What transaction `u`'s next `read_grouped_head` would return. */
  function HeadPick(db: Db, u: nat, qty: nat): set<nat>
    requires u in db.open
  {
    HeadSet(View(db, u), db.now, qty, OthersLocks(db, u))
  }

  /** A head read that passes over a locked message of a group can only return an older one. */
  lemma PickedIsOlder(q: Table, now: int, qty: nat, locked: set<nat>, m: nat, n: nat)
    requires m in q && m in locked && n in HeadSet(q, now, qty, locked)
    ensures n in q && (GroupOf(q[n]) == GroupOf(q[m]) ==> n < m)
  {
    if GroupOf(q[n]) == GroupOf(q[m]) { assert m in GroupIds(q, GroupOf(q[n])); }
  }

  /** What `u` sees below `m` in an owned group would be a message it is about to commit itself. */
  lemma OlderIsPending(db: Db, t: nat, g: string, m: nat, u: nat, n: nat)
    requires Sound(db) && Owns(db, t, g, m) && Idle(db, u) && u != t
    requires n in View(db, u) && GroupOf(View(db, u)[n]) == g && n < m
    ensures PendingBelow(db, t, g, m, u, n)
  {
    if n in db.rows { assert false; }
  }

  /** A group owned by one transaction is skipped by the head reads of every other one. */
  lemma OwnedGroupSkipped(db: Db, t: nat, g: string, m: nat, u: nat, qty: nat, n: nat)
    requires Sound(db) && Owns(db, t, g, m) && Idle(db, u) && u != t && n in HeadPick(db, u, qty)
    ensures n in View(db, u) && GroupOf(View(db, u)[n]) != g
  {
    var q := View(db, u);
    assert m in OthersLocks(db, u) && m !in db.open[u].writes by { assert TxnOk(db, u); }
    PickedIsOlder(q, db.now, qty, OthersLocks(db, u), m, n);
    if GroupOf(q[n]) == g { OlderIsPending(db, t, g, m, u, n); }
  }

  lemma LockedForOthers(db: Db, u: nat, t: nat, x: nat)
    requires t in db.open && u != t && x in db.open[t].locks
    ensures x in OthersLocks(db, u)
  {
  }

  /** Who waits for a row of `t` goes on waiting for it until `t` or itself ends. */
  lemma StuckKept(db: Db, t: nat, u: nat, a: Action)
    requires Inv(db) && t in db.open && u in db.open && u != t && Stuck(db, t, u)
    requires Possible(db, a) && !Ends(a, t)
    ensures var after := Next(db, a); t in after.open && (u in after.open ==> Stuck(after, t, u))
  {
    var after := Next(db, a);
    var x :| x in db.open[u].cut && x in View(db, u) && x in db.open[t].locks;
    LockPinsRow(db, a, t, x);
    LockedForOthers(db, u, t, x);
    if u in after.open && !Ends(a, u) {
      StepLeavesUntaken(db, a, u, x);
      StillSeen(db, after, u, x);
    }
  }

  lemma StillSeen(db: Db, after: Db, u: nat, x: nat)
    requires u in db.open && Untaken(db, after, u, x) && SameRow(db.rows, after.rows, x) && x in View(db, u)
    ensures x in View(after, u)
  {
  }

  /** A statement adds no new message below `m`: new messages get new ids. */
  lemma ExecutedPending(db: Db, t: nat, g: string, m: nat, u: nat, e: Effect, v: nat, id: nat)
    requires Sound(db) && u in db.open && EffectOk(db, u, e) && m < db.nextId
    requires Pending(Executed(db, u, e), t, g, m, v, id)
    ensures Pending(db, t, g, m, v, id)
  {
    if v == u && id in e.written {
      assert RowEffect(db, u, e, id);
      assert id in View(db, u) && id in db.open[u].writes;
    }
  }

  lemma StepPending(db: Db, t: nat, g: string, m: nat, a: Action, v: nat, id: nat)
    requires Sound(db) && Possible(db, a) && m < db.nextId && Pending(Next(db, a), t, g, m, v, id)
    ensures Pending(db, t, g, m, v, id)
  {
    match a
    case Exec(u, stmt) =>
      forall k | k in View(db, u) ensures k < db.nextId { ViewExplained(db, u, k); }
      OutcomeOk(db, u, stmt);
      ExecutedPending(db, t, g, m, u, Outcome(db, u, stmt), v, id);
    case Take(u, k) =>
      TakenOk(db, u, k);
      ExecutedPending(db, t, g, m, u, Taken(db, u, k), v, id);
    case Commit(u) => assert TxnOk(db, v) && TxnOk(db, u);
    case _ =>
  }

  lemma NonePendingKept(db: Db, t: nat, g: string, m: nat, a: Action)
    requires Sound(db) && Possible(db, a) && !Ends(a, t) && t in db.open && m < db.nextId
    requires forall v, id :: !PendingBelow(db, t, g, m, v, id)
    ensures forall v, id :: !PendingBelow(Next(db, a), t, g, m, v, id)
  {
    forall v, id ensures !PendingBelow(Next(db, a), t, g, m, v, id) {
      assert !PendingBelow(db, t, g, m, v, id);
      if Pending(Next(db, a), t, g, m, v, id) {
        StepPending(db, t, g, m, a, v, id);
        StuckKept(db, t, v, a);
      }
    }
  }

  lemma CommitKeepsHead(db: Db, t: nat, g: string, m: nat, u: nat)
    requires Sound(db) && Owns(db, t, g, m) && Possible(db, Commit(u)) && u != t
    ensures forall j | j in Next(db, Commit(u)).rows && GroupOf(Next(db, Commit(u)).rows[j]) == g :: m <= j
  {
    forall j | j in View(db, u) && GroupOf(View(db, u)[j]) == g ensures m <= j {
      if j < m { OlderIsPending(db, t, g, m, u, j); }
    }
  }

  lemma OwnershipKept(db: Db, t: nat, g: string, m: nat, a: Action)
    requires Sound(db) && Owns(db, t, g, m) && Possible(db, a) && !Ends(a, t)
    ensures Owns(Next(db, a), t, g, m)
  {
    LockPinsRow(db, a, t, m);
    CommittedIsOld(db, m);
    NonePendingKept(db, t, g, m, a);
    if a.Commit? { CommitKeepsHead(db, t, g, m, a.t); }
  }

  /** Over a run that does not end `t`, the group stays owned. */
  lemma {:induction false} OwnershipKeptThroughRun(db: Db, t: nat, g: string, m: nat, run: seq<Action>)
    requires Sound(db) && Owns(db, t, g, m) && Interleaving(db, run)
    requires forall i | 0 <= i < |run| :: !Ends(run[i], t)
    ensures Sound(After(db, run)) && Owns(After(db, run), t, g, m)
    decreases run
  {
    if run != [] {
      NextKeepsSound(db, run[0]);
      OwnershipKept(db, t, g, m, run[0]);
      OwnershipKeptThroughRun(Next(db, run[0]), t, g, m, run[1..]);
    }
  }

  // ----- a head read takes ownership -----

  lemma OldestIsLocked(db: Db, t: nat, timeout: int, qty: nat, m: nat, h: nat)
    requires Sound(db) && Idle(db, t) && m in HeadPick(db, t, qty) && m in db.rows
    requires IsHead(db.rows, h) && GroupOf(db.rows[h]) == GroupOf(db.rows[m])
    ensures h in Next(db, Exec(t, ReadRows(Head, timeout, qty))).open[t].locks
  {
    var q := View(db, t);
    assert TxnOk(db, t);
    if h != m {
      assert m in GroupIds(q, GroupOf(q[m]));
      assert h !in GroupIds(q, GroupOf(q[m]));
    } else {
      ExecLocks(db, t, ReadRows(Head, timeout, qty), m);
    }
  }

  lemma OldestExists(q: Table, g: string) returns (h: nat)
    requires GroupIds(q, g) != {}
    ensures IsHead(q, h) && GroupOf(q[h]) == g
  {
    h := Min(GroupIds(q, g));
    forall j | j in q && GroupOf(q[j]) == g ensures h <= j { assert j in GroupIds(q, g); }
  }

  /** A head read that delivers the committed message `m`, while no other transaction can commit an
      older message of the group, makes its transaction the owner of the group. */
  lemma HeadReadOwns(db: Db, t: nat, timeout: int, qty: nat, m: nat)
    requires Sound(db) && Idle(db, t) && m in HeadPick(db, t, qty) && m in db.rows
    requires forall u, id :: !PendingBelow(db, t, GroupOf(db.rows[m]), m, u, id)
    ensures exists h :: Owns(Next(db, Exec(t, ReadRows(Head, timeout, qty))), t, GroupOf(db.rows[m]), h)
  {
    var g, a := GroupOf(db.rows[m]), Exec(t, ReadRows(Head, timeout, qty));
    assert m in GroupIds(db.rows, g);
    var h := OldestExists(db.rows, g);
    OldestIsLocked(db, t, timeout, qty, m, h);
    CommittedIsOld(db, m);
    NonePendingKept(db, t, g, m, a);
    forall u, id ensures !PendingBelow(Next(db, a), t, g, h, u, id) {
      assert !PendingBelow(Next(db, a), t, g, m, u, id);
    }
    assert Owns(Next(db, a), t, g, h);
  }

  /** Head reads of two open transactions return disjoint groups: after `t` delivered `m` under the
      conditions above, and until `t` ends, no other transaction's head read returns the group. */
  lemma OpenHeadReadsAreDisjoint(
    db: Db, t: nat, timeout: int, qty: nat, m: nat, run: seq<Action>, u: nat, qtyLater: nat, n: nat)
    requires Sound(db) && Idle(db, t) && m in HeadPick(db, t, qty) && m in db.rows
    requires forall v, id :: !PendingBelow(db, t, GroupOf(db.rows[m]), m, v, id)
    requires u != t && forall i | 0 <= i < |run| :: !Ends(run[i], t)
    ensures var held := Next(db, Exec(t, ReadRows(Head, timeout, qty)));
            Interleaving(held, run) && Idle(After(held, run), u) && n in HeadPick(After(held, run), u, qtyLater) ==>
              var q := View(After(held, run), u);
              n in q && GroupOf(q[n]) != GroupOf(db.rows[m])
  {
    var a := Exec(t, ReadRows(Head, timeout, qty));
    var g, held := GroupOf(db.rows[m]), Next(db, a);
    HeadReadOwns(db, t, timeout, qty, m);
    NextKeepsSound(db, a);
    var h :| Owns(held, t, g, h);
    if Interleaving(held, run) && Idle(After(held, run), u) && n in HeadPick(After(held, run), u, qtyLater) {
      OwnershipKeptThroughRun(held, t, g, h, run);
      OwnedGroupSkipped(After(held, run), t, g, h, u, qtyLater, n);
    }
  }
}
