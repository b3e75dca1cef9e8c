/** Owning a group is exactly what keeps the head reads of all other transactions away from it. */
module HeadOwnership {
  import opened Ranking
  import opened Rows
  import opened Selection
  import opened Engine
  import opened Sessions
  import opened SessionTheorems
  import opened HeadSessions

  /** Some continuation, while `t` is still open, lets another transaction's head read return a
      message of group `g`. */
  ghost predicate Served(db: Db, t: nat, g: string) {
    exists run, u, qty, n :: ServedBy(db, t, g, run, u, qty, n)
  }

  ghost predicate ServedBy(db: Db, t: nat, g: string, run: seq<Action>, u: nat, qty: nat, n: nat) {
    && Interleaving(db, run) && (forall i | 0 <= i < |run| :: !Ends(run[i], t))
    && var last := After(db, run);
       Idle(last, u) && u != t && n in HeadPick(last, u, qty) && GroupOf(View(last, u)[n]) == g
  }

  lemma ServedLater(db: Db, t: nat, g: string, a: Action)
    requires Possible(db, a) && !Ends(a, t) && Served(Next(db, a), t, g)
    ensures Served(db, t, g)
  {
    var run, u, qty, n :| ServedBy(Next(db, a), t, g, run, u, qty, n);
    ServedByLonger(db, t, g, a, run, u, qty, n);
  }

  lemma ServedByLonger(db: Db, t: nat, g: string, a: Action, run: seq<Action>, u: nat, qty: nat, n: nat)
    requires Possible(db, a) && !Ends(a, t) && ServedBy(Next(db, a), t, g, run, u, qty, n)
    ensures ServedBy(db, t, g, [a] + run, u, qty, n)
  {
    var longer := [a] + run;
    assert longer[0] == a && longer[1..] == run;
    assert After(db, longer) == After(Next(db, a), run);
  }

  lemma UnlockedHeadPicked(db: Db, t: nat, g: string, u: nat, n: nat)
    requires Idle(db, u) && u != t && n !in OthersLocks(db, u)
    requires IsHead(View(db, u), n) && Visible(View(db, u)[n], db.now) && GroupOf(View(db, u)[n]) == g
    ensures Served(db, t, g)
  {
    var q := View(db, u);
    var c := HeadCandidates(q, db.now, OthersLocks(db, u));
    assert n in GroupIds(q, GroupOf(q[n]));
    FirstIsAll(c);
    assert n in c;
    assert ServedBy(db, t, g, [], u, |c|, n);
  }

  lemma {:induction false} UnusedNumber(s: set<nat>) returns (u: nat)
    ensures u !in s
  {
    if s == {} { u := 0; }
    else {
      var m := 0;
      while exists x :: x in s && m <= x
        invariant m == 0 || m - 1 in s
        decreases |set x | x in s && m <= x|
      {
        var x :| x in s && m <= x;
        SubsetCard(set y | y in s && x + 1 <= y, (set y | y in s && m <= y) - {x});
        m := x + 1;
      }
      u := m;
    }
  }

  lemma UnlockedHeadServed(db: Db, t: nat, g: string, h: nat)
    requires t in db.open && IsHead(db.rows, h) && GroupOf(db.rows[h]) == g
    requires forall v | v in db.open :: h !in db.open[v].locks
    ensures Served(db, t, g)
  {
    var vt := db.rows[h].vt;
    var wait := Wait(if db.now < vt then vt - db.now else 0);
    var waited := Next(db, wait);
    var u := UnusedNumber(db.open.Keys);
    var last := Next(waited, Begin(u));
    assert View(last, u) == db.rows;
    UnlockedHeadPicked(last, t, g, u, h);
    ServedLater(waited, t, g, Begin(u));
    ServedLater(db, t, g, wait);
  }

  lemma OwnSendView(db: Db, u: nat, headers: HeaderCell)
    requires Sound(db) && u in db.open && db.open[u] == NEW
    ensures var last := Next(db, Exec(u, SendRow(None, headers, db.now)));
            && last.now == db.now && last.open.Keys == db.open.Keys && db.nextId !in OthersLocks(last, u)
            && View(last, u) == db.rows[db.nextId := Message(0, db.now, None, db.now, None, headers)]
  {
    forall v | v in db.open ensures db.nextId !in db.open[v].locks { assert TxnOk(db, v); }
  }

  lemma NewHead(q: Table, id: nat, msg: Message, g: string)
    requires GroupIds(q, g) == {} && GroupOf(msg) == g
    ensures IsHead(q[id := msg], id)
  {
    forall j | j in q ensures GroupOf(q[j]) != g { assert j !in GroupIds(q, g); }
  }

  lemma OwnSendHead(db: Db, t: nat, g: string, u: nat, send: Action)
    requires Sound(db) && u in db.open && u != t && db.open[u] == NEW && GroupIds(db.rows, g) == {}
    requires send == Exec(u, SendRow(None, Some(map[GROUP_HEADER := g]), db.now))
    ensures Served(Next(db, send), t, g)
  {
    var headers := Some(map[GROUP_HEADER := g]);
    OwnSendView(db, u, headers);
    NewHead(db.rows, db.nextId, Message(0, db.now, None, db.now, None, headers), g);
    UnlockedHeadPicked(Next(db, send), t, g, u, db.nextId);
  }

  /** A fresh transaction that sends the first message of a group gets it back from a head read. */
  lemma OwnSendPicked(db: Db, t: nat, g: string, u: nat)
    requires Sound(db) && u in db.open && u != t && db.open[u] == NEW
    requires GroupIds(db.rows, g) == {}
    ensures Served(db, t, g)
  {
    var send := Exec(u, SendRow(None, Some(map[GROUP_HEADER := g]), db.now));
    OwnSendHead(db, t, g, u, send);
    ServedLater(db, t, g, send);
  }

  lemma EmptyGroupServed(db: Db, t: nat, g: string)
    requires Sound(db) && t in db.open && GroupIds(db.rows, g) == {}
    ensures Served(db, t, g)
  {
    var u := UnusedNumber(db.open.Keys);
    var began := Next(db, Begin(u));
    NextKeepsSound(db, Begin(u));
    OwnSendPicked(began, t, g, u);
    ServedLater(db, t, g, Begin(u));
  }

  /** After the commit of a pending older message, the head of the group is one that was pending. */
  lemma PendingBecomesHead(db: Db, t: nat, g: string, m: nat, v: nat, p: nat) returns (h: nat)
    requires Sound(db) && IsHead(db.rows, m) && GroupOf(db.rows[m]) == g && Pending(db, t, g, m, v, p)
    ensures IsHead(View(db, v), h) && GroupOf(View(db, v)[h]) == g && h in db.open[v].locks
  {
    assert p in GroupIds(View(db, v), g);
    h := OldestExists(View(db, v), g);
    assert h <= p < m;
    if h !in db.open[v].writes { assert false; }
    assert TxnOk(db, v);
  }

  lemma CommittedHead(db: Db, t: nat, g: string, m: nat, v: nat, p: nat) returns (h: nat)
    requires Sound(db) && IsHead(db.rows, m) && GroupOf(db.rows[m]) == g && Pending(db, t, g, m, v, p)
    requires Idle(db, v)
    ensures var after := Next(db, Commit(v));
            && IsHead(after.rows, h) && GroupOf(after.rows[h]) == g
            && forall u | u in after.open :: h !in after.open[u].locks
  {
    h := PendingBecomesHead(db, t, g, m, v, p);
    forall u | u in db.open && u != v ensures h !in db.open[u].locks {}
  }

  lemma ServedAfterCommit(db: Db, t: nat, g: string, v: nat, h: nat)
    requires t in db.open && Idle(db, v) && v != t
    requires var after := Next(db, Commit(v));
             && IsHead(after.rows, h) && GroupOf(after.rows[h]) == g
             && forall u | u in after.open :: h !in after.open[u].locks
    ensures Served(db, t, g)
  {
    UnlockedHeadServed(Next(db, Commit(v)), t, g, h);
    ServedLater(db, t, g, Commit(v));
  }

  /** Transaction `v` has sent message `p`, older than the head `m` of its group, and can commit it. */
  ghost predicate CanCommit(db: Db, t: nat, g: string, m: nat, v: nat, p: nat) {
    Sound(db) && IsHead(db.rows, m) && GroupOf(db.rows[m]) == g && PendingBelow(db, t, g, m, v, p)
  }

  /** Everybody else can be rolled back, and then `v` can finish its `read_grouped` and commit. */
  lemma {:induction false} PendingServed(db: Db, t: nat, g: string, m: nat, v: nat, p: nat)
    ensures CanCommit(db, t, g, m, v, p) ==> Served(db, t, g)
    decreases db.open.Keys
  {
    if u :| u in db.open && u != t && u != v {
      PendingServed(Next(db, Rollback(u)), t, g, m, v, p);
      RollbackStep(db, t, g, m, v, p, u);
    } else {
      FinishedServed(db, t, g, m, v, p);
    }
  }

  lemma RollbackStep(db: Db, t: nat, g: string, m: nat, v: nat, p: nat, u: nat)
    requires u in db.open && u != t && u != v
    ensures CanCommit(db, t, g, m, v, p) ==> CanCommit(Next(db, Rollback(u)), t, g, m, v, p)
    ensures Served(Next(db, Rollback(u)), t, g) ==> Served(db, t, g)
  {
    if CanCommit(db, t, g, m, v, p) { RollbackKeepsCanCommit(db, t, g, m, v, p, u); }
    if Served(Next(db, Rollback(u)), t, g) { ServedLater(db, t, g, Rollback(u)); }
  }

  lemma RollbackKeepsCanCommit(db: Db, t: nat, g: string, m: nat, v: nat, p: nat, u: nat)
    requires CanCommit(db, t, g, m, v, p) && u in db.open && u != t && u != v
    ensures CanCommit(Next(db, Rollback(u)), t, g, m, v, p)
  {
    NextKeepsSound(db, Rollback(u));
    RollbackKeepsPending(db, t, g, m, v, p, u);
  }

  lemma RollbackKeepsPending(db: Db, t: nat, g: string, m: nat, v: nat, p: nat, u: nat)
    requires PendingBelow(db, t, g, m, v, p) && u in db.open && u != t && u != v
    ensures PendingBelow(Next(db, Rollback(u)), t, g, m, v, p)
  {
    assert View(Next(db, Rollback(u)), v) == View(db, v);
  }

  lemma {:induction false} FinishedServed(db: Db, t: nat, g: string, m: nat, v: nat, p: nat)
    requires forall u | u in db.open :: u == t || u == v
    ensures CanCommit(db, t, g, m, v, p) ==> Served(db, t, g)
    decreases if v in db.open then db.open[v].cut else {}
  {
    if CanCommit(db, t, g, m, v, p) {
      if x :| x in db.open[v].cut {
        TakePossible(db, t, v, x);
        FinishedServed(Next(db, Take(v, x)), t, g, m, v, p);
        TakeStep(db, t, g, m, v, p, x);
      } else {
        IdleServed(db, t, g, m, v, p);
      }
    }
  }

  lemma IdleServed(db: Db, t: nat, g: string, m: nat, v: nat, p: nat)
    requires CanCommit(db, t, g, m, v, p) && Idle(db, v)
    ensures Served(db, t, g)
  {
    var h := CommittedHead(db, t, g, m, v, p);
    ServedAfterCommit(db, t, g, v, h);
  }

  lemma TakePossible(db: Db, t: nat, v: nat, x: nat)
    requires t in db.open && v in db.open && t != v && !Stuck(db, t, v) && x in db.open[v].cut
    requires forall u | u in db.open :: u == t || u == v
    ensures Possible(db, Take(v, x))
  {
    assert x in OthersLocks(db, v) ==> x in db.open[t].locks;
  }

  lemma TakeStep(db: Db, t: nat, g: string, m: nat, v: nat, p: nat, x: nat)
    requires v != t && Possible(db, Take(v, x))
    ensures CanCommit(db, t, g, m, v, p) ==> CanCommit(Next(db, Take(v, x)), t, g, m, v, p)
    ensures Served(Next(db, Take(v, x)), t, g) ==> Served(db, t, g)
  {
    if CanCommit(db, t, g, m, v, p) { TakeKeepsCanCommit(db, t, g, m, v, p, x); }
    TakeServed(db, t, g, v, x);
  }

  lemma TakeServed(db: Db, t: nat, g: string, v: nat, x: nat)
    requires v != t && Possible(db, Take(v, x))
    ensures Served(Next(db, Take(v, x)), t, g) ==> Served(db, t, g)
  {
    var a := Take(v, x);
    if Served(Next(db, a), t, g) { ServedLater(db, t, g, a); }
  }

  lemma TakeKeepsCanCommit(db: Db, t: nat, g: string, m: nat, v: nat, p: nat, x: nat)
    requires CanCommit(db, t, g, m, v, p) && Possible(db, Take(v, x))
    ensures CanCommit(Next(db, Take(v, x)), t, g, m, v, p)
  {
    NextKeepsSound(db, Take(v, x));
    TakeKeepsView(db, v, x);
    TakeKeepsPending(db, t, g, m, v, p, x);
  }

  lemma TakeKeepsPending(db: Db, t: nat, g: string, m: nat, v: nat, p: nat, x: nat)
    requires PendingBelow(db, t, g, m, v, p) && Possible(db, Take(v, x))
    ensures PendingBelow(Next(db, Take(v, x)), t, g, m, v, p)
  {
    TakeKeepsView(db, v, x);
  }

  lemma TakeKeepsView(db: Db, v: nat, x: nat)
    requires Possible(db, Take(v, x))
    ensures var after := Next(db, Take(v, x));
            && after.rows == db.rows && after.open.Keys == db.open.Keys && v in after.open
            && (forall t | t in db.open && t != v :: after.open[t] == db.open[t])
            && after.open[v].cut == db.open[v].cut - {x} && View(after, v).Keys == View(db, v).Keys
            && forall p | p in db.open[v].writes && db.open[v].writes[p].Some? ::
                 && p in after.open[v].writes && after.open[v].writes[p].Some?
                 && GroupOf(after.open[v].writes[p].value) == GroupOf(db.open[v].writes[p].value)
  {
  }

  lemma NotOwnedIsServed(db: Db, t: nat, g: string)
    requires Sound(db) && t in db.open && forall m :: !Owns(db, t, g, m)
    ensures Served(db, t, g)
  {
    if GroupIds(db.rows, g) == {} {
      EmptyGroupServed(db, t, g);
    } else {
      var h := OldestExists(db.rows, g);
      if h in db.open[t].locks {
        assert !Owns(db, t, g, h);
        var v, p :| PendingBelow(db, t, g, h, v, p);
        PendingServed(db, t, g, h, v, p);
      } else if v :| v in db.open && h in db.open[v].locks {
        UnlockedHeadServed(Next(db, Rollback(v)), t, g, h);
        ServedLater(db, t, g, Rollback(v));
      } else {
        UnlockedHeadServed(db, t, g, h);
      }
    }
  }

  /** A transaction keeps every other head read away from a group exactly when it owns the group: when
      it has locked the oldest committed message and nobody else is about to commit an older one. */
  lemma OwnershipIsExact(db: Db, t: nat, g: string)
    requires Sound(db) && t in db.open
    ensures (exists m :: Owns(db, t, g, m)) <==> !Served(db, t, g)
  {
    if m :| Owns(db, t, g, m) {
      forall run, u, qty, n ensures !ServedBy(db, t, g, run, u, qty, n) {
        if ServedBy(db, t, g, run, u, qty, n) {
          OwnershipKeptThroughRun(db, t, g, m, run);
          OwnedGroupSkipped(After(db, run), t, g, m, u, qty, n);
        }
      }
    } else {
      NotOwnedIsServed(db, t, g);
    }
  }
}
