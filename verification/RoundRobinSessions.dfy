/** Round-robin reads of concurrent open transactions: advisory locks keep their groups apart. */
module RoundRobinSessions {
  import opened Rows
  import opened Selection
  import opened Engine
  import opened Sessions
  import opened SessionTheorems
  import RoundRobin

  /** What transaction `u`'s next `read_grouped_rr` would return. */
  function RrPick(db: Db, u: nat, qty: nat): set<nat>
    requires u in db.open
  {
    RrSet(View(db, u), db.now, qty, OthersLocks(db, u), OthersGroups(db, u))
  }

  /** A round-robin read returns no message of a group whose advisory lock another transaction has. */
  lemma PickedGroupsAreFree(db: Db, u: nat, qty: nat, n: nat)
    requires u in db.open && n in RrPick(db, u, qty)
    ensures n in View(db, u) && GroupOf(View(db, u)[n]) !in OthersGroups(db, u)
  {
    RoundRobin.CandidatesAreReady(View(db, u), db.now, OthersGroups(db, u), n);
  }

  /** Advisory locks are kept until the transaction ends. */
  lemma {:induction false} GroupsKept(db: Db, t: nat, run: seq<Action>)
    requires t in db.open && Interleaving(db, run) && forall i | 0 <= i < |run| :: !Ends(run[i], t)
    ensures t in After(db, run).open && db.open[t].groups <= After(db, run).open[t].groups
    decreases run
  {
    if run != [] { GroupsKept(Next(db, run[0]), t, run[1..]); }
  }

  /** A round-robin read locks the groups of the messages it returns. */
  lemma PickedGroupsAreLocked(db: Db, t: nat, timeout: int, qty: nat, m: nat)
    requires Possible(db, Exec(t, ReadRows(RoundRobin, timeout, qty))) && m in RrPick(db, t, qty)
    ensures var held := Next(db, Exec(t, ReadRows(RoundRobin, timeout, qty)));
            t in held.open && m in View(db, t) && GroupOf(View(db, t)[m]) in held.open[t].groups
  {
    var q := View(db, t);
    var h := GroupHead(q, m);
    assert m in GroupIds(q, GroupOf(q[m]));
    assert GroupOf(q[h]) == GroupOf(q[m]) && h in EligibleHeads(q, db.now, OthersGroups(db, t));
    assert GroupOf(q[m]) in RrGroups(db, t);
  }

  /** Round-robin reads of two open transactions return disjoint groups, over every interleaving that
      does not end the first one, and without any further condition. */
  lemma OpenRoundRobinsAreDisjoint(
    db: Db, t: nat, timeout: int, qty: nat, m: nat, run: seq<Action>, u: nat, qtyLater: nat, n: nat)
    requires Possible(db, Exec(t, ReadRows(RoundRobin, timeout, qty))) && m in RrPick(db, t, qty)
    requires u != t && forall i | 0 <= i < |run| :: !Ends(run[i], t)
    ensures m in View(db, t)
    ensures var held := Next(db, Exec(t, ReadRows(RoundRobin, timeout, qty)));
            Interleaving(held, run) && u in After(held, run).open && n in RrPick(After(held, run), u, qtyLater) ==>
              var q := View(After(held, run), u);
              n in q && GroupOf(q[n]) != GroupOf(View(db, t)[m])
  {
    var held := Next(db, Exec(t, ReadRows(RoundRobin, timeout, qty)));
    PickedGroupsAreLocked(db, t, timeout, qty, m);
    if Interleaving(held, run) && u in After(held, run).open && n in RrPick(After(held, run), u, qtyLater) {
      GroupsKept(held, t, run);
      PickedGroupsAreFree(After(held, run), u, qtyLater, n);
    }
  }
}
