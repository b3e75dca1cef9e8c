/** What the bookkeeping columns of a message record over a run, and how much one read takes. */
module Deliveries {
  import opened Ranking
  import opened Rows
  import opened Selection
  import opened Engine

  /** How often, and last when, the steps of a run hand out message `id`. */
  function Count(s: State, steps: seq<Step>, id: nat): nat
    decreases steps
  {
    if steps == [] then 0
    else (if id in Delivered(s, steps[0]) then 1 else 0) + Count(Apply(s, steps[0]), steps[1..], id)
  }

  function Latest(s: State, steps: seq<Step>, id: nat, before: Option<int>): Option<int>
    decreases steps
  {
    if steps == [] then before
    else Latest(Apply(s, steps[0]), steps[1..], id, if id in Delivered(s, steps[0]) then Some(s.now) else before)
  }

  function ReadCount(s: State, id: nat): nat { if id in s.rows then s.rows[id].readCt else 0 }

  function LastRead(s: State, id: nat): Option<int> { if id in s.rows then s.rows[id].lastReadAt else None }

  lemma StepRecordsDelivery(s: State, step: Step, id: nat)
    requires Conserved(s) && id in Apply(s, step).rows
    ensures ReadCount(Apply(s, step), id) == ReadCount(s, id) + if id in Delivered(s, step) then 1 else 0
    ensures LastRead(Apply(s, step), id) == if id in Delivered(s, step) then Some(s.now) else LastRead(s, id)
  {
    match step
    case Send(_, _, _) =>
    case SendBatch(_, _, _) =>
    case Read(kind, timeout, qty) => assert Selected(s, kind, qty) <= s.rows.Keys;
    case Archive(ids) => ArchiveGood(s, ids);
    case _ =>
  }

  /** `read_ct` counts the deliveries of a message since it was sent, and `last_read_at` is the time of
      the latest one, over every run. */
  lemma {:induction false} RunRecordsDeliveries(s: State, steps: seq<Step>, id: nat)
    requires Conserved(s) && id in Run(s, steps).rows && (id in s.rows || id >= s.nextId)
    ensures ReadCount(Run(s, steps), id) == ReadCount(s, id) + Count(s, steps, id)
    ensures LastRead(Run(s, steps), id) == Latest(s, steps, id, LastRead(s, id))
    decreases steps
  {
    if steps != [] {
      var t := Apply(s, steps[0]);
      StepConserves(s, steps[0]);
      if id < t.nextId && id !in t.rows {
        assert id >= 1 by { assert id in s.rows ==> id in FreshIds(1, s.nextId); }
        GoneForGood(t, steps[1..], id);
      }
      if id in t.rows { StepRecordsDelivery(s, steps[0], id); }
      RunRecordsDeliveries(t, steps[1..], id);
    }
  }

  // ----- how much one read takes -----

  /** A plain read or pop takes the oldest visible messages nobody else has locked, `qty` of them
      unless there are fewer. */
  lemma PlainReadTakesOldest(q: Table, now: int, qty: nat, locked: set<nat>)
    ensures var free := VisibleIds(q, now) - locked;
            |ReadSet(q, now, qty, locked)| == if qty < |free| then qty else |free|
    ensures forall i, j | j in ReadSet(q, now, qty, locked) && i in VisibleIds(q, now) - locked && i < j ::
              i in ReadSet(q, now, qty, locked)
  {
    var c := ReadCandidates(q, now, locked);
    assert c.Keys == VisibleIds(q, now) - locked;
    FirstSize(c, qty);
    FirstDownClosed(c, qty);
  }

  /** A head read takes at most one message of a group, the oldest groups first, `qty` of them unless
      fewer heads are visible and free. */
  lemma HeadReadTakesOldestHeads(q: Table, now: int, qty: nat, locked: set<nat>)
    ensures var heads := set id | id in VisibleIds(q, now) - locked && IsHead(q, id);
            && |HeadSet(q, now, qty, locked)| == (if qty < |heads| then qty else |heads|)
            && HeadSet(q, now, qty, locked) <= heads
            && forall i, j | j in HeadSet(q, now, qty, locked) && i in heads && i < j ::
                 i in HeadSet(q, now, qty, locked)
    ensures forall i, j | i in HeadSet(q, now, qty, locked) && j in HeadSet(q, now, qty, locked) && i != j ::
              GroupOf(q[i]) != GroupOf(q[j])
  {
    var c, heads := HeadCandidates(q, now, locked), set id | id in VisibleIds(q, now) - locked && IsHead(q, id);
    forall id ensures id in c <==> id in heads { HeadOrNot(q, now, locked, id); }
    assert c.Keys == heads;
    FirstSize(c, qty);
    FirstDownClosed(c, qty);
  }

  lemma HeadOrNot(q: Table, now: int, locked: set<nat>, id: nat)
    ensures id in HeadCandidates(q, now, locked) <==> id in VisibleIds(q, now) - locked && IsHead(q, id)
  {
    if id in q {
      var g := GroupOf(q[id]);
      assert id in GroupIds(q, g);
      assert forall j | j in q && GroupOf(q[j]) == g :: j in GroupIds(q, g);
    }
  }
}
