/** Strict order per group for `read_grouped` and `read_grouped_rr`, over whole runs. */
module Fifo {
  import opened Ranking
  import opened Rows
  import opened Selection
  import opened GroupedReads
  import RoundRobin
  import opened Engine

  /** A batch that never contains a message without every earlier one of its group. */
  ghost predicate InOrder(q: Table, batch: set<nat>) {
    forall i, j | j in batch && j in q && i in q && GroupOf(q[i]) == GroupOf(q[j]) && i < j :: i in batch
  }

  // ----- one call: in order at every quantity exactly when there is no gap -----

  lemma GroupedKeepsReadyOrder(q: Table, now: int, qty: nat, locked: set<nat>, i: nat, j: nat)
    requires j in First(Unlimited(q, now, locked), qty) && i in Ready(q, GroupOf(q[j]), now) && i < j
    ensures i in First(Unlimited(q, now, locked), qty)
  {
    SameFirstReady(q, now, i, j);
    PositionMonotone(Ready(q, GroupOf(q[j]), now), i, j);
    EarlierInFirst(Unlimited(q, now, locked), qty, i, j);
  }

  lemma GroupedInOrderWithoutGaps(q: Table, now: int, qty: nat, locked: set<nat>)
    requires GapFree(q, now, locked)
    ensures InOrder(q, GroupedSet(q, now, qty, locked))
  {
    var batch := GroupedSet(q, now, qty, locked);
    LateralLimitNeutral(q, now, qty, locked);
    forall i, j | j in batch && i in q && GroupOf(q[i]) == GroupOf(q[j]) && i < j ensures i in batch {
      assert !BehindInvisible(q, now, j);
      GroupedKeepsReadyOrder(q, now, qty, locked, i, j);
    }
  }

  lemma GapBreaksOrder(q: Table, now: int, j: nat, batch: set<nat>)
    requires j in q && BehindInvisible(q, now, j) && j in batch && batch <= VisibleIds(q, now)
    ensures !InOrder(q, batch)
  {
  }

  /** `read_grouped` is in order at every quantity exactly when no eligible group has a visible
      message behind an invisible one, whatever rows other transactions have locked. */
  lemma GroupedInOrderIffGapFree(q: Table, now: int, locked: set<nat>)
    ensures (forall qty: nat :: InOrder(q, GroupedSet(q, now, qty, locked))) <==> GapFree(q, now, locked)
  {
    if GapFree(q, now, locked) {
      forall qty: nat ensures InOrder(q, GroupedSet(q, now, qty, locked)) {
        GroupedInOrderWithoutGaps(q, now, qty, locked);
      }
    } else {
      var c := Unlimited(q, now, locked);
      var j :| j in c && BehindInvisible(q, now, j);
      GroupedDistinct(q, now, locked);
      LateralLimitNeutral(q, now, |c|, locked);
      FirstIsAll(c);
      GapBreaksOrder(q, now, j, GroupedSet(q, now, |c|, locked));
    }
  }

  /** No group that `read_grouped_rr` may serve has a visible message behind an invisible one, nor a
      visible message that is free behind one that another transaction has locked. */
  ghost predicate RrGapFree(q: Table, now: int, locked: set<nat>, blocked: set<string>) {
    forall i, j | j in RrCandidates(q, now, blocked) && j !in locked && i in GroupIds(q, GroupOf(q[j])) && i < j ::
      Visible(q[i], now) && i !in locked
  }

  lemma RrInOrderWithoutGaps(q: Table, now: int, qty: nat, locked: set<nat>, blocked: set<string>)
    requires RrGapFree(q, now, locked, blocked)
    ensures InOrder(q, RrSet(q, now, qty, locked, blocked))
  {
    var batch := RrSet(q, now, qty, locked, blocked);
    forall i, j | j in batch && i in q && GroupOf(q[i]) == GroupOf(q[j]) && i < j ensures i in batch {
      assert i in GroupIds(q, GroupOf(q[j]));
      RoundRobin.BatchKeepsGroupOrder(q, now, qty, blocked, i, j);
    }
  }

  /** `read_grouped_rr` is in order at every quantity exactly when no group it may serve has a free
      visible message behind an invisible or locked one. */
  lemma RrInOrderIffGapFree(q: Table, now: int, locked: set<nat>, blocked: set<string>)
    ensures (forall qty: nat :: InOrder(q, RrSet(q, now, qty, locked, blocked))) <==> RrGapFree(q, now, locked, blocked)
  {
    if RrGapFree(q, now, locked, blocked) {
      forall qty: nat ensures InOrder(q, RrSet(q, now, qty, locked, blocked)) {
        RrInOrderWithoutGaps(q, now, qty, locked, blocked);
      }
    } else {
      var c := RrCandidates(q, now, blocked);
      var i, j :| j in c && j !in locked && i in GroupIds(q, GroupOf(q[j])) && i < j
                  && !(Visible(q[i], now) && i !in locked);
      RrGapBreaksOrder(q, now, locked, blocked, i, j);
    }
  }

  lemma RrGapBreaksOrder(q: Table, now: int, locked: set<nat>, blocked: set<string>, i: nat, j: nat)
    requires j in RrCandidates(q, now, blocked) && j !in locked && i in GroupIds(q, GroupOf(q[j])) && i < j
    requires !(Visible(q[i], now) && i !in locked)
    ensures !InOrder(q, RrSet(q, now, |RrCandidates(q, now, blocked)|, locked, blocked))
  {
    var c := RrCandidates(q, now, blocked);
    RoundRobin.RrDistinct(q, now, blocked);
    FirstIsAll(c);
    assert j in RrSet(q, now, |c|, locked, blocked) && i !in RrSet(q, now, |c|, locked, blocked);
  }

  // ----- whole runs -----

  /** In each group the invisible messages are the oldest ones, and they share one `vt`. */
  ghost predicate PrefixLeased(q: Table, now: int) {
    forall i, j | i in q && j in q && GroupOf(q[i]) == GroupOf(q[j]) && i < j && !Visible(q[j], now) ::
      !Visible(q[i], now) && q[i].vt == q[j].vt
  }

  lemma PrefixLeasedHasNoGaps(q: Table, now: int)
    requires PrefixLeased(q, now)
    ensures GapFree(q, now, {}) && RrGapFree(q, now, {}, {})
  {
    forall id | id in VisibleIds(q, now) && BehindInvisible(q, now, id)
      ensures FirstReady(q, now, id) !in FilteredHeads(q, now, {}) && id !in RrCandidates(q, now, {})
    {
      var j :| j in q && GroupOf(q[j]) == GroupOf(q[id]) && !Visible(q[j], now) && j < id;
      var h, g := FirstReady(q, now, id), GroupHead(q, id);
      assert GroupOf(q[h]) == GroupOf(q[id]) && Visible(q[h], now);
      assert j < h && BehindInvisible(q, now, h);
      assert j in GroupIds(q, GroupOf(q[id])) && GroupOf(q[g]) == GroupOf(q[id]);
      assert g <= j && !Visible(q[g], now);
    }
  }

  /** The grouped reads are in order whenever each group is leased by a prefix. */
  lemma GroupedReadInOrder(s: State, kind: ReadKind, qty: nat)
    requires kind != Plain && PrefixLeased(s.rows, s.now)
    ensures InOrder(s.rows, Selected(s, kind, qty))
  {
    PrefixLeasedHasNoGaps(s.rows, s.now);
    match kind
    case Grouped => GroupedInOrderWithoutGaps(s.rows, s.now, qty, {});
    case RoundRobin => RrInOrderWithoutGaps(s.rows, s.now, qty, {}, {});
    case Head => HeadInOrder(s.rows, s.now, qty);
  }

  lemma HeadInOrder(q: Table, now: int, qty: nat)
    ensures InOrder(q, HeadSet(q, now, qty, {}))
  {
    forall i, j | j in HeadSet(q, now, qty, {}) && i in q && GroupOf(q[i]) == GroupOf(q[j]) ensures j <= i {
      assert i in GroupIds(q, GroupOf(q[j]));
    }
  }

  /** The steps of a FIFO run: undelayed sends, grouped reads with a timeout that is not negative,
      removals and the clock. `set_vt` and plain reads are the two that are left out. */
  predicate FifoStep(s: State, step: Step) {
    match step
    case Send(_, _, deliverAt) => deliverAt <= s.now
    case SendBatch(_, _, deliverAt) => deliverAt <= s.now
    case Read(kind, timeout, _) => kind != Plain && 0 <= timeout
    case SetVt(_, _) => false
    case _ => true
  }

  predicate FifoRun(s: State, steps: seq<Step>)
    decreases steps
  {
    steps == [] || (FifoStep(s, steps[0]) && FifoRun(Apply(s, steps[0]), steps[1..]))
  }

  lemma LeaseKeepsPrefix(q: Table, now: int, ids: set<nat>, timeout: int)
    requires PrefixLeased(q, now) && 0 <= timeout
    requires ids <= VisibleIds(q, now) && InOrder(q, ids)
    ensures PrefixLeased(Lease(q, ids, now, timeout), now)
  {
  }

  lemma SelectedVisible(s: State, kind: ReadKind, qty: nat)
    ensures Selected(s, kind, qty) <= VisibleIds(s.rows, s.now)
  {
  }

  lemma StepKeepsPrefix(s: State, step: Step)
    requires Conserved(s) && PrefixLeased(s.rows, s.now) && FifoStep(s, step)
    ensures var t := Apply(s, step); PrefixLeased(t.rows, t.now)
  {
    match step
    case Read(kind, timeout, qty) =>
      GroupedReadInOrder(s, kind, qty);
      SelectedVisible(s, kind, qty);
      LeaseKeepsPrefix(s.rows, s.now, Selected(s, kind, qty), timeout);
    case Archive(ids) => ArchiveGood(s, ids);
    case _ =>
  }

  /** Over every FIFO run, from any state whose groups are leased by prefixes: the invisible messages
      of each group stay a prefix sharing one `vt`, and no grouped read after the run delivers a
      message unless every earlier message of its group still in the queue is in the same batch. */
  lemma {:induction false} FifoRunsDeliverInOrder(s: State, steps: seq<Step>, kind: ReadKind, qty: nat)
    requires Conserved(s) && PrefixLeased(s.rows, s.now) && FifoRun(s, steps) && kind != Plain
    ensures var t := Run(s, steps);
            PrefixLeased(t.rows, t.now) && InOrder(t.rows, Selected(t, kind, qty))
    decreases steps
  {
    if steps == [] {
      GroupedReadInOrder(s, kind, qty);
    } else {
      StepKeepsPrefix(s, steps[0]);
      StepConserves(s, steps[0]);
      FifoRunsDeliverInOrder(Apply(s, steps[0]), steps[1..], kind, qty);
    }
  }

  // ----- a delayed send breaks the order -----

  const SENT: Message := Message(0, 0, None, 0, None, None)

  const GAPPED: Table := map[1 := SENT, 2 := SENT.(vt := 10), 3 := SENT]

  lemma GappedIsReachable()
    ensures var send, later := Send(None, None, 0), Send(None, None, 10);
            var t := Run(EMPTY, [send, later, send]);
            t.rows == GAPPED && t.now == 0
  {
    var send, later := Send(None, None, 0), Send(None, None, 10);
    var a := Apply(EMPTY, send);
    var b := Apply(a, later);
    assert a.rows == map[1 := SENT];
    assert b.rows == map[1 := SENT, 2 := SENT.(vt := 10)];
    assert Apply(b, send).rows == GAPPED;
    assert [send, later, send][1..] == [later, send] && [later, send][1..] == [send] && [send][1..] == [];
    assert Run(b, [send]) == Apply(b, send);
    assert Run(a, [later, send]) == Run(b, [send]);
  }

  lemma GappedHasGap()
    ensures !GapFree(GAPPED, 0, {}) && !RrGapFree(GAPPED, 0, {}, {})
  {
    GappedHasRrGap();
    var q := GAPPED;
    assert 2 in q && !Visible(q[2], 0) && BehindInvisible(q, 0, 3);
    assert 1 in Ready(q, DEFAULT_GROUP, 0);
    assert FirstReady(q, 0, 3) == 1 && FirstReady(q, 0, 1) == 1;
    assert !BehindInvisible(q, 0, 1);
  }

  lemma GappedHasRrGap()
    ensures !RrGapFree(GAPPED, 0, {}, {})
  {
    var q := GAPPED;
    assert 1 in GroupIds(q, DEFAULT_GROUP);
    assert GroupHead(q, 3) == 1 && GroupHead(q, 1) == 1;
    assert 3 in RrCandidates(q, 0, {}) && 2 in GroupIds(q, GroupOf(q[3])) && !Visible(q[2], 0);
  }

  /** With 1 visible, 2 delayed and 3 visible in one group, some call delivers 3 without 2. */
  lemma DelayedSendIsSkipped()
    ensures var send, later := Send(None, None, 0), Send(None, None, 10);
            var t := Run(EMPTY, [send, later, send]);
            && (exists qty: nat :: !InOrder(t.rows, GroupedSet(t.rows, t.now, qty, {})))
            && (exists qty: nat :: !InOrder(t.rows, RrSet(t.rows, t.now, qty, {}, {})))
  {
    GappedIsReachable();
    GappedHasGap();
    GroupedInOrderIffGapFree(GAPPED, 0, {});
    RrInOrderIffGapFree(GAPPED, 0, {}, {});
  }
}
