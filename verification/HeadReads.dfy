/** `read_grouped_head` over whole runs: order per group without any condition on the run, and the
    lease that one head delivery takes on its whole group. */
module HeadReads {
  import opened Rows
  import opened Selection
  import opened Engine

  lemma SelectedHeadsAreHeads(s: State, qty: nat, m: nat)
    requires m in Selected(s, Head, qty)
    ensures m in s.rows && Visible(s.rows[m], s.now) && IsHead(s.rows, m)
  {
    forall j | j in s.rows && GroupOf(s.rows[j]) == GroupOf(s.rows[m]) ensures m <= j {
      assert j in GroupIds(s.rows, GroupOf(s.rows[m]));
    }
  }

  // ----- order -----

  /** When `m` is at the head of its group, every smaller id of the group is gone for good, in every
      run of whatever steps, delayed sends, plain reads and `set_vt` included. */
  lemma SmallerIdsNeverReturn(s: State, m: nat, steps: seq<Step>, id: nat)
    requires Conserved(s) && IsHead(s.rows, m)
    ensures var t := Run(s, steps);
            id < m && id in t.rows ==> GroupOf(t.rows[id]) != GroupOf(s.rows[m])
  {
    RunConserves(s, steps);
    assert m in FreshIds(1, s.nextId);
  }

  /** The head deliveries of one group are non-decreasing in `msg_id` over the whole run. */
  lemma HeadDeliveriesNonDecreasing(
    s: State, timeout: int, qty: nat, m: nat, between: seq<Step>, qtyLater: nat, n: nat)
    requires Conserved(s) && m in Selected(s, Head, qty)
    ensures var t := Run(Apply(s, Read(Head, timeout, qty)), between);
            n in Selected(t, Head, qtyLater) && n in t.rows && GroupOf(t.rows[n]) == GroupOf(s.rows[m]) ==> m <= n
  {
    var a := Apply(s, Read(Head, timeout, qty));
    SelectedHeadsAreHeads(s, qty, m);
    StepConserves(s, Read(Head, timeout, qty));
    assert IsHead(a.rows, m) && GroupOf(a.rows[m]) == GroupOf(s.rows[m]);
    SmallerIdsNeverReturn(a, m, between, n);
  }

  // ----- the lease -----

  /** `m` is leased at the head of its group. */
  ghost predicate Held(s: State, m: nat) {
    m in s.rows && !Visible(s.rows[m], s.now) && IsHead(s.rows, m)
  }

  /** The steps that can remove or re-time a leased message. */
  predicate Touches(step: Step, m: nat) {
    match step
    case SetVt(ids, _) => m in ids
    case Delete(ids) => m in ids
    case Archive(ids) => m in ids
    case Purge => true
    case _ => false
  }

  /** No grouped read of any of the three kinds serves a group whose head is leased. */
  lemma HeldGroupNotServed(s: State, m: nat, kind: ReadKind, qty: nat, n: nat)
    requires Held(s, m) && kind != Plain
    requires n in VisibleIds(s.rows, s.now) && GroupOf(s.rows[n]) == GroupOf(s.rows[m])
    ensures n !in Selected(s, kind, qty)
  {
    var q, now := s.rows, s.now;
    assert m in GroupIds(q, GroupOf(q[n]));
    assert GroupHead(q, n) == m;
    var h := FirstReady(q, now, n);
    assert GroupOf(q[h]) == GroupOf(q[n]) && Visible(q[h], now) && m < h;
    assert BehindInvisible(q, now, h);
  }

  /** A read of this kind returns no message of group `g`. */
  ghost predicate Skips(s: State, kind: ReadKind, qty: nat, g: string) {
    forall n | n in Selected(s, kind, qty) :: n in s.rows && GroupOf(s.rows[n]) != g
  }

  lemma HeldGroupSkipped(s: State, m: nat, kind: ReadKind, qty: nat)
    requires Held(s, m) && kind != Plain
    ensures Skips(s, kind, qty, GroupOf(s.rows[m]))
  {
    forall n | n in VisibleIds(s.rows, s.now) && GroupOf(s.rows[n]) == GroupOf(s.rows[m])
      ensures n !in Selected(s, kind, qty)
    {
      HeldGroupNotServed(s, m, kind, qty, n);
    }
    assert Selected(s, kind, qty) <= VisibleIds(s.rows, s.now);
  }

  lemma HeldKept(s: State, m: nat, step: Step)
    requires Conserved(s) && Held(s, m) && !Touches(step, m) && Apply(s, step).now < s.rows[m].vt
    ensures var t := Apply(s, step);
            Held(t, m) && t.rows[m].vt == s.rows[m].vt && GroupOf(t.rows[m]) == GroupOf(s.rows[m])
  {
    StepConserves(s, step);
    HeldRowKept(s, m, step);
    assert m in FreshIds(1, s.nextId);
  }

  /** A step that does not touch a leased message leaves its row as it is. */
  lemma HeldRowKept(s: State, m: nat, step: Step)
    requires Conserved(s) && m in s.rows && !Visible(s.rows[m], s.now) && !Touches(step, m)
    ensures var t := Apply(s, step); m in t.rows && t.rows[m] == s.rows[m]
  {
    assert m in FreshIds(1, s.nextId);
    match step
    case Read(kind, timeout, qty) => assert Selected(s, kind, qty) <= VisibleIds(s.rows, s.now);
    case Archive(ids) => ArchiveGood(s, ids);
    case _ =>
  }

  lemma {:induction false} HeldThroughRun(s: State, m: nat, steps: seq<Step>)
    requires Conserved(s) && Held(s, m) && forall i | 0 <= i < |steps| :: !Touches(steps[i], m)
    requires Run(s, steps).now < s.rows[m].vt
    ensures var t := Run(s, steps);
            Held(t, m) && t.rows[m].vt == s.rows[m].vt && GroupOf(t.rows[m]) == GroupOf(s.rows[m])
    decreases steps
  {
    if steps != [] {
      var t := Apply(s, steps[0]);
      StepConserves(s, steps[0]);
      RunConserves(t, steps[1..]);
      HeldKept(s, m, steps[0]);
      HeldThroughRun(t, m, steps[1..]);
    }
  }

  lemma DeliveredIsHeld(s: State, timeout: int, qty: nat, m: nat)
    requires Conserved(s) && m in Selected(s, Head, qty) && 0 < timeout
    ensures var a := Apply(s, Read(Head, timeout, qty));
            && Held(a, m) && a.rows[m].vt == s.now + timeout * SECOND
            && GroupOf(a.rows[m]) == GroupOf(s.rows[m])
  {
    SelectedHeadsAreHeads(s, qty, m);
  }

  /** From the step where `read_grouped_head` delivers `m` until `m` is removed, re-timed or its
      timeout passes, no grouped read of any kind returns a message of the group of `m`. */
  lemma HeadLeasesItsGroup(
    s: State, timeout: int, qty: nat, m: nat, steps: seq<Step>, kind: ReadKind, later: nat)
    requires Conserved(s) && m in Selected(s, Head, qty)
    requires forall i | 0 <= i < |steps| :: !Touches(steps[i], m)
    requires kind != Plain
    ensures var t := Run(Apply(s, Read(Head, timeout, qty)), steps);
            m in s.rows && (t.now < s.now + timeout * SECOND ==> Skips(t, kind, later, GroupOf(s.rows[m])))
  {
    var a := Apply(s, Read(Head, timeout, qty));
    var t := Run(a, steps);
    StepConserves(s, Read(Head, timeout, qty));
    RunConserves(a, steps);
    if t.now < s.now + timeout * SECOND {
      DeliveredIsHeld(s, timeout, qty, m);
      HeldThroughRun(a, m, steps);
      HeldGroupSkipped(t, m, kind, later);
    }
  }
}
