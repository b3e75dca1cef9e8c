/** What the reads take and what the steps do, said of the rows alone. */
module Meaning {
  import opened Ranking
  import opened Rows
  import opened Selection
  import opened GroupedReads
  import opened Engine
  import RoundRobin
  import Deliveries

  // ----- which messages a read takes -----

  /** The visible messages that no other transaction has locked. */
  ghost function Free(q: Table, now: int, locked: set<nat>): set<nat> {
    set id | id in q && q[id].vt <= now && id !in locked
  }

  ghost function AtMost(pool: set<nat>, qty: nat): nat {
    if qty < |pool| then qty else |pool|
  }

  /** The `qty` smallest ids of `pool`, or all of them when there are fewer. */
  ghost predicate OldestOf(pool: set<nat>, ids: set<nat>, qty: nat) {
    ids <= pool && |ids| == AtMost(pool, qty) && forall i, j | j in ids && i in pool && i < j :: i in ids
  }

  /** `h` is the smallest visible id of group `g`. */
  ghost predicate FirstVisible(q: Table, now: int, g: string, h: nat) {
    && h in q && GroupOf(q[h]) == g && q[h].vt <= now
    && forall k | k in q && GroupOf(q[k]) == g && q[k].vt <= now :: h <= k
  }

  /** A group that `read_grouped` may serve: its smallest visible id exists and is not locked, and no
      smaller id of the group is invisible. */
  ghost predicate Open(q: Table, now: int, locked: set<nat>, g: string) {
    exists h: nat :: FirstVisible(q, now, g, h) && h !in locked
                     && forall k | k in q && GroupOf(q[k]) == g && k < h :: q[k].vt <= now
  }

  ghost function Servable(q: Table, now: int, locked: set<nat>): set<nat> {
    set id | id in q && q[id].vt <= now && Open(q, now, locked, GroupOf(q[id]))
  }

  /** The group of `i` starts before that of `j`, or they are of one group and `i` is the older one. */
  ghost predicate GroupFirst(q: Table, now: int, i: nat, j: nat) {
    i in q && j in q
    && exists a: nat, b: nat :: FirstVisible(q, now, GroupOf(q[i]), a) && FirstVisible(q, now, GroupOf(q[j]), b)
                                && (a < b || (a == b && i < j))
  }

  ghost predicate GroupsFirst(q: Table, now: int, locked: set<nat>, ids: set<nat>, qty: nat) {
    var pool := Servable(q, now, locked);
    ids <= pool && |ids| == AtMost(pool, qty) && GroupClosed(q, now, pool, ids)
  }

  /** The visible messages of the groups whose oldest message is visible and that nobody else has locked. */
  ghost function Rotation(q: Table, now: int, blocked: set<string>): set<nat> {
    set id | id in q && q[id].vt <= now && RoundRobin.Eligible(q, now, blocked, GroupOf(q[id]))
  }

  ghost predicate LayersFirst(q: Table, now: int, blocked: set<string>, ids: set<nat>, qty: nat) {
    var pool := Rotation(q, now, blocked);
    ids <= pool && |ids| == AtMost(pool, qty) && LayerClosed(q, now, pool, ids)
  }

  lemma FirstVisibleIsMin(q: Table, now: int, id: nat)
    requires id in VisibleIds(q, now)
    ensures forall h :: FirstVisible(q, now, GroupOf(q[id]), h) <==> h == FirstReady(q, now, id)
  {
    var g, h := GroupOf(q[id]), FirstReady(q, now, id);
    assert forall k :: k in Ready(q, g, now) <==> k in q && GroupOf(q[k]) == g && q[k].vt <= now;
  }

  lemma OpenIsFiltered(q: Table, now: int, locked: set<nat>, id: nat)
    requires id in VisibleIds(q, now)
    ensures Open(q, now, locked, GroupOf(q[id])) <==> FirstReady(q, now, id) in FilteredHeads(q, now, locked)
  {
    FirstVisibleIsMin(q, now, id);
    var h := FirstReady(q, now, id);
    assert GroupOf(q[h]) == GroupOf(q[id]);
    FirstVisibleIsMin(q, now, h);
    assert FirstVisible(q, now, GroupOf(q[id]), h) && FirstReady(q, now, h) == h;
  }

  lemma ServableIsUnlimited(q: Table, now: int, locked: set<nat>)
    ensures Unlimited(q, now, locked).Keys == Servable(q, now, locked)
  {
    forall id ensures id in Unlimited(q, now, locked) <==> id in Servable(q, now, locked) {
      if id in VisibleIds(q, now) { OpenIsFiltered(q, now, locked, id); }
    }
  }

  lemma PositionsCompare(s: set<nat>, x: nat, y: nat)
    requires x in s && y in s
    ensures Position(s, x) < Position(s, y) <==> x < y
    ensures Position(s, x) == Position(s, y) <==> x == y
  {
    if x < y { PositionMonotone(s, x, y); } else if y < x { PositionMonotone(s, y, x); }
  }

  lemma GroupFirstCompares(q: Table, now: int, i: nat, j: nat)
    requires i in VisibleIds(q, now) && j in VisibleIds(q, now)
    ensures var a, b := FirstReady(q, now, i), FirstReady(q, now, j);
            GroupFirst(q, now, i, j) <==> a < b || (a == b && i < j)
  {
    FirstVisibleIsMin(q, now, i);
    FirstVisibleIsMin(q, now, j);
    var a, b := FirstReady(q, now, i), FirstReady(q, now, j);
    assert FirstVisible(q, now, GroupOf(q[i]), a) && FirstVisible(q, now, GroupOf(q[j]), b);
  }

  lemma GroupFirstIsBefore(q: Table, now: int, locked: set<nat>, i: nat, j: nat)
    requires i in Unlimited(q, now, locked) && j in Unlimited(q, now, locked)
    ensures GroupFirst(q, now, i, j) <==> Before(Unlimited(q, now, locked)[i], Unlimited(q, now, locked)[j])
  {
    var a, b := FirstReady(q, now, i), FirstReady(q, now, j);
    GroupFirstCompares(q, now, i, j);
    PositionsCompare(LockedHeads(q, now, locked), a, b);
    SameFirstReady(q, now, i, j);
    if a == b {
      assert i in Ready(q, GroupOf(q[i]), now) && j in Ready(q, GroupOf(q[i]), now);
      PositionsCompare(Ready(q, GroupOf(q[i]), now), i, j);
    }
  }

  ghost predicate GroupClosed(q: Table, now: int, pool: set<nat>, ids: set<nat>) {
    forall i, j | j in ids && i in pool && GroupFirst(q, now, i, j) :: i in ids
  }

  lemma GroupClosedIsDownClosed(q: Table, now: int, locked: set<nat>, ids: set<nat>)
    requires ids <= Unlimited(q, now, locked).Keys
    ensures GroupClosed(q, now, Unlimited(q, now, locked).Keys, ids) <==> DownClosed(Unlimited(q, now, locked), ids)
  {
    var c := Unlimited(q, now, locked);
    if GroupClosed(q, now, c.Keys, ids) {
      forall i, j | i in ids && i in c && j in c && Before(c[j], c[i]) ensures j in ids {
        GroupFirstIsBefore(q, now, locked, j, i);
      }
    }
    if DownClosed(c, ids) {
      forall i, j | j in ids && i in c && GroupFirst(q, now, i, j) ensures i in ids {
        GroupFirstIsBefore(q, now, locked, i, j);
      }
    }
  }

  /** The rows that `read_grouped` chooses are exactly the first `qty` of the groups it may serve. */
  lemma GroupedTakes(q: Table, now: int, qty: nat, locked: set<nat>, ids: set<nat>)
    ensures GroupsFirst(q, now, locked, ids, qty) <==> ids == GroupedSet(q, now, qty, locked)
  {
    ServableIsUnlimited(q, now, locked);
    GroupedDistinct(q, now, locked);
    LateralLimitNeutral(q, now, qty, locked);
    if ids <= Servable(q, now, locked) { GroupClosedIsDownClosed(q, now, locked, ids); }
    CutExactly(Unlimited(q, now, locked), qty, ids);
  }

  /** A cut is told by its size and its order. */
  lemma CutExactly(c: Candidates, qty: nat, ids: set<nat>)
    requires Distinct(c)
    ensures ids <= c.Keys && |ids| == AtMost(c.Keys, qty) && DownClosed(c, ids) <==> ids == First(c, qty)
  {
    assert |c| == |c.Keys|;
    FirstSize(c, qty);
    FirstDownClosed(c, qty);
    if ids <= c.Keys && |ids| == AtMost(c.Keys, qty) && DownClosed(c, ids) { FirstUnique(c, qty, ids); }
  }

  /** With room for all, it chooses every visible message of these groups. */
  lemma GroupedTakesAll(q: Table, now: int, qty: nat, locked: set<nat>)
    requires qty >= |q|
    ensures GroupedSet(q, now, qty, locked) == Servable(q, now, locked)
  {
    GroupedTakes(q, now, qty, locked, GroupedSet(q, now, qty, locked));
    assert |q| == |q.Keys|;
    SubsetCard(Servable(q, now, locked), q.Keys);
    SubsetCard(GroupedSet(q, now, qty, locked), Servable(q, now, locked));
  }

  /** The rows that it locks when it chooses are the smallest visible ids of the groups, those excepted
      that another transaction has locked. */
  lemma LocksFirstVisible(q: Table, now: int, locked: set<nat>, id: nat)
    ensures id in LockedHeads(q, now, locked)
       <==> id in q && FirstVisible(q, now, GroupOf(q[id]), id) && id !in locked
  {
    if id in VisibleIds(q, now) { FirstVisibleIsMin(q, now, id); }
  }

  /** The 1.9.0 candidates are the visible messages of groups whose smallest visible id is not locked,
      with no invisible message of the group before them. */
  lemma V19TakesUnobstructed(q: Table, now: int, locked: set<nat>, id: nat)
    ensures id in GroupedCandidatesV19(q, now, locked)
       <==> id in q && q[id].vt <= now
            && (exists h: nat :: FirstVisible(q, now, GroupOf(q[id]), h) && h !in locked)
            && forall k | k in q && GroupOf(q[k]) == GroupOf(q[id]) && k < id :: q[k].vt <= now
  {
    if id in VisibleIds(q, now) {
      var h := FirstReady(q, now, id);
      FirstVisibleIsMin(q, now, id);
      LocksFirstVisible(q, now, locked, h);
      assert FirstVisible(q, now, GroupOf(q[id]), h);
    }
  }

  /** The rows that `read` and `pop` take are exactly the oldest free ones. */
  lemma PlainTakes(q: Table, now: int, qty: nat, locked: set<nat>, ids: set<nat>)
    ensures OldestOf(Free(q, now, locked), ids, qty) <==> ids == ReadSet(q, now, qty, locked)
  {
    var c := ReadCandidates(q, now, locked);
    assert c.Keys == Free(q, now, locked);
    CutExactly(c, qty, ids);
  }

  ghost function FreeHeads(q: Table, now: int, locked: set<nat>): set<nat> {
    set id | id in q && q[id].vt <= now && id !in locked && IsHead(q, id)
  }

  /** The rows that `read_grouped_head` takes are exactly the oldest free heads. */
  lemma HeadTakes(q: Table, now: int, qty: nat, locked: set<nat>, ids: set<nat>)
    ensures OldestOf(FreeHeads(q, now, locked), ids, qty) <==> ids == HeadSet(q, now, qty, locked)
  {
    var c := HeadCandidates(q, now, locked);
    forall id ensures id in c <==> id in FreeHeads(q, now, locked) { Deliveries.HeadOrNot(q, now, locked, id); }
    assert c.Keys == FreeHeads(q, now, locked);
    CutExactly(c, qty, ids);
  }

  lemma LayersAreBefore(q: Table, now: int, blocked: set<string>, i: nat, j: nat)
    requires i in RrCandidates(q, now, blocked) && j in RrCandidates(q, now, blocked)
    ensures RoundRobin.InLayers(q, now, i, j)
       <==> Before(RrCandidates(q, now, blocked)[i], RrCandidates(q, now, blocked)[j])
  {
    PositionsCompare(EligibleHeads(q, now, blocked), GroupHead(q, i), GroupHead(q, j));
  }

  ghost predicate LayerClosed(q: Table, now: int, pool: set<nat>, ids: set<nat>) {
    forall i, j | j in ids && i in pool && RoundRobin.InLayers(q, now, i, j) :: i in ids
  }

  lemma LayerClosedIsDownClosed(q: Table, now: int, blocked: set<string>, ids: set<nat>)
    requires ids <= RrCandidates(q, now, blocked).Keys
    ensures LayerClosed(q, now, RrCandidates(q, now, blocked).Keys, ids)
       <==> DownClosed(RrCandidates(q, now, blocked), ids)
  {
    var c := RrCandidates(q, now, blocked);
    if LayerClosed(q, now, c.Keys, ids) {
      forall i, j | i in ids && i in c && j in c && Before(c[j], c[i]) ensures j in ids {
        LayersAreBefore(q, now, blocked, j, i);
      }
    }
    if DownClosed(c, ids) {
      forall i, j | j in ids && i in c && RoundRobin.InLayers(q, now, i, j) ensures i in ids {
        LayersAreBefore(q, now, blocked, i, j);
      }
    }
  }

  lemma RotationIsRanked(q: Table, now: int, blocked: set<string>)
    ensures RrCandidates(q, now, blocked).Keys == Rotation(q, now, blocked)
  {
    forall id ensures id in RrCandidates(q, now, blocked) <==> id in Rotation(q, now, blocked) {
      RoundRobin.CandidatesAreReady(q, now, blocked, id);
    }
  }

  /** The rows that `read_grouped_rr` ranks into its batch are exactly the first `qty` of the rotation,
      layer by layer; it takes those of them that are not locked. */
  lemma RoundRobinTakes(q: Table, now: int, qty: nat, locked: set<nat>, blocked: set<string>, ids: set<nat>)
    ensures LayersFirst(q, now, blocked, ids, qty) <==> ids == RoundRobin.Batch(q, now, qty, blocked)
    ensures RrSet(q, now, qty, locked, blocked) == RoundRobin.Batch(q, now, qty, blocked) - locked
  {
    RotationIsRanked(q, now, blocked);
    RoundRobin.RrDistinct(q, now, blocked);
    if ids <= Rotation(q, now, blocked) { LayerClosedIsDownClosed(q, now, blocked, ids); }
    CutExactly(RrCandidates(q, now, blocked), qty, ids);
  }

  lemma UnlockedBatch(q: Table, now: int, qty: nat)
    ensures LayersFirst(q, now, {}, RrSet(q, now, qty, {}, {}), qty)
  {
    RoundRobinTakes(q, now, qty, {}, {}, RrSet(q, now, qty, {}, {}));
  }

  /** What a read takes with no other transaction open. */
  ghost predicate Takes(q: Table, now: int, kind: ReadKind, qty: nat, ids: set<nat>) {
    match kind
    case Plain => OldestOf(Free(q, now, {}), ids, qty)
    case Grouped => GroupsFirst(q, now, {}, ids, qty)
    case RoundRobin => LayersFirst(q, now, {}, ids, qty)
    case Head => OldestOf(FreeHeads(q, now, {}), ids, qty)
  }

  /** The selection of every read step is the only one that the order and the quantity allow. */
  lemma SelectedExactly(s: State, kind: ReadKind, qty: nat, ids: set<nat>)
    ensures Takes(s.rows, s.now, kind, qty, ids) <==> ids == Selected(s, kind, qty)
  {
    match kind
    case Plain => PlainTakes(s.rows, s.now, qty, {}, ids);
    case Grouped => GroupedTakes(s.rows, s.now, qty, {}, ids);
    case RoundRobin => RoundRobinTakes(s.rows, s.now, qty, {}, {}, ids);
    case Head => HeadTakes(s.rows, s.now, qty, {}, ids);
  }

  /** The group header and the group of messages without it. */
  lemma GroupNames(m: Message, g: string)
    ensures m.headers == None ==> GroupOf(m) == "_default_fifo_group"
    ensures m.headers.Some? && "x-pgmq-group" !in m.headers.value ==> GroupOf(m) == "_default_fifo_group"
    ensures m.headers.Some? && "x-pgmq-group" in m.headers.value ==> GroupOf(m) == m.headers.value["x-pgmq-group"]
  {
  }

  // ----- what a step does -----

  /** The rows `ids` are leased: read once more, now, and hidden for `timeout` seconds. The others, and
      what else the rows hold, stay. */
  ghost predicate RowsLeased(q: Table, r: Table, ids: set<nat>, now: int, timeout: int) {
    && r.Keys == q.Keys && ids <= q.Keys
    && forall id | id in q ::
         if id in ids then
           r[id] == q[id].(readCt := q[id].readCt + 1, lastReadAt := Some(now), vt := now + timeout * 1_000_000)
         else r[id] == q[id]
  }

  ghost predicate RowsRetimed(q: Table, r: Table, ids: set<nat>, vt: int) {
    r.Keys == q.Keys && forall id | id in q :: r[id] == if id in ids then q[id].(vt := vt) else q[id]
  }

  /** The rows `ids` are gone, and the others stay. */
  ghost predicate RowsRemoved(q: Table, r: Table, ids: set<nat>) {
    r.Keys == q.Keys - ids && forall id | id in r :: r[id] == q[id]
  }

  /** The rows `ids` of `q` are added to the archive with all their columns. */
  ghost predicate RowsArchived(
    q: Table, was: map<nat, Archived>, archive: map<nat, Archived>, ids: set<nat>, now: int)
  {
    && archive.Keys == was.Keys + ids * q.Keys
    && (forall id | id in was :: archive[id] == was[id])
    && forall id | id in ids && id in q && id !in was ::
         archive[id] == Archived(readCt := q[id].readCt, enqueuedAt := q[id].enqueuedAt,
                                 lastReadAt := q[id].lastReadAt, archivedAt := now, vt := q[id].vt,
                                 body := q[id].body, headers := q[id].headers)
  }

  /** Nothing but the rows of the queue changes. */
  ghost predicate OnlyRows(s: State, t: State) {
    t == s.(rows := t.rows)
  }

  /** What step `step` makes of state `s`. */
  ghost predicate Does(s: State, step: Step, t: State) {
    match step
    case Send(body, headers, deliverAt) =>
      Gained(s.rows, t.rows, s.nextId, [(body, headers)], deliverAt, s.now)
      && t == s.(rows := t.rows, nextId := s.nextId + 1)
    case SendBatch(bodies, headerList, deliverAt) =>
      if bodies != [] && (headerList == None || |headerList.value| == |bodies|) then
        Gained(s.rows, t.rows, s.nextId, Paired(bodies, headerList), deliverAt, s.now)
        && t == s.(rows := t.rows, nextId := s.nextId + |bodies|)
      else t == s
    case Read(kind, timeout, qty) =>
      exists ids :: Takes(s.rows, s.now, kind, qty, ids) && RowsLeased(s.rows, t.rows, ids, s.now, timeout)
                    && OnlyRows(s, t)
    case Pop(qty) =>
      exists ids :: OldestOf(Free(s.rows, s.now, {}), ids, qty) && RowsRemoved(s.rows, t.rows, ids)
                    && t == s.(rows := t.rows, removed := s.removed + ids)
    case SetVt(ids, vt) => RowsRetimed(s.rows, t.rows, ids, vt) && OnlyRows(s, t)
    case Delete(ids) =>
      RowsRemoved(s.rows, t.rows, ids) && t == s.(rows := t.rows, removed := s.removed + ids * s.rows.Keys)
    case Archive(ids) =>
      RowsRemoved(s.rows, t.rows, ids) && RowsArchived(s.rows, s.archive, t.archive, ids, s.now)
      && t == s.(rows := t.rows, archive := t.archive)
    case Purge => t == s.(rows := map[], removed := s.removed + s.rows.Keys)
    case Tick(elapsed) => t == s.(now := s.now + elapsed)
  }

  lemma ReadDoes(s: State, kind: ReadKind, timeout: int, qty: nat)
    ensures Does(s, Read(kind, timeout, qty), Apply(s, Read(kind, timeout, qty)))
  {
    var ids := Selected(s, kind, qty);
    SelectedExactly(s, kind, qty, ids);
    assert RowsLeased(s.rows, Apply(s, Read(kind, timeout, qty)).rows, ids, s.now, timeout);
  }

  lemma PopDoes(s: State, qty: nat)
    ensures Does(s, Pop(qty), Apply(s, Pop(qty)))
  {
    var ids := ReadSet(s.rows, s.now, qty, {});
    PlainTakes(s.rows, s.now, qty, {}, ids);
    assert ids * s.rows.Keys == ids;
    assert RowsRemoved(s.rows, Apply(s, Pop(qty)).rows, ids);
  }

  lemma InsertDoes(s: State, cells: seq<(Body, HeaderCell)>, deliverAt: int)
    requires Conserved(s)
    ensures var t := Insert(s, cells, deliverAt);
            Gained(s.rows, t.rows, s.nextId, cells, deliverAt, s.now)
            && t == s.(rows := t.rows, nextId := s.nextId + |cells|)
  {
    InsertGains(s, cells, deliverAt);
  }

  lemma ArchiveDoes(s: State, ids: set<nat>)
    requires Conserved(s)
    ensures Does(s, Archive(ids), Apply(s, Archive(ids)))
  {
    ArchiveGood(s, ids);
  }

  /** Every step does what it should to the rows, the id counter, the archive and the clock, and nothing
      else. */
  lemma StepDoes(s: State, step: Step)
    requires Conserved(s)
    ensures Does(s, step, Apply(s, step))
  {
    match step
    case Send(body, headers, deliverAt) => InsertDoes(s, [(body, headers)], deliverAt);
    case SendBatch(bodies, headerList, deliverAt) =>
      BatchChecks(bodies, headerList);
      if ValidateBatch(bodies, headerList).Ok? {
        ValidBatchAligned(bodies, headerList);
        InsertDoes(s, Paired(bodies, headerList), deliverAt);
      }
    case Read(kind, timeout, qty) => ReadDoes(s, kind, timeout, qty);
    case Pop(qty) => PopDoes(s, qty);
    case Archive(ids) => ArchiveDoes(s, ids);
    case Purge => RemoveAll(s);
    case _ =>
  }

  /** A batch is refused for being empty, or else for a header count that is not its own, and for nothing
      else. */
  lemma BatchChecks(bodies: seq<Body>, headerList: Option<seq<HeaderCell>>)
    ensures ValidateBatch(bodies, headerList) == Err(EmptyBatch) <==> bodies == []
    ensures ValidateBatch(bodies, headerList) == Err(HeaderCountMismatch)
       <==> bodies != [] && headerList.Some? && |headerList.value| != |bodies|
    ensures ValidateBatch(bodies, headerList).Ok?
       <==> bodies != [] && (headerList == None || |headerList.value| == |bodies|)
  {
  }

  /** The removing steps: what they take away is in no later state of any run. */
  lemma RemovedForGood(s: State, step: Step, later: seq<Step>, id: nat)
    requires Conserved(s) && id in s.rows
    requires match step
             case Delete(ids) => id in ids
             case Archive(ids) => id in ids
             case Pop(qty) => id in Selected(s, Plain, qty)
             case Purge => true
             case _ => false
    ensures id !in Run(Apply(s, step), later).rows
  {
    StepDoes(s, step);
    StepConserves(s, step);
    assert id in FreshIds(1, s.nextId);
    if step.Pop? {
      var ids :| OldestOf(Free(s.rows, s.now, {}), ids, step.qty) && RowsRemoved(s.rows, Apply(s, step).rows, ids);
      SelectedExactly(s, Plain, step.qty, ids);
    }
    GoneForGood(Apply(s, step), later, id);
  }
}
