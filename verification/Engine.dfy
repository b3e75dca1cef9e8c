/** One queue as a step machine: every SQL statement is one atomic step with one clock reading,
    committed at once. Open transactions are the subject of the module Sessions. */
module Engine {
  import opened Rows
  import opened Selection

  const SECOND: int := 1_000_000

  /** One row of an archive table; `archived_at` has the time of the archiving as its default. */
  datatype Archived = Archived(
    readCt: nat,
    enqueuedAt: int,
    lastReadAt: Option<int>,
    archivedAt: int,
    vt: int,
    body: Option<string>,
    headers: Option<Headers>)

  /** `removed` records the ids that `delete`, `pop` and `purge_queue` took away. */
  datatype State = State(
    rows: Table,
    nextId: nat,
    archive: map<nat, Archived>,
    removed: set<nat>,
    now: int)

  const EMPTY: State := State(map[], 1, map[], {}, 0)

  datatype ReadKind = Plain | Grouped | RoundRobin | Head

  datatype BatchError = EmptyBatch | HeaderCountMismatch
  datatype Result<+T, +E> = Ok(value: T) | Err(error: E)

  type Body = Option<string>
  type HeaderCell = Option<Headers>

  datatype Step =
    | Send(body: Body, headers: HeaderCell, deliverAt: int)
    | SendBatch(bodies: seq<Body>, headerList: Option<seq<HeaderCell>>, deliverAt: int)
    | Read(kind: ReadKind, timeout: int, qty: nat)
    | Pop(qty: nat)
    | SetVt(ids: set<nat>, vt: int)
    | Delete(ids: set<nat>)
    | Archive(ids: set<nat>)
    | Purge
    | Tick(elapsed: nat)

  // ----- sending -----

  /** `_validate_batch_params`. */
  function ValidateBatch(bodies: seq<Body>, headerList: Option<seq<HeaderCell>>): Result<(), BatchError> {
    if bodies == [] then Err(EmptyBatch)
    else if headerList.Some? && |headerList.value| != |bodies| then Err(HeaderCountMismatch)
    else Ok(())
  }

  function CellAt<T>(cells: seq<Option<T>>, i: nat): Option<T> {
    if i < |cells| then cells[i] else None
  }

  /** `SELECT unnest(msgs), unnest(coalesce(headers, ARRAY[]))`: in step, the shorter one padded with NULL. */
  function Unnest(bodies: seq<Body>, headerList: Option<seq<HeaderCell>>): seq<(Body, HeaderCell)> {
    var cells := if headerList.Some? then headerList.value else [];
    seq(if |cells| < |bodies| then |bodies| else |cells|, i requires 0 <= i => (CellAt(bodies, i), CellAt(cells, i)))
  }

  /** One row per message or header, whichever there are more of; what is missing is NULL. */
  lemma UnnestPads(bodies: seq<Body>, headers: seq<HeaderCell>)
    ensures var l := Unnest(bodies, Some(headers));
            && |l| == (if |headers| <= |bodies| then |bodies| else |headers|)
            && forall i | 0 <= i < |l| ::
                 && l[i].0 == (if i < |bodies| then bodies[i] else None)
                 && l[i].1 == if i < |headers| then headers[i] else None
    ensures Unnest(bodies, None) == Unnest(bodies, Some([]))
  {
  }

  /** Each message with its own header. */
  function Paired(bodies: seq<Body>, headerList: Option<seq<HeaderCell>>): seq<(Body, HeaderCell)>
    requires headerList.Some? ==> |headerList.value| == |bodies|
  {
    seq(|bodies|, i requires 0 <= i < |bodies| => (bodies[i], if headerList.Some? then headerList.value[i] else None))
  }

  /** The `i`-th header goes with the `i`-th message and every message has its row, thanks to the check. */
  lemma ValidBatchAligned(bodies: seq<Body>, headerList: Option<seq<HeaderCell>>)
    requires ValidateBatch(bodies, headerList).Ok?
    ensures Unnest(bodies, headerList) == Paired(bodies, headerList)
  {
  }

  /** `INSERT INTO q (vt, message, headers) SELECT ...`: consecutive ids from the identity column. */
  function Insert(s: State, cells: seq<(Body, HeaderCell)>, deliverAt: int): State {
    s.(rows := s.rows + NewRows(s.nextId, cells, deliverAt, s.now), nextId := s.nextId + |cells|)
  }

  ghost predicate IsNew(m: Message, cell: (Body, HeaderCell), deliverAt: int, now: int) {
    m == Message(readCt := 0, enqueuedAt := now, lastReadAt := None, vt := deliverAt, body := cell.0, headers := cell.1)
  }

  /** `r` is `q` with one unread row per cell added, in order, under the ids from `from` on. */
  ghost predicate Gained(q: Table, r: Table, from: nat, cells: seq<(Body, HeaderCell)>, deliverAt: int, now: int) {
    && r.Keys == q.Keys + FreshIds(from, from + |cells|)
    && (forall id | id in q :: r[id] == q[id])
    && forall id: nat | InRange(id, from, from + |cells|) :: id in r && IsNew(r[id], cells[id - from], deliverAt, now)
  }

  lemma NewRowsGained(q: Table, from: nat, cells: seq<(Body, HeaderCell)>, deliverAt: int, now: int)
    requires forall id | id in q :: id < from
    ensures Gained(q, q + NewRows(from, cells, deliverAt, now), from, cells, deliverAt, now)
  {
  }

  /** An insert adds the cells, one row each, and changes no other row. */
  lemma InsertGains(s: State, cells: seq<(Body, HeaderCell)>, deliverAt: int)
    requires Conserved(s)
    ensures var t := Insert(s, cells, deliverAt);
            Gained(s.rows, t.rows, s.nextId, cells, deliverAt, s.now) && |t.rows| == |s.rows| + |cells|
  {
    RowsAreOld(s);
    NewRowsGained(s.rows, s.nextId, cells, deliverAt, s.now);
    InsertGrows(s, cells, deliverAt);
  }

  function NewRows(from: nat, cells: seq<(Body, HeaderCell)>, deliverAt: int, now: int): (q: Table)
    ensures q.Keys == FreshIds(from, from + |cells|)
  {
    var ids := FreshIds(from, from + |cells|);
    map id | id in ids :: Message(0, now, None, deliverAt, cells[id - from].0, cells[id - from].1)
  }

  predicate InRange(id: nat, from: nat, to: nat) { from <= id < to }

  function FreshIds(from: nat, to: nat): set<nat> {
    set id: nat | id < to && InRange(id, from, to)
  }

  lemma {:induction false} FreshIdsCount(from: nat, n: nat)
    ensures |FreshIds(from, from + n)| == n
    decreases n
  {
    if n > 0 {
      var last: nat := from + n - 1;
      FreshIdsCount(from, n - 1);
      OneMoreId(from, last);
      assert last !in FreshIds(from, last);
    } else {
      assert FreshIds(from, from) == {};
    }
  }

  lemma OneMoreId(from: nat, last: nat)
    requires from <= last
    ensures FreshIds(from, last + 1) == FreshIds(from, last) + {last}
  {
  }

  lemma InsertGrows(s: State, cells: seq<(Body, HeaderCell)>, deliverAt: int)
    requires Conserved(s)
    ensures |Insert(s, cells, deliverAt).rows| == |s.rows| + |cells|
  {
    var added := NewRows(s.nextId, cells, deliverAt, s.now);
    FreshIdsCount(s.nextId, |cells|);
    RowsAreOld(s);
    assert s.rows.Keys !! added.Keys;
    UnionOfRows(s.rows, added);
  }

  lemma RowsAreOld(s: State)
    requires Conserved(s)
    ensures forall id | id in s.rows :: id < s.nextId
  {
    forall id | id in s.rows ensures id < s.nextId { assert id in FreshIds(1, s.nextId); }
  }

  lemma UnionOfRows(a: Table, b: Table)
    requires a.Keys !! b.Keys
    ensures |a + b| == |a| + |b|
  {
    assert (a + b).Keys == a.Keys + b.Keys;
    assert |a.Keys + b.Keys| == |a.Keys| + |b.Keys|;
  }

  // ----- reading -----

  /** The ids one committed read call returns and leases. */
  function Selected(s: State, kind: ReadKind, qty: nat): set<nat> {
    match kind
    case Plain => ReadSet(s.rows, s.now, qty, {})
    case Grouped => GroupedSet(s.rows, s.now, qty, {})
    case RoundRobin => RrSet(s.rows, s.now, qty, {}, {})
    case Head => HeadSet(s.rows, s.now, qty, {})
  }

  /** `SET vt = clock_timestamp() + ..., read_ct = read_ct + 1, last_read_at = clock_timestamp()`. */
  function Leased(m: Message, now: int, timeout: int): Message {
    m.(readCt := m.readCt + 1, lastReadAt := Some(now), vt := now + timeout * SECOND)
  }

  function Lease(q: Table, ids: set<nat>, now: int, timeout: int): Table {
    map id | id in q :: if id in ids then Leased(q[id], now, timeout) else q[id]
  }

  function Retime(q: Table, ids: set<nat>, vt: int): Table {
    map id | id in q :: if id in ids then q[id].(vt := vt) else q[id]
  }

  // ----- removing -----

  function Copied(m: Message, now: int): Archived {
    Archived(m.readCt, m.enqueuedAt, m.lastReadAt, now, m.vt, m.body, m.headers)
  }

  /** `DELETE ... RETURNING` into `INSERT`: the insert fails on a key the archive already holds. */
  function ArchiveRows(s: State, ids: set<nat>): Result<State, set<nat>> {
    var moved := ids * s.rows.Keys;
    if moved * s.archive.Keys != {} then Err(moved * s.archive.Keys)
    else Ok(s.(rows := s.rows - moved, archive := s.archive + map id | id in moved :: Copied(s.rows[id], s.now)))
  }

  function Remove(s: State, ids: set<nat>): State {
    s.(rows := s.rows - ids, removed := s.removed + ids * s.rows.Keys)
  }

  // ----- steps and runs -----

  /** The ids a step hands to its caller as leased messages. */
  function Delivered(s: State, step: Step): set<nat> {
    match step
    case Read(kind, _, qty) => Selected(s, kind, qty)
    case _ => {}
  }

  /** A statement that raises an error leaves the state as it was. */
  function Apply(s: State, step: Step): State {
    match step
    case Send(body, headers, deliverAt) => Insert(s, [(body, headers)], deliverAt)
    case SendBatch(bodies, headerList, deliverAt) =>
      if ValidateBatch(bodies, headerList).Ok? then Insert(s, Unnest(bodies, headerList), deliverAt) else s
    case Read(kind, timeout, qty) => s.(rows := Lease(s.rows, Selected(s, kind, qty), s.now, timeout))
    case Pop(qty) => Remove(s, ReadSet(s.rows, s.now, qty, {}))
    case SetVt(ids, vt) => s.(rows := Retime(s.rows, ids, vt))
    case Delete(ids) => Remove(s, ids)
    case Archive(ids) => (match ArchiveRows(s, ids) case Ok(t) => t case Err(_) => s)
    case Purge => Remove(s, s.rows.Keys)
    case Tick(elapsed) => s.(now := s.now + elapsed)
  }

  function Run(s: State, steps: seq<Step>): State
    decreases steps
  {
    if steps == [] then s else Run(Apply(s, steps[0]), steps[1..])
  }

  // ----- conservation -----

  /** Every id handed out so far is in exactly one of the queue, the archive and the removed ids. */
  ghost predicate Conserved(s: State) {
    && s.nextId >= 1
    && s.rows.Keys !! s.archive.Keys !! s.removed
    && s.rows.Keys + s.archive.Keys + s.removed == FreshIds(1, s.nextId)
  }

  predicate SameContent(m: Message, n: Message) {
    m.body == n.body && m.headers == n.headers && m.enqueuedAt == n.enqueuedAt
  }

  /** What can happen to a queue over time: ids are used once, contents never change, and the
      archive and the removed ids only grow. */
  ghost predicate Evolves(s: State, t: State) {
    && s.nextId <= t.nextId && s.now <= t.now && s.removed <= t.removed
    && (forall id | id in t.rows && id < s.nextId ::
          id in s.rows && SameContent(s.rows[id], t.rows[id]) && s.rows[id].readCt <= t.rows[id].readCt)
    && (forall id | id in s.archive :: id in t.archive && t.archive[id] == s.archive[id])
  }

  ghost predicate Good(s: State, t: State) {
    Conserved(t) && Evolves(s, t)
  }

  lemma InsertGood(s: State, cells: seq<(Body, HeaderCell)>, deliverAt: int)
    requires Conserved(s)
    ensures Good(s, Insert(s, cells, deliverAt))
  {
    var t := Insert(s, cells, deliverAt);
    assert t.rows.Keys == s.rows.Keys + FreshIds(s.nextId, t.nextId);
    assert FreshIds(1, t.nextId) == FreshIds(1, s.nextId) + FreshIds(s.nextId, t.nextId);
  }

  lemma UpdateGood(s: State, q: Table)
    requires Conserved(s) && q.Keys == s.rows.Keys
    requires forall id | id in q :: SameContent(s.rows[id], q[id]) && s.rows[id].readCt <= q[id].readCt
    ensures Good(s, s.(rows := q))
  {
  }

  lemma RemoveGood(s: State, ids: set<nat>)
    requires Conserved(s)
    ensures Good(s, Remove(s, ids))
  {
  }

  /** `pop` deletes what a plain read would take. */
  lemma PopDeletes(s: State, qty: nat)
    ensures Apply(s, Pop(qty)) == Apply(s, Delete(ReadSet(s.rows, s.now, qty, {})))
  {
  }

  lemma RemoveAll(s: State)
    requires Conserved(s)
    ensures var t := Apply(s, Purge); t == s.(rows := map[], removed := s.removed + s.rows.Keys) && Conserved(t)
  {
    RemoveGood(s, s.rows.Keys);
    assert Remove(s, s.rows.Keys).rows == map[];
    assert s.rows.Keys * s.rows.Keys == s.rows.Keys;
  }

  lemma ArchiveGood(s: State, ids: set<nat>)
    requires Conserved(s)
    ensures ArchiveRows(s, ids).Ok? && Good(s, ArchiveRows(s, ids).value)
  {
    assert ids * s.rows.Keys * s.archive.Keys == {};
  }

  lemma StepConserves(s: State, step: Step)
    requires Conserved(s)
    ensures Good(s, Apply(s, step))
  {
    match step
    case Send(body, headers, deliverAt) => InsertGood(s, [(body, headers)], deliverAt);
    case SendBatch(bodies, headerList, deliverAt) => InsertGood(s, Unnest(bodies, headerList), deliverAt);
    case Read(kind, timeout, qty) => UpdateGood(s, Lease(s.rows, Selected(s, kind, qty), s.now, timeout));
    case Pop(qty) => RemoveGood(s, ReadSet(s.rows, s.now, qty, {}));
    case SetVt(ids, vt) => UpdateGood(s, Retime(s.rows, ids, vt));
    case Delete(ids) => RemoveGood(s, ids);
    case Archive(ids) => ArchiveGood(s, ids);
    case Purge => RemoveGood(s, s.rows.Keys);
    case Tick(_) =>
  }

  /** Conservation over every run. */
  lemma {:induction false} RunConserves(s: State, steps: seq<Step>)
    requires Conserved(s)
    ensures Good(s, Run(s, steps))
    decreases steps
  {
    if steps != [] {
      StepConserves(s, steps[0]);
      RunConserves(Apply(s, steps[0]), steps[1..]);
    }
  }

  /** Once an id has left the queue, no run brings it back, whatever was purged in between. */
  lemma GoneForGood(s: State, steps: seq<Step>, id: nat)
    requires Conserved(s) && 1 <= id < s.nextId && id !in s.rows
    ensures id !in Run(s, steps).rows
  {
    RunConserves(s, steps);
  }

  /** Archiving never meets a duplicate key, moves exactly the requested rows that exist, and keeps
      every copied column for the rest of the run. */
  lemma ArchiveKeepsColumns(s: State, ids: set<nat>, later: seq<Step>, id: nat)
    requires Conserved(s)
    ensures ArchiveRows(s, ids).Ok?
    ensures var t := ArchiveRows(s, ids).value;
            && t.rows == s.rows - ids
            && t.archive.Keys == s.archive.Keys + ids * s.rows.Keys
            && (id in ids && id in s.rows ==>
                 var end := Run(t, later);
                 && id !in end.rows && id !in end.removed && id in end.archive
                 && var kept, m := end.archive[id], s.rows[id];
                    && kept.readCt == m.readCt && kept.enqueuedAt == m.enqueuedAt && kept.vt == m.vt
                    && kept.body == m.body && kept.headers == m.headers
                    && kept.lastReadAt == m.lastReadAt && kept.archivedAt == s.now)
  {
    ArchiveGood(s, ids);
    var t := ArchiveRows(s, ids).value;
    RunConserves(t, later);
  }
}
