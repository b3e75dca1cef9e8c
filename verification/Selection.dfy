/** The selection queries of the read functions, as pure functions of the table: which ids one
    call updates. `locked` holds the rows other open transactions have locked, `blocked` the groups
    whose advisory lock another transaction holds. */
module Selection {
  import opened Ranking
  import opened Rows

  // ----- pgmq.read and pgmq.pop: LIMIT above FOR UPDATE SKIP LOCKED -----

  function ReadCandidates(q: Table, now: int, locked: set<nat>): Candidates {
    map id | id in VisibleIds(q, now) - locked :: Rank(id, 0)
  }

  function ReadSet(q: Table, now: int, qty: nat, locked: set<nat>): set<nat> {
    First(ReadCandidates(q, now, locked), qty)
  }

  // ----- pgmq.read_grouped_head -----

  /** The absolute head of each group, when it is visible and not locked. */
  function HeadCandidates(q: Table, now: int, locked: set<nat>): Candidates {
    map id | id in VisibleIds(q, now) - locked && id == GroupHead(q, id) :: Rank(id, 0)
  }

  function HeadSet(q: Table, now: int, qty: nat, locked: set<nat>): set<nat> {
    First(HeadCandidates(q, now, locked), qty)
  }

  // ----- pgmq.read_grouped, 1.11.0 -----

  /** `fifo_groups`: the first visible message of the group of `id`. */
  function FirstReady(q: Table, now: int, id: nat): nat
    requires id in VisibleIds(q, now)
  {
    assert id in Ready(q, GroupOf(q[id]), now);
    Min(Ready(q, GroupOf(q[id]), now))
  }

  /** `locked_groups`: the first visible message of each group, unless another transaction has it. */
  function LockedHeads(q: Table, now: int, locked: set<nat>): set<nat> {
    set id | id in VisibleIds(q, now) && id == FirstReady(q, now, id) && id !in locked
  }

  /** An earlier message of the group of `id` is still invisible. */
  predicate BehindInvisible(q: Table, now: int, id: nat)
    requires id in q
  {
    exists j | j in q :: GroupOf(q[j]) == GroupOf(q[id]) && !Visible(q[j], now) && j < id
  }

  /** `filtered_groups`: drop a group with an invisible message before its first visible one. */
  function FilteredHeads(q: Table, now: int, locked: set<nat>): set<nat> {
    set h | h in LockedHeads(q, now, locked) && !BehindInvisible(q, now, h)
  }

  function GroupedRank(q: Table, now: int, locked: set<nat>, id: nat): Rank
    requires id in VisibleIds(q, now)
  {
    Rank(Position(LockedHeads(q, now, locked), FirstReady(q, now, id)),
         Position(Ready(q, GroupOf(q[id]), now), id))
  }

  /** `available_messages`, with the per-group `LIMIT $1` of its lateral join. */
  function GroupedCandidates(q: Table, now: int, qty: nat, locked: set<nat>): Candidates {
    map id | id in VisibleIds(q, now) && FirstReady(q, now, id) in FilteredHeads(q, now, locked)
             && Position(Ready(q, GroupOf(q[id]), now), id) <= qty
           :: GroupedRank(q, now, locked, id)
  }

  /** The rows that the final `UPDATE` joins. The `FOR UPDATE SKIP LOCKED` of `selected_messages` reads
      from a common table expression only and has no effect, so locked rows other than the groups'
      first ones are not skipped. */
  function GroupedSet(q: Table, now: int, qty: nat, locked: set<nat>): set<nat> {
    First(GroupedCandidates(q, now, qty, locked), qty)
  }

  // ----- pgmq.read_grouped, 1.9.0: the gap check is per message and there is no lateral limit -----

  /** The visible messages of a group with no invisible message before them. */
  function Unobstructed(q: Table, g: string, now: int): set<nat> {
    set id | id in Ready(q, g, now) && !BehindInvisible(q, now, id)
  }

  function GroupedCandidatesV19(q: Table, now: int, locked: set<nat>): Candidates {
    map id | id in VisibleIds(q, now) && FirstReady(q, now, id) in LockedHeads(q, now, locked)
             && !BehindInvisible(q, now, id)
           :: Rank(Position(LockedHeads(q, now, locked), FirstReady(q, now, id)),
                   Position(Unobstructed(q, GroupOf(q[id]), now), id))
  }

  // ----- pgmq.read_grouped_rr -----

  /** `eligible_groups`: the absolute heads that are visible and whose advisory lock is free. */
  function EligibleHeads(q: Table, now: int, blocked: set<string>): set<nat> {
    set id | id in VisibleIds(q, now) && id == GroupHead(q, id) && GroupOf(q[id]) !in blocked
  }

  function GroupHead(q: Table, id: nat): nat
    requires id in q
  {
    assert id in GroupIds(q, GroupOf(q[id]));
    Min(GroupIds(q, GroupOf(q[id])))
  }

  function RrCandidates(q: Table, now: int, blocked: set<string>): Candidates {
    map id | id in VisibleIds(q, now) && GroupHead(q, id) in EligibleHeads(q, now, blocked)
           :: Rank(Position(Ready(q, GroupOf(q[id]), now), id),
                   Position(EligibleHeads(q, now, blocked), GroupHead(q, id)))
  }

  function RrSet(q: Table, now: int, qty: nat, locked: set<nat>, blocked: set<string>): set<nat> {
    First(RrCandidates(q, now, blocked), qty) - locked
  }
}
