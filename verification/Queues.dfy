/** The queue and archive tables of one queue, changed in place by the SQL functions. Each method
    is one statement at the clock reading `now` and refines the step of the same name. */
module Queues {
  import opened Ranking
  import opened Rows
  import opened Selection
  import RoundRobin
  import Engine
  import Meaning

  class Queue {
    var rows: Table
    var nextId: nat
    var archive: map<nat, Engine.Archived>
    ghost var removed: set<nat>

    ghost function StateAt(now: int): Engine.State
      reads this
    {
      Engine.State(rows, nextId, archive, removed, now)
    }

    ghost predicate Valid()
      reads this
    {
      Engine.Conserved(StateAt(0))
    }

    constructor ()
      ensures Valid() && StateAt(0) == Engine.EMPTY
    {
      rows, nextId, archive, removed := map[], 1, map[], {};
    }

    method Send(body: Engine.Body, headers: Engine.HeaderCell, deliverAt: int, now: int) returns (id: nat)
      requires Valid()
      modifies this`rows, this`nextId
      ensures Valid() && StateAt(now) == Engine.Apply(old(StateAt(now)), Engine.Send(body, headers, deliverAt))
      ensures id == old(nextId) && id !in old(rows) && id in rows && nextId == id + 1
      ensures Engine.Gained(old(rows), rows, id, [(body, headers)], deliverAt, now)
    {
      Engine.RowsAreOld(StateAt(now));
      id := InsertRows([(body, headers)], deliverAt, now);
      assert Engine.InRange(id, id, id + 1);
    }

    /** `INSERT INTO ... RETURNING msg_id`. */
    method InsertRows(cells: seq<(Engine.Body, Engine.HeaderCell)>, deliverAt: int, now: int) returns (first: nat)
      requires Valid()
      modifies this`rows, this`nextId
      ensures Valid() && StateAt(now) == Engine.Insert(old(StateAt(now)), cells, deliverAt)
      ensures first == old(nextId) && nextId == first + |cells|
      ensures Engine.Gained(old(rows), rows, first, cells, deliverAt, now)
    {
      ghost var before := StateAt(now);
      first := nextId;
      rows := rows + Engine.NewRows(first, cells, deliverAt, now);
      nextId := first + |cells|;
      assert StateAt(now) == Engine.Insert(before, cells, deliverAt);
      Engine.InsertGood(before, cells, deliverAt);
      Engine.InsertGains(before, cells, deliverAt);
    }

    /** `send_batch` validates and then inserts; `_send_batch` alone is `InsertBatch`. */
    method SendBatch(bodies: seq<Engine.Body>, headerList: Option<seq<Engine.HeaderCell>>, deliverAt: int, now: int)
      returns (r: Engine.Result<seq<nat>, Engine.BatchError>)
      requires Valid()
      modifies this`rows, this`nextId
      ensures Valid()
      ensures StateAt(now) == Engine.Apply(old(StateAt(now)), Engine.SendBatch(bodies, headerList, deliverAt))
      ensures r == if bodies == [] then Engine.Err(Engine.EmptyBatch)
                   else if headerList.Some? && |headerList.value| != |bodies| then
                     Engine.Err(Engine.HeaderCountMismatch)
                   else Engine.Ok(seq(|bodies|, i requires 0 <= i => old(nextId) + i))
      ensures r.Err? ==> rows == old(rows) && nextId == old(nextId)
      ensures r.Ok? ==> nextId == old(nextId) + |bodies|
      ensures r.Ok? ==> Engine.Gained(old(rows), rows, old(nextId), Engine.Paired(bodies, headerList), deliverAt, now)
    {
      var check := Engine.ValidateBatch(bodies, headerList);
      Meaning.BatchChecks(bodies, headerList);
      if check.Err? {
        r := Engine.Err(check.error);
      } else {
        Engine.ValidBatchAligned(bodies, headerList);
        var ids := InsertBatch(bodies, headerList, deliverAt, now);
        r := Engine.Ok(ids);
      }
    }

    method InsertBatch(bodies: seq<Engine.Body>, headerList: Option<seq<Engine.HeaderCell>>, deliverAt: int, now: int)
      returns (ids: seq<nat>)
      requires Valid()
      modifies this`rows, this`nextId
      ensures Valid()
      ensures StateAt(now) == Engine.Insert(old(StateAt(now)), Engine.Unnest(bodies, headerList), deliverAt)
      ensures Engine.Gained(old(rows), rows, old(nextId), Engine.Unnest(bodies, headerList), deliverAt, now)
      ensures nextId == old(nextId) + |Engine.Unnest(bodies, headerList)|
      ensures ids == seq(|Engine.Unnest(bodies, headerList)|, i requires 0 <= i => old(nextId) + i)
    {
      var cells := Engine.Unnest(bodies, headerList);
      var first := InsertRows(cells, deliverAt, now);
      ids := seq(|cells|, i requires 0 <= i => first + i);
    }

    /** The `UPDATE ... RETURNING` that the read functions share. */
    method Lease(ids: set<nat>, timeout: int, now: int) returns (leased: map<nat, Message>)
      requires Valid() && ids <= rows.Keys
      modifies this`rows
      ensures Valid() && rows == Engine.Lease(old(rows), ids, now, timeout)
      ensures Meaning.RowsLeased(old(rows), rows, ids, now, timeout)
      ensures leased.Keys == ids && forall id | id in ids :: leased[id] == rows[id]
    {
      Engine.UpdateGood(StateAt(0), Engine.Lease(rows, ids, now, timeout));
      rows := Engine.Lease(rows, ids, now, timeout);
      leased := map id | id in ids :: rows[id];
    }

    /** The rows that a read has selected, leased as its step leases them. */
    method LeaseSelected(ghost kind: Engine.ReadKind, ids: set<nat>, timeout: int, ghost qty: nat, now: int)
      returns (leased: map<nat, Message>)
      requires Valid() && ids == Engine.Selected(StateAt(now), kind, qty)
      modifies this`rows
      ensures Valid() && StateAt(now) == Engine.Apply(old(StateAt(now)), Engine.Read(kind, timeout, qty))
      ensures leased.Keys == ids == Engine.Delivered(old(StateAt(now)), Engine.Read(kind, timeout, qty))
      ensures Meaning.RowsLeased(old(rows), rows, ids, now, timeout)
      ensures forall id | id in leased :: id in rows && leased[id] == rows[id]
    {
      leased := Lease(ids, timeout, now);
    }

    method Read(timeout: int, qty: nat, now: int) returns (leased: map<nat, Message>)
      requires Valid()
      modifies this`rows
      ensures Valid() && StateAt(now) == Engine.Apply(old(StateAt(now)), Engine.Read(Engine.Plain, timeout, qty))
      ensures leased.Keys == Engine.Delivered(old(StateAt(now)), Engine.Read(Engine.Plain, timeout, qty))
      ensures Meaning.OldestOf(Meaning.Free(old(rows), now, {}), leased.Keys, qty)
      ensures Meaning.RowsLeased(old(rows), rows, leased.Keys, now, timeout)
      ensures forall id | id in leased :: id in rows && leased[id] == rows[id]
    {
      Meaning.PlainTakes(rows, now, qty, {}, ReadSet(rows, now, qty, {}));
      leased := LeaseSelected(Engine.Plain, ReadSet(rows, now, qty, {}), timeout, qty, now);
    }

    method ReadGrouped(timeout: int, qty: nat, now: int) returns (leased: map<nat, Message>)
      requires Valid()
      modifies this`rows
      ensures Valid() && StateAt(now) == Engine.Apply(old(StateAt(now)), Engine.Read(Engine.Grouped, timeout, qty))
      ensures leased.Keys == Engine.Delivered(old(StateAt(now)), Engine.Read(Engine.Grouped, timeout, qty))
      ensures Meaning.GroupsFirst(old(rows), now, {}, leased.Keys, qty)
      ensures Meaning.RowsLeased(old(rows), rows, leased.Keys, now, timeout)
      ensures forall id | id in leased :: id in rows && leased[id] == rows[id]
    {
      Meaning.GroupedTakes(rows, now, qty, {}, GroupedSet(rows, now, qty, {}));
      leased := LeaseSelected(Engine.Grouped, GroupedSet(rows, now, qty, {}), timeout, qty, now);
    }

    /** Returns its rows in the order of the round robin. */
    method ReadGroupedRr(timeout: int, qty: nat, now: int) returns (leased: map<nat, Message>, order: seq<nat>)
      requires Valid()
      modifies this`rows
      ensures Valid() && StateAt(now) == Engine.Apply(old(StateAt(now)), Engine.Read(Engine.RoundRobin, timeout, qty))
      ensures leased.Keys == Engine.Delivered(old(StateAt(now)), Engine.Read(Engine.RoundRobin, timeout, qty))
      ensures Meaning.LayersFirst(old(rows), now, {}, leased.Keys, qty)
      ensures Meaning.RowsLeased(old(rows), rows, leased.Keys, now, timeout)
      ensures order == RoundRobin.Returned(old(rows), now, qty, {}, {})
      ensures ToSet(order) == leased.Keys && |order| == |leased|
      ensures forall id | id in leased :: id in rows && leased[id] == rows[id]
    {
      var ids := RrSet(rows, now, qty, {}, {});
      order := RoundRobin.Returned(rows, now, qty, {}, {});
      Meaning.UnlockedBatch(rows, now, qty);
      RoundRobin.ReturnedOnce(rows, now, qty, {}, {});
      assert |order| == |ids|;
      leased := LeaseSelected(Engine.RoundRobin, ids, timeout, qty, now);
      assert leased.Keys == ids && |leased.Keys| == |leased|;
    }

    method ReadGroupedHead(timeout: int, qty: nat, now: int) returns (leased: map<nat, Message>)
      requires Valid()
      modifies this`rows
      ensures Valid() && StateAt(now) == Engine.Apply(old(StateAt(now)), Engine.Read(Engine.Head, timeout, qty))
      ensures leased.Keys == Engine.Delivered(old(StateAt(now)), Engine.Read(Engine.Head, timeout, qty))
      ensures Meaning.OldestOf(Meaning.FreeHeads(old(rows), now, {}), leased.Keys, qty)
      ensures Meaning.RowsLeased(old(rows), rows, leased.Keys, now, timeout)
      ensures forall id | id in leased :: id in rows && leased[id] == rows[id]
    {
      Meaning.HeadTakes(rows, now, qty, {}, HeadSet(rows, now, qty, {}));
      leased := LeaseSelected(Engine.Head, HeadSet(rows, now, qty, {}), timeout, qty, now);
    }

    method Pop(qty: nat, now: int) returns (popped: map<nat, Message>)
      requires Valid()
      modifies this`rows, this`removed
      ensures Valid() && StateAt(now) == Engine.Apply(old(StateAt(now)), Engine.Pop(qty))
      ensures Meaning.OldestOf(Meaning.Free(old(rows), now, {}), popped.Keys, qty)
      ensures Meaning.RowsRemoved(old(rows), rows, popped.Keys)
      ensures forall id | id in popped :: id !in rows && id in old(rows) && popped[id] == old(rows)[id]
    {
      var ids := ReadSet(rows, now, qty, {});
      Meaning.PlainTakes(rows, now, qty, {}, ids);
      popped := map id | id in ids :: rows[id];
      assert popped.Keys == ids;
      Engine.PopDeletes(StateAt(now), qty);
      var deleted := Delete(ids, now);
    }

    method SetVt(ids: set<nat>, vt: int, now: int) returns (updated: map<nat, Message>)
      requires Valid()
      modifies this`rows
      ensures Valid() && StateAt(now) == Engine.Apply(old(StateAt(now)), Engine.SetVt(ids, vt))
      ensures updated.Keys == ids * rows.Keys && Meaning.RowsRetimed(old(rows), rows, ids, vt)
      ensures forall id | id in updated :: updated[id] == rows[id] && rows[id].vt == vt
    {
      Engine.UpdateGood(StateAt(now), Engine.Retime(rows, ids, vt));
      rows := Engine.Retime(rows, ids, vt);
      updated := map id | id in ids && id in rows :: rows[id];
    }

    method Delete(ids: set<nat>, now: int) returns (deleted: set<nat>)
      requires Valid()
      modifies this`rows, this`removed
      ensures Valid() && StateAt(now) == Engine.Apply(old(StateAt(now)), Engine.Delete(ids))
      ensures deleted == ids * old(rows).Keys && Meaning.RowsRemoved(old(rows), rows, ids)
    {
      Engine.RemoveGood(StateAt(now), ids);
      deleted := ids * rows.Keys;
      removed := removed + deleted;
      rows := rows - ids;
    }

    /** `DELETE ... RETURNING` feeding `INSERT INTO` the archive table. */
    method Archive(ids: set<nat>, now: int) returns (archived: set<nat>)
      requires Valid()
      modifies this`rows, this`archive
      ensures Valid() && StateAt(now) == Engine.Apply(old(StateAt(now)), Engine.Archive(ids))
      ensures archived == ids * old(rows).Keys && archived !! old(archive).Keys
      ensures Meaning.RowsRemoved(old(rows), rows, ids)
      ensures Meaning.RowsArchived(old(rows), old(archive), archive, ids, now)
    {
      Engine.ArchiveGood(StateAt(now), ids);
      archived := ids * rows.Keys;
      archive := archive + map id | id in archived :: Engine.Copied(rows[id], now);
      rows := rows - archived;
    }

    /** `TRUNCATE` without `RESTART IDENTITY`: the id counter goes on. */
    method Purge(now: int) returns (count: nat)
      requires Valid()
      modifies this`rows, this`removed
      ensures Valid() && StateAt(now) == Engine.Apply(old(StateAt(now)), Engine.Purge)
      ensures count == |old(rows)| && rows.Keys == {} && nextId == old(nextId)
    {
      count := |rows|;
      Engine.RemoveAll(StateAt(now));
      removed := removed + rows.Keys;
      rows := map[];
    }
  }
}
