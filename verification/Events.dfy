/** The committed events of one message, and what they say about the versions of its row. */
module Events {
  import opened Rows
  import opened Engine

  /** What one statement did to the messages `ids`. A delivery also notes which of its rows were still
      invisible, their guard `vt <= clock_timestamp()` false, at the moment they were leased. */
  datatype Event =
    | Delivered(kind: ReadKind, ids: set<nat>, early: set<nat>, at: int, until: int)
    | Retimed(ids: set<nat>)
    | Removed(ids: set<nat>)

  /** The events of `events` that concern message `id`. */
  function Of(events: seq<Event>, id: nat): seq<Event> {
    if events == [] then []
    else (if id in events[0].ids then [events[0]] else []) + Of(events[1..], id)
  }

  lemma {:induction false} OfConcat(a: seq<Event>, b: seq<Event>, id: nat)
    ensures Of(a + b, id) == Of(a, id) + Of(b, id)
    decreases a
  {
    if a == [] {
      assert a + b == b;
    } else {
      OfConcat(a[1..], b, id);
      assert (a + b)[0] == a[0] && (a + b)[1..] == a[1..] + b;
      var first := if id in a[0].ids then [a[0]] else [];
      assert first + (Of(a[1..], id) + Of(b, id)) == first + Of(a[1..], id) + Of(b, id);
    }
  }

  lemma OfAppend(events: seq<Event>, more: seq<Event>, id: nat)
    requires |more| <= 1
    ensures Of(events + more, id) == Of(events, id) + if |more| == 1 && id in more[0].ids then [more[0]] else []
  {
    OfConcat(events, more, id);
    if |more| == 1 { assert more[1..] == []; }
  }

  // ----- deliveries in a row -----

  /** Event `k` is a delivery right after a delivery. */
  predicate Repeated(e: seq<Event>, k: int) {
    0 < k < |e| && e[k - 1].Delivered? && e[k].Delivered?
  }

  /** Event `k` leased the message again before the timeout of the lease just before it. */
  predicate Renewed(e: seq<Event>, id: nat, k: int) {
    Repeated(e, k) && id in e[k].early
  }

  /** Deliveries with no `set_vt` between them are at least the first one's timeout apart. */
  ghost predicate Spaced(e: seq<Event>) {
    forall i, j | 0 <= i < j < |e| && e[i].Delivered? && e[j].Delivered?
                  && (forall k | i < k < j :: !e[k].Retimed?) ::
      e[i].until <= e[j].at
  }

  /** The notes of early rows are right. */
  ghost predicate Noted(e: seq<Event>, id: nat) {
    forall k | Repeated(e, k) :: id in e[k].early <==> e[k].at < e[k - 1].until
  }

  /** Only `read_grouped` takes rows that are not visible. */
  ghost predicate Guarded(e: seq<Event>, id: nat) {
    forall k | 0 <= k < |e| && e[k].Delivered? && id in e[k].early :: e[k].kind == Grouped
  }

  ghost predicate Timed(e: seq<Event>, now: int) {
    forall i, j | 0 <= i <= j < |e| && e[i].Delivered? && e[j].Delivered? :: e[i].at <= e[j].at <= now
  }

  ghost predicate Alive(e: seq<Event>) {
    forall i | 0 <= i < |e| :: !e[i].Removed?
  }

  /** Removed once, and nothing after that. */
  ghost predicate Ended(e: seq<Event>) {
    |e| > 0 && e[|e| - 1].Removed? && Alive(e[..|e| - 1])
  }

  /** The latest event is a delivery. */
  predicate LeasedLast(e: seq<Event>) {
    e != [] && e[|e| - 1].Delivered?
  }

  /** The events of a message explain its row version. */
  ghost predicate Explains(e: seq<Event>, id: nat, row: Option<Message>, now: int) {
    && Noted(e, id) && Guarded(e, id) && Timed(e, now)
    && match row
       case Some(m) => Alive(e) && (LeasedLast(e) ==> e[|e| - 1].until == m.vt)
       case None => Ended(e)
  }

  /** One statement turned the row `m` into `row`, by lease, `set_vt` or removal. */
  ghost predicate Wrote(m: Message, row: Option<Message>, ev: Event, id: nat, now: int) {
    match ev
    case Delivered(kind, _, early, at, until) =>
      && row == Some(m.(readCt := m.readCt + 1, lastReadAt := Some(now), vt := until)) && at == now
      && (id in early <==> !Visible(m, now)) && (id in early ==> kind == Grouped)
    case Retimed(_) => row.Some? && row.value == m.(vt := row.value.vt)
    case Removed(_) => row == None
  }

  lemma AppendNoted(e: seq<Event>, id: nat, ev: Event)
    requires Noted(e, id)
    requires LeasedLast(e) && ev.Delivered? ==> (id in ev.early <==> ev.at < e[|e| - 1].until)
    ensures Noted(e + [ev], id)
  {
    var f := e + [ev];
    forall k | Repeated(f, k) ensures id in f[k].early <==> f[k].at < f[k - 1].until {
      if k < |e| { assert Repeated(e, k); }
    }
  }

  lemma AppendTimed(e: seq<Event>, ev: Event, now: int)
    requires Timed(e, now) && (ev.Delivered? ==> ev.at == now)
    ensures Timed(e + [ev], now)
  {
  }

  lemma AppendGuarded(e: seq<Event>, id: nat, ev: Event)
    requires Guarded(e, id) && (ev.Delivered? && id in ev.early ==> ev.kind == Grouped)
    ensures Guarded(e + [ev], id)
  {
  }

  lemma AppendAlive(e: seq<Event>, ev: Event)
    requires Alive(e)
    ensures if ev.Removed? then Ended(e + [ev]) else Alive(e + [ev])
  {
    assert (e + [ev])[..|e|] == e;
  }

  lemma WroteExplains(e: seq<Event>, id: nat, m: Message, row: Option<Message>, ev: Event, now: int)
    requires Explains(e, id, Some(m), now) && Wrote(m, row, ev, id, now)
    ensures Explains(e + [ev], id, row, now)
  {
    AppendNoted(e, id, ev);
    AppendTimed(e, ev, now);
    AppendGuarded(e, id, ev);
    AppendAlive(e, ev);
  }

  /** The deliveries of a message are spaced exactly when none of them renewed a running lease. */
  lemma SpacedIffNoneRenewed(e: seq<Event>, id: nat, now: int)
    requires Noted(e, id) && Timed(e, now) && (Alive(e) || Ended(e))
    ensures Spaced(e) <==> forall k :: !Renewed(e, id, k)
  {
    if Spaced(e) {
      forall k ensures !Renewed(e, id, k) {}
    } else {
      var i, j :| 0 <= i < j < |e| && e[i].Delivered? && e[j].Delivered?
                  && (forall k | i < k < j :: !e[k].Retimed?) && e[i].until > e[j].at;
      assert forall k | 0 <= k < |e| - 1 :: e[k] == e[..|e| - 1][k];
      assert e[i + 1].Delivered?;
      assert Repeated(e, i + 1) && e[i + 1].at <= e[j].at;
      assert Renewed(e, id, i + 1);
    }
  }

  /** A delivery that is not by `read_grouped` comes after the timeout of a delivery just before it. */
  lemma OthersWait(e: seq<Event>, id: nat, k: int)
    requires Noted(e, id) && Guarded(e, id) && Repeated(e, k) && e[k].kind != Grouped
    ensures e[k - 1].until <= e[k].at
  {
  }
}
