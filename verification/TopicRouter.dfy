/** Topic bindings and the fan-out loops of `send_topic` and `send_batch_topic`. */
module TopicRouter {
  import opened Rows
  import opened DottedText
  import opened TopicRegex
  import opened TopicSegments
  import opened TopicGlobs
  import Engine

  datatype Binding = Binding(pattern: string, queueName: string)

  datatype RouteError =
    | BadKey(key: TopicError) | BadPattern(pattern: TopicError) | BadBatch(batch: Engine.BatchError)
    | NullMessage | NegativeDelay | EmptyQueueName | NoSuchQueue

  predicate Routed(b: Binding, key: string) { RegexMatches(Compile(b.pattern), key) }

  /** `SELECT DISTINCT queue_name ... WHERE routing_key ~ compiled_regex`. */
  function Routes(bindings: set<Binding>, key: string): set<string> {
    set b | b in bindings && Routed(b, key) :: b.queueName
  }

  /** The distinct queues among some bindings. */
  function QueuesOf(bindings: set<Binding>): set<string> {
    set b | b in bindings :: b.queueName
  }

  /** The rows of `test_routing`. */
  function TestRouting(bindings: set<Binding>, key: string): Engine.Result<set<Binding>, TopicError> {
    var check := ValidateKey(key);
    if check.Some? then Engine.Err(check.value) else Engine.Ok(set b | b in bindings && Routed(b, key))
  }

  /** Queue `q` has got the cells once, as its next rows. */
  ghost predicate Received(q: Engine.State, r: Engine.State, cells: Cells, deliverAt: int, now: int) {
    && Engine.Gained(q.rows, r.rows, q.nextId, cells, deliverAt, now)
    && |r.rows| == |q.rows| + |cells| && r.nextId == q.nextId + |cells|
    && r.archive == q.archive && r.removed == q.removed
  }

  lemma SentReceives(q: Engine.State, cells: Cells, deliverAt: int, now: int)
    requires Engine.Conserved(q)
    ensures Received(q, Sent(q, cells, deliverAt, now), cells, deliverAt, now)
  {
    Engine.InsertGains(q.(now := now), cells, deliverAt);
  }

  /** A fan-out reaches each queue named once, and leaves the other queues as they are. */
  lemma FanOutDelivers(queues: map<string, Engine.State>, names: set<string>, cells: Cells, deliverAt: int, now: int,
                       n: string)
    requires n in queues && Engine.Conserved(queues[n])
    ensures var after := FanOut(queues, names, cells, deliverAt, now);
            && n in after
            && if n in names then Received(queues[n], after[n], cells, deliverAt, now) else after[n] == queues[n]
  {
    SentReceives(queues[n], cells, deliverAt, now);
  }

  /** The checks of `send_topic`, in their order. */
  function CheckSend(key: string, body: Engine.Body, delay: int): (e: Option<RouteError>)
    ensures e == None <==> ValidateKey(key) == None && body.Some? && delay >= 0
    ensures ValidateKey(key).Some? ==> e == Some(BadKey(ValidateKey(key).value))
    ensures e == Some(NullMessage) ==> ValidateKey(key) == None && body == None
    ensures e == Some(NegativeDelay) ==> ValidateKey(key) == None && body.Some? && delay < 0
  {
    var check := ValidateKey(key);
    if check.Some? then Some(BadKey(check.value))
    else if body.None? then Some(NullMessage)
    else if delay < 0 then Some(NegativeDelay)
    else None
  }

  lemma TestedQueues(bindings: set<Binding>, key: string)
    requires ValidateKey(key) == None
    ensures var tested := TestRouting(bindings, key); tested.Ok? && Routes(bindings, key) == QueuesOf(tested.value)
  {
  }

  /** The message ids among `rows` that belong to one queue, in order. */
  function RowsOf(rows: seq<(string, nat)>, name: string): seq<nat> {
    if rows == [] then []
    else (if rows[0].0 == name then [rows[0].1] else []) + RowsOf(rows[1..], name)
  }

  function Tagged(name: string, first: nat, count: nat): seq<(string, nat)>
    decreases count
  {
    if count == 0 then [] else [(name, first)] + Tagged(name, first + 1, count - 1)
  }

  function Consecutive(first: nat, count: nat): seq<nat>
    decreases count
  {
    if count == 0 then [] else [first] + Consecutive(first + 1, count - 1)
  }

  lemma {:induction false} RowsOfConcat(a: seq<(string, nat)>, b: seq<(string, nat)>, name: string)
    ensures RowsOf(a + b, name) == RowsOf(a, name) + RowsOf(b, name)
    decreases a
  {
    if a == [] {
      assert a + b == b;
    } else {
      RowsOfConcat(a[1..], b, name);
      assert (a + b)[1..] == a[1..] + b && (a + b)[0] == a[0];
      var first := if a[0].0 == name then [a[0].1] else [];
      assert first + (RowsOf(a[1..], name) + RowsOf(b, name)) == first + RowsOf(a[1..], name) + RowsOf(b, name);
    }
  }

  lemma {:induction false} RowsOfTagged(tag: string, first: nat, count: nat, name: string)
    ensures RowsOf(Tagged(tag, first, count), name) == if name == tag then Consecutive(first, count) else []
    decreases count
  {
    if count > 0 {
      RowsOfTagged(tag, first + 1, count - 1, name);
      assert Tagged(tag, first, count)[1..] == Tagged(tag, first + 1, count - 1);
    }
  }

  type Cells = seq<(Engine.Body, Engine.HeaderCell)>

  /** `clock_timestamp() + make_interval(secs => delay)`. */
  function DeliverAt(delay: int, now: int): int { now + delay * Engine.SECOND }

  /** One queue after the rows `cells` were inserted at the clock reading `now`. */
  function Sent(q: Engine.State, cells: Cells, deliverAt: int, now: int): Engine.State {
    Engine.Insert(q.(now := now), cells, deliverAt)
  }

  /** Each of the queues `names` gets the rows once; the others stay as they are. */
  function FanOut(queues: map<string, Engine.State>, names: set<string>, cells: Cells, deliverAt: int, now: int)
    : (r: map<string, Engine.State>)
    ensures r.Keys == queues.Keys
  {
    map n | n in queues :: if n in names then Sent(queues[n], cells, deliverAt, now) else queues[n]
  }

  ghost predicate FannedOut(queues: map<string, Engine.State>, after: map<string, Engine.State>, names: set<string>,
                            cells: Cells, deliverAt: int, now: int) {
    after == FanOut(queues, names, cells, deliverAt, now)
  }

  ghost predicate AllConserved(queues: map<string, Engine.State>) {
    forall n | n in queues :: Engine.Conserved(queues[n])
  }

  /** Each of the queues `names` has received the cells once, as its next rows; the others are as before. */
  ghost predicate Reached(queues: map<string, Engine.State>, after: map<string, Engine.State>, names: set<string>,
                          cells: Cells, deliverAt: int, now: int) {
    && after.Keys == queues.Keys
    && forall n | n in queues ::
         if n in names then Received(queues[n], after[n], cells, deliverAt, now) else after[n] == queues[n]
  }

  /** The cells stay hidden for `delay` seconds. */
  ghost predicate ReachedAfter(queues: map<string, Engine.State>, after: map<string, Engine.State>, names: set<string>,
                               cells: Cells, delay: int, now: int) {
    Reached(queues, after, names, cells, now + delay * 1_000_000, now)
  }

  lemma DelayedReach(queues: map<string, Engine.State>, after: map<string, Engine.State>, names: set<string>,
                     cells: Cells, delay: int, now: int)
    requires Reached(queues, after, names, cells, DeliverAt(delay, now), now)
    ensures ReachedAfter(queues, after, names, cells, delay, now)
  {
    assert DeliverAt(delay, now) == now + delay * 1_000_000;
  }

  lemma FanOutReaches(queues: map<string, Engine.State>, after: map<string, Engine.State>, names: set<string>,
                      cells: Cells, deliverAt: int, now: int)
    requires AllConserved(queues) && FannedOut(queues, after, names, cells, deliverAt, now)
    ensures AllConserved(after) && Reached(queues, after, names, cells, deliverAt, now)
  {
    FanOutConserves(queues, names, cells, deliverAt, now);
    forall n | n in queues
      ensures if n in names then Received(queues[n], after[n], cells, deliverAt, now) else after[n] == queues[n]
    {
      FanOutDelivers(queues, names, cells, deliverAt, now, n);
    }
  }

  /** A message received stays hidden until its time and is visible from then on. */
  lemma HiddenUntil(q: Engine.State, r: Engine.State, cells: Cells, deliverAt: int, now: int, id: nat, later: int)
    requires Received(q, r, cells, deliverAt, now) && Engine.InRange(id, q.nextId, q.nextId + |cells|)
    ensures id in r.rows && (Visible(r.rows[id], later) <==> deliverAt <= later)
  {
  }

  lemma FanOutStep(queues: map<string, Engine.State>, names: set<string>, name: string, cells: Cells,
                   deliverAt: int, now: int)
    requires name in queues && name !in names
    ensures var before := FanOut(queues, names, cells, deliverAt, now);
            && before[name] == queues[name]
            && before[name := Sent(queues[name], cells, deliverAt, now)]
            == FanOut(queues, names + {name}, cells, deliverAt, now)
  {
  }

  /** A fan-out keeps the books of every queue. */
  lemma FanOutConserves(queues: map<string, Engine.State>, names: set<string>, cells: Cells, deliverAt: int, now: int)
    requires forall n | n in queues :: Engine.Conserved(queues[n])
    ensures forall n | n in queues :: Engine.Conserved(FanOut(queues, names, cells, deliverAt, now)[n])
  {
    forall n | n in queues ensures Engine.Conserved(FanOut(queues, names, cells, deliverAt, now)[n]) {
      Engine.InsertGood(queues[n].(now := now), cells, deliverAt);
    }
  }

  /** The ids that a queue hands out when it is among `names`. */
  function NewIds(queues: map<string, Engine.State>, names: set<string>, name: string, count: nat): seq<nat> {
    if name in queues && name in names then Consecutive(queues[name].nextId, count) else []
  }

  // ----- ORDER BY queue_name -----

  /** A collation: every two different names are ordered one way. */
  ghost predicate StrictOrder(before: (string, string) -> bool) {
    && (forall x :: !before(x, x)) && (forall x, y | x != y :: before(x, y) || before(y, x))
    && forall x, y, z | before(x, y) && before(y, z) :: before(x, z)
  }

  predicate IsFirst(names: set<string>, name: string, before: (string, string) -> bool) {
    name in names && forall other | other in names && other != name :: before(name, other)
  }

  ghost predicate AllBefore(done: set<string>, todo: set<string>, before: (string, string) -> bool) {
    forall x, y | x in done && y in todo :: before(x, y)
  }

  lemma NextIsFirst(done: set<string>, todo: set<string>, name: string, before: (string, string) -> bool)
    requires AllBefore(done, todo, before) && IsFirst(todo, name, before)
    ensures AllBefore(done, {name}, before) && AllBefore(done + {name}, todo - {name}, before)
  {
  }

  lemma {:induction false} FirstExists(names: set<string>, before: (string, string) -> bool) returns (name: string)
    requires StrictOrder(before) && names != {}
    ensures IsFirst(names, name, before)
  {
    name :| name in names;
    var rest := names - {name};
    assert forall other | other in names && other != name :: other in rest;
    if rest != {} {
      var least := FirstExists(rest, before);
      if before(least, name) { name := least; }
    }
  }

  /** The rows come queue by queue, in the order of the names. */
  ghost predicate ByName(rows: seq<(string, nat)>, before: (string, string) -> bool) {
    forall i, j | 0 <= i <= j < |rows| :: rows[i].0 == rows[j].0 || before(rows[i].0, rows[j].0)
  }

  ghost predicate NamesIn(rows: seq<(string, nat)>, names: set<string>) {
    forall i | 0 <= i < |rows| :: rows[i].0 in names
  }

  lemma {:induction false} TaggedNames(name: string, first: nat, count: nat)
    ensures NamesIn(Tagged(name, first, count), {name})
    decreases count
  {
    if count > 0 { TaggedNames(name, first + 1, count - 1); }
  }

  lemma AppendByName(rows: seq<(string, nat)>, done: set<string>, name: string, first: nat, count: nat,
                        before: (string, string) -> bool)
    requires ByName(rows, before) && NamesIn(rows, done) && AllBefore(done, {name}, before)
    ensures ByName(rows + Tagged(name, first, count), before)
    ensures NamesIn(rows + Tagged(name, first, count), done + {name})
  {
    TaggedNames(name, first, count);
  }

  lemma NextName(names: set<string>, todo: set<string>, done: set<string>, name: string)
    requires todo !! done && todo + done == names && name in todo
    ensures (todo - {name}) !! (done + {name}) && (todo - {name}) + (done + {name}) == names
    ensures |done + {name}| == |done| + 1
  {
  }

  class Broker {
    const before: (string, string) -> bool
    var queues: map<string, Engine.State>
    var bindings: set<Binding>

    /** Bindings are validated and refer to existing queues, each with its books in order, and the collation
        is one. */
    ghost predicate Valid()
      reads this
    {
      && StrictOrder(before) && AllConserved(queues)
      && forall b | b in bindings :: ValidatePattern(b.pattern) == None && b.queueName in queues
    }

    constructor (before: (string, string) -> bool, queues: map<string, Engine.State>)
      requires StrictOrder(before) && AllConserved(queues)
      ensures Valid() && this.before == before && this.queues == queues && bindings == {}
    {
      this.before, this.queues, bindings := before, queues, {};
    }

    method BindTopic(pattern: string, queueName: string) returns (r: Engine.Result<(), RouteError>)
      requires Valid()
      modifies this`bindings
      ensures Valid()
      ensures r == if ValidatePattern(pattern).Some? then Engine.Err(BadPattern(ValidatePattern(pattern).value))
                   else if queueName == "" then Engine.Err(EmptyQueueName)
                   else if queueName !in queues then Engine.Err(NoSuchQueue)
                   else Engine.Ok(())
      ensures bindings == old(bindings) + if r.Ok? then {Binding(pattern, queueName)} else {}
    {
      var check := ValidatePattern(pattern);
      if check.Some? { return Engine.Err(BadPattern(check.value)); }
      if queueName == "" { return Engine.Err(EmptyQueueName); }
      if queueName !in queues { return Engine.Err(NoSuchQueue); }
      bindings := bindings + {Binding(pattern, queueName)};
      r := Engine.Ok(());
    }

    method UnbindTopic(pattern: string, queueName: string) returns (r: Engine.Result<bool, RouteError>)
      requires Valid()
      modifies this`bindings
      ensures Valid()
      ensures r == if pattern == "" then Engine.Err(BadPattern(EmptyText))
                   else if queueName == "" then Engine.Err(EmptyQueueName)
                   else Engine.Ok(Binding(pattern, queueName) in old(bindings))
      ensures bindings == old(bindings) - if r.Ok? then {Binding(pattern, queueName)} else {}
    {
      if pattern == "" { return Engine.Err(BadPattern(EmptyText)); }
      if queueName == "" { return Engine.Err(EmptyQueueName); }
      r := Engine.Ok(Binding(pattern, queueName) in bindings);
      bindings := bindings - {Binding(pattern, queueName)};
    }

    /** Each distinct queue with a matching binding gets the message once, all others stay as they
        were, and the count is the number of distinct queues that `test_routing` reports. */
    method SendTopic(key: string, body: Engine.Body, headers: Engine.HeaderCell, delay: int, now: int)
      returns (r: Engine.Result<nat, RouteError>)
      requires Valid()
      modifies this`queues
      ensures Valid()
      ensures match CheckSend(key, body, delay)
              case Some(e) => r == Engine.Err(e)
              case None =>
                var tested := TestRouting(bindings, key);
                tested.Ok? && r == Engine.Ok(|QueuesOf(tested.value)|)
      ensures r.Err? ==> queues == old(queues)
      ensures r.Ok? ==>
                ReachedAfter(old(queues), queues, Routes(bindings, key), [(body, headers)], delay, now)
    {
      var check := CheckSend(key, body, delay);
      if check.Some? { return Engine.Err(check.value); }
      TestedQueues(bindings, key);
      var n := Deliver(Routes(bindings, key), [(body, headers)], DeliverAt(delay, now), now);
      DelayedReach(old(queues), queues, Routes(bindings, key), [(body, headers)], delay, now);
      r := Engine.Ok(n);
    }

    /** The loop of `send_topic`. */
    method Deliver(names: set<string>, cells: Cells, deliverAt: int, now: int) returns (matched: nat)
      requires StrictOrder(before) && AllConserved(queues) && names <= queues.Keys
      modifies this`queues
      ensures matched == |names| && AllConserved(queues)
      ensures Reached(old(queues), queues, names, cells, deliverAt, now)
    {
      var todo, done := names, {};
      matched := 0;
      assert queues == FanOut(queues, {}, cells, deliverAt, now);
      while todo != {}
        invariant todo !! done && todo + done == names && matched == |done|
        invariant queues == FanOut(old(queues), done, cells, deliverAt, now)
        decreases todo
      {
        ghost var first := FirstExists(todo, before);
        var name :| name in todo && IsFirst(todo, name, before);
        NextName(names, todo, done, name);
        FanOutStep(old(queues), done, name, cells, deliverAt, now);
        queues := queues[name := Sent(queues[name], cells, deliverAt, now)];
        matched := matched + 1;
        todo, done := todo - {name}, done + {name};
      }
      FanOutReaches(old(queues), queues, names, cells, deliverAt, now);
    }

    /** The whole batch goes once to each matching queue; the rows list the queues in the order of their
        names, each with its new ids in the order of the messages. */
    method SendBatchTopic(key: string, bodies: seq<Engine.Body>, headerList: Option<seq<Engine.HeaderCell>>,
                          deliverAt: int, now: int)
      returns (r: Engine.Result<seq<(string, nat)>, RouteError>)
      requires Valid()
      modifies this`queues
      ensures Valid()
      ensures match ValidateKey(key)
              case Some(e) => r == Engine.Err(BadKey(e))
              case None =>
                if bodies == [] then r == Engine.Err(BadBatch(Engine.EmptyBatch))
                else if headerList.Some? && |headerList.value| != |bodies| then
                  r == Engine.Err(BadBatch(Engine.HeaderCountMismatch))
                else r.Ok?
      ensures r.Err? ==> queues == old(queues)
      ensures r.Ok? ==>
                (headerList.Some? ==> |headerList.value| == |bodies|)
                && Reached(old(queues), queues, Routes(bindings, key), Engine.Paired(bodies, headerList),
                           deliverAt, now)
      ensures r.Ok? ==>
                ByName(r.value, before)
                && forall n :: RowsOf(r.value, n) == NewIds(old(queues), Routes(bindings, key), n, |bodies|)
    {
      var check := ValidateKey(key);
      if check.Some? { return Engine.Err(BadKey(check.value)); }
      var batch := Engine.ValidateBatch(bodies, headerList);
      if batch.Err? { return Engine.Err(BadBatch(batch.error)); }
      Engine.ValidBatchAligned(bodies, headerList);
      var rows := DeliverBatch(Routes(bindings, key), Engine.Unnest(bodies, headerList), deliverAt, now);
      r := Engine.Ok(rows);
    }

    /** The loop of `send_batch_topic`. */
    method DeliverBatch(names: set<string>, cells: Cells, deliverAt: int, now: int) returns (rows: seq<(string, nat)>)
      requires StrictOrder(before) && AllConserved(queues) && names <= queues.Keys
      modifies this`queues
      ensures AllConserved(queues) && Reached(old(queues), queues, names, cells, deliverAt, now)
      ensures ByName(rows, before)
      ensures forall n :: RowsOf(rows, n) == NewIds(old(queues), names, n, |cells|)
    {
      var todo, done := names, {};
      rows := [];
      assert queues == FanOut(queues, {}, cells, deliverAt, now);
      while todo != {}
        invariant todo !! done && todo + done == names
        invariant queues == FanOut(old(queues), done, cells, deliverAt, now)
        invariant forall n :: RowsOf(rows, n) == NewIds(old(queues), done, n, |cells|)
        invariant ByName(rows, before) && NamesIn(rows, done)
        invariant AllBefore(done, todo, before)
        decreases todo
      {
        ghost var first := FirstExists(todo, before);
        var name :| name in todo && IsFirst(todo, name, before);
        FanOutStep(old(queues), done, name, cells, deliverAt, now);
        AppendRows(old(queues), done, name, |cells|, rows);
        NextIsFirst(done, todo, name, before);
        AppendByName(rows, done, name, queues[name].nextId, |cells|, before);
        rows := rows + Tagged(name, queues[name].nextId, |cells|);
        queues := queues[name := Sent(queues[name], cells, deliverAt, now)];
        todo, done := todo - {name}, done + {name};
      }
      FanOutReaches(old(queues), queues, names, cells, deliverAt, now);
    }
  }

  lemma AppendRows(queues: map<string, Engine.State>, done: set<string>, name: string, count: nat,
                   rows: seq<(string, nat)>)
    requires name in queues && name !in done
    requires forall n :: RowsOf(rows, n) == NewIds(queues, done, n, count)
    ensures forall n ::
              RowsOf(rows + Tagged(name, queues[name].nextId, count), n) == NewIds(queues, done + {name}, n, count)
  {
    var more := Tagged(name, queues[name].nextId, count);
    forall n ensures RowsOf(rows + more, n) == NewIds(queues, done + {name}, n, count) {
      RowsOfConcat(rows, more, n);
      RowsOfTagged(name, queues[name].nextId, count, n);
    }
  }

  // ----- what routing means -----

  /** A queue is routed to exactly when one of its bindings matches the key segment by segment. */
  lemma RoutedBySegments(bindings: set<Binding>, key: string, name: string)
    requires ValidateKey(key) == None
    requires forall b | b in bindings :: ValidatePattern(b.pattern) == None
                                         && forall seg | seg in Split(b.pattern) :: WholeSegment(seg)
    ensures name in Routes(bindings, key) <==>
              exists b :: b in bindings && b.queueName == name
                          && SegmentMatch(PatternSegments(Split(b.pattern)), Split(key))
  {
    forall b | b in bindings
      ensures Routed(b, key) <==> SegmentMatch(PatternSegments(Split(b.pattern)), Split(key))
    {
      CompiledMatchesSegments(b.pattern, key);
    }
  }

  /** `test_routing` refuses an invalid key for the key's own error, and otherwise reports exactly the
      bindings that can be matched with the segments of the key. */
  lemma TestRoutingExactly(bindings: set<Binding>, key: string)
    ensures match ValidateKey(key)
            case Some(e) => TestRouting(bindings, key) == Engine.Err(e)
            case None =>
              TestRouting(bindings, key).Ok?
              && forall b :: b in TestRouting(bindings, key).value
                             <==> b in bindings && SpanMatch(Split(b.pattern), Split(key))
  {
    forall b | b in bindings ensures Routed(b, key) <==> SpanMatch(Split(b.pattern), Split(key)) {
      CompiledMatchesSpans(b.pattern, key);
    }
  }

  /** A queue is routed to exactly when one of its bindings, with wildcards anywhere, can be matched with
      the segments of the key. */
  lemma RoutedBySpans(bindings: set<Binding>, key: string, name: string)
    ensures name in Routes(bindings, key) <==>
              exists b :: b in bindings && b.queueName == name && SpanMatch(Split(b.pattern), Split(key))
  {
    forall b | b in bindings ensures Routed(b, key) <==> SpanMatch(Split(b.pattern), Split(key)) {
      CompiledMatchesSpans(b.pattern, key);
    }
  }
}
