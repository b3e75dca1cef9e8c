/** The throttled insert notifications of all queues. */
module Notifications {
  import opened Rows

  const MILLISECOND: int := 1000

  /** A row of `notify_insert_throttle`. */
  datatype Throttle = Throttle(intervalMs: nat, lastNotified: int)

  datatype Error = NegativeInterval | NoSuchQueue | NotEnabled

  /** The `WHERE` clause of the trigger's update. */
  predicate Due(t: Throttle, now: int) {
    t.intervalMs == 0 || now - t.lastNotified >= t.intervalMs * MILLISECOND
  }

  // ----- steps -----

  datatype Event =
    | Enabled(name: string, intervalMs: int)
    | Disabled(name: string)
    | Updated(name: string, intervalMs: int)
    | Inserted(name: string, now: int)

  type Throttles = map<string, Throttle>

  /** A successful enable or update starts the throttle of a queue afresh, as if last notified at the epoch. */
  predicate Resets(queues: set<string>, t: Throttles, e: Event, name: string) {
    && e.name == name && name in queues
    && ((e.Enabled? && e.intervalMs >= 0) || (e.Updated? && e.intervalMs >= 0 && name in t))
  }

  function Step(queues: set<string>, t: Throttles, e: Event): Throttles {
    match e
    case Disabled(name) => t - {name}
    case Inserted(name, now) =>
      if name in t && Due(t[name], now) then t[name := t[name].(lastNotified := now)] else t
    case _ => if Resets(queues, t, e, e.name) then t[e.name := Throttle(e.intervalMs, 0)] else t
  }

  class Notifier {
    var queues: set<string>
    var throttles: map<string, Throttle>

    ghost predicate Valid()
      reads this
    {
      throttles.Keys <= queues
    }

    constructor (queues: set<string>)
      ensures Valid() && this.queues == queues && throttles == map[]
    {
      this.queues, throttles := queues, map[];
    }

    method Enable(name: string, intervalMs: int) returns (error: Option<Error>)
      requires Valid()
      modifies this`throttles
      ensures Valid()
      ensures error == if intervalMs < 0 then Some(NegativeInterval)
                       else if name !in queues then Some(NoSuchQueue) else None
      ensures throttles == Step(queues, old(throttles), Enabled(name, intervalMs))
      ensures throttles == if error == None then old(throttles)[name := Throttle(intervalMs, 0)] else old(throttles)
    {
      if intervalMs < 0 { return Some(NegativeInterval); }
      if name !in queues { return Some(NoSuchQueue); }
      Disable(name);
      throttles := throttles[name := Throttle(intervalMs, 0)];
      error := None;
    }

    method Disable(name: string)
      requires Valid()
      modifies this`throttles
      ensures Valid() && throttles == Step(queues, old(throttles), Disabled(name)) == old(throttles) - {name}
    {
      throttles := throttles - {name};
    }

    method Update(name: string, intervalMs: int) returns (error: Option<Error>)
      requires Valid()
      modifies this`throttles
      ensures Valid()
      ensures error == if intervalMs < 0 then Some(NegativeInterval) else if name !in queues then Some(NoSuchQueue)
                       else if name !in old(throttles) then Some(NotEnabled) else None
      ensures throttles == Step(queues, old(throttles), Updated(name, intervalMs))
      ensures throttles == if error == None then old(throttles)[name := Throttle(intervalMs, 0)] else old(throttles)
    {
      if intervalMs < 0 { return Some(NegativeInterval); }
      if name !in queues { return Some(NoSuchQueue); }
      if name !in throttles { return Some(NotEnabled); }
      throttles := throttles[name := Throttle(intervalMs, 0)];
      error := None;
    }

    /** `notify_queue_listeners`, fired by an insert into the table of the queue `name`. */
    method OnInsert(name: string, now: int) returns (notified: bool)
      requires Valid()
      modifies this`throttles
      ensures Valid() && throttles == Step(queues, old(throttles), Inserted(name, now))
      ensures notified <==>
                name in old(throttles)
                && var t := old(throttles)[name];
                   t.intervalMs == 0 || now - t.lastNotified >= t.intervalMs * 1000
      ensures throttles == if notified then old(throttles)[name := old(throttles)[name].(lastNotified := now)]
                           else old(throttles)
    {
      var updated := 0;
      if name in throttles && Due(throttles[name], now) {
        throttles := throttles[name := throttles[name].(lastNotified := now)];
        updated := 1;
      }
      notified := updated > 0;
    }
  }

  // ----- runs -----

  /** The throttles after the first `k` events of a run that begins with nothing enabled. */
  function At(queues: set<string>, run: seq<Event>, k: nat): Throttles
    requires k <= |run|
  {
    if k == 0 then map[] else Step(queues, At(queues, run, k - 1), run[k - 1])
  }

  /** Event `k` is an insert into the queue `name` that notifies. */
  predicate NotifiesAt(queues: set<string>, run: seq<Event>, k: nat, name: string)
    requires k < |run|
  {
    run[k].Inserted? && run[k].name == name
    && var t := At(queues, run, k); name in t && Due(t[name], run[k].now)
  }

  // ----- what is in force, told by the events alone -----

  /** The queue has been enabled before event `k`, and not disabled since. */
  ghost predicate EnabledBefore(queues: set<string>, run: seq<Event>, k: nat, name: string)
    requires k <= |run|
  {
    exists e: nat :: e < k && Enables(queues, run[e], name) && forall d: nat | e < d < k :: run[d] != Disabled(name)
  }

  predicate Enables(queues: set<string>, e: Event, name: string) {
    e.Enabled? && e.name == name && e.intervalMs >= 0 && name in queues
  }

  /** Event `e` sets the interval: it enables the queue, or updates it while it is enabled. */
  ghost predicate Sets(queues: set<string>, run: seq<Event>, e: nat, name: string)
    requires e < |run|
  {
    Enables(queues, run[e], name)
    || (run[e].Updated? && run[e].name == name && run[e].intervalMs >= 0 && name in queues
        && EnabledBefore(queues, run, e, name))
  }

  /** Before event `k`, event `e` is the latest one that concerns the settings of the queue, and it has set
      the interval to `ms`. */
  ghost predicate InForce(queues: set<string>, run: seq<Event>, e: nat, k: nat, name: string, ms: int)
    requires k <= |run|
  {
    && e < k && Sets(queues, run, e, name) && run[e].intervalMs == ms
    && forall d: nat | e < d < k :: run[d] != Disabled(name) && !Sets(queues, run, d, name)
  }

  /** A queue has a throttle exactly when it has been enabled and not disabled since, whatever else happens
      to it and to the other queues. */
  lemma {:induction false} ThrottledIffEnabled(queues: set<string>, run: seq<Event>, k: nat, name: string)
    requires k <= |run|
    ensures name in At(queues, run, k) <==> EnabledBefore(queues, run, k, name)
    decreases k
  {
    if k > 0 {
      var j: nat := k - 1;
      ThrottledIffEnabled(queues, run, j, name);
      if Enables(queues, run[j], name) {
        assert EnabledBefore(queues, run, k, name);
      } else if run[j] == Disabled(name) {
        assert !EnabledBefore(queues, run, k, name);
      } else if EnabledBefore(queues, run, j, name) {
        var e: nat :| e < j && Enables(queues, run[e], name) && forall d: nat | e < d < j :: run[d] != Disabled(name);
        assert EnabledBefore(queues, run, k, name);
      }
    }
  }

  /** The events that start a throttle afresh are those that set the interval. */
  lemma SetsResets(queues: set<string>, run: seq<Event>, e: nat, name: string)
    requires e < |run|
    ensures Sets(queues, run, e, name) <==> Resets(queues, At(queues, run, e), run[e], name)
  {
    ThrottledIffEnabled(queues, run, e, name);
  }

  /** The interval of a throttle is the one that is in force. */
  lemma {:induction false} IntervalInForce(queues: set<string>, run: seq<Event>, e: nat, k: nat, name: string, ms: int)
    requires k <= |run| && InForce(queues, run, e, k, name, ms)
    ensures name in At(queues, run, k) && At(queues, run, k)[name].intervalMs == ms
    decreases k
  {
    var j: nat := k - 1;
    SetsResets(queues, run, j, name);
    if e < j {
      IntervalInForce(queues, run, e, j, name, ms);
    }
  }

  /** Whatever is enabled has an interval in force. */
  lemma {:induction false} SomeInForce(queues: set<string>, run: seq<Event>, k: nat, name: string) returns (e: nat)
    requires k <= |run| && EnabledBefore(queues, run, k, name)
    ensures name in At(queues, run, k)
    ensures e < k && InForce(queues, run, e, k, name, At(queues, run, k)[name].intervalMs)
    decreases k
  {
    ThrottledIffEnabled(queues, run, k, name);
    e := k - 1;
    SetsResets(queues, run, e, name);
    if !Sets(queues, run, e, name) {
      var j := e;
      ThrottledIffEnabled(queues, run, j, name);
      e := SomeInForce(queues, run, j, name);
    }
  }

  /** No event strictly between `i` and `j` sets the interval of the queue. */
  ghost predicate NoReset(queues: set<string>, run: seq<Event>, i: int, j: nat, name: string)
    requires j <= |run|
  {
    forall k: nat | i < k < j :: !Sets(queues, run, k, name)
  }

  ghost predicate MonotoneClock(run: seq<Event>) {
    forall i, j | 0 <= i <= j < |run| && run[i].Inserted? && run[j].Inserted? :: 0 <= run[i].now <= run[j].now
  }

  /** After a notification, as long as nothing resets it, a throttle keeps its interval and records
      that notification or a later one. */
  lemma {:induction false} RecordedSince(queues: set<string>, run: seq<Event>, i: nat, k: nat, name: string)
    requires i < k <= |run| && MonotoneClock(run) && NotifiesAt(queues, run, i, name)
    requires NoReset(queues, run, i, k, name) && name in At(queues, run, k)
    ensures var t := At(queues, run, k)[name];
            t.lastNotified >= run[i].now && t.intervalMs == At(queues, run, i)[name].intervalMs
    decreases k
  {
    if i < k - 1 {
      SetsResets(queues, run, k - 1, name);
      assert !Sets(queues, run, k - 1, name);
      RecordedSince(queues, run, i, k - 1, name);
    }
  }

  /** Event `i`, the last reset behind it, notified at the time `last`. */
  ghost predicate NotifiedSince(queues: set<string>, run: seq<Event>, i: nat, k: nat, name: string, last: int)
    requires k <= |run|
  {
    i < k && NotifiesAt(queues, run, i, name) && NoReset(queues, run, i, k, name) && run[i].now == last
  }

  lemma StillNotified(queues: set<string>, run: seq<Event>, i: nat, k: nat, name: string, last: int)
    requires k < |run| && NotifiedSince(queues, run, i, k, name, last)
    requires !Sets(queues, run, k, name)
    ensures NotifiedSince(queues, run, i, k + 1, name, last)
  {
  }

  lemma RecordStep(queues: set<string>, t: Throttles, e: Event, name: string)
    requires name in Step(queues, t, e) && !Resets(queues, t, e, name)
    ensures name in t
    ensures Step(queues, t, e)[name] == if e.Inserted? && e.name == name && Due(t[name], e.now)
                                        then t[name].(lastNotified := e.now) else t[name]
  {
  }

  /** What a throttle records is the epoch, or a notification since its last reset. */
  lemma {:induction false} RecordIsSome(queues: set<string>, run: seq<Event>, k: nat, name: string)
    requires k <= |run| && name in At(queues, run, k)
    ensures var last := At(queues, run, k)[name].lastNotified;
            last == 0 || exists i: nat :: NotifiedSince(queues, run, i, k, name, last)
    decreases k
  {
    if k > 0 {
      var t, e, last := At(queues, run, k - 1), run[k - 1], At(queues, run, k)[name].lastNotified;
      SetsResets(queues, run, k - 1, name);
      if !Resets(queues, t, e, name) {
        RecordStep(queues, t, e, name);
        if NotifiesAt(queues, run, k - 1, name) {
          assert NotifiedSince(queues, run, k - 1, k, name, last);
        } else {
          var earlier: nat := k - 1;
          RecordIsSome(queues, run, earlier, name);
          if i: nat :| NotifiedSince(queues, run, i, earlier, name, last) {
            StillNotified(queues, run, i, earlier, name, last);
          }
        }
      }
    }
  }

  /** In every run with a monotone clock, whatever happens to other queues, two notifications of one
      queue with no event in between that sets its interval are at least that interval apart. */
  lemma NotificationsSpaced(queues: set<string>, run: seq<Event>, i: nat, j: nat, name: string, e: nat, ms: int)
    requires i < j < |run| && MonotoneClock(run) && NoReset(queues, run, i, j, name)
    requires NotifiesAt(queues, run, i, name) && NotifiesAt(queues, run, j, name)
    requires InForce(queues, run, e, j, name, ms)
    ensures run[j].now - run[i].now >= ms * MILLISECOND
  {
    RecordedSince(queues, run, i, j, name);
    IntervalInForce(queues, run, e, j, name, ms);
  }

  /** The interval has passed since the epoch and since every notification after the last reset. */
  ghost predicate Elapsed(queues: set<string>, run: seq<Event>, j: nat, name: string, interval: int)
    requires j < |run| && run[j].Inserted?
  {
    interval <= run[j].now
    && forall i: nat | i < j && NotifiesAt(queues, run, i, name) && NoReset(queues, run, i, j, name) ::
         run[j].now - run[i].now >= interval
  }

  lemma NotifiesWhenElapsed(queues: set<string>, run: seq<Event>, j: nat, name: string, e: nat, ms: int)
    requires j < |run| && MonotoneClock(run) && run[j].Inserted? && run[j].name == name
    requires InForce(queues, run, e, j, name, ms)
    ensures NotifiesAt(queues, run, j, name) <==> Elapsed(queues, run, j, name, ms * MILLISECOND)
  {
    IntervalInForce(queues, run, e, j, name, ms);
    RecordIsSome(queues, run, j, name);
    if NotifiesAt(queues, run, j, name) {
      forall i: nat | i < j && NotifiesAt(queues, run, i, name) && NoReset(queues, run, i, j, name)
        ensures run[j].now - run[i].now >= ms * MILLISECOND
      {
        NotificationsSpaced(queues, run, i, j, name, e, ms);
      }
    }
  }

  /** An insert notifies exactly when the queue has been enabled and not disabled since, and the interval
      in force has elapsed, whatever happens to other queues; with interval zero every insert notifies. */
  lemma NotifiesIffElapsed(queues: set<string>, run: seq<Event>, j: nat, name: string)
    requires j < |run| && MonotoneClock(run) && run[j].Inserted? && run[j].name == name
    ensures NotifiesAt(queues, run, j, name) <==>
              exists e: nat, ms :: InForce(queues, run, e, j, name, ms) && Elapsed(queues, run, j, name, ms * 1000)
    ensures (exists e: nat, ms :: InForce(queues, run, e, j, name, ms)) <==> EnabledBefore(queues, run, j, name)
  {
    ThrottledIffEnabled(queues, run, j, name);
    if EnabledBefore(queues, run, j, name) {
      var e := SomeInForce(queues, run, j, name);
      NotifiesWhenElapsed(queues, run, j, name, e, At(queues, run, j)[name].intervalMs);
    }
    forall e: nat, ms | InForce(queues, run, e, j, name, ms)
      ensures EnabledBefore(queues, run, j, name)
      ensures NotifiesAt(queues, run, j, name) <==> Elapsed(queues, run, j, name, ms * 1000)
    {
      IntervalInForce(queues, run, e, j, name, ms);
      NotifiesWhenElapsed(queues, run, j, name, e, ms);
    }
  }
}
