/** The rows of one queue table and the FIFO groups that their headers put them in. */
module Rows {

  datatype Option<+T> = None | Some(value: T)

  /** The `headers` column, as the text that `->>` extracts from it. */
  type Headers = map<string, string>

  /** One row of a queue table. Times are microseconds since the epoch. */
  datatype Message = Message(
    readCt: nat,
    enqueuedAt: int,
    lastReadAt: Option<int>,
    vt: int,
    body: Option<string>,
    headers: Option<Headers>)

  /** A queue table, keyed by its primary key `msg_id`. */
  type Table = map<nat, Message>

  const GROUP_HEADER := "x-pgmq-group"
  const DEFAULT_GROUP := "_default_fifo_group"

  /** `COALESCE(headers->>'x-pgmq-group', '_default_fifo_group')`. */
  function GroupOf(m: Message): string {
    match m.headers
    case Some(h) => if GROUP_HEADER in h then h[GROUP_HEADER] else DEFAULT_GROUP
    case None => DEFAULT_GROUP
  }

  predicate Visible(m: Message, now: int) { m.vt <= now }

  function VisibleIds(q: Table, now: int): set<nat> {
    set id | id in q && Visible(q[id], now)
  }

  function GroupIds(q: Table, g: string): set<nat> {
    set id | id in q && GroupOf(q[id]) == g
  }

  /** The visible messages of a group. */
  function Ready(q: Table, g: string, now: int): set<nat> {
    set id | id in q && GroupOf(q[id]) == g && Visible(q[id], now)
  }

  /** `MIN(msg_id)` over a set that is not empty. */
  function Min(s: set<nat>): (m: nat)
    requires s != {}
    ensures m in s && forall x | x in s :: m <= x
  {
    HasMin(s);
    var m :| m in s && forall x | x in s :: m <= x;
    m
  }

  lemma HasMin(s: set<nat>)
    requires s != {}
    ensures exists m :: m in s && forall x | x in s :: m <= x
  {
    var m := Least(s);
  }

  lemma {:induction false} Least(s: set<nat>) returns (m: nat)
    requires s != {}
    ensures m in s && forall x | x in s :: m <= x
  {
    m :| m in s;
    var rest := s - {m};
    if rest != {} {
      var y := Least(rest);
      assert forall x | x in s :: x == m || x in rest;
      if y < m { m := y; }
    } else {
      assert forall x | x in s :: x == m || x in rest;
    }
  }

  /** The ids of a set in ascending order. */
  function Ascending(s: set<nat>): (l: seq<nat>)
    ensures forall x :: x in l <==> x in s
    ensures forall i, j | 0 <= i < j < |l| :: l[i] < l[j]
  {
    if s == {} then [] else [Min(s)] + Ascending(s - {Min(s)})
  }

  /** `m` is the oldest message of its group, visible or not. */
  ghost predicate IsHead(q: Table, m: nat) {
    m in q && forall j | j in q && GroupOf(q[j]) == GroupOf(q[m]) :: m <= j
  }
}
