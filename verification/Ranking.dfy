/** Ranked selection, as the grouped reads use it: a common table expression whose rows carry a
    sort key, `ROW_NUMBER() OVER (ORDER BY key)` on top of it, and a cut at the requested quantity. */
module Ranking {

  /** The two sort columns of a ranked query. */
  datatype Rank = Rank(major: nat, minor: nat)

  /** The rows of a ranked query: message id to sort key. */
  type Candidates = map<nat, Rank>

  predicate Before(a: Rank, b: Rank) {
    a.major < b.major || (a.major == b.major && a.minor < b.minor)
  }

  /** No two rows share a sort key, so `ROW_NUMBER()` has no ties to break. */
  ghost predicate Distinct(c: Candidates) {
    forall i, j | i in c && j in c && i != j :: c[i] != c[j]
  }

  function Earlier(c: Candidates, id: nat): set<nat>
    requires id in c
  {
    set j | j in c && Before(c[j], c[id])
  }

  /** `ROW_NUMBER() OVER (ORDER BY major, minor)`. */
  function RowNumber(c: Candidates, id: nat): nat
    requires id in c
  {
    |Earlier(c, id)| + 1
  }

  /** `WHERE overall_rank <= qty`. */
  function First(c: Candidates, qty: nat): (ids: set<nat>)
    ensures ids <= c.Keys
  {
    set id | id in c && RowNumber(c, id) <= qty
  }

  /** `ROW_NUMBER() OVER (ORDER BY msg_id)` within a set of ids. */
  function Position(s: set<nat>, x: nat): nat {
    |Below(s, x)| + 1
  }

  function Below(s: set<nat>, x: nat): set<nat> {
    set k | k in s && k < x
  }

  ghost predicate DownClosed(c: Candidates, s: set<nat>) {
    forall i, j | i in s && i in c && j in c && Before(c[j], c[i]) :: j in s
  }

  lemma {:induction false} SubsetCard<T>(a: set<T>, b: set<T>)
    requires a <= b
    ensures |a| <= |b|
    ensures a != b ==> |a| < |b|
  {
    if a == {} {
    } else {
      var x :| x in a;
      SubsetCard(a - {x}, b - {x});
    }
  }

  /** Positions grow strictly with the id. */
  lemma PositionMonotone(s: set<nat>, x: nat, y: nat)
    requires x in s && x < y
    ensures Position(s, x) < Position(s, y)
  {
    assert x in Below(s, y) && x !in Below(s, x);
    SubsetCard(Below(s, x), Below(s, y));
  }

  predicate IsLast(c: Candidates, x: nat) {
    x in c && forall j | j in c && j != x :: Before(c[j], c[x])
  }

  /** Every set of ranked rows has a last one. */
  lemma {:induction false} HasLast(c: Candidates) returns (x: nat)
    requires Distinct(c) && c != map[]
    ensures IsLast(c, x)
  {
    x :| x in c;
    var rest := c - {x};
    if rest == map[] {
      assert c.Keys - {x} == {};
      assert forall j | j in c && j != x :: j in c.Keys - {x};
    } else {
      var y := HasLast(rest);
      assert y in c && c[y] != c[x];
      forall j | j in c && j != x && j != y ensures Before(c[j], c[y]) { assert j in rest; }
      if Before(c[x], c[y]) { x := y; }
    }
  }

  /** The row number is strictly monotone in the key, so a cut is closed towards smaller keys. */
  lemma RowNumberMonotone(c: Candidates, i: nat, j: nat)
    requires i in c && j in c && Before(c[i], c[j])
    ensures RowNumber(c, i) < RowNumber(c, j)
  {
    assert i in Earlier(c, j) && i !in Earlier(c, i);
    SubsetCard(Earlier(c, i), Earlier(c, j));
  }

  lemma EarlierInFirst(c: Candidates, qty: nat, i: nat, j: nat)
    requires i in c && j in First(c, qty) && Before(c[i], c[j])
    ensures i in First(c, qty)
  {
    RowNumberMonotone(c, i, j);
  }

  lemma FirstDownClosed(c: Candidates, qty: nat)
    ensures DownClosed(c, First(c, qty))
  {
    forall i, j | i in First(c, qty) && i in c && j in c && Before(c[j], c[i])
      ensures j in First(c, qty)
    {
      RowNumberMonotone(c, j, i);
    }
  }

  /** Dropping the last row leaves the other row numbers alone, and its own number is the count. */
  lemma LastRowNumber(c: Candidates, x: nat)
    requires IsLast(c, x)
    ensures RowNumber(c, x) == |c|
    ensures forall j | j in c && j != x :: RowNumber(c - {x}, j) == RowNumber(c, j)
  {
    assert Earlier(c, x) == c.Keys - {x};
    forall j | j in c && j != x ensures RowNumber(c - {x}, j) == RowNumber(c, j) {
      assert !Before(c[x], c[j]);
      assert Earlier(c - {x}, j) == Earlier(c, j);
    }
  }

  lemma FirstWithoutLast(c: Candidates, x: nat, qty: nat)
    requires IsLast(c, x)
    ensures First(c, qty) == First(c - {x}, qty) + if |c| <= qty then {x} else {}
  {
    LastRowNumber(c, x);
    forall j | j in c ensures j in First(c, qty) <==> j in First(c - {x}, qty) + if |c| <= qty then {x} else {} {
      if j != x { assert RowNumber(c - {x}, j) == RowNumber(c, j); }
    }
  }

  /** The cut at `qty` holds `min(qty, count)` rows. */
  lemma {:induction false} FirstSize(c: Candidates, qty: nat)
    requires Distinct(c)
    ensures |First(c, qty)| == if qty < |c| then qty else |c|
    decreases |c|
  {
    if c == map[] {
      assert First(c, qty) == {};
    } else {
      var x := HasLast(c);
      var rest := c - {x};
      assert rest.Keys == c.Keys - {x};
      FirstSize(rest, qty);
      FirstWithoutLast(c, x, qty);
      assert x !in First(rest, qty);
    }
  }

  /** The cut is the only set of its size that is closed towards smaller keys. */
  lemma FirstUnique(c: Candidates, qty: nat, s: set<nat>)
    requires Distinct(c) && s <= c.Keys && DownClosed(c, s)
    requires |s| == if qty < |c| then qty else |c|
    ensures s == First(c, qty)
  {
    var f := First(c, qty);
    FirstSize(c, qty);
    FirstDownClosed(c, qty);
    if i :| i in s && i !in f {
      forall j | j in f ensures j in s {
        assert i != j && c[i] != c[j];
        assert !Before(c[i], c[j]);
      }
      SubsetCard(f, s);
      assert false;
    }
    SubsetCard(s, f);
  }

  /** `d` holds some of the rows of `c`, with the same keys. */
  ghost predicate Restricts(d: Candidates, c: Candidates) {
    forall id | id in d :: id in c && d[id] == c[id]
  }

  /** Leaving out rows beyond a full cut does not change the cut. */
  lemma CutOfRestriction(d: Candidates, c: Candidates, qty: nat)
    requires Distinct(c) && Restricts(d, c) && First(c, qty) <= d.Keys
    requires d.Keys == c.Keys || qty <= |c|
    ensures First(d, qty) == First(c, qty)
  {
    var s := First(c, qty);
    FirstSize(c, qty);
    FirstDownClosed(c, qty);
    SubsetCard(s, d.Keys);
    SubsetCard(d.Keys, c.Keys);
    FirstUnique(d, qty, s);
  }

  lemma FirstIsAll(c: Candidates)
    requires Distinct(c)
    ensures First(c, |c|) == c.Keys
  {
    FirstSize(c, |c|);
    SubsetCard(First(c, |c|), c.Keys);
  }

  /** A query that leaves rows out is told apart by some quantity. */
  lemma CutsAgreeIffSame(d: Candidates, c: Candidates)
    requires Distinct(c) && Restricts(d, c)
    ensures (forall qty: nat :: First(d, qty) == First(c, qty)) <==> d == c
  {
    FirstIsAll(c);
    if d != c {
      assert d.Keys != c.Keys;
      assert First(d, |c|) != First(c, |c|);
    }
  }

  /** Rows in strictly ascending ORDER BY order. */
  ghost predicate Sorted(c: Candidates, l: seq<nat>) {
    && (forall x | x in l :: x in c)
    && (forall i, j | 0 <= i < j < |l| :: Before(c[l[i]], c[l[j]]))
  }

  lemma SortedConcat(c: Candidates, a: seq<nat>, b: seq<nat>)
    requires Sorted(c, a) && Sorted(c, b)
    requires forall x, y | x in a && y in b :: Before(c[x], c[y])
    ensures Sorted(c, a + b)
  {
    var l := a + b;
    forall i, j | 0 <= i < j < |l| ensures Before(c[l[i]], c[l[j]]) {
      assert l[i] in a || l[i] in b;
      if i < |a| <= j { assert l[i] in a && l[j] in b; }
    }
  }

  /** A listing of all the rows in ORDER BY order. */
  ghost predicate Lists(c: Candidates, l: seq<nat>) {
    Sorted(c, l) && forall id | id in c :: id in l
  }

  function ToSet(l: seq<nat>): set<nat> { set x | x in l }

  function Take(l: seq<nat>, n: nat): seq<nat> { if n < |l| then l[..n] else l }

  lemma {:induction false} ListCard(l: seq<nat>)
    requires forall i, j | 0 <= i < j < |l| :: l[i] != l[j]
    ensures |ToSet(l)| == |l|
  {
    if l == [] {
    } else {
      ListCard(l[1..]);
      assert ToSet(l) == ToSet(l[1..]) + {l[0]};
    }
  }

  lemma PrefixDownClosed(c: Candidates, l: seq<nat>, qty: nat)
    requires Lists(c, l)
    ensures DownClosed(c, ToSet(Take(l, qty)))
  {
    var p := Take(l, qty);
    forall i, j | i in ToSet(p) && i in c && j in c && Before(c[j], c[i]) ensures j in ToSet(p) {
      var a :| 0 <= a < |p| && p[a] == i;
      var b :| 0 <= b < |l| && l[b] == j;
      assert l[a] == i;
      assert b < a;
      assert p[b] == j;
    }
  }

  /** The cut by row number is exactly a prefix of the ordered listing. */
  lemma FirstIsPrefix(c: Candidates, l: seq<nat>, qty: nat)
    requires Distinct(c) && Lists(c, l)
    ensures First(c, qty) == ToSet(Take(l, qty))
  {
    var p := Take(l, qty);
    assert forall i, j | 0 <= i < j < |l| :: l[i] != l[j];
    ListCard(l);
    ListCard(p);
    assert ToSet(l) == c.Keys;
    PrefixDownClosed(c, l, qty);
    FirstUnique(c, qty, ToSet(p));
  }

  function Last(c: Candidates): (x: nat)
    requires Distinct(c) && c != map[]
    ensures IsLast(c, x)
  {
    LastExists(c);
    var x :| x in c && IsLast(c, x);
    x
  }

  /** The ids of all rows in ORDER BY order. */
  function OrderBy(c: Candidates): (l: seq<nat>)
    requires Distinct(c)
    ensures Lists(c, l)
    decreases |c|
  {
    if c == map[] then []
    else
      var x := Last(c);
      var rest := OrderBy(c - {x});
      AppendLast(c, x, rest);
      rest + [x]
  }

  lemma LastExists(c: Candidates)
    requires Distinct(c) && c != map[]
    ensures exists x :: x in c && IsLast(c, x)
  {
    var x := HasLast(c);
    assert IsLast(c, x);
  }

  lemma AppendLast(c: Candidates, x: nat, rest: seq<nat>)
    requires IsLast(c, x)
    requires Lists(c - {x}, rest)
    ensures Lists(c, rest + [x])
  {
    var l, d := rest + [x], c - {x};
    forall i, j | 0 <= i < j < |l| ensures l[i] in c && l[j] in c && Before(c[l[i]], c[l[j]]) {
      assert l[i] == rest[i] && rest[i] in rest && rest[i] in d;
      if j < |rest| { assert l[j] == rest[j] && rest[j] in rest && rest[j] in d; }
    }
    forall id | id in c ensures id in l { if id != x { assert id in d && id in rest; } }
    forall y | y in l ensures y in c { assert y in rest || y == x; }
  }
}
