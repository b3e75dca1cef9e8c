/** Fairness of `pgmq.read_grouped_rr`: the layered round robin over the eligible groups. */
module RoundRobin {
  import opened Ranking
  import opened Rows
  import opened Selection
  import opened GroupedReads

  /** The groups a call may serve: their oldest message is visible and their advisory lock is free. */
  ghost predicate Eligible(q: Table, now: int, blocked: set<string>, g: string) {
    && g !in blocked
    && GroupIds(q, g) != {}
    && Visible(q[Min(GroupIds(q, g))], now)
  }

  /** The rows that `read_grouped_rr` ranks and cuts at `qty`. */
  function Batch(q: Table, now: int, qty: nat, blocked: set<string>): set<nat> {
    First(RrCandidates(q, now, blocked), qty)
  }

  /** The candidates are exactly the visible messages of the eligible groups. */
  lemma CandidatesAreReady(q: Table, now: int, blocked: set<string>, id: nat)
    ensures id in RrCandidates(q, now, blocked)
       <==> id in VisibleIds(q, now) && Eligible(q, now, blocked, GroupOf(q[id]))
  {
    if id in VisibleIds(q, now) {
      assert id in GroupIds(q, GroupOf(q[id]));
      var h := GroupHead(q, id);
      assert GroupOf(q[h]) == GroupOf(q[id]);
      assert GroupHead(q, h) == h;
    }
  }

  lemma RrDistinct(q: Table, now: int, blocked: set<string>)
    ensures Distinct(RrCandidates(q, now, blocked))
  {
    var c := RrCandidates(q, now, blocked);
    forall i, j | i in c && j in c && c[i] == c[j] ensures i == j {
      PositionInjective(EligibleHeads(q, now, blocked), GroupHead(q, i), GroupHead(q, j));
      assert GroupOf(q[GroupHead(q, i)]) == GroupOf(q[i]) && GroupOf(q[GroupHead(q, j)]) == GroupOf(q[j]);
      PositionInjective(Ready(q, GroupOf(q[i]), now), i, j);
    }
  }

  /** A batch is as full as the eligible groups allow. */
  lemma BatchSize(q: Table, now: int, qty: nat, blocked: set<string>)
    ensures var available := set id | id in VisibleIds(q, now) && Eligible(q, now, blocked, GroupOf(q[id]));
            |Batch(q, now, qty, blocked)| == if qty < |available| then qty else |available|
  {
    RrDistinct(q, now, blocked);
    var c := RrCandidates(q, now, blocked);
    FirstSize(c, qty);
    forall id ensures id in c <==> id in VisibleIds(q, now) && Eligible(q, now, blocked, GroupOf(q[id])) {
      CandidatesAreReady(q, now, blocked, id);
    }
    assert c.Keys == set id | id in VisibleIds(q, now) && Eligible(q, now, blocked, GroupOf(q[id]));
  }

  /** Within one group, a batch never skips a visible message. */
  lemma BatchKeepsGroupOrder(q: Table, now: int, qty: nat, blocked: set<string>, i: nat, j: nat)
    requires j in Batch(q, now, qty, blocked)
    requires i in Ready(q, GroupOf(q[j]), now) && i < j
    ensures i in Batch(q, now, qty, blocked)
  {
    CandidatesAreReady(q, now, blocked, i);
    CandidatesAreReady(q, now, blocked, j);
    PositionMonotone(Ready(q, GroupOf(q[j]), now), i, j);
    FirstDownClosed(RrCandidates(q, now, blocked), qty);
  }

  /** The share of one group in a batch. */
  function Share(q: Table, now: int, qty: nat, blocked: set<string>, g: string): set<nat> {
    Batch(q, now, qty, blocked) * Ready(q, g, now)
  }

  /** The first message of `g` left out of a batch is next after the group's share. */
  lemma FirstLeftOut(q: Table, now: int, qty: nat, blocked: set<string>, g: string) returns (x: nat)
    requires Ready(q, g, now) - Batch(q, now, qty, blocked) != {}
    ensures x in Ready(q, g, now) && x !in Batch(q, now, qty, blocked)
    ensures Position(Ready(q, g, now), x) == |Share(q, now, qty, blocked, g)| + 1
  {
    var missing := Ready(q, g, now) - Batch(q, now, qty, blocked);
    x := Min(missing);
    forall k | k in Below(Ready(q, g, now), x) ensures k in Share(q, now, qty, blocked, g) {
      assert k !in missing;
    }
    forall k | k in Share(q, now, qty, blocked, g) ensures k < x {
      if x < k { BatchKeepsGroupOrder(q, now, qty, blocked, x, k); }
    }
    assert Below(Ready(q, g, now), x) == Share(q, now, qty, blocked, g);
  }

  /** A group with `n` messages in a batch has one there at position `n` or later. */
  lemma DeepestServed(s: set<nat>, share: set<nat>) returns (y: nat)
    requires share <= s && share != {}
    ensures y in share && |share| <= Position(s, y)
  {
    y := Greatest(share);
    SubsetCard(share - {y}, Below(s, y));
  }

  lemma {:induction false} Greatest(s: set<nat>) returns (y: nat)
    requires s != {}
    ensures y in s && forall x | x in s && x != y :: x < y
  {
    y :| y in s;
    var rest := s - {y};
    assert forall x | x in s :: x == y || x in rest;
    if rest != {} {
      var z := Greatest(rest);
      if y < z { y := z; }
    }
  }

  /** A row of an eligible group that comes earlier in its own group is ranked before. */
  lemma ShallowerIsBatched(q: Table, now: int, qty: nat, blocked: set<string>, x: nat, y: nat)
    requires x in VisibleIds(q, now) && Eligible(q, now, blocked, GroupOf(q[x]))
    requires y in Batch(q, now, qty, blocked)
    requires Position(Ready(q, GroupOf(q[x]), now), x) < Position(Ready(q, GroupOf(q[y]), now), y)
    ensures x in Batch(q, now, qty, blocked)
  {
    CandidatesAreReady(q, now, blocked, x);
    FirstDownClosed(RrCandidates(q, now, blocked), qty);
  }

  lemma DeepestShare(q: Table, now: int, qty: nat, blocked: set<string>, g: string) returns (y: nat)
    requires Share(q, now, qty, blocked, g) != {}
    ensures y in Batch(q, now, qty, blocked) && y in VisibleIds(q, now) && GroupOf(q[y]) == g
    ensures |Share(q, now, qty, blocked, g)| <= Position(Ready(q, g, now), y)
  {
    y := DeepestServed(Ready(q, g, now), Share(q, now, qty, blocked, g));
  }

  /** A visible message left out of a batch bounds every group's share by one more than its own's. */
  lemma LeftOutBoundsShares(q: Table, now: int, qty: nat, blocked: set<string>, rich: string, poor: string)
    requires Eligible(q, now, blocked, poor)
    requires Ready(q, poor, now) - Batch(q, now, qty, blocked) != {}
    ensures |Share(q, now, qty, blocked, rich)| <= |Share(q, now, qty, blocked, poor)| + 1
  {
    var x := FirstLeftOut(q, now, qty, blocked, poor);
    if Share(q, now, qty, blocked, rich) != {} {
      var y := DeepestShare(q, now, qty, blocked, rich);
      if Position(Ready(q, poor, now), x) < Position(Ready(q, rich, now), y) {
        ShallowerIsBatched(q, now, qty, blocked, x, y);
      }
    }
  }

  /** If one group gets at least two more messages than another eligible one, the other group has no
      visible message left: nobody gets a second helping before everybody had a first. */
  lemma RoundRobinIsFair(q: Table, now: int, qty: nat, blocked: set<string>, rich: string, poor: string)
    requires Eligible(q, now, blocked, poor)
    ensures |Share(q, now, qty, blocked, rich)| >= |Share(q, now, qty, blocked, poor)| + 2
            ==> Ready(q, poor, now) - Batch(q, now, qty, blocked) == {}
  {
    if Ready(q, poor, now) - Batch(q, now, qty, blocked) != {} {
      LeftOutBoundsShares(q, now, qty, blocked, rich, poor);
    }
  }

  // ----- the order of the result -----

  /** The result of a call, in the order of its final `ORDER BY selection_order`: the ranked rows up to
      `qty`, without those that another transaction has locked. */
  function Returned(q: Table, now: int, qty: nat, locked: set<nat>, blocked: set<string>): (l: seq<nat>)
  {
    RrDistinct(q, now, blocked);
    Without(Take(OrderBy(RrCandidates(q, now, blocked)), qty), locked)
  }

  function Without(l: seq<nat>, locked: set<nat>): (r: seq<nat>)
    ensures ToSet(r) == ToSet(l) - locked
  {
    if l == [] then []
    else
      assert ToSet(l) == {l[0]} + ToSet(l[1..]);
      if l[0] in locked then Without(l[1..], locked)
      else
        var rest := Without(l[1..], locked);
        assert ToSet([l[0]] + rest) == {l[0]} + ToSet(rest);
        [l[0]] + rest
  }

  lemma {:induction false} WithoutSorted(c: Candidates, l: seq<nat>, locked: set<nat>)
    requires Sorted(c, l)
    ensures Sorted(c, Without(l, locked))
    decreases l
  {
    if l != [] {
      assert l[0] in l && forall x | x in l[1..] :: x in l;
      WithoutSorted(c, l[1..], locked);
      if l[0] !in locked {
        forall x, y | x in [l[0]] && y in Without(l[1..], locked) ensures Before(c[x], c[y]) {
          assert y in ToSet(Without(l[1..], locked)) && y in l[1..];
        }
        SortedConcat(c, [l[0]], Without(l[1..], locked));
      }
    }
  }

  lemma TakeSorted(c: Candidates, l: seq<nat>, qty: nat)
    requires Sorted(c, l)
    ensures Sorted(c, Take(l, qty))
  {
    forall x | x in Take(l, qty) ensures x in c { assert x in l; }
  }

  lemma ReturnedSorted(q: Table, now: int, qty: nat, locked: set<nat>, blocked: set<string>)
    ensures var l := Returned(q, now, qty, locked, blocked);
            && Sorted(RrCandidates(q, now, blocked), l) && ToSet(l) == RrSet(q, now, qty, locked, blocked)
            && |l| == |RrSet(q, now, qty, locked, blocked)|
  {
    var c := RrCandidates(q, now, blocked);
    RrDistinct(q, now, blocked);
    FirstIsPrefix(c, OrderBy(c), qty);
    TakeSorted(c, OrderBy(c), qty);
    WithoutSorted(c, Take(OrderBy(c), qty), locked);
    SortedOnce(c, Returned(q, now, qty, locked, blocked));
  }

  lemma ReturnedOnce(q: Table, now: int, qty: nat, locked: set<nat>, blocked: set<string>)
    ensures var l := Returned(q, now, qty, locked, blocked);
            ToSet(l) == RrSet(q, now, qty, locked, blocked) && |l| == |RrSet(q, now, qty, locked, blocked)|
  {
    ReturnedSorted(q, now, qty, locked, blocked);
  }

  lemma SortedOnce(c: Candidates, l: seq<nat>)
    requires Sorted(c, l)
    ensures |ToSet(l)| == |l|
  {
    ListCard(l);
  }

  /** Row `x` comes before row `y` in the round robin: from a higher layer, or of an older group. */
  ghost predicate InLayers(q: Table, now: int, x: nat, y: nat) {
    x in VisibleIds(q, now) && y in VisibleIds(q, now)
    && var i, j := Position(Ready(q, GroupOf(q[x]), now), x), Position(Ready(q, GroupOf(q[y]), now), y);
       i < j || (i == j && GroupHead(q, x) < GroupHead(q, y))
  }

  /** The result lists the batch once, layer by layer: every group's first message before any group's
      second one, and within a layer the group with the older head first. */
  lemma ReturnedInLayers(q: Table, now: int, qty: nat, locked: set<nat>, blocked: set<string>)
    ensures var l := Returned(q, now, qty, locked, blocked);
            && ToSet(l) == RrSet(q, now, qty, locked, blocked)
            && |l| == |RrSet(q, now, qty, locked, blocked)|
            && forall a, b | 0 <= a < b < |l| :: InLayers(q, now, l[a], l[b])
  {
    ReturnedSorted(q, now, qty, locked, blocked);
    var c, l := RrCandidates(q, now, blocked), Returned(q, now, qty, locked, blocked);
    forall a, b | 0 <= a < b < |l| ensures InLayers(q, now, l[a], l[b]) {
      assert l[a] in l && l[b] in l;
      LayersOfRank(q, now, blocked, l[a], l[b]);
    }
  }

  lemma LayersOfRank(q: Table, now: int, blocked: set<string>, x: nat, y: nat)
    requires var c := RrCandidates(q, now, blocked); x in c && y in c && Before(c[x], c[y])
    ensures InLayers(q, now, x, y)
  {
    var c := RrCandidates(q, now, blocked);
    if c[x].major == c[y].major {
      PositionOrder(EligibleHeads(q, now, blocked), GroupHead(q, x), GroupHead(q, y));
    }
  }

  lemma PositionOrder(s: set<nat>, x: nat, y: nat)
    requires x in s && y in s && Position(s, x) < Position(s, y)
    ensures x < y
  {
    if y < x { PositionMonotone(s, y, x); }
  }
}
