/** What `pgmq.read_grouped` selects, and how its 1.11.0 query relates to the 1.9.0 one. */
module GroupedReads {
  import opened Ranking
  import opened Rows
  import opened Selection

  /** `available_messages` without the per-group limit of the lateral join. */
  function Unlimited(q: Table, now: int, locked: set<nat>): Candidates {
    map id | id in VisibleIds(q, now) && FirstReady(q, now, id) in FilteredHeads(q, now, locked)
           :: GroupedRank(q, now, locked, id)
  }

  lemma PositionInjective(s: set<nat>, x: nat, y: nat)
    requires x in s && y in s && Position(s, x) == Position(s, y)
    ensures x == y
  {
    if x < y { PositionMonotone(s, x, y); } else if y < x { PositionMonotone(s, y, x); }
  }

  /** Two candidates with the same first message are in the same group. */
  lemma SameFirstReady(q: Table, now: int, i: nat, j: nat)
    requires i in VisibleIds(q, now) && j in VisibleIds(q, now)
    ensures FirstReady(q, now, i) == FirstReady(q, now, j) <==> GroupOf(q[i]) == GroupOf(q[j])
  {
    assert i in Ready(q, GroupOf(q[i]), now) && j in Ready(q, GroupOf(q[j]), now);
  }

  lemma GroupedDistinct(q: Table, now: int, locked: set<nat>)
    ensures Distinct(Unlimited(q, now, locked))
    ensures forall qty: nat :: Distinct(GroupedCandidates(q, now, qty, locked))
  {
    forall i, j | i in Unlimited(q, now, locked) && j in Unlimited(q, now, locked)
                  && GroupedRank(q, now, locked, i) == GroupedRank(q, now, locked, j)
      ensures i == j
    {
      PositionInjective(LockedHeads(q, now, locked), FirstReady(q, now, i), FirstReady(q, now, j));
      SameFirstReady(q, now, i, j);
      PositionInjective(Ready(q, GroupOf(q[i]), now), i, j);
    }
  }

  // ----- the selection is a prefix of the concatenated groups -----

  /** The ready messages of the groups headed by `heads`, oldest group first, each group in order. */
  function Concatenated(q: Table, now: int, heads: set<nat>): seq<nat>
    requires heads <= q.Keys
  {
    if heads == {} then [] else
      var h := Min(heads);
      Ascending(Ready(q, GroupOf(q[h]), now)) + Concatenated(q, now, heads - {h})
  }

  lemma ReadySorted(q: Table, now: int, locked: set<nat>, h: nat)
    requires h in FilteredHeads(q, now, locked)
    ensures var c, l := Unlimited(q, now, locked), Ascending(Ready(q, GroupOf(q[h]), now));
            && Sorted(c, l)
            && (forall id :: id in l <==> id in c && FirstReady(q, now, id) == h)
  {
    var c, l := Unlimited(q, now, locked), Ascending(Ready(q, GroupOf(q[h]), now));
    forall id ensures id in l <==> id in c && FirstReady(q, now, id) == h {
      if id in VisibleIds(q, now) { SameFirstReady(q, now, id, h); }
    }
    forall i, j | 0 <= i < j < |l| ensures Before(c[l[i]], c[l[j]]) {
      assert l[i] in l && l[j] in l;
      PositionMonotone(Ready(q, GroupOf(q[h]), now), l[i], l[j]);
    }
  }

  lemma {:induction false} ConcatenatedListed(q: Table, now: int, locked: set<nat>, heads: set<nat>)
    requires heads <= FilteredHeads(q, now, locked)
    ensures heads <= q.Keys
    ensures var c, l := Unlimited(q, now, locked), Concatenated(q, now, heads);
            && Sorted(c, l)
            && (forall id :: id in l <==> id in c && FirstReady(q, now, id) in heads)
  {
    var c := Unlimited(q, now, locked);
    if heads != {} {
      var h := Min(heads);
      var g, rest := Ascending(Ready(q, GroupOf(q[h]), now)), Concatenated(q, now, heads - {h});
      ReadySorted(q, now, locked, h);
      ConcatenatedListed(q, now, locked, heads - {h});
      forall x, y | x in g && y in rest ensures Before(c[x], c[y]) {
        PositionMonotone(LockedHeads(q, now, locked), h, FirstReady(q, now, y));
      }
      SortedConcat(c, g, rest);
    }
  }

  lemma UnlimitedIsPrefix(q: Table, now: int, qty: nat, locked: set<nat>)
    ensures FilteredHeads(q, now, locked) <= q.Keys
    ensures First(Unlimited(q, now, locked), qty)
         == ToSet(Take(Concatenated(q, now, FilteredHeads(q, now, locked)), qty))
  {
    var heads := FilteredHeads(q, now, locked);
    ConcatenatedListed(q, now, locked, heads);
    GroupedDistinct(q, now, locked);
    FirstIsPrefix(Unlimited(q, now, locked), Concatenated(q, now, heads), qty);
  }

  // ----- the lateral LIMIT changes nothing -----

  /** Everything before a candidate in its own group is numbered before it overall. */
  lemma PositionBelowRowNumber(q: Table, now: int, locked: set<nat>, id: nat)
    requires id in Unlimited(q, now, locked)
    ensures Position(Ready(q, GroupOf(q[id]), now), id) <= RowNumber(Unlimited(q, now, locked), id)
  {
    var c, ready := Unlimited(q, now, locked), Ready(q, GroupOf(q[id]), now);
    forall j | j in Below(ready, id) ensures j in Earlier(c, id) {
      SameFirstReady(q, now, j, id);
      PositionMonotone(ready, j, id);
    }
    SubsetCard(Below(ready, id), Earlier(c, id));
  }

  lemma LimitKeepsCut(q: Table, now: int, qty: nat, locked: set<nat>)
    ensures First(Unlimited(q, now, locked), qty) <= GroupedCandidates(q, now, qty, locked).Keys
  {
    forall id | id in First(Unlimited(q, now, locked), qty) ensures id in GroupedCandidates(q, now, qty, locked) {
      PositionBelowRowNumber(q, now, locked, id);
    }
  }

  /** A row dropped by the lateral limit leaves a full batch before it. */
  lemma DroppedMeansFull(q: Table, now: int, qty: nat, locked: set<nat>, id: nat)
    requires id in Unlimited(q, now, locked) && id !in GroupedCandidates(q, now, qty, locked)
    ensures qty < |Unlimited(q, now, locked)|
  {
    var c := Unlimited(q, now, locked);
    PositionBelowRowNumber(q, now, locked, id);
    assert Earlier(c, id) <= c.Keys - {id};
    SubsetCard(Earlier(c, id), c.Keys - {id});
  }

  /** Limiting each group to `qty` rows first never changes which rows the cut at `qty` picks. */
  lemma LateralLimitNeutral(q: Table, now: int, qty: nat, locked: set<nat>)
    ensures First(GroupedCandidates(q, now, qty, locked), qty) == First(Unlimited(q, now, locked), qty)
  {
    var c, d := Unlimited(q, now, locked), GroupedCandidates(q, now, qty, locked);
    GroupedDistinct(q, now, locked);
    LimitKeepsCut(q, now, qty, locked);
    if id :| id in c && id !in d {
      DroppedMeansFull(q, now, qty, locked, id);
    }
    CutOfRestriction(d, c, qty);
  }

  /** `read_grouped` takes the first `qty` messages of the eligible groups, laid end to end in the
      order of their first messages. */
  lemma GroupedTakesOldestGroupsFirst(q: Table, now: int, qty: nat, locked: set<nat>)
    ensures FilteredHeads(q, now, locked) <= q.Keys
    ensures GroupedSet(q, now, qty, locked)
         == ToSet(Take(Concatenated(q, now, FilteredHeads(q, now, locked)), qty))
  {
    LateralLimitNeutral(q, now, qty, locked);
    UnlimitedIsPrefix(q, now, qty, locked);
  }

  // ----- 1.9.0 against 1.11.0 -----

  /** No eligible group has a visible message behind an invisible one. */
  ghost predicate GapFree(q: Table, now: int, locked: set<nat>) {
    forall id | id in VisibleIds(q, now) && FirstReady(q, now, id) in FilteredHeads(q, now, locked) ::
      !BehindInvisible(q, now, id)
  }

  lemma UnobstructedIsPrefix(q: Table, now: int, i: nat, j: nat)
    requires j in VisibleIds(q, now) && i in Ready(q, GroupOf(q[j]), now) && i <= j
    requires !BehindInvisible(q, now, j)
    ensures !BehindInvisible(q, now, i)
  {
  }

  /** The 1.9.0 candidates are, group by group, a prefix of the 1.11.0 ones, with the same keys. */
  lemma V19CandidatesArePrefix(q: Table, now: int, locked: set<nat>)
    ensures var old9, new11 := GroupedCandidatesV19(q, now, locked), Unlimited(q, now, locked);
            && (forall id | id in old9 :: id in new11 && old9[id] == new11[id])
            && (forall i, j | i in new11 && j in old9 && GroupOf(q[i]) == GroupOf(q[j]) && i < j :: i in old9)
  {
    var old9, new11 := GroupedCandidatesV19(q, now, locked), Unlimited(q, now, locked);
    forall id | id in old9 ensures id in new11 && old9[id] == new11[id] {
      var g, h := GroupOf(q[id]), FirstReady(q, now, id);
      assert id in Ready(q, g, now) && h in Ready(q, g, now);
      UnobstructedIsPrefix(q, now, h, id);
      assert FirstReady(q, now, h) == h;
      forall k | k in Below(Ready(q, g, now), id) ensures k in Below(Unobstructed(q, g, now), id) {
        UnobstructedIsPrefix(q, now, k, id);
      }
      assert Below(Unobstructed(q, g, now), id) == Below(Ready(q, g, now), id);
    }
    forall i, j | i in new11 && j in old9 && GroupOf(q[i]) == GroupOf(q[j]) && i < j ensures i in old9 {
      assert i in Ready(q, GroupOf(q[j]), now);
      UnobstructedIsPrefix(q, now, i, j);
      SameFirstReady(q, now, i, j);
    }
  }

  lemma V19CandidatesSameIffGapFree(q: Table, now: int, locked: set<nat>)
    ensures GroupedCandidatesV19(q, now, locked) == Unlimited(q, now, locked) <==> GapFree(q, now, locked)
  {
    V19CandidatesArePrefix(q, now, locked);
    var old9, new11 := GroupedCandidatesV19(q, now, locked), Unlimited(q, now, locked);
    if GapFree(q, now, locked) {
      assert forall id | id in new11 :: id in old9;
    } else {
      var id :| id in new11 && BehindInvisible(q, now, id);
      assert id !in old9;
    }
  }

  /** Both versions pick the same rows at every quantity exactly when no eligible group has a
      visible message behind an invisible one. */
  lemma V19SameBatchesIffGapFree(q: Table, now: int, locked: set<nat>)
    ensures (forall qty: nat :: First(GroupedCandidatesV19(q, now, locked), qty)
                             == First(GroupedCandidates(q, now, qty, locked), qty))
         <==> GapFree(q, now, locked)
  {
    V19CandidatesArePrefix(q, now, locked);
    GroupedDistinct(q, now, locked);
    CutsAgreeIffSame(GroupedCandidatesV19(q, now, locked), Unlimited(q, now, locked));
    V19CandidatesSameIffGapFree(q, now, locked);
    forall qty: nat
      ensures First(GroupedCandidates(q, now, qty, locked), qty) == First(Unlimited(q, now, locked), qty)
    {
      LateralLimitNeutral(q, now, qty, locked);
    }
  }
}
