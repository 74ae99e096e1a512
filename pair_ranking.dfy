/**
 * The ranking of candidate doorway pairs (`OrderDoorwayPairs`): a sort by descending tile
 * weight, then bubble passes that order pairs of equal tile weight by descending doorway
 * weight, then the first `count` pairs.
 */
module PairRanking {
  import opened Doorways

  /** `CompareDoorwaysTileWeight`: `y.TileWeight.CompareTo(x.TileWeight)`, so the heavier pair sorts first. */
  function CompareDoorwaysTileWeight(x: DoorwayPair, y: DoorwayPair): (r: int)
    ensures r < 0 <==> x.tileWeight > y.tileWeight
    ensures r == 0 <==> x.tileWeight == y.tileWeight
    ensures r > 0 <==> x.tileWeight < y.tileWeight
  {
    if y.tileWeight < x.tileWeight then -1
    else if y.tileWeight > x.tileWeight then 1
    else 0
  }

  /** Non-increasing tile weights: what the sort by `CompareDoorwaysTileWeight` establishes. */
  predicate TileWeightSorted(s: seq<DoorwayPair>) {
    forall p, q :: 0 <= p < q < |s| ==> s[p].tileWeight >= s[q].tileWeight
  }

  /** `x` may stand before `y` in the final ranking: a larger tile weight, or the same one and no smaller doorway weight. */
  predicate RanksBefore(x: DoorwayPair, y: DoorwayPair) {
    x.tileWeight > y.tileWeight || (x.tileWeight == y.tileWeight && x.doorwayWeight >= y.doorwayWeight)
  }

  /** Ordered by descending tile weight, then by descending doorway weight. */
  predicate Ranked(s: seq<DoorwayPair>) {
    forall p, q :: 0 <= p < q < |s| ==> RanksBefore(s[p], s[q])
  }

  /** Ranked from position `m` on: every element at or after `m` ranks after everything before it. */
  predicate RankedFrom(s: seq<DoorwayPair>, m: int) {
    forall p, q :: 0 <= p < q < |s| && m <= q ==> RanksBefore(s[p], s[q])
  }

  /** Insertion before the first pair that is not heavier than `x`. */
  function InsertByTileWeight(x: DoorwayPair, s: seq<DoorwayPair>): (r: seq<DoorwayPair>)
    ensures |r| == |s| + 1
    ensures multiset(r) == multiset(s) + multiset{x}
  {
    if s == [] then [x]
    else if CompareDoorwaysTileWeight(x, s[0]) <= 0 then [x] + s
    else
      assert s == [s[0]] + s[1..];
      [s[0]] + InsertByTileWeight(x, s[1..])
  }

  /** Inserting a pair no heavier than `w` into pairs no heavier than `w` gives pairs no heavier than `w`. */
  lemma {:induction false} InsertBounded(x: DoorwayPair, s: seq<DoorwayPair>, w: real)
    requires x.tileWeight <= w && forall k :: 0 <= k < |s| ==> s[k].tileWeight <= w
    ensures forall k :: 0 <= k < |s| + 1 ==> InsertByTileWeight(x, s)[k].tileWeight <= w
  {
    if s != [] && CompareDoorwaysTileWeight(x, s[0]) > 0 {
      InsertBounded(x, s[1..], w);
      var rest := InsertByTileWeight(x, s[1..]);
      assert InsertByTileWeight(x, s) == [s[0]] + rest;
    }
  }

  lemma {:induction false} InsertKeepsSorted(x: DoorwayPair, s: seq<DoorwayPair>)
    requires TileWeightSorted(s)
    ensures TileWeightSorted(InsertByTileWeight(x, s))
  {
    if s != [] && CompareDoorwaysTileWeight(x, s[0]) > 0 {
      var tail := s[1..];
      InsertKeepsSorted(x, tail);
      InsertBounded(x, tail, s[0].tileWeight);
      var rest := InsertByTileWeight(x, tail);
      var r := [s[0]] + rest;
      forall p, q | 0 <= p < q < |r|
        ensures r[p].tileWeight >= r[q].tileWeight
      {
        assert r[q] == rest[q - 1];
        if p > 0 {
          assert r[p] == rest[p - 1];
        }
      }
    }
  }

  /**
   * `List.Sort` with `CompareDoorwaysTileWeight`. The library sort is not stable; this
   * insertion sort is one of the orders it may produce, and only its contract (sorted by
   * descending tile weight, a permutation) is relied on.
   */
  function SortByTileWeight(s: seq<DoorwayPair>): (r: seq<DoorwayPair>)
    ensures |r| == |s|
    ensures multiset(r) == multiset(s)
  {
    if s == [] then []
    else
      assert s == [s[0]] + s[1..];
      InsertByTileWeight(s[0], SortByTileWeight(s[1..]))
  }

  lemma {:induction false} SortIsSorted(s: seq<DoorwayPair>)
    ensures TileWeightSorted(SortByTileWeight(s))
  {
    if s != [] {
      SortIsSorted(s[1..]);
      InsertKeepsSorted(s[0], SortByTileWeight(s[1..]));
    }
  }

  /** Being ranked on adjacent pairs is the same as being ranked on every pair of positions. */
  lemma {:induction false} RankedIffAdjacent(s: seq<DoorwayPair>)
    ensures Ranked(s) <==> forall i :: 0 <= i < |s| - 1 ==> RanksBefore(s[i], s[i + 1])
  {
    if |s| > 1 && forall i :: 0 <= i < |s| - 1 ==> RanksBefore(s[i], s[i + 1]) {
      var t := s[1..];
      forall i | 0 <= i < |t| - 1
        ensures RanksBefore(t[i], t[i + 1])
      {
        assert t[i] == s[i + 1] && t[i + 1] == s[i + 2];
      }
      RankedIffAdjacent(t);
      forall p, q | 0 <= p < q < |s|
        ensures RanksBefore(s[p], s[q])
      {
        if p > 0 {
          assert s[p] == t[p - 1] && s[q] == t[q - 1];
        } else if q > 1 {
          assert s[1] == t[0] && s[q] == t[q - 1];
        }
      }
    }
  }

  lemma RanksBeforeTransitive(x: DoorwayPair, y: DoorwayPair, z: DoorwayPair)
    requires RanksBefore(x, y) && RanksBefore(y, z)
    ensures RanksBefore(x, z)
  {
  }

  /** The source's swap condition: equal tile weights, ascending doorway weights. */
  predicate OutOfOrder(s: seq<DoorwayPair>, i: nat)
    requires i + 1 < |s|
  {
    s[i].tileWeight == s[i + 1].tileWeight && s[i].doorwayWeight < s[i + 1].doorwayWeight
  }

  /** The list after the inner loop's body at index `i`. */
  function PassStep(s: seq<DoorwayPair>, i: nat): (t: seq<DoorwayPair>)
    requires i + 1 < |s|
    ensures |t| == |s| && multiset(t) == multiset(s)
  {
    if OutOfOrder(s, i) then s[i := s[i + 1]][i + 1 := s[i]] else s
  }

  /**
   * What holds in pass `j` before index `i`: the tile weights are sorted, the last `j`
   * positions are final, `s[i]` ranks after everything before it, and once `i` has passed
   * position `|s| - j - 1` that position ranks after everything before it.
   */
  predicate PassInvariant(s: seq<DoorwayPair>, j: nat, i: nat)
    requires i < |s| && j + 1 < |s|
  {
    var m := |s| - j - 1;
    && TileWeightSorted(s)
    && RankedFrom(s, m + 1)
    && (forall p :: 0 <= p < i ==> RanksBefore(s[p], s[i]))
    && (i >= m ==> forall p :: 0 <= p < m ==> RanksBefore(s[p], s[m]))
  }

  lemma PassStepSwap(s: seq<DoorwayPair>, j: nat, i: nat)
    requires i + 1 < |s| && j + 1 < |s|
    requires PassInvariant(s, j, i) && OutOfOrder(s, i)
    ensures PassInvariant(PassStep(s, i), j, i + 1)
  {
    var t := PassStep(s, i);
    var m := |s| - j - 1;
    assert i + 1 <= m;
    assert forall k :: 0 <= k < |s| ==> t[k].tileWeight == s[k].tileWeight;
    forall p, q | 0 <= p < q < |t| && m + 1 <= q
      ensures RanksBefore(t[p], t[q])
    {
      assert t[q] == s[q];
      assert t[p] == s[p] || t[p] == s[i] || t[p] == s[i + 1];
    }
    forall p | 0 <= p < i + 1
      ensures RanksBefore(t[p], t[i + 1])
    {
      if p < i {
        assert t[p] == s[p];
      }
    }
  }

  lemma PassStepKeep(s: seq<DoorwayPair>, j: nat, i: nat)
    requires i + 1 < |s| && j + 1 < |s|
    requires PassInvariant(s, j, i) && !OutOfOrder(s, i)
    ensures PassInvariant(PassStep(s, i), j, i + 1)
  {
    assert RanksBefore(s[i], s[i + 1]);
    forall p | 0 <= p < i
      ensures RanksBefore(s[p], s[i + 1])
    {
      RanksBeforeTransitive(s[p], s[i], s[i + 1]);
    }
  }

  /** At the end of pass `j` one more position at the end is settled. */
  lemma PassDone(s: seq<DoorwayPair>, j: nat)
    requires j + 1 < |s| && PassInvariant(s, j, |s| - 1)
    ensures TileWeightSorted(s) && RankedFrom(s, |s| - j - 1)
  {
  }

  /** The inner loop's body at index `i` keeps the pass invariant, one index further on. */
  lemma PassStepKeepsInvariant(s: seq<DoorwayPair>, j: nat, i: nat)
    requires i + 1 < |s| && j + 1 < |s|
    requires PassInvariant(s, j, i)
    ensures PassInvariant(PassStep(s, i), j, i + 1)
  {
    if OutOfOrder(s, i) {
      PassStepSwap(s, j, i);
    } else {
      PassStepKeep(s, j, i);
    }
  }

  /** The inner loop's body: swaps `a[i]` and `a[i + 1]` when they tie on tile weight and the doorway weights ascend. */
  method CompareAndSwap(a: array<DoorwayPair>, i: nat)
    requires i + 1 < a.Length
    modifies a
    ensures a[..] == PassStep(old(a[..]), i)
  {
    if a[i].tileWeight == a[i + 1].tileWeight && a[i].doorwayWeight < a[i + 1].doorwayWeight {
      a[i], a[i + 1] := a[i + 1], a[i];
    }
  }

  /**
   * One pass of the inner loop: swaps neighbours of equal tile weight whose doorway weights
   * are ascending. After pass `j` the last `j + 1` positions hold their final values.
   */
  method BubblePass(a: array<DoorwayPair>, j: nat)
    requires j + 1 < a.Length
    requires TileWeightSorted(a[..]) && RankedFrom(a[..], a.Length - j)
    modifies a
    ensures multiset(a[..]) == multiset(old(a[..]))
    ensures TileWeightSorted(a[..]) && RankedFrom(a[..], a.Length - j - 1)
  {
    var n := a.Length;
    var i := 0;
    while i < n - 1
      invariant 0 <= i <= n - 1
      invariant multiset(a[..]) == multiset(old(a[..]))
      invariant PassInvariant(a[..], j, i)
    {
      PassStepKeepsInvariant(a[..], j, i);
      CompareAndSwap(a, i);
      i := i + 1;
    }
    PassDone(a[..], j);
  }

  /**
   * `OrderDoorwayPairs`: sorts the list in place into ranking order and returns its first
   * `count` pairs. The list ends up a permutation of what it held.
   */
  method OrderDoorwayPairs(potentialPairs: array<DoorwayPair>, count: nat) returns (r: seq<DoorwayPair>)
    requires count <= potentialPairs.Length
    modifies potentialPairs
    ensures multiset(potentialPairs[..]) == multiset(old(potentialPairs[..]))
    ensures Ranked(potentialPairs[..])
    ensures r == potentialPairs[..count]
  {
    var sorted := SortByTileWeight(potentialPairs[..]);
    SortIsSorted(potentialPairs[..]);
    forall k | 0 <= k < potentialPairs.Length {
      potentialPairs[k] := sorted[k];
    }
    assert potentialPairs[..] == sorted;
    var n := potentialPairs.Length;
    var j := 0;
    while j < n - 1
      invariant 0 <= j && (n > 0 ==> j <= n - 1)
      invariant multiset(potentialPairs[..]) == multiset(old(potentialPairs[..]))
      invariant TileWeightSorted(potentialPairs[..]) && RankedFrom(potentialPairs[..], n - j)
    {
      BubblePass(potentialPairs, j);
      j := j + 1;
    }
    assert n > 0 ==> RankedFrom(potentialPairs[..], 1);
    r := potentialPairs[..count];
  }
}
