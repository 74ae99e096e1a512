/**
 * `DoorwayPairFinder` itself: the random stream it draws from, the table draw it relies on
 * and its methods, each proved to compute what the specification functions of
 * `PairEnumeration`, `TileOrdering` and `PairRanking` describe.
 */
module Finder {
  import opened Nullable
  import opened Doorways
  import opened TileOrdering
  import opened PairRanking
  import opened PairEnumeration

  /** `System.Random`: the draws it will produce, and how many have been taken. */
  class RandomStream {
    const Draws: nat -> real
    var Position: nat

    constructor (draws: nat -> real)
      ensures Draws == draws && Position == 0
    {
      Draws := draws;
      Position := 0;
    }

    /** `NextDouble`: the next draw of the stream. */
    method NextDouble() returns (r: real)
      modifies this
      ensures r == Draw(Draws, old(Position))
      ensures Position == old(Position) + 1
    {
      r := Draws(Position);
      Position := Position + 1;
    }
  }

  /**
   * `GameObjectChanceTable.GetRandom` with removal from the table: one draw scaled to the
   * total weight picks an entry on the roulette wheel, which is then removed.
   */
  method GetRandom(random: RandomStream, s: FinderInputs, table: seq<TileChance>) returns (chosen: TileChance, rest: seq<TileChance>)
    requires UnitDraws(random.Draws) && AnyEligible(s, table)
    modifies random
    ensures chosen in table && Eligible(s, chosen)
    ensures rest == RemoveFirst(table, chosen)
    ensures random.Position == old(random.Position) + 1
  {
    var total := TotalWeight(s, table);
    ghost var drawAt := random.Position;
    var draw := random.NextDouble();
    assert 0.0 <= Draw(random.Draws, drawAt) < 1.0;
    ScaledDrawInside(draw, total);
    var k := Pick(s, table, Scaled(total, draw));
    chosen := table[k];
    rest := RemoveFirst(table, chosen);
  }

  /**
   * `potential`, with the stream left at `end`, is what the enumerator for the finder's mode
   * computes from draw `start` on: the first-tile mode without a previous tile, the
   * following-tile mode (which cannot fail) with one.
   */
  ghost predicate EnumerationOutcome(s: FinderInputs, order: seq<TileChance>, draws: nat -> real, start: nat,
                                     potential: Result<seq<DoorwayPair>>, end: nat)
    requires OrderEligible(s, order)
  {
    if s.previousTile.None? then
      Drawn(potential, end) == FirstTilePairs(s, order, s.tileWeights, draws, start)
    else
      Drawn(potential, end) == Drawn(Ok(NonFirstTilePairs(s, order, s.previousTile.value.unusedDoorways, draws, start).value),
                                     NonFirstTilePairs(s, order, s.previousTile.value.unusedDoorways, draws, start).next)
  }

  /**
   * The queue `r` holds the first min(n, maxCount) pairs of `ranked`, a ranked permutation of
   * the n potential pairs; a failed enumeration fails the call, and so does a negative `maxCount`.
   */
  ghost predicate TakesRanked(potential: Result<seq<DoorwayPair>>, maxCount: Option<int>,
                              r: Result<seq<DoorwayPair>>, ranked: seq<DoorwayPair>)
  {
    && (r.Throws? <==> potential.Throws? || (maxCount.Some? && maxCount.value < 0))
    && (potential.Throws? ==> r == potential)
    && (r.Ok? ==>
          && multiset(ranked) == multiset(potential.value)
          && Ranked(ranked)
          && |r.value| == (if maxCount.Some? && maxCount.value < |ranked| then maxCount.value else |ranked|)
          && r.value == ranked[..|r.value|])
  }

  /**
   * The tail of `GetDoorwayPairs`: `count` is the number of potential pairs, capped by
   * `maxCount`; the queue's capacity rejects a negative one; the queue then receives the
   * first `count` pairs of the ranked list.
   */
  method EnqueueTopPairs(potentialPairs: seq<DoorwayPair>, maxCount: Option<int>)
    returns (r: Result<seq<DoorwayPair>>, ghost ranked: seq<DoorwayPair>)
    ensures TakesRanked(Ok(potentialPairs), maxCount, r, ranked)
  {
    ranked := [];
    var count := |potentialPairs|;
    if maxCount.Some? {
      count := if count < maxCount.value then count else maxCount.value;
    }
    if count < 0 {
      return Throws(ArgumentOutOfRangeException), ranked;
    }
    var list := new DoorwayPair[|potentialPairs|](i requires 0 <= i < |potentialPairs| => potentialPairs[i]);
    assert list[..] == potentialPairs;
    var top := OrderDoorwayPairs(list, count);
    ranked := list[..];
    var pairs: seq<DoorwayPair> := [];
    for i := 0 to |top|
      invariant pairs == top[..i]
    {
      pairs := pairs + [top[i]];
    }
    assert top[..|top|] == top;
    r := Ok(pairs);
  }

  class DoorwayPairFinder {
    const Random: RandomStream
    const Inputs: FinderInputs
    var tileOrder: seq<TileChance>

    constructor (random: RandomStream, inputs: FinderInputs)
      ensures Random == random && Inputs == inputs && tileOrder == []
    {
      Random := random;
      Inputs := inputs;
      tileOrder := [];
    }

    /**
     * `GetDoorwayPairs`: orders the tiles, enumerates the potential pairs in the mode the
     * previous tile calls for, ranks them and keeps the first `maxCount`. The ghost outputs
     * are the enumeration's outcome and the ranked permutation the result is a prefix of.
     */
    method GetDoorwayPairs(maxCount: Option<int>) returns (r: Result<seq<DoorwayPair>>,
                                                        ghost potential: Result<seq<DoorwayPair>>,
                                                        ghost ranked: seq<DoorwayPair>)
      requires UnitDraws(Random.Draws)
      modifies this, Random
      ensures multiset(tileOrder) == multiset(EligibleEntries(Inputs, Inputs.tileWeights))
      ensures OrderEligible(Inputs, tileOrder)
      ensures EnumerationOutcome(Inputs, tileOrder, Random.Draws, old(Random.Position) + |tileOrder|, potential, Random.Position)
      ensures TakesRanked(potential, maxCount, r, ranked)
    {
      var tiles := CalculateOrderedListOfTiles();
      tileOrder := tiles;
      OrderIsEligible(Inputs, Inputs.tileWeights, tileOrder);
      var potentialPairs := GetPotentialDoorwayPairs();
      potential := potentialPairs;
      if potentialPairs.Throws? {
        return potentialPairs, potential, [];
      }
      r, ranked := EnqueueTopPairs(potentialPairs.value, maxCount);
    }

    /** The choice of enumerator in `GetDoorwayPairs`, with the enumerated pairs collected into a list. */
    method GetPotentialDoorwayPairs() returns (potential: Result<seq<DoorwayPair>>)
      requires OrderEligible(Inputs, tileOrder)
      modifies Random
      ensures EnumerationOutcome(Inputs, tileOrder, Random.Draws, old(Random.Position), potential, Random.Position)
      ensures Inputs.previousTile.Some? ==> potential.Ok?
    {
      if Inputs.previousTile.None? {
        potential := GetPotentialDoorwayPairsForFirstTile();
      } else {
        var pairs := GetPotentialDoorwayPairsForNonFirstTile();
        potential := Ok(pairs);
      }
    }

    /**
     * `CalculateOrderedListOfTiles`: draws every eligible entry of the table, once per
     * occurrence, one draw each, in the order drawn.
     */
    method CalculateOrderedListOfTiles() returns (tiles: seq<TileChance>)
      requires UnitDraws(Random.Draws)
      modifies Random
      ensures multiset(tiles) == multiset(EligibleEntries(Inputs, Inputs.tileWeights))
      ensures Random.Position == old(Random.Position) + |tiles|
    {
      tiles := [];
      var table := Inputs.tileWeights;
      while AnyEligible(Inputs, table)
        invariant multiset(tiles) + multiset(EligibleEntries(Inputs, table))
               == multiset(EligibleEntries(Inputs, Inputs.tileWeights))
        invariant Random.Position == old(Random.Position) + |tiles|
        decreases |table|
      {
        var chosen, rest := GetRandom(Random, Inputs, table);
        DrawMovesEntry(Inputs, table, chosen, tiles);
        table := rest;
        tiles := tiles + [chosen];
      }
    }

    /** `GetPotentialDoorwayPairsForNonFirstTile`, with the pairs it yields collected in order. */
    method GetPotentialDoorwayPairsForNonFirstTile() returns (pairs: seq<DoorwayPair>)
      requires Inputs.previousTile.Some? && OrderEligible(Inputs, tileOrder)
      modifies Random
      ensures Drawn(pairs, Random.Position)
           == NonFirstTilePairs(Inputs, tileOrder, Inputs.previousTile.value.unusedDoorways, Random.Draws, old(Random.Position))
    {
      var previousTile := Inputs.previousTile.value;
      var unused := previousTile.unusedDoorways;
      ghost var start := Random.Position;
      pairs := [];
      for i := 0 to |unused|
        invariant Drawn(pairs, Random.Position) == NonFirstTilePairs(Inputs, tileOrder, unused[..i], Random.Draws, start)
      {
        assert unused[..i + 1][..i] == unused[..i];
        ghost var next := NonFirstTilePairs(Inputs, tileOrder, unused[..i + 1], Random.Draws, start);
        var previousDoor := unused[i];
        var requiresSpecificExit := previousTile.exit.Some? && previousTile.exit.value !in previousTile.usedDoorways;
        if requiresSpecificExit && previousTile.exit.value != previousDoor {
          assert next == Drawn(pairs, Random.Position);
          continue;
        }
        var candidatePairs := CandidatePairsOf(previousDoor);
        assert next == Drawn(pairs + candidatePairs, Random.Position);
        pairs := pairs + candidatePairs;
      }
      assert unused[..|unused|] == unused;
    }

    /** The middle loop of `GetPotentialDoorwayPairsForNonFirstTile`: the table entries against `previousDoor`. */
    method CandidatePairsOf(previousDoor: Doorway) returns (pairs: seq<DoorwayPair>)
      requires Inputs.previousTile.Some? && OrderEligible(Inputs, tileOrder)
      modifies Random
      ensures Drawn(pairs, Random.Position)
           == CandidatePairs(Inputs, tileOrder, previousDoor, Inputs.tileWeights, Random.Draws, old(Random.Position))
    {
      ghost var start := Random.Position;
      var tileWeights := Inputs.tileWeights;
      pairs := [];
      for k := 0 to |tileWeights|
        invariant Drawn(pairs, Random.Position) == CandidatePairs(Inputs, tileOrder, previousDoor, tileWeights[..k], Random.Draws, start)
      {
        assert tileWeights[..k + 1][..k] == tileWeights[..k];
        ghost var next := CandidatePairs(Inputs, tileOrder, previousDoor, tileWeights[..k + 1], Random.Draws, start);
        var tileWeight := tileWeights[k];
        if tileWeight !in tileOrder {
          assert next == Drawn(pairs, Random.Position);
          continue;
        }
        var nextTile := TemplateOf(Inputs, tileWeight);
        var weight := (|tileOrder| - IndexOf(tileOrder, tileWeight)) as real;
        var admission := Admit(Inputs, tileWeight, weight);
        if !admission.allowed {
          assert next == Drawn(pairs, Random.Position);
          continue;
        }
        weight := admission.weight;
        var doorPairs := NextDoorwayPairsOf(previousDoor, tileWeight, nextTile, weight);
        assert next == Drawn(pairs + doorPairs, Random.Position);
        pairs := pairs + doorPairs;
      }
      assert tileWeights[..|tileWeights|] == tileWeights;
    }

    /** The inner loop of `GetPotentialDoorwayPairsForNonFirstTile`: the doorways of `nextTile` against `previousDoor`. */
    method NextDoorwayPairsOf(previousDoor: Doorway, tileWeight: TileChance, nextTile: TileTemplate, weight: real) returns (pairs: seq<DoorwayPair>)
      requires Inputs.previousTile.Some?
      modifies Random
      ensures Drawn(pairs, Random.Position)
           == NextDoorwayPairs(Inputs, previousDoor, tileWeight, nextTile, weight, nextTile.doorways, Random.Draws, old(Random.Position))
    {
      ghost var start := Random.Position;
      pairs := [];
      for m := 0 to |nextTile.doorways|
        invariant Drawn(pairs, Random.Position)
               == NextDoorwayPairs(Inputs, previousDoor, tileWeight, nextTile, weight, nextTile.doorways[..m], Random.Draws, start)
      {
        assert nextTile.doorways[..m + 1][..m] == nextTile.doorways[..m];
        ghost var next := NextDoorwayPairs(Inputs, previousDoor, tileWeight, nextTile, weight, nextTile.doorways[..m + 1], Random.Draws, start);
        var nextDoor := nextTile.doorways[m];
        var requiresSpecificEntrance := nextTile.tile.Some? && nextTile.tile.value.entrance.Some?;
        if requiresSpecificEntrance && nextTile.tile.value.entrance.value != nextDoor {
          assert next == Drawn(pairs, Random.Position);
          continue;
        }
        var valid, doorwayWeight := IsValidDoorwayPairing(previousDoor, nextDoor, nextTile.tile);
        if valid {
          pairs := pairs + [DoorwayPair(Inputs.previousTile, Some(previousDoor), nextTile, nextDoor, tileWeight.tileSet, weight, doorwayWeight)];
        }
      }
      assert nextTile.doorways[..|nextTile.doorways|] == nextTile.doorways;
    }

    /** `GetPotentialDoorwayPairsForFirstTile`, with the pairs it yields collected in order. */
    method GetPotentialDoorwayPairsForFirstTile() returns (r: Result<seq<DoorwayPair>>)
      requires OrderEligible(Inputs, tileOrder)
      modifies Random
      ensures Drawn(r, Random.Position)
           == FirstTilePairs(Inputs, tileOrder, Inputs.tileWeights, Random.Draws, old(Random.Position))
    {
      ghost var start := Random.Position;
      var tileWeights := Inputs.tileWeights;
      var pairs: seq<DoorwayPair> := [];
      for k := 0 to |tileWeights|
        invariant Drawn(Ok(pairs), Random.Position) == FirstTilePairs(Inputs, tileOrder, tileWeights[..k], Random.Draws, start)
      {
        assert tileWeights[..k + 1] == tileWeights[..k] + [tileWeights[k]];
        FirstTilePairsStep(Inputs, tileOrder, tileWeights[..k], tileWeights[k], Random.Draws, start, pairs, Random.Position);
        var entryPairs := FirstTileEntryPairsOf(tileWeights[k]);
        if entryPairs.Throws? {
          FirstTileFailureSticks(Inputs, tileOrder, tileWeights, k + 1, Random.Draws, start);
          return entryPairs;
        }
        pairs := pairs + entryPairs.value;
      }
      assert tileWeights[..|tileWeights|] == tileWeights;
      return Ok(pairs);
    }

    /** The body of the outer loop of `GetPotentialDoorwayPairsForFirstTile` for one table entry. */
    method FirstTileEntryPairsOf(tileWeight: TileChance) returns (r: Result<seq<DoorwayPair>>)
      requires OrderEligible(Inputs, tileOrder)
      modifies Random
      ensures Drawn(r, Random.Position) == FirstTileEntry(Inputs, tileOrder, tileWeight, Random.Draws, old(Random.Position))
    {
      if tileWeight !in tileOrder {
        return Ok([]);
      }
      var nextTile := TemplateOf(Inputs, tileWeight);
      ghost var drawAt := Random.Position;
      var draw := Random.NextDouble();
      var weight := Scaled(ChanceWeight(Inputs, tileWeight), draw);
      var admission := Admit(Inputs, tileWeight, weight);
      assert admission == FirstTileAdmission(Inputs, tileWeight, Random.Draws, drawAt);
      if !admission.allowed {
        return Ok([]);
      }
      weight := admission.weight;
      r := FirstTileDoorwayPairsOf(tileWeight, nextTile, weight);
    }

    /** The inner loop of `GetPotentialDoorwayPairsForFirstTile`: one pair per doorway of `nextTile`. */
    method FirstTileDoorwayPairsOf(tileWeight: TileChance, nextTile: TileTemplate, weight: real) returns (r: Result<seq<DoorwayPair>>)
      modifies Random
      ensures Drawn(r, Random.Position)
           == FirstTileDoorwayPairs(Inputs, tileWeight, nextTile, weight, nextTile.doorways, Random.Draws, old(Random.Position))
    {
      ghost var start := Random.Position;
      var pairs: seq<DoorwayPair> := [];
      for m := 0 to |nextTile.doorways|
        invariant Drawn(Ok(pairs), Random.Position)
               == FirstTileDoorwayPairs(Inputs, tileWeight, nextTile, weight, nextTile.doorways[..m], Random.Draws, start)
      {
        assert nextTile.doorways[..m + 1][..m] == nextTile.doorways[..m];
        var nextDoor := nextTile.doorways[m];
        var doorwayWeight := CalculateDoorwayWeight(nextDoor);
        if doorwayWeight.Throws? {
          FirstTileDoorwayFailureSticks(Inputs, tileWeight, nextTile, weight, nextTile.doorways, m + 1, Random.Draws, start);
          return Throws(doorwayWeight.exception);
        }
        pairs := pairs + [DoorwayPair(None, None, nextTile, nextDoor, tileWeight.tileSet, weight, doorwayWeight.value)];
      }
      assert nextTile.doorways[..|nextTile.doorways|] == nextTile.doorways;
      return Ok(pairs);
    }

    /**
     * `IsValidDoorwayPairing`: the socket check, then the facing check against the forced
     * direction if there is one, then the doorway weight. `weight` keeps its initial 0 on rejection.
     */
    method IsValidDoorwayPairing(a: Doorway, b: Doorway, nextTile: Option<TileInfo>) returns (valid: bool, weight: real)
      requires Inputs.previousTile.Some?
      modifies Random
      ensures Drawn(if valid then Some(weight) else None, Random.Position)
           == ValidDoorwayPairing(Inputs, a, b, nextTile, Random.Draws, old(Random.Position))
      ensures !valid ==> weight == 0.0
    {
      weight := 0.0;
      if !MatchingSocket(Inputs, a, b) {
        return false, weight;
      }
      var forcedDirection: Option<Direction> := None;
      var disallowRotation := (Inputs.allowRotation.Some? && !Inputs.allowRotation.value)
                           || (nextTile.Some? && !nextTile.value.allowRotation);
      if a.forward == Inputs.upVector {
        forcedDirection := Some(Inputs.upVector.Opposite());
      } else if a.forward == Inputs.upVector.Opposite() {
        forcedDirection := Some(Inputs.upVector);
      } else if disallowRotation {
        forcedDirection := Some(a.forward.Opposite());
      }
      if forcedDirection.Some? && forcedDirection.value != b.forward {
        return false, weight;
      }
      var w := CalculateDoorwayWeight(b);
      weight := w.value;
      return true, weight;
    }

    /**
     * `CalculateDoorwayWeight`: one draw, multiplied by 100 when a second draw says to
     * straighten. Reading the previous tile's placement with no previous tile throws.
     */
    method CalculateDoorwayWeight(doorway: Doorway) returns (r: Result<real>)
      modifies Random
      ensures Drawn(r, Random.Position) == DoorwayWeight(Inputs, doorway, Random.Draws, old(Random.Position))
    {
      var weight := Random.NextDouble();
      var straightenChance := StraightenChance(Inputs);
      if straightenChance > 0.0 && Inputs.isOnMainPath {
        if Inputs.previousTile.None? {
          return Throws(NullReferenceException);
        }
        var used := Inputs.previousTile.value.usedDoorways;
        if |used| == 1 && used[0].forward == doorway.forward.Opposite() {
          var rnd := Random.NextDouble();
          if rnd < straightenChance {
            weight := weight * 100.0;
          }
        }
      }
      return Ok(weight);
    }
  }
}
