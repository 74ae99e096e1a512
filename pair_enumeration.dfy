/**
 * What the two pair enumerators of `DoorwayPairFinder` produce, as functions of the finder's
 * inputs, the tile order and the random stream (a function from positions to draws and the
 * position of the next draw). Each function follows one loop of the source; the lemmas state
 * what every produced pair satisfies.
 */
module PairEnumeration {
  import opened Nullable
  import opened Doorways
  import opened TileOrdering

  /**
   * The `i`-th draw of a stream of `Random.NextDouble` results. Naming the application gives
   * the enumeration functions and the lemmas about them one shared term for each draw.
   */
  function Draw(draws: nat -> real, i: nat): real {
    draws(i)
  }

  /** Every draw of the stream lies in [0,1), as `Random.NextDouble` promises. */
  ghost predicate UnitDraws(draws: nat -> real) {
    forall i: nat :: 0.0 <= Draw(draws, i) < 1.0
  }

  /** A value computed from the stream, with the position of the next unused draw. */
  datatype Drawn<T> = Drawn(value: T, next: nat)

  /** Every entry of the tile order can be drawn; this is what the ordering guarantees. */
  predicate OrderEligible(s: FinderInputs, order: seq<TileChance>) {
    forall c :: c in order ==> Eligible(s, c)
  }

  /** An order that permutes the table's eligible entries only holds eligible entries. */
  lemma OrderIsEligible(s: FinderInputs, table: seq<TileChance>, order: seq<TileChance>)
    requires multiset(order) == multiset(EligibleEntries(s, table))
    ensures OrderEligible(s, order)
  {
    forall c | c in order
      ensures Eligible(s, c)
    {
      assert c in multiset(order);
      assert c in multiset(EligibleEntries(s, table));
    }
  }

  // ---------------------------------------------------------------------------------------
  // CalculateDoorwayWeight

  /** The weight calculation reads `PreviousTile.Placement` while there is no previous tile. */
  predicate StraightenFaults(s: FinderInputs) {
    StraightenChance(s) > 0.0 && s.isOnMainPath && s.previousTile.None?
  }

  /** The previous tile has exactly one used doorway, and it faces directly away from `d`. */
  predicate ContinuesStraight(t: PlacedTile, d: Doorway) {
    |t.usedDoorways| == 1 && t.usedDoorways[0].forward == d.forward.Opposite()
  }

  /** All conditions under which a second draw may multiply the weight by 100. */
  predicate TriesStraighten(s: FinderInputs, d: Doorway) {
    && StraightenChance(s) > 0.0
    && s.isOnMainPath
    && s.previousTile.Some?
    && ContinuesStraight(s.previousTile.value, d)
  }

  /**
   * `CalculateDoorwayWeight`: one draw, multiplied by 100 when the doorway would continue
   * the dungeon in a straight line and a second draw falls below the straighten chance.
   */
  function DoorwayWeight(s: FinderInputs, d: Doorway, draws: nat -> real, pos: nat): (r: Drawn<Result<real>>)
    ensures r.value.Throws? <==> StraightenFaults(s)
    ensures r.value.Ok? && !TriesStraighten(s, d) ==> r.value.value == Draw(draws, pos) && r.next == pos + 1
    ensures UnitDraws(draws) && r.value.Ok? ==> 0.0 <= r.value.value < 100.0
  {
    var weight := Draw(draws, pos);
    var chance := StraightenChance(s);
    if chance > 0.0 && s.isOnMainPath && s.previousTile.None? then
      Drawn(Throws(NullReferenceException), pos + 1)
    else if TriesStraighten(s, d) then
      Drawn(Ok(if Draw(draws, pos + 1) < chance then weight * 100.0 else weight), pos + 2)
    else
      Drawn(Ok(weight), pos + 1)
  }

  /** The bias: under the straighten conditions the weight is multiplied exactly when the second draw is below the chance. */
  lemma StraightenBias(s: FinderInputs, d: Doorway, draws: nat -> real, pos: nat)
    requires TriesStraighten(s, d)
    ensures var r := DoorwayWeight(s, d, draws, pos);
      && r.value.Ok?
      && r.next == pos + 2
      && r.value.value == if Draw(draws, pos + 1) < StraightenChance(s) then 100.0 * Draw(draws, pos) else Draw(draws, pos)
  {
  }

  // ---------------------------------------------------------------------------------------
  // IsValidDoorwayPairing

  /**
   * `IsValidDoorwayPairing`: `None` when the pairing is rejected (no draw is taken),
   * otherwise the doorway weight of the next doorway.
   */
  function ValidDoorwayPairing(s: FinderInputs, a: Doorway, b: Doorway, nextTile: Option<TileInfo>, draws: nat -> real, pos: nat): (r: Drawn<Option<real>>)
    requires s.previousTile.Some?
    ensures r.value.Some? <==> IsCompatible(s, a, b, nextTile)
    ensures r.value.None? ==> r.next == pos
    ensures UnitDraws(draws) && r.value.Some? ==> 0.0 <= r.value.value < 100.0
  {
    if !IsCompatible(s, a, b, nextTile) then Drawn(None, pos)
    else
      var w := DoorwayWeight(s, b, draws, pos);
      Drawn(Some(w.value.value), w.next)
  }

  // ---------------------------------------------------------------------------------------
  // GetPotentialDoorwayPairsForNonFirstTile

  /** The innermost loop: the next tile's doorways `doors`, against previous doorway `a`. */
  function NextDoorwayPairs(s: FinderInputs, a: Doorway, c: TileChance, t: TileTemplate, weight: real,
                            doors: seq<Doorway>, draws: nat -> real, pos: nat): Drawn<seq<DoorwayPair>>
    requires s.previousTile.Some?
    decreases |doors|
  {
    if doors == [] then Drawn([], pos)
    else
      var prior := NextDoorwayPairs(s, a, c, t, weight, doors[..|doors| - 1], draws, pos);
      var b := doors[|doors| - 1];
      if RequiresEntrance(t) && t.tile.value.entrance.value != b then prior
      else
        var v := ValidDoorwayPairing(s, a, b, t.tile, draws, prior.next);
        if v.value.None? then prior
        else Drawn(prior.value + [DoorwayPair(s.previousTile, Some(a), t, b, c.tileSet, weight, v.value.value)], v.next)
  }

  /** The middle loop: the table entries `chances`, against previous doorway `a`. */
  function CandidatePairs(s: FinderInputs, order: seq<TileChance>, a: Doorway, chances: seq<TileChance>,
                          draws: nat -> real, pos: nat): Drawn<seq<DoorwayPair>>
    requires s.previousTile.Some? && OrderEligible(s, order)
    decreases |chances|
  {
    if chances == [] then Drawn([], pos)
    else
      var prior := CandidatePairs(s, order, a, chances[..|chances| - 1], draws, pos);
      var c := chances[|chances| - 1];
      if c !in order then prior
      else
        var t := TemplateOf(s, c);
        var adm := Admit(s, c, TileRank(order, c) as real);
        if !adm.allowed then prior
        else
          var ds := NextDoorwayPairs(s, a, c, t, adm.weight, t.doorways, draws, prior.next);
          Drawn(prior.value + ds.value, ds.next)
  }

  /** The outer loop: the previous tile's unused doorways `prevDoors`, skipping all but a required exit. */
  function NonFirstTilePairs(s: FinderInputs, order: seq<TileChance>, prevDoors: seq<Doorway>,
                             draws: nat -> real, pos: nat): Drawn<seq<DoorwayPair>>
    requires s.previousTile.Some? && OrderEligible(s, order)
    decreases |prevDoors|
  {
    if prevDoors == [] then Drawn([], pos)
    else
      var prior := NonFirstTilePairs(s, order, prevDoors[..|prevDoors| - 1], draws, pos);
      var a := prevDoors[|prevDoors| - 1];
      if RequiresExit(s.previousTile.value) && s.previousTile.value.exit.value != a then prior
      else
        var cs := CandidatePairs(s, order, a, s.tileWeights, draws, prior.next);
        Drawn(prior.value + cs.value, cs.next)
  }

  /** `p` was built from table entry `c`: its template and tile set, admitted with its positional weight. */
  ghost predicate FromCandidate(s: FinderInputs, order: seq<TileChance>, c: TileChance, p: DoorwayPair) {
    && c in order
    && c.prefab.Some?
    && p.nextTemplate == TemplateOf(s, c)
    && p.nextTileSet == c.tileSet
    && Admit(s, c, TileRank(order, c) as real) == Admission(true, p.tileWeight)
  }

  /** A pair between previous doorway `a` and a doorway of its template that passed the entrance and compatibility checks. */
  ghost predicate ConnectsFrom(s: FinderInputs, a: Doorway, p: DoorwayPair, draws: nat -> real) {
    && p.previousTile == s.previousTile
    && p.previousDoorway == Some(a)
    && p.nextDoorway in p.nextTemplate.doorways
    && (RequiresEntrance(p.nextTemplate) ==> p.nextDoorway == p.nextTemplate.tile.value.entrance.value)
    && IsCompatible(s, a, p.nextDoorway, p.nextTemplate.tile)
    && (UnitDraws(draws) ==> 0.0 <= p.doorwayWeight < 100.0)
  }

  lemma {:induction false} NextDoorwayPairsSound(s: FinderInputs, order: seq<TileChance>, a: Doorway, c: TileChance,
                                                 weight: real, doors: seq<Doorway>, draws: nat -> real, pos: nat)
    requires s.previousTile.Some? && c in order && c.prefab.Some?
    requires Admit(s, c, TileRank(order, c) as real) == Admission(true, weight)
    requires forall d :: d in doors ==> d in TemplateOf(s, c).doorways
    ensures var r := NextDoorwayPairs(s, a, c, TemplateOf(s, c), weight, doors, draws, pos);
      && r.next >= pos
      && forall p :: p in r.value ==> ConnectsFrom(s, a, p, draws) && FromCandidate(s, order, c, p)
  {
    if doors != [] {
      NextDoorwayPairsSound(s, order, a, c, weight, doors[..|doors| - 1], draws, pos);
    }
  }

  lemma {:induction false} CandidatePairsSound(s: FinderInputs, order: seq<TileChance>, a: Doorway,
                                               chances: seq<TileChance>, draws: nat -> real, pos: nat)
    requires s.previousTile.Some? && OrderEligible(s, order)
    ensures var r := CandidatePairs(s, order, a, chances, draws, pos);
      && r.next >= pos
      && forall p :: p in r.value ==>
           ConnectsFrom(s, a, p, draws) && exists c :: c in chances && FromCandidate(s, order, c, p)
  {
    if chances != [] {
      var init := chances[..|chances| - 1];
      CandidatePairsSound(s, order, a, init, draws, pos);
      var prior := CandidatePairs(s, order, a, init, draws, pos);
      var c := chances[|chances| - 1];
      if c in order {
        var t := TemplateOf(s, c);
        var adm := Admit(s, c, TileRank(order, c) as real);
        if adm.allowed {
          NextDoorwayPairsSound(s, order, a, c, adm.weight, t.doorways, draws, prior.next);
        }
      }
      var r := CandidatePairs(s, order, a, chances, draws, pos);
      forall p | p in r.value
        ensures exists c' :: c' in chances && FromCandidate(s, order, c', p)
      {
        if p in prior.value {
          var c' :| c' in init && FromCandidate(s, order, c', p);
          assert c' in chances;
        } else {
          assert FromCandidate(s, order, c, p);
        }
      }
    }
  }

  /** A pair of the following-tile mode. */
  ghost predicate NonFirstTilePair(s: FinderInputs, order: seq<TileChance>, prevDoors: seq<Doorway>,
                                   p: DoorwayPair, draws: nat -> real)
    requires s.previousTile.Some?
  {
    && p.previousDoorway.Some?
    && p.previousDoorway.value in prevDoors
    && (RequiresExit(s.previousTile.value) ==> p.previousDoorway == s.previousTile.value.exit)
    && ConnectsFrom(s, p.previousDoorway.value, p, draws)
    && exists c :: c in s.tileWeights && FromCandidate(s, order, c, p)
  }

  /**
   * Every pair of the following-tile mode leaves through one of `prevDoors` (the required exit
   * when there is one), enters through a doorway of an ordered, admitted template (its entrance
   * when it declares one), passes the socket and facing checks, carries the template's
   * positional weight as adjusted by the predicate, and has a doorway weight in [0,100).
   */
  lemma {:induction false} NonFirstTilePairsSound(s: FinderInputs, order: seq<TileChance>, prevDoors: seq<Doorway>,
                                                  draws: nat -> real, pos: nat)
    requires s.previousTile.Some? && OrderEligible(s, order)
    ensures var r := NonFirstTilePairs(s, order, prevDoors, draws, pos);
      && r.next >= pos
      && forall p :: p in r.value ==> NonFirstTilePair(s, order, prevDoors, p, draws)
  {
    if prevDoors != [] {
      var init := prevDoors[..|prevDoors| - 1];
      NonFirstTilePairsSound(s, order, init, draws, pos);
      var prior := NonFirstTilePairs(s, order, init, draws, pos);
      var a := prevDoors[|prevDoors| - 1];
      CandidatePairsSound(s, order, a, s.tileWeights, draws, prior.next);
      var r := NonFirstTilePairs(s, order, prevDoors, draws, pos);
      forall p | p in r.value
        ensures NonFirstTilePair(s, order, prevDoors, p, draws)
      {
        if p in prior.value {
          assert p.previousDoorway.value in init;
        }
      }
    }
  }

  /** With no admission predicate, the tile weight of a following-tile pair is exactly its template's positional weight. */
  lemma NonFirstTileWeightIsRank(s: FinderInputs, order: seq<TileChance>, c: TileChance, p: DoorwayPair)
    requires s.isTileAllowed.None? && FromCandidate(s, order, c, p)
    ensures p.tileWeight == TileRank(order, c) as real
    ensures 1.0 <= p.tileWeight <= |order| as real
  {
  }

  /**
   * `p` is the pair that joins previous doorway `a` to doorway `b` of template `t`, built from
   * table entry `c` with tile weight `weight`; only its doorway weight is left open.
   */
  ghost predicate Joins(s: FinderInputs, p: DoorwayPair, a: Doorway, b: Doorway, t: TileTemplate, c: TileChance, weight: real) {
    p == DoorwayPair(s.previousTile, Some(a), t, b, c.tileSet, weight, p.doorwayWeight)
  }

  /** Every doorway of `doors` that passes the entrance and compatibility checks against `a` gives a pair. */
  lemma {:induction false} NextDoorwayPairsComplete(s: FinderInputs, a: Doorway, c: TileChance, t: TileTemplate, weight: real,
                                                    doors: seq<Doorway>, draws: nat -> real, pos: nat, b: Doorway)
    requires s.previousTile.Some? && b in doors
    requires RequiresEntrance(t) ==> t.tile.value.entrance.value == b
    requires IsCompatible(s, a, b, t.tile)
    ensures exists p :: p in NextDoorwayPairs(s, a, c, t, weight, doors, draws, pos).value && Joins(s, p, a, b, t, c, weight)
  {
    var init := doors[..|doors| - 1];
    var r := NextDoorwayPairs(s, a, c, t, weight, doors, draws, pos);
    if b == doors[|doors| - 1] {
      var prior := NextDoorwayPairs(s, a, c, t, weight, init, draws, pos);
      var v := ValidDoorwayPairing(s, a, b, t.tile, draws, prior.next);
      var p := DoorwayPair(s.previousTile, Some(a), t, b, c.tileSet, weight, v.value.value);
      assert p in r.value && Joins(s, p, a, b, t, c, weight);
    } else {
      assert doors == init + [doors[|doors| - 1]];
      NextDoorwayPairsComplete(s, a, c, t, weight, init, draws, pos, b);
    }
  }

  /**
   * Every ordered, admitted entry `c` of `chances` gives a pair for every doorway `b` of its
   * template that passes the entrance and compatibility checks against `a`.
   */
  lemma {:induction false} CandidatePairsComplete(s: FinderInputs, order: seq<TileChance>, a: Doorway, chances: seq<TileChance>,
                                                  draws: nat -> real, pos: nat, c: TileChance, b: Doorway)
    requires s.previousTile.Some? && OrderEligible(s, order)
    requires c in chances && c in order && Admit(s, c, TileRank(order, c) as real).allowed
    requires b in TemplateOf(s, c).doorways
    requires RequiresEntrance(TemplateOf(s, c)) ==> TemplateOf(s, c).tile.value.entrance.value == b
    requires IsCompatible(s, a, b, TemplateOf(s, c).tile)
    ensures exists p ::
              && p in CandidatePairs(s, order, a, chances, draws, pos).value
              && Joins(s, p, a, b, TemplateOf(s, c), c, Admit(s, c, TileRank(order, c) as real).weight)
  {
    var init := chances[..|chances| - 1];
    var prior := CandidatePairs(s, order, a, init, draws, pos);
    var t := TemplateOf(s, c);
    var weight := Admit(s, c, TileRank(order, c) as real).weight;
    if c == chances[|chances| - 1] {
      NextDoorwayPairsComplete(s, a, c, t, weight, t.doorways, draws, prior.next, b);
      var ds := NextDoorwayPairs(s, a, c, t, weight, t.doorways, draws, prior.next);
      var p :| p in ds.value && Joins(s, p, a, b, t, c, weight);
      assert CandidatePairs(s, order, a, chances, draws, pos).value == prior.value + ds.value;
      assert p in CandidatePairs(s, order, a, chances, draws, pos).value;
    } else {
      assert chances == init + [chances[|chances| - 1]];
      CandidatePairsComplete(s, order, a, init, draws, pos, c, b);
      var p :| p in prior.value && Joins(s, p, a, b, t, c, weight);
      assert p in CandidatePairs(s, order, a, chances, draws, pos).value;
    }
  }

  /**
   * Completeness of the following-tile mode: every unused doorway `a` (the required exit when
   * there is one), ordered and admitted entry `c` of the table, and doorway `b` of its template
   * (its entrance when it declares one) that is compatible with `a` give a pair.
   */
  lemma {:induction false} NonFirstTilePairsComplete(s: FinderInputs, order: seq<TileChance>, prevDoors: seq<Doorway>,
                                                     draws: nat -> real, pos: nat, a: Doorway, c: TileChance, b: Doorway)
    requires s.previousTile.Some? && OrderEligible(s, order)
    requires a in prevDoors && (RequiresExit(s.previousTile.value) ==> s.previousTile.value.exit.value == a)
    requires c in s.tileWeights && c in order && Admit(s, c, TileRank(order, c) as real).allowed
    requires b in TemplateOf(s, c).doorways
    requires RequiresEntrance(TemplateOf(s, c)) ==> TemplateOf(s, c).tile.value.entrance.value == b
    requires IsCompatible(s, a, b, TemplateOf(s, c).tile)
    ensures exists p ::
              && p in NonFirstTilePairs(s, order, prevDoors, draws, pos).value
              && Joins(s, p, a, b, TemplateOf(s, c), c, Admit(s, c, TileRank(order, c) as real).weight)
  {
    var init := prevDoors[..|prevDoors| - 1];
    var prior := NonFirstTilePairs(s, order, init, draws, pos);
    if a == prevDoors[|prevDoors| - 1] {
      CandidatePairsComplete(s, order, a, s.tileWeights, draws, prior.next, c, b);
      var cs := CandidatePairs(s, order, a, s.tileWeights, draws, prior.next);
      var p :| p in cs.value && Joins(s, p, a, b, TemplateOf(s, c), c, Admit(s, c, TileRank(order, c) as real).weight);
      assert NonFirstTilePairs(s, order, prevDoors, draws, pos).value == prior.value + cs.value;
      assert p in NonFirstTilePairs(s, order, prevDoors, draws, pos).value;
    } else {
      assert prevDoors == init + [prevDoors[|prevDoors| - 1]];
      NonFirstTilePairsComplete(s, order, init, draws, pos, a, c, b);
      var p :| p in prior.value && Joins(s, p, a, b, TemplateOf(s, c), c, Admit(s, c, TileRank(order, c) as real).weight);
      assert p in NonFirstTilePairs(s, order, prevDoors, draws, pos).value;
    }
  }

  // ---------------------------------------------------------------------------------------
  // GetPotentialDoorwayPairsForFirstTile

  /** The inner loop of the first-tile mode: one pair per doorway, each with its own weight draw. */
  function FirstTileDoorwayPairs(s: FinderInputs, c: TileChance, t: TileTemplate, weight: real,
                                 doors: seq<Doorway>, draws: nat -> real, pos: nat): Drawn<Result<seq<DoorwayPair>>>
    decreases |doors|
  {
    if doors == [] then Drawn(Ok([]), pos)
    else
      var prior := FirstTileDoorwayPairs(s, c, t, weight, doors[..|doors| - 1], draws, pos);
      if prior.value.Throws? then prior
      else
        var b := doors[|doors| - 1];
        var w := DoorwayWeight(s, b, draws, prior.next);
        if w.value.Throws? then Drawn(Throws(w.value.exception), w.next)
        else Drawn(Ok(prior.value.value + [DoorwayPair(None, None, t, b, c.tileSet, weight, w.value.value)]), w.next)
  }

  /**
   * The first-tile mode's provisional tile weight is the entry's weight times one draw; the
   * predicate then adjusts it. Without a predicate it lies in [0, weight) for a positive weight.
   */
  function FirstTileAdmission(s: FinderInputs, c: TileChance, draws: nat -> real, pos: nat): Admission {
    Admit(s, c, Scaled(ChanceWeight(s, c), Draw(draws, pos)))
  }

  /** Without a predicate, a first-tile weight lies in [0, weight) for an entry of positive weight. */
  lemma FirstTileWeightInside(s: FinderInputs, c: TileChance, draws: nat -> real, pos: nat)
    requires s.isTileAllowed.None? && UnitDraws(draws) && ChanceWeight(s, c) > 0.0
    ensures 0.0 <= FirstTileAdmission(s, c, draws, pos).weight < ChanceWeight(s, c)
  {
    ScaledDrawInside(Draw(draws, pos), ChanceWeight(s, c));
  }

  /**
   * The body of the first-tile mode's outer loop for one table entry, drawing from `pos`: an
   * entry outside the tile order gives nothing and draws nothing; otherwise one draw makes the
   * provisional weight, and an admitted entry gives its template's doorway pairs.
   */
  function FirstTileEntry(s: FinderInputs, order: seq<TileChance>, c: TileChance, draws: nat -> real, pos: nat)
    : Drawn<Result<seq<DoorwayPair>>>
    requires OrderEligible(s, order)
  {
    if c !in order then Drawn(Ok([]), pos)
    else
      var t := TemplateOf(s, c);
      var adm := FirstTileAdmission(s, c, draws, pos);
      if !adm.allowed then Drawn(Ok([]), pos + 1)
      else FirstTileDoorwayPairs(s, c, t, adm.weight, t.doorways, draws, pos + 1)
  }

  /** The outer loop of the first-tile mode over the table entries `chances`. */
  function FirstTilePairs(s: FinderInputs, order: seq<TileChance>, chances: seq<TileChance>,
                          draws: nat -> real, pos: nat): Drawn<Result<seq<DoorwayPair>>>
    requires OrderEligible(s, order)
    decreases |chances|
  {
    if chances == [] then Drawn(Ok([]), pos)
    else
      var prior := FirstTilePairs(s, order, chances[..|chances| - 1], draws, pos);
      if prior.value.Throws? then prior
      else
        var e := FirstTileEntry(s, order, chances[|chances| - 1], draws, prior.next);
        if e.value.Throws? then e
        else Drawn(Ok(prior.value.value + e.value.value), e.next)
  }

  /** One more table entry extends a successful first-tile enumeration by that entry's pairs, or ends it with their failure. */
  lemma FirstTilePairsStep(s: FinderInputs, order: seq<TileChance>, chances: seq<TileChance>, c: TileChance,
                           draws: nat -> real, pos: nat, pairs: seq<DoorwayPair>, at: nat)
    requires OrderEligible(s, order)
    requires FirstTilePairs(s, order, chances, draws, pos) == Drawn(Ok(pairs), at)
    ensures var e := FirstTileEntry(s, order, c, draws, at);
            FirstTilePairs(s, order, chances + [c], draws, pos)
              == if e.value.Throws? then e else Drawn(Ok(pairs + e.value.value), e.next)
  {
    assert (chances + [c])[..|chances|] == chances;
  }

  /**
   * In the first-tile mode (no previous tile) a template's doorways give one pair each, in
   * order, with no previous side and with consecutive draws as doorway weights; the weight
   * calculation fails instead exactly when it would try to straighten and there is a doorway.
   */
  lemma {:induction false} FirstTileDoorwayPairsExact(s: FinderInputs, c: TileChance, t: TileTemplate, weight: real,
                                                      doors: seq<Doorway>, draws: nat -> real, pos: nat)
    requires s.previousTile.None?
    ensures var r := FirstTileDoorwayPairs(s, c, t, weight, doors, draws, pos);
      && (r.value.Throws? <==> StraightenFaults(s) && doors != [])
      && (r.value.Ok? ==>
            && r.next == pos + |doors|
            && |r.value.value| == |doors|
            && forall k :: 0 <= k < |doors| ==>
                 r.value.value[k] == DoorwayPair(None, None, t, doors[k], c.tileSet, weight, Draw(draws, pos + k)))
  {
    if doors != [] {
      var init := doors[..|doors| - 1];
      FirstTileDoorwayPairsExact(s, c, t, weight, init, draws, pos);
      var prior := FirstTileDoorwayPairs(s, c, t, weight, init, draws, pos);
      if prior.value.Ok? {
        var r := FirstTileDoorwayPairs(s, c, t, weight, doors, draws, pos);
        if r.value.Ok? {
          forall k | 0 <= k < |doors|
            ensures r.value.value[k] == DoorwayPair(None, None, t, doors[k], c.tileSet, weight, Draw(draws, pos + k))
          {
            if k < |init| {
              assert r.value.value[k] == prior.value.value[k];
            }
          }
        }
      }
    }
  }

  /** The next doorways of a list of pairs, in order. */
  function NextDoorways(ps: seq<DoorwayPair>): (ds: seq<Doorway>)
    ensures |ds| == |ps| && forall k :: 0 <= k < |ps| ==> ds[k] == ps[k].nextDoorway
  {
    seq(|ps|, k requires 0 <= k < |ps| => ps[k].nextDoorway)
  }

  lemma NextDoorwaysAppend(ps: seq<DoorwayPair>, qs: seq<DoorwayPair>)
    ensures NextDoorways(ps + qs) == NextDoorways(ps) + NextDoorways(qs)
  {
    assert forall k :: 0 <= k < |ps| + |qs| ==>
      NextDoorways(ps + qs)[k] == (NextDoorways(ps) + NextDoorways(qs))[k];
  }

  /** The doorways of the templates of the entries of `chances` that are in the tile order, in table order. */
  function OrderedDoorways(s: FinderInputs, order: seq<TileChance>, chances: seq<TileChance>): seq<Doorway>
    requires OrderEligible(s, order)
  {
    if chances == [] then []
    else
      var c := chances[|chances| - 1];
      OrderedDoorways(s, order, chances[..|chances| - 1])
        + (if c in order then TemplateOf(s, c).doorways else [])
  }

  /**
   * The doorways of the templates of the entries of `chances` that are in the tile order and
   * that the admission predicate accepts at the draw the enumeration takes for them, in table order.
   */
  function AdmittedDoorways(s: FinderInputs, order: seq<TileChance>, chances: seq<TileChance>,
                            draws: nat -> real, pos: nat): seq<Doorway>
    requires OrderEligible(s, order)
    decreases |chances|
  {
    if chances == [] then []
    else
      var init := chances[..|chances| - 1];
      var c := chances[|chances| - 1];
      var at := FirstTilePairs(s, order, init, draws, pos).next;
      AdmittedDoorways(s, order, init, draws, pos) + EntryDoorways(s, order, c, draws, at)
  }

  /** The doorways one table entry contributes in the first-tile mode when its weight draw is at `at`. */
  function EntryDoorways(s: FinderInputs, order: seq<TileChance>, c: TileChance, draws: nat -> real, at: nat): seq<Doorway>
    requires OrderEligible(s, order)
  {
    if c in order && FirstTileAdmission(s, c, draws, at).allowed then TemplateOf(s, c).doorways else []
  }

  /**
   * One table entry in the first-tile mode gives one pair per doorway it contributes, in order,
   * and fails exactly when the weight calculation would straighten and it contributes a doorway.
   */
  lemma FirstTileEntryComplete(s: FinderInputs, order: seq<TileChance>, c: TileChance, draws: nat -> real, at: nat)
    requires s.previousTile.None? && OrderEligible(s, order)
    ensures var e := FirstTileEntry(s, order, c, draws, at);
      && (e.value.Throws? <==> StraightenFaults(s) && EntryDoorways(s, order, c, draws, at) != [])
      && (e.value.Ok? ==> NextDoorways(e.value.value) == EntryDoorways(s, order, c, draws, at))
  {
    if c in order && FirstTileAdmission(s, c, draws, at).allowed {
      var t := TemplateOf(s, c);
      var adm := FirstTileAdmission(s, c, draws, at);
      FirstTileDoorwayPairsExact(s, c, t, adm.weight, t.doorways, draws, at + 1);
    }
  }

  /**
   * Completeness of the first-tile mode: the pairs are exactly one per doorway of every ordered
   * template admitted at its own draw, in table and doorway order; the enumeration fails
   * exactly when the weight calculation would straighten and there is such a doorway at all.
   */
  lemma {:induction false} FirstTilePairsComplete(s: FinderInputs, order: seq<TileChance>, chances: seq<TileChance>,
                                                  draws: nat -> real, pos: nat)
    requires s.previousTile.None? && OrderEligible(s, order)
    ensures var r := FirstTilePairs(s, order, chances, draws, pos);
      && (r.value.Throws? <==> StraightenFaults(s) && AdmittedDoorways(s, order, chances, draws, pos) != [])
      && (r.value.Ok? ==> NextDoorways(r.value.value) == AdmittedDoorways(s, order, chances, draws, pos))
  {
    if chances != [] {
      var init := chances[..|chances| - 1];
      FirstTilePairsComplete(s, order, init, draws, pos);
      var prior := FirstTilePairs(s, order, init, draws, pos);
      var c := chances[|chances| - 1];
      var admitted := AdmittedDoorways(s, order, init, draws, pos);
      if prior.value.Ok? {
        FirstTilePairsStep(s, order, init, c, draws, pos, prior.value.value, prior.next);
        assert init + [c] == chances;
        FirstTileEntryComplete(s, order, c, draws, prior.next);
        var e := FirstTileEntry(s, order, c, draws, prior.next);
        if e.value.Ok? {
          NextDoorwaysAppend(prior.value.value, e.value.value);
        }
      } else {
        assert admitted != [];
        assert AdmittedDoorways(s, order, chances, draws, pos)[..|admitted|] == admitted;
      }
    }
  }

  /** Without an admission predicate every entry in the tile order is admitted, so its template's doorways all count. */
  lemma {:induction false} AdmittedDoorwaysWithoutPredicate(s: FinderInputs, order: seq<TileChance>,
                                                            chances: seq<TileChance>, draws: nat -> real, pos: nat)
    requires s.isTileAllowed.None? && OrderEligible(s, order)
    ensures AdmittedDoorways(s, order, chances, draws, pos) == OrderedDoorways(s, order, chances)
  {
    if chances != [] {
      AdmittedDoorwaysWithoutPredicate(s, order, chances[..|chances| - 1], draws, pos);
    }
  }

  /**
   * `p` is a pair table entry `c` gives in the first-tile mode when its weight draw is at `at`:
   * no previous side, a doorway of `c`'s template, `c`'s tile set, the tile weight the
   * predicate admitted for that draw (below the entry's weight when there is no predicate),
   * and a doorway weight in [0,1).
   */
  ghost predicate FirstTileEntryPair(s: FinderInputs, order: seq<TileChance>, c: TileChance, p: DoorwayPair,
                                     draws: nat -> real, at: nat)
  {
    && p.previousTile.None?
    && p.previousDoorway.None?
    && p.nextDoorway in p.nextTemplate.doorways
    && (UnitDraws(draws) ==> 0.0 <= p.doorwayWeight < 1.0)
    && c in order
    && c.prefab.Some?
    && p.nextTemplate == TemplateOf(s, c)
    && p.nextTileSet == c.tileSet
    && FirstTileAdmission(s, c, draws, at) == Admission(true, p.tileWeight)
    && (s.isTileAllowed.None? && UnitDraws(draws) ==> 0.0 <= p.tileWeight < ChanceWeight(s, c))
  }

  /** A pair of the first-tile mode: it comes from some entry `chances[k]`, at the draw the enumeration took for that entry. */
  ghost predicate FirstTilePair(s: FinderInputs, order: seq<TileChance>, chances: seq<TileChance>,
                                p: DoorwayPair, draws: nat -> real, pos: nat)
    requires OrderEligible(s, order)
  {
    exists k :: 0 <= k < |chances|
      && FirstTileEntryPair(s, order, chances[k], p, draws, FirstTilePairs(s, order, chances[..k], draws, pos).next)
  }

  /**
   * Every pair of the first-tile mode has no previous side, a doorway of an ordered template,
   * a doorway weight in [0,1), and the tile weight the predicate admitted at the draw taken for
   * its entry; without a predicate that weight is below its entry's weight.
   */
  lemma {:induction false} FirstTilePairsSound(s: FinderInputs, order: seq<TileChance>, chances: seq<TileChance>,
                                               draws: nat -> real, pos: nat)
    requires s.previousTile.None? && OrderEligible(s, order)
    ensures var r := FirstTilePairs(s, order, chances, draws, pos);
      r.value.Ok? ==> forall p :: p in r.value.value ==> FirstTilePair(s, order, chances, p, draws, pos)
  {
    if chances != [] {
      var init := chances[..|chances| - 1];
      FirstTilePairsSound(s, order, init, draws, pos);
      var prior := FirstTilePairs(s, order, init, draws, pos);
      var c := chances[|chances| - 1];
      var r := FirstTilePairs(s, order, chances, draws, pos);
      if prior.value.Ok? {
        FirstTilePairsStep(s, order, init, c, draws, pos, prior.value.value, prior.next);
        assert init + [c] == chances;
        FirstTileEntrySound(s, order, c, draws, prior.next);
        var e := FirstTileEntry(s, order, c, draws, prior.next);
        if r.value.Ok? {
          forall p | p in r.value.value
            ensures FirstTilePair(s, order, chances, p, draws, pos)
          {
            if p in prior.value.value {
              var k :| 0 <= k < |init|
                && FirstTileEntryPair(s, order, init[k], p, draws, FirstTilePairs(s, order, init[..k], draws, pos).next);
              assert chances[k] == init[k] && chances[..k] == init[..k];
            } else {
              assert p in e.value.value;
              assert chances[|init|] == c && chances[..|init|] == init;
            }
          }
        }
      }
    }
  }

  /**
   * What one table entry contributes in the first-tile mode, with its weight draw at `at`: an
   * entry outside the tile order, or one the predicate rejects at that draw, gives no pair;
   * every pair it gives is one of its first-tile pairs for that draw.
   */
  lemma FirstTileEntrySound(s: FinderInputs, order: seq<TileChance>, c: TileChance, draws: nat -> real, at: nat)
    requires s.previousTile.None? && OrderEligible(s, order)
    ensures var e := FirstTileEntry(s, order, c, draws, at);
            && (!(c in order && FirstTileAdmission(s, c, draws, at).allowed) ==> e.value == Ok([]))
            && (e.value.Ok? ==> forall p :: p in e.value.value ==> FirstTileEntryPair(s, order, c, p, draws, at))
  {
    if c in order && FirstTileAdmission(s, c, draws, at).allowed {
      var t := TemplateOf(s, c);
      var adm := FirstTileAdmission(s, c, draws, at);
      FirstTileDoorwayPairsExact(s, c, t, adm.weight, t.doorways, draws, at + 1);
      var ds := FirstTileDoorwayPairs(s, c, t, adm.weight, t.doorways, draws, at + 1);
      if s.isTileAllowed.None? && UnitDraws(draws) {
        FirstTileWeightInside(s, c, draws, at);
      }
      if ds.value.Ok? {
        forall p | p in ds.value.value
          ensures FirstTileEntryPair(s, order, c, p, draws, at)
        {
          var k :| 0 <= k < |ds.value.value| && ds.value.value[k] == p;
          assert p.nextDoorway == t.doorways[k];
        }
      }
    }
  }

  /** Once the first-tile doorway loop fails, later doorways do not change the outcome: the exception propagates. */
  lemma {:induction false} FirstTileDoorwayFailureSticks(s: FinderInputs, c: TileChance, t: TileTemplate, weight: real,
                                                         doors: seq<Doorway>, k: nat, draws: nat -> real, pos: nat)
    requires k <= |doors|
    requires FirstTileDoorwayPairs(s, c, t, weight, doors[..k], draws, pos).value.Throws?
    ensures FirstTileDoorwayPairs(s, c, t, weight, doors, draws, pos) == FirstTileDoorwayPairs(s, c, t, weight, doors[..k], draws, pos)
    decreases |doors| - k
  {
    if k < |doors| {
      var init := doors[..|doors| - 1];
      assert init[..k] == doors[..k];
      FirstTileDoorwayFailureSticks(s, c, t, weight, init, k, draws, pos);
    } else {
      assert doors[..k] == doors;
    }
  }

  /** Once the first-tile entry loop fails, later entries do not change the outcome. */
  lemma {:induction false} FirstTileFailureSticks(s: FinderInputs, order: seq<TileChance>, chances: seq<TileChance>,
                                                  k: nat, draws: nat -> real, pos: nat)
    requires OrderEligible(s, order) && k <= |chances|
    requires FirstTilePairs(s, order, chances[..k], draws, pos).value.Throws?
    ensures FirstTilePairs(s, order, chances, draws, pos) == FirstTilePairs(s, order, chances[..k], draws, pos)
    decreases |chances| - k
  {
    if k < |chances| {
      var init := chances[..|chances| - 1];
      assert init[..k] == chances[..k];
      FirstTileFailureSticks(s, order, init, k, draws, pos);
    } else {
      assert chances[..k] == chances;
    }
  }
}
