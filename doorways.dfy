/**
 * The values DunGen's doorway-pair finder works on, and its pure decisions: the forced
 * facing of a connection, the positional tile weight and the admission of a candidate.
 *
 * Doorway facings are the six cardinal directions, so "within 1 degree of" is equality.
 * Engine objects (prefabs, tile sets, sockets) are identified by numbers.
 */
module Doorways {
  import opened Nullable
  import opened UnityUtil

  /** A facing along one axis: `positive` says which way. */
  datatype Direction = Direction(axis: Axis, positive: bool) {
    /** The facing directly opposite: the negated vector. */
    function Opposite(): Direction {
      Direction(axis, !positive)
    }
  }

  /** A doorway: its identity, its socket group and the direction its transform faces. */
  datatype Doorway = Doorway(id: nat, socket: nat, forward: Direction)

  /** An already placed tile: the doorways already connected, those still free, and an optional required exit. */
  datatype PlacedTile = PlacedTile(usedDoorways: seq<Doorway>, unusedDoorways: seq<Doorway>, exit: Option<Doorway>)

  /** The `Tile` component of a template: may it be rotated, and must it be entered through one doorway? */
  datatype TileInfo = TileInfo(allowRotation: bool, entrance: Option<Doorway>)

  /** Pre-processed data of a tile prefab: its doorways and its (possibly missing) `Tile` component. */
  datatype TileTemplate = TileTemplate(prefab: nat, doorways: seq<Doorway>, tile: Option<TileInfo>)

  /** An entry of the weighted tile table: a prefab (possibly null) and the tile set it comes from. */
  datatype TileChance = TileChance(id: nat, prefab: Option<nat>, tileSet: nat)

  datatype DoorwayPair = DoorwayPair(
    previousTile: Option<PlacedTile>,
    previousDoorway: Option<Doorway>,
    nextTemplate: TileTemplate,
    nextDoorway: Doorway,
    nextTileSet: nat,
    tileWeight: real,
    doorwayWeight: real)

  datatype Archetype = Archetype(straightenChance: real)

  /** What the admission predicate answers, and the (possibly adjusted) `ref weight`. */
  datatype Admission = Admission(allowed: bool, weight: real)

  datatype Exception = NullReferenceException | ArgumentOutOfRangeException

  datatype Result<T> = Ok(value: T) | Throws(exception: Exception)

  /**
   * The finder's public fields, which the pair search only reads. The callbacks stand for
   * `IsTileAllowedPredicate`, `GetTileTemplateDelegate`, `GameObjectChance.GetWeight` and
   * `DoorwaySocket.IsMatchingSocket`.
   */
  datatype FinderInputs = FinderInputs(
    tileWeights: seq<TileChance>,
    previousTile: Option<PlacedTile>,
    previousPrefab: Option<nat>,
    isOnMainPath: bool,
    normalizedDepth: real,
    archetype: Option<Archetype>,
    allowRotation: Option<bool>,
    upVector: Direction,
    isTileAllowed: Option<(Option<PlacedTile>, Option<nat>, TileChance, real) -> Admission>,
    getTileTemplate: nat -> TileTemplate,
    getWeight: (TileChance, bool, real) -> real,
    isMatchingSocket: (nat, nat) -> bool)

  /** The weight of a table entry in the finder's context (main path or branch, depth). */
  function ChanceWeight(s: FinderInputs, c: TileChance): real {
    s.getWeight(c, s.isOnMainPath, s.normalizedDepth)
  }

  /**
   * The template a table entry's prefab instantiates. Naming the application lets the
   * enumeration functions and the lemmas about them share one term for it.
   */
  function TemplateOf(s: FinderInputs, c: TileChance): TileTemplate
    requires c.prefab.Some?
  {
    s.getTileTemplate(c.prefab.value)
  }

  /** Runs the optional admission predicate on a candidate and its provisional weight. */
  function Admit(s: FinderInputs, c: TileChance, weight: real): Admission {
    if s.isTileAllowed.None? then Admission(true, weight)
    else s.isTileAllowed.value(s.previousTile, s.previousPrefab, c, weight)
  }

  function StraightenChance(s: FinderInputs): real {
    if s.archetype.None? then 0.0 else s.archetype.value.straightenChance
  }

  /** The previous tile has to leave through its exit: one is set and it is not connected yet. */
  predicate RequiresExit(t: PlacedTile) {
    t.exit.Some? && t.exit.value !in t.usedDoorways
  }

  /** The template has to be entered through its declared entrance. */
  predicate RequiresEntrance(t: TileTemplate) {
    t.tile.Some? && t.tile.value.entrance.Some?
  }

  /** Rotation is disallowed globally, or by the next tile's own `Tile` component. */
  predicate DisallowRotation(s: FinderInputs, nextTile: Option<TileInfo>) {
    (s.allowRotation.Some? && !s.allowRotation.value) || (nextTile.Some? && !nextTile.value.allowRotation)
  }

  predicate IsVertical(s: FinderInputs, d: Direction) {
    d == s.upVector || d == s.upVector.Opposite()
  }

  /**
   * The direction the next doorway is forced to face, if any: straight back down (or up)
   * the up axis for a vertical doorway, and the reverse of the previous doorway when
   * rotation is disallowed. Both cases come to the previous doorway's opposite.
   */
  function ForcedDirection(s: FinderInputs, a: Doorway, nextTile: Option<TileInfo>): (r: Option<Direction>)
    ensures r.Some? <==> IsVertical(s, a.forward) || DisallowRotation(s, nextTile)
    ensures r.Some? ==> r.value == a.forward.Opposite()
  {
    if a.forward == s.upVector then Some(s.upVector.Opposite())
    else if a.forward == s.upVector.Opposite() then Some(s.upVector)
    else if DisallowRotation(s, nextTile) then Some(a.forward.Opposite())
    else None
  }

  /**
   * `DoorwaySocket.IsMatchingSocket` on the two doorways' socket groups, named so that the
   * compatibility check and the lemmas about it share one term for the call.
   */
  predicate MatchingSocket(s: FinderInputs, a: Doorway, b: Doorway) {
    s.isMatchingSocket(a.socket, b.socket)
  }

  /** The socket and facing checks of `IsValidDoorwayPairing`, before the weight is drawn. */
  predicate IsCompatible(s: FinderInputs, a: Doorway, b: Doorway, nextTile: Option<TileInfo>) {
    && MatchingSocket(s, a, b)
    && var forced := ForcedDirection(s, a, nextTile);
       forced.None? || forced.value == b.forward
  }

  /**
   * A pairing is compatible exactly when the sockets match and, if the previous doorway is
   * vertical or rotation is disallowed, the next doorway faces the previous one head on.
   */
  lemma CompatibleIff(s: FinderInputs, a: Doorway, b: Doorway, nextTile: Option<TileInfo>)
    ensures IsCompatible(s, a, b, nextTile) <==>
      && MatchingSocket(s, a, b)
      && ((IsVertical(s, a.forward) || DisallowRotation(s, nextTile)) ==> b.forward == a.forward.Opposite())
  {
  }

  /** `List.IndexOf`: the first position of `x`. */
  function IndexOf<T(==)>(xs: seq<T>, x: T): (i: nat)
    requires x in xs
    ensures i < |xs| && xs[i] == x && x !in xs[..i]
  {
    if xs[0] == x then 0
    else
      var i := 1 + IndexOf(xs[1..], x);
      assert xs[..i] == [xs[0]] + xs[1..][..i - 1];
      i
  }

  /** The positional tile weight of the following-tile mode: `tileOrder.Count - tileOrder.IndexOf(tile)`. */
  function TileRank(order: seq<TileChance>, c: TileChance): (w: int)
    requires c in order
    ensures 1 <= w <= |order|
  {
    |order| - IndexOf(order, c)
  }

  predicate Distinct<T(==)>(xs: seq<T>) {
    forall i, j :: 0 <= i < j < |xs| ==> xs[i] != xs[j]
  }

  /** In an order without repeats, a tile drawn earlier gets a strictly larger positional weight. */
  lemma TileRankDecreasing(order: seq<TileChance>, i: nat, j: nat)
    requires Distinct(order)
    requires i < j < |order|
    ensures TileRank(order, order[i]) > TileRank(order, order[j])
    ensures TileRank(order, order[i]) == |order| - i
  {
    IndexOfDistinct(order, i);
    IndexOfDistinct(order, j);
  }

  lemma IndexOfDistinct<T>(xs: seq<T>, i: nat)
    requires Distinct(xs) && i < |xs|
    ensures IndexOf(xs, xs[i]) == i
  {
    var k := IndexOf(xs, xs[i]);
    assert forall m :: 0 <= m < k ==> xs[..k][m] == xs[m];
  }
}
