# DunGen doorway-pair selection, modelled in Dafny

This project models two parts of the DunGen dungeon generator used by Descension.

The first part is `DoorwayPairFinder`. Given the previous tile and the tiles that may come next, it builds the queue of doorway pairs the generator tries, best first. It works in four steps:

1. It orders the candidate tiles by repeated weighted draws without replacement.
2. It enumerates the pairings of a doorway on the previous tile with a doorway on a candidate tile, keeping those that pass four filters: the previous tile's required exit, the candidate's required entrance, the optional admission predicate, and socket and facing compatibility. The first tile of a dungeon has no previous tile; each admitted candidate then gets one pair per doorway.
3. It weights each pair:
   - after a previous tile, its tile weight comes from the tile's position in the order; for the first tile, it is the table entry's weight times one draw; the admission predicate may then adjust either;
   - its doorway weight is a random draw, biased towards continuing in a straight line.
4. It ranks the pairs by tile weight and then by doorway weight, and keeps the first `maxCount`.

The second part is a set of pure helpers from `UnityUtil`: `GetUniqueName`, `Contains` on bounding boxes, `SetVector3Masked`, `GetCardinalDirection` and `VectorAbs`.

## Layout

- `nullable.dfy` (`Nullable`): `Option`, which stands for C# `null` and `Nullable<T>`.
- `text.dfy` (`Text`): the .NET string operations `GetUniqueName` relies on. These are `LastIndexOf`, `int.TryParse` and `int.ToString`.
- `unity_util.dfy` (`UnityUtil`): the helpers from `UnityUtil`.
- `doorways.dfy` (`Doorways`): the finder's data model and its pure checks.
  - The data model: doorways, placed tiles, tile templates, table entries, `DoorwayPair` and the finder's inputs.
  - The checks: required exit and entrance, forced direction, socket and facing compatibility, and the positional tile weight.
- `tile_ordering.dfy` (`TileOrdering`): the table's weighted draw and what the ordering loop keeps invariant.
- `pair_ranking.dfy` (`PairRanking`): `CompareDoorwaysTileWeight`, the sort, and the bubble passes on an array.
- `pair_enumeration.dfy` (`PairEnumeration`): the two enumerators and the doorway weight. Each is written as a function of the inputs, the tile order and a stream of draws, and comes with lemmas on what every pair satisfies.
- `doorway_pair_finder.dfy` (`Finder`): the classes.
  - `RandomStream` stands for `System.Random`.
  - `DoorwayPairFinder` has the source's methods. The enumeration loops and the weight calculations are each proved equal to the function that specifies them. `GetDoorwayPairs`, `EnqueueTopPairs`, `CalculateOrderedListOfTiles` and `GetRandom` have relational contracts instead: a permutation, a ranking, an eligible pick.

## Model

| member | source | states |
|---|---|---|
| Text.LastIndexOf | Assets/_Packages/DunGen/Code/Utility/UnityUtil.cs:88 | The result is -1 or an index holding the character, and no later index holds it. |
| Text.TryParseInt | Assets/_Packages/DunGen/Code/Utility/UnityUtil.cs:93 | A successful parse comes from an optional sign and digits, and its value is below 10^length in magnitude. |
| Text.IntToString | Assets/_Packages/DunGen/Code/Utility/UnityUtil.cs:102 | The decimal text of a number contains no space. |
| Text.ParseIntToString | Assets/_Packages/DunGen/Code/Utility/UnityUtil.cs:93-102 | Parsing the text of any integer gives back that integer. |
| UnityUtil.Contains | Assets/_Packages/DunGen/Code/Utility/UnityUtil.cs:20-27 | Box containment on all three axes; `ContainsIff`, `ContainsReflexive` and `ContainsTransitive` state its meaning. |
| UnityUtil.ContainsIff | Assets/_Packages/DunGen/Code/Utility/UnityUtil.cs:20-27 | `Contains(bounds, other)` holds iff, on each axis, other's min is at least bounds' min and other's max is at most bounds' max. |
| UnityUtil.ContainsReflexive | Assets/_Packages/DunGen/Code/Utility/UnityUtil.cs:20-27 | Every box contains itself. |
| UnityUtil.ContainsTransitive | Assets/_Packages/DunGen/Code/Utility/UnityUtil.cs:20-27 | Containment is transitive. |
| UnityUtil.VectorAbs | Assets/_Packages/DunGen/Code/Utility/UnityUtil.cs:222-225 | Each component of the result is non-negative and equals the input's component or its negation. |
| UnityUtil.DominantAxis | Assets/_Packages/DunGen/Code/Utility/UnityUtil.cs:200-219 | The axis whose absolute component is strictly largest wins; with no such axis, the result is X. |
| UnityUtil.GetCardinalDirection | Assets/_Packages/DunGen/Code/Utility/UnityUtil.cs:190-220 | There is no result exactly when the dominant component is 0, the 0/0 case. Otherwise the result has ±1 on the dominant axis, with the input's sign, and 0 elsewhere. `magnitude` equals that ±1. |
| UnityUtil.SetVector3Masked | Assets/_Packages/DunGen/Code/Utility/UnityUtil.cs:227-235 | Each component takes `value`'s component where the mask entry is non-zero, and keeps `input`'s elsewhere. |
| UnityUtil.SplitName | Assets/_Packages/DunGen/Code/Utility/UnityUtil.cs:84-95 | Splits at the last space. A number parsed from the suffix is bounded by 10^length of the name. |
| UnityUtil.SplitJoined | Assets/_Packages/DunGen/Code/Utility/UnityUtil.cs:88-95 | Splitting `b + " " + t`, for a `t` without spaces, gives back `b` and the parse of `t`. |
| UnityUtil.NextCandidate | Assets/_Packages/DunGen/Code/Utility/UnityUtil.cs:88-104 | The retry name splits into the same base and n+1 when the suffix parsed as n. Otherwise it splits into the whole name and 2. |
| UnityUtil.CandidateProgress | Assets/_Packages/DunGen/Code/Utility/UnityUtil.cs:97-105 | Each retry reaches a numbered name, or moves to a larger number below a bound that no used name can reach. This is why the recursion ends. |
| UnityUtil.UniqueName | Assets/_Packages/DunGen/Code/Utility/UnityUtil.cs:79-109 | The result is never in `usedNames`, and a non-empty unused name is returned unchanged. |
| UnityUtil.EmptyNameIsNew | Assets/_Packages/DunGen/Code/Utility/UnityUtil.cs:81-82 | An empty name gives the same result as "New". |
| UnityUtil.CollisionRetries | Assets/_Packages/DunGen/Code/Utility/UnityUtil.cs:97-105 | A used non-empty name gives the result of its retry candidate, and never itself. |
| UnityUtil.GetUniqueName | Assets/_Packages/DunGen/Code/Utility/UnityUtil.cs:79-109 | The loop-and-recursion method computes `UniqueName`. |
| Doorways.ForcedDirection | Assets/_Packages/DunGen/Code/DoorwayPairFinder.cs:193-205 | A forced direction exists exactly when the previous doorway is vertical or rotation is disallowed. It is always the previous doorway's opposite. |
| Doorways.IsCompatible | Assets/_Packages/DunGen/Code/DoorwayPairFinder.cs:186-214 | The socket and facing checks of `IsValidDoorwayPairing`; `CompatibleIff` states what they accept. |
| Doorways.CompatibleIff | Assets/_Packages/DunGen/Code/DoorwayPairFinder.cs:186-214 | A pairing passes iff the sockets match and, when a direction is forced, the next doorway faces the previous one head on. |
| Doorways.IndexOf | Assets/_Packages/DunGen/Code/DoorwayPairFinder.cs:137 | The first position of the element. |
| Doorways.TileRank | Assets/_Packages/DunGen/Code/DoorwayPairFinder.cs:137 | `Count - IndexOf` lies in [1, Count]. |
| Doorways.TileRankDecreasing | Assets/_Packages/DunGen/Code/DoorwayPairFinder.cs:137 | In an order without repeats, the tile at position i gets weight Count - i, strictly more than any later tile. |
| TileOrdering.EligibleEntries | Assets/_Packages/DunGen/Code/DoorwayPairFinder.cs:114 | Exactly the entries with a prefab and a positive weight. |
| TileOrdering.AnyEligible | Assets/_Packages/DunGen/Code/DoorwayPairFinder.cs:114 | The loop condition holds iff some entry is eligible, iff the eligible entries are not empty. |
| TileOrdering.TotalWeight | Assets/_Packages/DunGen/Code/DoorwayPairFinder.cs:115 | The wheel's size is non-negative, and positive iff some entry is eligible. |
| TileOrdering.Pick | Assets/_Packages/DunGen/Code/DoorwayPairFinder.cs:115 | A target inside the wheel lands on an eligible entry. |
| TileOrdering.ScaledDrawInside | Assets/_Packages/DunGen/Code/DoorwayPairFinder.cs:115 | A draw in [0,1) scaled to a positive total lies in [0, total). |
| TileOrdering.RemoveFirst | Assets/_Packages/DunGen/Code/DoorwayPairFinder.cs:115 | Removal takes exactly one occurrence out of the table. |
| TileOrdering.EligibleAfterRemove | Assets/_Packages/DunGen/Code/DoorwayPairFinder.cs:114-115 | Removing an eligible entry removes it from the eligible entries and changes nothing else. |
| TileOrdering.DrawMovesEntry | Assets/_Packages/DunGen/Code/DoorwayPairFinder.cs:114-116 | One round of the ordering loop moves the drawn entry out of the table's eligible entries and into the order: the remaining eligible entries plus the drawn one are the eligible entries before the round. |
| PairRanking.CompareDoorwaysTileWeight | Assets/_Packages/DunGen/Code/DoorwayPairFinder.cs:79-83 | Negative, zero or positive exactly when x's tile weight is greater than, equal to or less than y's. This puts the highest first. |
| PairRanking.InsertByTileWeight | Assets/_Packages/DunGen/Code/DoorwayPairFinder.cs:87 | Inserting adds exactly the one pair. |
| PairRanking.InsertBounded | Assets/_Packages/DunGen/Code/DoorwayPairFinder.cs:87 | Inserting a pair no heavier than a bound into pairs no heavier than that bound gives pairs no heavier than it. |
| PairRanking.InsertKeepsSorted | Assets/_Packages/DunGen/Code/DoorwayPairFinder.cs:87 | Inserting keeps the tile weights non-increasing. |
| PairRanking.SortByTileWeight | Assets/_Packages/DunGen/Code/DoorwayPairFinder.cs:87 | The sort is a permutation. |
| PairRanking.SortIsSorted | Assets/_Packages/DunGen/Code/DoorwayPairFinder.cs:87 | The sort leaves the tile weights non-increasing. |
| PairRanking.RankedIffAdjacent | Assets/_Packages/DunGen/Code/DoorwayPairFinder.cs:89-102 | The two-key order holds for all pairs of positions iff it holds for adjacent positions. |
| PairRanking.RanksBeforeTransitive | Assets/_Packages/DunGen/Code/DoorwayPairFinder.cs:89-102 | The two-key order is transitive. |
| PairRanking.PassStep | Assets/_Packages/DunGen/Code/DoorwayPairFinder.cs:94-100 | One compare-and-swap permutes the list. |
| PairRanking.PassStepSwap | Assets/_Packages/DunGen/Code/DoorwayPairFinder.cs:92-101 | A swap keeps the sortedness and the settled tail, and carries the best pair seen so far forward. |
| PairRanking.PassStepKeep | Assets/_Packages/DunGen/Code/DoorwayPairFinder.cs:92-101 | Leaving a pair in place does the same. |
| PairRanking.PassStepKeepsInvariant | Assets/_Packages/DunGen/Code/DoorwayPairFinder.cs:92-101 | Either way, one body of the inner loop keeps the pass invariant one index further on. |
| PairRanking.PassDone | Assets/_Packages/DunGen/Code/DoorwayPairFinder.cs:90-101 | At the end of pass j the tile weights are still sorted and the last j + 1 positions are settled. |
| PairRanking.CompareAndSwap | Assets/_Packages/DunGen/Code/DoorwayPairFinder.cs:94-100 | The inner loop's body on the array does exactly the compare-and-swap step. |
| PairRanking.BubblePass | Assets/_Packages/DunGen/Code/DoorwayPairFinder.cs:92-101 | One inner pass permutes the array, keeps the tile weights sorted, and settles one more position at the end. |
| PairRanking.OrderDoorwayPairs | Assets/_Packages/DunGen/Code/DoorwayPairFinder.cs:85-105 | The list ends up a permutation of its input in which tile weights do not increase and equal tile weights have non-increasing doorway weights. The result is its first `count` pairs. |
| PairEnumeration.DoorwayWeight | Assets/_Packages/DunGen/Code/DoorwayPairFinder.cs:220-240 | It fails exactly when the straighten test reads the missing previous tile. Without the straighten conditions the weight is one draw, so it lies in [0,100). |
| PairEnumeration.OrderIsEligible | Assets/_Packages/DunGen/Code/DoorwayPairFinder.cs:107-118 | An order that is a permutation of the table's eligible entries holds only entries with a prefab and a positive weight. |
| PairEnumeration.StraightenBias | Assets/_Packages/DunGen/Code/DoorwayPairFinder.cs:226-237 | Under the straighten conditions two draws are taken. The weight is 100 times the first exactly when the second is below the chance. |
| PairEnumeration.ValidDoorwayPairing | Assets/_Packages/DunGen/Code/DoorwayPairFinder.cs:186-218 | A pairing is accepted iff it is compatible. A rejection draws nothing, and an accepted weight lies in [0,100). |
| PairEnumeration.NextDoorwayPairs | Assets/_Packages/DunGen/Code/DoorwayPairFinder.cs:144-156 | The innermost loop as a function of the draws; `NextDoorwayPairsSound` and `NextDoorwayPairsComplete` characterise its pairs. |
| PairEnumeration.CandidatePairs | Assets/_Packages/DunGen/Code/DoorwayPairFinder.cs:130-157 | The loop over the table entries for one previous doorway; `CandidatePairsSound` and `CandidatePairsComplete` characterise its pairs. |
| PairEnumeration.NonFirstTilePairs | Assets/_Packages/DunGen/Code/DoorwayPairFinder.cs:120-159 | The following-tile enumerator; `NonFirstTilePairsSound` and `NonFirstTilePairsComplete` characterise its pairs. |
| PairEnumeration.NextDoorwayPairsSound | Assets/_Packages/DunGen/Code/DoorwayPairFinder.cs:144-156 | Every pair uses a doorway of the template, its entrance when one is declared, and passes the compatibility check. |
| PairEnumeration.CandidatePairsSound | Assets/_Packages/DunGen/Code/DoorwayPairFinder.cs:130-156 | Every pair comes from an entry that is in the tile order and was admitted with its positional weight. |
| PairEnumeration.NonFirstTilePairsSound | Assets/_Packages/DunGen/Code/DoorwayPairFinder.cs:120-159 | Every following-tile pair satisfies all of these: it leaves through an unused doorway, the required exit when there is one; it meets the entrance, admission and compatibility checks; its doorway weight lies in [0,100). |
| PairEnumeration.NextDoorwayPairsComplete | Assets/_Packages/DunGen/Code/DoorwayPairFinder.cs:144-156 | Every doorway of the template that passes the entrance check and is compatible with the previous doorway gives a pair joining the two, with the entry's tile set and tile weight. |
| PairEnumeration.CandidatePairsComplete | Assets/_Packages/DunGen/Code/DoorwayPairFinder.cs:130-157 | Every entry in the tile order that the predicate admits gives such a pair for each of its passing doorways, with its admitted weight. |
| PairEnumeration.NonFirstTilePairsComplete | Assets/_Packages/DunGen/Code/DoorwayPairFinder.cs:120-159 | Every unused previous doorway (the required exit when there is one), admitted entry in the tile order and passing compatible doorway of its template gives a pair joining them. Together with `NonFirstTilePairsSound`, the pairs are exactly those the four filters let through. |
| PairEnumeration.NonFirstTileWeightIsRank | Assets/_Packages/DunGen/Code/DoorwayPairFinder.cs:137 | Without a predicate, a following-tile pair's tile weight is `Count - IndexOf` of its entry, in [1, Count]. |
| PairEnumeration.FirstTileDoorwayPairs | Assets/_Packages/DunGen/Code/DoorwayPairFinder.cs:177-182 | The first-tile inner loop; `FirstTileDoorwayPairsExact` characterises it. |
| PairEnumeration.FirstTileEntry | Assets/_Packages/DunGen/Code/DoorwayPairFinder.cs:165-182 | One entry of the first-tile outer loop; `FirstTileEntrySound` characterises it. |
| PairEnumeration.FirstTilePairs | Assets/_Packages/DunGen/Code/DoorwayPairFinder.cs:161-184 | The first-tile enumerator; `FirstTilePairsSound` and `FirstTilePairsComplete` characterise it. |
| PairEnumeration.FirstTileWeightInside | Assets/_Packages/DunGen/Code/DoorwayPairFinder.cs:170 | Without a predicate, that tile weight lies in [0, entry weight). |
| PairEnumeration.FirstTilePairsStep | Assets/_Packages/DunGen/Code/DoorwayPairFinder.cs:163-183 | One more table entry extends a successful first-tile enumeration by that entry's pairs and draws, or ends it with their failure. |
| PairEnumeration.FirstTileEntrySound | Assets/_Packages/DunGen/Code/DoorwayPairFinder.cs:165-182 | An entry outside the tile order, or one the predicate rejects at the draw taken for it, gives no pair. Every pair an entry gives has no previous side, a doorway of its template and a doorway weight in [0,1), and carries the tile weight the predicate admitted at that same draw. |
| PairEnumeration.FirstTileEntryComplete | Assets/_Packages/DunGen/Code/DoorwayPairFinder.cs:165-182 | One entry gives one pair per doorway of its template, in order, when it is in the tile order and admitted at its own draw, and none otherwise. It fails exactly when the straighten test faults and it has such a doorway. |
| PairEnumeration.FirstTileDoorwayPairsExact | Assets/_Packages/DunGen/Code/DoorwayPairFinder.cs:177-182 | Each doorway gives one pair, in order, with no previous tile or doorway and consecutive draws as weights. The loop fails exactly when the straighten test faults and there is a doorway. |
| PairEnumeration.NextDoorwaysAppend | Assets/_Packages/DunGen/Code/DoorwayPairFinder.cs:181 | The doorways of concatenated pair lists concatenate. |
| PairEnumeration.FirstTilePairsComplete | Assets/_Packages/DunGen/Code/DoorwayPairFinder.cs:161-184 | The first-tile pairs are exactly one per doorway of every ordered template that the predicate admits at the draw taken for its entry, in table and doorway order. It fails exactly when the straighten test faults and there is such a doorway at all. |
| PairEnumeration.AdmittedDoorwaysWithoutPredicate | Assets/_Packages/DunGen/Code/DoorwayPairFinder.cs:168-175 | Without a predicate every ordered entry is admitted, so the first-tile pairs are one per doorway of every ordered template. |
| PairEnumeration.FirstTilePairsSound | Assets/_Packages/DunGen/Code/DoorwayPairFinder.cs:161-184 | Every first-tile pair comes from some entry `chances[k]` and satisfies `FirstTileEntrySound` for the draw the enumeration took for that entry. So it has no previous side, its entry is in the tile order and was admitted at its own draw with that tile weight, and its doorway weight lies in [0,1). Without a predicate its tile weight is below its entry's weight. |
| PairEnumeration.FirstTileDoorwayFailureSticks | Assets/_Packages/DunGen/Code/DoorwayPairFinder.cs:177-182 | Once the doorway loop has thrown, later doorways do not change the outcome. |
| PairEnumeration.FirstTileFailureSticks | Assets/_Packages/DunGen/Code/DoorwayPairFinder.cs:163-183 | Once the entry loop has thrown, later entries do not change the outcome. |
| Finder.RandomStream.NextDouble | Assets/_Packages/DunGen/Code/DoorwayPairFinder.cs:223 | Returns the next draw of the stream and advances by one. |
| Finder.DoorwayPairFinder.constructor | Assets/_Packages/DunGen/Code/DoorwayPairFinder.cs:40-52 | The finder starts with the given inputs and random stream, and an empty tile order. |
| Finder.GetRandom | Assets/_Packages/DunGen/Code/DoorwayPairFinder.cs:115 | Takes one draw and returns an eligible entry of the table, and the table without that entry. |
| Finder.DoorwayPairFinder.GetDoorwayPairs | Assets/_Packages/DunGen/Code/DoorwayPairFinder.cs:56-77 | It orders the tiles (a permutation of the eligible entries) and enumerates in the mode the previous tile calls for. It fails iff the enumeration fails or `maxCount` is negative. Otherwise it returns the first min(n, maxCount) pairs of a ranked permutation of the n potential pairs, or all n when there is no `maxCount`. |
| Finder.DoorwayPairFinder.GetPotentialDoorwayPairs | Assets/_Packages/DunGen/Code/DoorwayPairFinder.cs:58-63 | The enumerator matches the mode: the first-tile mode without a previous tile, the following-tile mode (which cannot fail) with one. |
| Finder.EnqueueTopPairs | Assets/_Packages/DunGen/Code/DoorwayPairFinder.cs:65-74 | It fails iff `maxCount` is negative. Otherwise it returns the first min(n, maxCount) pairs of a ranked permutation of the n pairs, or all n when there is no `maxCount`. |
| Finder.DoorwayPairFinder.CalculateOrderedListOfTiles | Assets/_Packages/DunGen/Code/DoorwayPairFinder.cs:107-118 | The order is a permutation of the table's eligible entries, using one draw per entry. |
| Finder.DoorwayPairFinder.GetPotentialDoorwayPairsForNonFirstTile | Assets/_Packages/DunGen/Code/DoorwayPairFinder.cs:120-159 | The method computes `NonFirstTilePairs` and takes exactly its draws. |
| Finder.DoorwayPairFinder.CandidatePairsOf | Assets/_Packages/DunGen/Code/DoorwayPairFinder.cs:130-157 | The loop over the table entries for one previous doorway computes `CandidatePairs` and takes exactly its draws. |
| Finder.DoorwayPairFinder.NextDoorwayPairsOf | Assets/_Packages/DunGen/Code/DoorwayPairFinder.cs:144-156 | The loop over the next template's doorways computes `NextDoorwayPairs` and takes exactly its draws. |
| Finder.DoorwayPairFinder.GetPotentialDoorwayPairsForFirstTile | Assets/_Packages/DunGen/Code/DoorwayPairFinder.cs:161-184 | The method computes `FirstTilePairs`, including its failure, and takes exactly its draws. |
| Finder.DoorwayPairFinder.FirstTileEntryPairsOf | Assets/_Packages/DunGen/Code/DoorwayPairFinder.cs:165-182 | The outer loop's body for one entry computes `FirstTileEntry` and takes exactly its draws. |
| Finder.DoorwayPairFinder.FirstTileDoorwayPairsOf | Assets/_Packages/DunGen/Code/DoorwayPairFinder.cs:177-182 | The inner loop computes `FirstTileDoorwayPairs`. |
| Finder.DoorwayPairFinder.IsValidDoorwayPairing | Assets/_Packages/DunGen/Code/DoorwayPairFinder.cs:186-218 | The method computes `ValidDoorwayPairing`. `weight` stays 0 on rejection. |
| Finder.DoorwayPairFinder.CalculateDoorwayWeight | Assets/_Packages/DunGen/Code/DoorwayPairFinder.cs:220-240 | The method computes `DoorwayWeight`, including the null dereference. |

## Left out

- Floating point:
  - Weights and vector components are reals, so `float` rounding and the `(float)` casts of `NextDouble` are not modelled.
  - Doorway facings are the six cardinal directions. `Vector3.Angle(...) < 1°` and `Vector3 ==` then become equality of directions.
- `System.Random` is an infinite stream of draws in [0,1), taken in the order the source takes them.
- `GameObjectChanceTable.GetRandom` is not part of this model. It is modelled as a roulette wheel over the entries that have a prefab and a positive weight, followed by `Remove`. The ordering's proofs rely only on this: the pick is eligible, exactly one occurrence is removed, and one draw is taken per pick.
- Finder.GetRandom: the source's `GetRandom` is taken to consume exactly one `NextDouble` per pick. The positions at which the enumerators start drawing, and so every weight they compute, rest on that count.
- `DoorwaySocket.IsMatchingSocket`, `GetTileTemplateDelegate`, `TileSet` and `DungeonArchetype` are not part of this model. The first two are abstract functions among the finder's inputs.
- `IsTileAllowedPredicate`:
  - It is an abstract pure function of the previous tile, the previous prefab, the candidate entry and the provisional weight. It returns whether to admit the candidate and the possibly adjusted weight.
  - Side effects of the delegate are not modelled.
  - `GetComponent<Tile>` is not modelled: the entry stands for its prefab and the prefab's `Tile`.
- Identity: table entries, doorways and tiles are compared by value, whereas the source compares them by reference.
- Exceptions: only the two the core can raise on its own are modelled:
  - the null `PreviousTile` read in `CalculateDoorwayWeight`;
  - the `Queue` capacity when `maxCount` is negative.

  Null collections and null template doorways are not modelled.
- Finder.DoorwayPairFinder.GetDoorwayPairs:
  - The finder's public fields are constants set at construction; only `tileOrder` changes.
  - The enumerators' `yield` is collected into a list, as `ToList()` does at once.
  - The result `Queue` is a sequence in dequeue order.
- PairRanking.OrderDoorwayPairs: `List.Sort` is modelled by an insertion sort that only its contract is used from. Tile weights come out non-increasing and the result is a permutation. The order of pairs that tie on both keys is left open, because the library sort is not stable.
- UnityUtil.GetCardinalDirection: when the dominant component is 0, the source divides 0 by 0 and returns a NaN vector. The model returns no result instead.
- UnityUtil.GetUniqueName:
  - Integers are unbounded, so the 32-bit wrap of `number++` at `int.MaxValue` is not modelled.
  - A null name is the empty string.
  - `usedNames` is a finite sequence.
- Text.TryParseInt: accepts an optional sign and ASCII digits only. It has no whitespace, culture or Int32 range handling.
- The rest of `UnityUtil.cs` (transforms, bounds transformation, object destruction, socket positioning) is not part of this model.
