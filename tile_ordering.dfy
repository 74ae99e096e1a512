/**
 * The ordering of candidate tiles by repeated weighted draws without replacement
 * (`CalculateOrderedListOfTiles`). The table's draw, `GameObjectChanceTable.GetRandom`,
 * is a roulette wheel over the entries that have a prefab and a positive weight.
 */
module TileOrdering {
  import opened Doorways

  /** An entry the ordering may still draw: it has a prefab and a positive weight in context. */
  predicate Eligible(s: FinderInputs, c: TileChance) {
    c.prefab.Some? && ChanceWeight(s, c) > 0.0
  }

  /** The eligible entries of a table, in table order. */
  function EligibleEntries(s: FinderInputs, table: seq<TileChance>): (r: seq<TileChance>)
    ensures forall c :: c in r <==> c in table && Eligible(s, c)
  {
    if table == [] then []
    else (if Eligible(s, table[0]) then [table[0]] else []) + EligibleEntries(s, table[1..])
  }

  /** The loop condition `table.Weights.Any(x => x.Value != null && x.GetWeight(...) > 0)`. */
  function AnyEligible(s: FinderInputs, table: seq<TileChance>): (b: bool)
    ensures b <==> exists c :: c in table && Eligible(s, c)
    ensures b <==> EligibleEntries(s, table) != []
  {
    if table == [] then false
    else Eligible(s, table[0]) || AnyEligible(s, table[1..])
  }

  /** Total weight of the eligible entries: the size of the roulette wheel. */
  function TotalWeight(s: FinderInputs, table: seq<TileChance>): (t: real)
    ensures t >= 0.0
    ensures t > 0.0 <==> AnyEligible(s, table)
  {
    if table == [] then 0.0
    else (if Eligible(s, table[0]) then ChanceWeight(s, table[0]) else 0.0) + TotalWeight(s, table[1..])
  }

  /**
   * Walks the wheel: the first eligible entry whose weight exceeds what is left of `target`.
   * A target inside the wheel always lands on an eligible entry.
   */
  function Pick(s: FinderInputs, table: seq<TileChance>, target: real): (k: nat)
    requires 0.0 <= target < TotalWeight(s, table)
    ensures k < |table| && Eligible(s, table[k])
  {
    var w := if Eligible(s, table[0]) then ChanceWeight(s, table[0]) else 0.0;
    if Eligible(s, table[0]) && target < w then 0
    else 1 + Pick(s, table[1..], target - w)
  }

  /**
   * A weight scaled by a draw in [0,1). The product is named so that the functions and the
   * lemmas bounding it share one term rather than a nonlinear product each.
   */
  function Scaled(weight: real, draw: real): real {
    weight * draw
  }

  /** A draw in [0,1) scaled to the wheel lands inside it. */
  lemma ScaledDrawInside(r: real, total: real)
    requires 0.0 <= r < 1.0 && total > 0.0
    ensures 0.0 <= Scaled(total, r) < total
  {
    assert total * (1.0 - r) > 0.0;
  }

  /** `List.Remove`: drops the first occurrence of `x`. */
  function RemoveFirst<T(==)>(xs: seq<T>, x: T): (r: seq<T>)
    requires x in xs
    ensures |r| == |xs| - 1
    ensures multiset(r) == multiset(xs) - multiset{x}
  {
    assert xs == [xs[0]] + xs[1..];
    if xs[0] == x then xs[1..]
    else [xs[0]] + RemoveFirst(xs[1..], x)
  }

  /** Removing an eligible entry from the table removes it from the table's eligible entries. */
  lemma {:induction false} EligibleAfterRemove(s: FinderInputs, table: seq<TileChance>, x: TileChance)
    requires x in table && Eligible(s, x)
    ensures EligibleEntries(s, RemoveFirst(table, x)) == RemoveFirst(EligibleEntries(s, table), x)
  {
    var head := if Eligible(s, table[0]) then [table[0]] else [];
    var tail := EligibleEntries(s, table[1..]);
    assert EligibleEntries(s, table) == head + tail;
    if table[0] == x {
      assert EligibleEntries(s, table) == [x] + tail;
    } else {
      EligibleAfterRemove(s, table[1..], x);
      var rest := RemoveFirst(table[1..], x);
      var removed := [table[0]] + rest;
      assert RemoveFirst(table, x) == removed;
      assert removed[0] == table[0] && removed[1..] == rest;
      assert EligibleEntries(s, removed) == head + EligibleEntries(s, rest);
      if Eligible(s, table[0]) {
        assert (head + tail)[0] == table[0] && (head + tail)[1..] == tail;
        assert RemoveFirst(head + tail, x) == [table[0]] + RemoveFirst(tail, x);
      } else {
        assert head + tail == tail;
        assert head + EligibleEntries(s, rest) == EligibleEntries(s, rest);
      }
    }
  }

  /**
   * One round of the ordering loop moves the drawn entry from the table's eligible entries to
   * the order `drawn`: together they still hold the same entries.
   */
  lemma DrawMovesEntry(s: FinderInputs, table: seq<TileChance>, chosen: TileChance, drawn: seq<TileChance>)
    requires chosen in table && Eligible(s, chosen)
    ensures multiset(drawn + [chosen]) + multiset(EligibleEntries(s, RemoveFirst(table, chosen)))
         == multiset(drawn) + multiset(EligibleEntries(s, table))
  {
    EligibleAfterRemove(s, table, chosen);
    assert chosen in EligibleEntries(s, table);
  }
}
