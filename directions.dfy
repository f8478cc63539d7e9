/**
 * The six move directions of the engine, by name, and the two direction
 * helpers `existingDirection` and `aligned`.
 */
module Directions {
  import opened Grid

  /** The direction table, in the order the engine iterates it. */
  const MoveNames: seq<string> := ["NW", "NE", "E", "SW", "SE", "W"]

  const Moves: map<string, Vec> :=
    map["NW" := Vec(-1, -1), "NE" := Vec(-1, 0), "E" := Vec(0, 1),
        "SW" := Vec(1, 0), "SE" := Vec(1, 1), "W" := Vec(0, -1)]

  /** `existingDirection`: whether the name is a key of the direction table. */
  function ExistingDirection(name: string): (r: bool)
    ensures r <==> name in MoveNames
    ensures r <==> name == "NW" || name == "NE" || name == "E" || name == "SW" || name == "SE" || name == "W"
  {
    name in Moves
  }

  /** The vector of a named direction. */
  function Vector(name: string): (v: Vec)
    requires name in Moves
    ensures -1 <= v.r <= 1 && -1 <= v.c <= 1 && v != Vec(0, 0)
  {
    Moves[name]
  }

  /**
   * `aligned`: the sum of the two vectors is twice the first, or zero; that is,
   * the second vector is the first one or its negation.
   */
  function Aligned(v1: Vec, v2: Vec): (r: bool)
    ensures r <==> v2 == v1 || v2 == Neg(v1)
  {
    var sum := Add(v1, v2);
    var product := Scale(2, v1);
    product == sum || sum == Vec(0, 0)
  }

  /** Every direction's negation is again a direction of the table. */
  lemma NegationClosed(name: string)
    requires name in Moves
    ensures exists other :: other in Moves && Moves[other] == Neg(Moves[name])
  {
    if name == "NW" { assert Moves["SE"] == Neg(Moves[name]); }
    else if name == "NE" { assert Moves["SW"] == Neg(Moves[name]); }
    else if name == "E" { assert Moves["W"] == Neg(Moves[name]); }
    else if name == "SW" { assert Moves["NE"] == Neg(Moves[name]); }
    else if name == "SE" { assert Moves["NW"] == Neg(Moves[name]); }
    else { assert Moves["E"] == Neg(Moves[name]); }
  }

  /** The six directions are pairwise distinct vectors. */
  lemma VectorsDistinct(a: string, b: string)
    requires a in Moves && b in Moves && a != b
    ensures Moves[a] != Moves[b]
  {
  }
}
