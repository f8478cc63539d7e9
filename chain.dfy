/**
 * `chain`: whether a group of marbles forms a chain, and along which vector.
 * The group is sorted first; then each pair of sorted neighbours must be one
 * table step apart. The vector answered is the one linking the LAST two sorted
 * members; nothing requires the two steps of a triple to agree, so bent triples
 * are accepted.
 */
module Chains {
  import opened Grid
  import opened Directions
  import opened CellSort

  /** What `chain` returns: its two error strings, `None`, or a direction vector. */
  datatype ChainResult = LengthChainError | MarblesChainError | NoVector | Along(v: Vec)

  /** The first vector `d` of the direction table, scanned in order, with `a == b + d`. */
  function FindVector(a: Vec, b: Vec, names: seq<string>): (d: Option<Vec>)
    requires forall n :: n in names ==> n in Moves
    ensures d.Some? <==> exists i :: 0 <= i < |names| && Moves[names[i]] == Sub(a, b)
    ensures d.Some? ==> d.value == Sub(a, b)
  {
    if names == [] then None
    else if a == Add(b, Moves[names[0]]) then Some(Moves[names[0]])
    else
      var d := FindVector(a, b, names[1..]);
      assert forall i :: 0 < i < |names| ==> names[i] == names[1..][i - 1];
      assert d.Some? ==> exists i :: 0 <= i < |names| - 1 && Moves[names[1..][i]] == Sub(a, b);
      d
  }

  /** `chain(marblesArray, move)` for a group of one to three cells. */
  function ChainFrom(cells: seq<Vec>, move: Option<Vec>): ChainResult
    requires 1 <= |cells| <= 3
    decreases |cells|
  {
    if |cells| == 1 then
      match move
      case None => NoVector
      case Some(m) => Along(m)
    else
      var s := SortCells(cells);
      if move.Some? && s[0] == Add(s[1], move.value) then ChainFrom(s[1..], move)
      else
        match FindVector(s[0], s[1], MoveNames)
        case Some(d) => ChainFrom(s[1..], Some(d))
        case None => MarblesChainError
  }

  /** `chain(marblesArray)`; Python raises on an empty group, hence the requires. */
  function Chain(cells: seq<Vec>): ChainResult
    requires |cells| >= 1
  {
    if |cells| > 3 then LengthChainError else ChainFrom(cells, None)
  }

  /** The three table vectors that lead from a cell to a lexicographically smaller neighbour. */
  predicate BackStep(v: Vec)
  {
    v == Vec(-1, -1) || v == Vec(-1, 0) || v == Vec(0, -1)
  }

  /** Each sorted member is one table step from the next. */
  predicate Linked(s: seq<Vec>)
  {
    forall i :: 0 <= i < |s| - 1 ==> Sub(s[i], s[i + 1]) in Moves.Values
  }

  /** The vector between two sorted neighbours is a table vector exactly when it is a back step. */
  lemma StepBetweenSorted(a: Vec, b: Vec)
    requires Le(a, b)
    ensures Sub(a, b) in Moves.Values <==> BackStep(Sub(a, b))
  {
    assert Moves["NW"] == Vec(-1, -1) && Moves["NE"] == Vec(-1, 0) && Moves["W"] == Vec(0, -1);
  }

  lemma FindVectorTable(a: Vec, b: Vec)
    ensures FindVector(a, b, MoveNames).Some? <==> Sub(a, b) in Moves.Values
  {
    var d := Sub(a, b);
    if d in Moves.Values {
      var n :| n in Moves && Moves[n] == d;
      assert n == MoveNames[0] || n == MoveNames[1] || n == MoveNames[2] || n == MoveNames[3] || n == MoveNames[4] || n == MoveNames[5];
    }
  }

  /** The vector the next call of `chain` receives: the carried one if it still fits, else a table lookup. */
  function Carry(s: seq<Vec>, move: Option<Vec>): (next: Option<Vec>)
    requires 2 <= |s|
    requires move.Some? ==> move.value in Moves.Values
    ensures next.Some? <==> Sub(s[0], s[1]) in Moves.Values
    ensures next.Some? ==> next.value == Sub(s[0], s[1])
  {
    FindVectorTable(s[0], s[1]);
    if move.Some? && s[0] == Add(s[1], move.value) then move else FindVector(s[0], s[1], MoveNames)
  }

  /** One step of `chain` on a sorted group: the sort leaves it as it is. */
  lemma ChainFromUnfold(s: seq<Vec>, move: Option<Vec>)
    requires Sorted(s) && 2 <= |s| <= 3
    requires move.Some? ==> move.value in Moves.Values
    ensures ChainFrom(s, move) ==
      match Carry(s, move)
      case Some(d) => ChainFrom(s[1..], Some(d))
      case None => MarblesChainError
  {
    SortSorted(s);
  }

  /** A group is linked when its first pair is one table step apart and the rest is linked. */
  lemma LinkedCons(s: seq<Vec>)
    requires |s| >= 2
    ensures Linked(s) <==> Sub(s[0], s[1]) in Moves.Values && Linked(s[1..])
  {
    var t := s[1..];
    assert forall i :: 0 <= i < |t| ==> t[i] == s[i + 1];
  }

  /** `chain` on an already sorted group, with or without a vector carried from the previous pair. */
  lemma {:induction false} ChainFromSorted(s: seq<Vec>, move: Option<Vec>)
    requires Sorted(s) && 1 <= |s| <= 3
    requires move.Some? ==> move.value in Moves.Values
    ensures |s| == 1 ==> ChainFrom(s, move) == (if move.None? then NoVector else Along(move.value))
    ensures |s| >= 2 ==> ChainFrom(s, move) == (if Linked(s) then Along(Sub(s[|s| - 2], s[|s| - 1])) else MarblesChainError)
    decreases |s|
  {
    if |s| >= 2 {
      var t := s[1..];
      assert Sorted(t);
      ChainFromUnfold(s, move);
      LinkedCons(s);
      var next := Carry(s, move);
      if next.Some? {
        ChainFromSorted(t, next);
        if |t| >= 2 {
          assert t[|t| - 2] == s[|s| - 2] && t[|t| - 1] == s[|s| - 1];
        }
      }
    }
  }

  /**
   * The outcomes of `chain`: more than three cells is a length error, one cell
   * gives no vector, and otherwise the sorted group must be linked, in which
   * case the answer is the back step between its last two members.
   */
  lemma ChainOutcome(cells: seq<Vec>)
    requires |cells| >= 1
    ensures |cells| > 3 <==> Chain(cells) == LengthChainError
    ensures |cells| == 1 <==> Chain(cells) == NoVector
    ensures 2 <= |cells| <= 3 ==>
      var s := SortCells(cells);
      Chain(cells) == if Linked(s) then Along(Sub(s[|s| - 2], s[|s| - 1])) else MarblesChainError
    ensures Chain(cells).Along? ==> BackStep(Chain(cells).v) && 2 <= |cells| <= 3
  {
    if 2 <= |cells| <= 3 {
      var s := SortCells(cells);
      var m := FindVector(s[0], s[1], MoveNames);
      FindVectorTable(s[0], s[1]);
      match m
      case Some(d) =>
        assert d in Moves.Values;
        ChainFromSorted(s[1..], Some(d));
        if |s| == 3 {
          assert Linked(s) <==> Sub(s[0], s[1]) in Moves.Values && Linked(s[1..]);
        }
        if Linked(s) {
          StepBetweenSorted(s[|s| - 2], s[|s| - 1]);
        }
      case None =>
        assert !Linked(s);
    }
  }

  /** `chain`'s answer does not depend on the order of the group. */
  lemma ChainPermutation(p: seq<Vec>, q: seq<Vec>)
    requires |p| >= 1
    requires multiset(p) == multiset(q)
    ensures |q| >= 1 && Chain(p) == Chain(q)
  {
    assert |p| == |multiset(p)| == |multiset(q)| == |q|;
    ChainOutcome(p);
    ChainOutcome(q);
    if 2 <= |p| <= 3 {
      SortPermutation(p, q);
    }
  }

  /** The triple (1,1), (1,2), (2,2) is sorted, with a W step followed by an NE step. */
  lemma BentLinked()
    ensures Sorted([Vec(1, 1), Vec(1, 2), Vec(2, 2)]) && Linked([Vec(1, 1), Vec(1, 2), Vec(2, 2)])
  {
    var s := [Vec(1, 1), Vec(1, 2), Vec(2, 2)];
    assert Sub(s[0], s[1]) == Moves["W"] && Sub(s[1], s[2]) == Moves["NE"];
  }

  /** A bent triple passes `chain`, which answers with its last step. */
  lemma BentTriple()
    ensures Chain([Vec(1, 1), Vec(1, 2), Vec(2, 2)]) == Along(Vec(-1, 0))
  {
    var s := [Vec(1, 1), Vec(1, 2), Vec(2, 2)];
    BentLinked();
    SortSorted(s);
    ChainOutcome(s);
  }
}
