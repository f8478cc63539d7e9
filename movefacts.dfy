/**
 * Facts about the move rules: the outcome tables of the three move shapes,
 * that every accepted move only writes cells Python can index, and the grid
 * `action` leaves behind.
 */
module MoveFacts {
  import opened Grid
  import opened Directions
  import opened CellSort
  import opened Chains
  import opened Rules

  /** A sorted linked group never decreases in either coordinate. */
  lemma {:induction false} LinkedMonotone(s: seq<Vec>, i: int, j: int)
    requires Sorted(s) && Linked(s)
    requires 0 <= i <= j < |s|
    ensures s[i].r <= s[j].r && s[i].c <= s[j].c
    decreases j - i
  {
    if i < j {
      StepBetweenSorted(s[i], s[i + 1]);
      LinkedMonotone(s, i + 1, j);
    }
  }

  /**
   * Along each coordinate the move changes, no member of a linked sorted
   * group is ahead of the front that `lineMove` picks.
   */
  lemma FrontAhead(s: seq<Vec>, name: string, m: Vec)
    requires Sorted(s) && Linked(s) && |s| >= 1 && name in Moves && m in s
    ensures Moves[name].r == 1 ==> m.r <= FrontOf(s, Moves[name]).r
    ensures Moves[name].c == 1 ==> m.c <= FrontOf(s, Moves[name]).c
    ensures Moves[name].r == -1 ==> FrontOf(s, Moves[name]).r <= m.r
    ensures Moves[name].c == -1 ==> FrontOf(s, Moves[name]).c <= m.c
  {
    var v := Moves[name];
    var k :| 0 <= k < |s| && s[k] == m;
    if v == Vec(1, 1) {
      LinkedMonotone(s, k, |s| - 1);
    } else if v == Vec(-1, -1) {
      LinkedMonotone(s, 0, k);
    } else if v == Vec(1, 0) || v == Vec(0, 1) || v == Vec(-1, 0) || v == Vec(0, -1) {
      var f := FrontOf(s, v);
      assert Key(v, s[0]) <= Key(v, f);
    }
  }

  /** If the front can step along the move, so can every member of a linked sorted group. */
  lemma ShiftIndexable(s: seq<Vec>, name: string)
    requires Sorted(s) && Linked(s) && AllOnGrid(s) && 1 <= |s| && name in Moves
    requires Indexable(Add(FrontOf(s, Moves[name]), Moves[name]))
    ensures AllIndexable(Shift(s, Moves[name]))
  {
    var v := Moves[name];
    var f := FrontOf(s, v);
    var t := Shift(s, v);
    assert -1 <= Vector(name).r <= 1 && -1 <= Vector(name).c <= 1;
    forall p | p in t ensures Indexable(p) {
      var k :| 0 <= k < |t| && t[k] == p;
      assert s[k] in s;
      FrontAhead(s, name, s[k]);
      StepIndexable(s[k], f, v);
    }
  }

  /** A cell on the grid that is not ahead of an indexable step of the front can take that step too. */
  lemma StepIndexable(m: Vec, front: Vec, v: Vec)
    requires OnGrid(m) && Indexable(Add(front, v))
    requires -1 <= v.r <= 1 && -1 <= v.c <= 1
    requires v.r == 1 ==> m.r <= front.r
    requires v.c == 1 ==> m.c <= front.c
    ensures Indexable(Add(m, v))
  {
  }

  /** Every target of an accepted inline move or push can be indexed. */
  lemma LineTargetsIndexable(g: Grid, cells: seq<Vec>, name: string)
    requires IsGrid(g) && AllOnGrid(cells) && 1 <= |cells| && name in Moves
    requires LineOutcome(g, cells, name).Succeeded()
    ensures AllIndexable(LineOutcome(g, cells, name).after)
  {
    var s := SortCells(cells);
    ChainOutcome(cells);
    assert AllOnGrid(s) by {
      forall p | p in s ensures OnGrid(p) { assert p in multiset(cells); }
    }
    ShiftIndexable(s, name);
  }

  /** A move `action` accepts has a non-empty list of old cells, and every cell it writes is indexable. */
  lemma DecideWritable(g: Grid, cells: seq<Vec>, name: string, color: Cell)
    requires IsGrid(g) && AllOnGrid(cells) && 1 <= |cells|
    requires Decide(g, cells, name, color).Some?
    ensures Decide(g, cells, name, color).value.Succeeded()
    ensures 1 <= |Decide(g, cells, name, color).value.before|
    ensures AllOnGrid(Decide(g, cells, name, color).value.before)
    ensures AllIndexable(Decide(g, cells, name, color).value.after)
  {
    var s := SortCells(cells);
    assert AllOnGrid(s) by {
      forall p | p in s ensures OnGrid(p) { assert p in multiset(cells); }
    }
    FirstSuccessWritable(g, s, name);
  }

  lemma FirstSuccessWritable(g: Grid, s: seq<Vec>, name: string)
    requires IsGrid(g) && AllOnGrid(s) && 1 <= |s| && name in Moves
    requires Sorted(s)
    requires FirstSuccess(g, s, name).Some?
    ensures FirstSuccess(g, s, name).value.Succeeded()
    ensures FirstSuccess(g, s, name).value.before == s
    ensures AllIndexable(FirstSuccess(g, s, name).value.after)
  {
    SortSorted(s);
    if LineOutcome(g, s, name).Succeeded() {
      LineTargetsIndexable(g, s, name);
    }
  }

  /** The grid `action(..., update=True)` leaves in the scratch grid. */
  function Applied(g: Grid, cells: seq<Vec>, name: string, color: Cell): (h: Grid)
    requires IsGrid(g) && AllOnGrid(cells) && 1 <= |cells|
    ensures IsGrid(h)
    ensures Decide(g, cells, name, color).None? ==> h == g
  {
    match Decide(g, cells, name, color)
    case None => g
    case Some(o) =>
      DecideWritable(g, cells, name, color);
      ApplyMove(g, o.before, o.after)
  }

  /** An accepted move is applied by writing its old cells empty and its new cells with the mover's colour. */
  lemma AppliedDecided(g: Grid, cells: seq<Vec>, name: string, color: Cell)
    requires IsGrid(g) && AllOnGrid(cells) && 1 <= |cells|
    requires Decide(g, cells, name, color).Some?
    ensures
      var o := Decide(g, cells, name, color).value;
      && 1 <= |o.before| && AllIndexable(o.before) && AllIndexable(o.after)
      && Applied(g, cells, name, color) == ApplyMove(g, o.before, o.after)
  {
    DecideWritable(g, cells, name, color);
  }
}
