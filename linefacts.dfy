/**
 * The outcome tables of `lineMove` and of the checks `action` runs before
 * trying the three move shapes.
 */
module LineFacts {
  import opened Grid
  import opened Directions
  import opened CellSort
  import opened Chains
  import opened Rules

  /**
   * `lineMove` on a group `chain` refuses is `chainError`, and on a single
   * marble `soloMarbleInfo`.
   */
  lemma LineTable(g: Grid, cells: seq<Vec>, name: string)
    requires IsGrid(g) && AllOnGrid(cells) && 1 <= |cells| && name in Moves
    ensures |cells| > 3 ==> LineOutcome(g, cells, name) == Rejected(ChainError)
    ensures |cells| == 1 ==> LineOutcome(g, cells, name) == Rejected(SoloMarbleInfo)
    ensures 2 <= |cells| <= 3 && !Linked(SortCells(cells)) ==> LineOutcome(g, cells, name) == Rejected(ChainError)
  {
    ChainOutcome(cells);
  }

  /**
   * `lineMove` on a chain: `nonAlignedError` unless the move runs along the
   * chain one way or the other; otherwise the inline step on the sorted group.
   */
  lemma LineAligned(g: Grid, cells: seq<Vec>, name: string)
    requires IsGrid(g) && AllOnGrid(cells) && 1 <= |cells| && name in Moves
    requires Chain(cells).Along?
    ensures AllOnGrid(SortCells(cells)) && 2 <= |cells| <= 3
    ensures !Aligned(Moves[name], Chain(cells).v) ==> LineOutcome(g, cells, name) == Rejected(NonAlignedError)
    ensures Aligned(Moves[name], Chain(cells).v) ==> LineOutcome(g, cells, name) == InlineOutcome(g, SortCells(cells), name)
  {
    AlongSize(cells);
    SortOnGrid(cells);
    LineIsAlong(g, cells, name);
  }

  /** On a chain, `lineMove` goes on to the alignment test. */
  lemma LineIsAlong(g: Grid, cells: seq<Vec>, name: string)
    requires IsGrid(g) && AllOnGrid(cells) && 1 <= |cells| && name in Moves
    requires Chain(cells).Along?
    ensures LineOutcome(g, cells, name) == AlongOutcome(g, cells, name, Chain(cells).v)
  {
  }

  /**
   * The inline step of `lineMove` on a sorted chain past the edge guards: the
   * cell in front of the front marble decides. An index that raises is
   * `allyOutOfBoardError`, an `X` is `outLimitError`, the front marble's own
   * colour is `sameValueError`, an empty cell moves every member one step,
   * and anything else is a push, refused with `NonEmptyError` exactly when
   * the cell `n` steps past the front (or `n - 1` if that raises) is `X`.
   */
  lemma InlineTable(g: Grid, s: seq<Vec>, name: string)
    requires IsGrid(g) && AllOnGrid(s) && 2 <= |s| <= 3 && name in Moves
    requires !EdgeRejects(s, name, FrontOf(s, Moves[name]))
    ensures
      var v := Moves[name];
      var front := FrontOf(s, v);
      var next := Read(g, Add(front, v));
      var r := InlineOutcome(g, s, name);
      && (next.None? ==> r == Rejected(AllyOutOfBoardError))
      && (next == Some(X) ==> r == Rejected(OutLimitError))
      && (next == Some(At(g, front)) && next != Some(X) ==> r == Rejected(SameValueError))
      && (next == Some(E) && At(g, front) != E ==> r == Moved(s, Shift(s, v)))
      && (next.Some? && next.value != X && next.value != E && next.value != At(g, front) ==>
            (r == Rejected(NonEmptyError) <==> Beyond(g, front, v, |s|) == Some(X))
            && (r.Succeeded() <==> Beyond(g, front, v, |s|).Some? && Beyond(g, front, v, |s|) != Some(X))
            && (r.Succeeded() ==> r.Pushed? && r.after == Shift(s, v)))
  {
    var v := Moves[name];
    var front := FrontOf(s, v);
    assert front in s;
    assert -1 <= Vector(name).r <= 1 && -1 <= Vector(name).c <= 1;
    assert InlineOutcome(g, s, name) == StepOutcome(g, s, front, v);
  }

  /** The group holds only marbles of the mover's colour. */
  predicate AllOfColor(g: Grid, cells: seq<Vec>, color: Cell)
    requires IsGrid(g) && AllOnGrid(cells)
  {
    forall k :: 0 <= k < |cells| ==> IsColor(At(g, cells[k])) && At(g, cells[k]) == color
  }

  /** The checks `action` makes before trying the move shapes: colour, direction name, chain. */
  predicate Admissible(g: Grid, cells: seq<Vec>, name: string, color: Cell)
    requires IsGrid(g) && AllOnGrid(cells)
  {
    AllOfColor(g, cells, color) && name in Moves && 1 <= |cells| <= 3 && (|cells| >= 2 ==> Linked(SortCells(cells)))
  }

  /**
   * `action` refuses a group that is not all of the mover's colour, a
   * direction name outside the table, and a group `chain` refuses.
   */
  lemma DecideRefuses(g: Grid, cells: seq<Vec>, name: string, color: Cell)
    requires IsGrid(g) && AllOnGrid(cells) && 1 <= |cells|
    ensures !Admissible(g, cells, name, color) ==> Decide(g, cells, name, color).None?
  {
    ChainOutcome(cells);
    ColorFromMeaning(g, cells, color, 0);
  }

  /** Past the checks, `action` tries the shapes on the sorted group. */
  lemma DecideTries(g: Grid, cells: seq<Vec>, name: string, color: Cell)
    requires IsGrid(g) && AllOnGrid(cells) && 1 <= |cells|
    ensures AllOnGrid(SortCells(cells))
    ensures Admissible(g, cells, name, color) ==>
      Decide(g, cells, name, color) == FirstSuccess(g, SortCells(cells), name)
  {
    SortOnGrid(cells);
    if Admissible(g, cells, name, color) {
      AdmissiblePasses(g, cells, name, color);
    }
  }

  /** An admissible group passes the colour, direction and chain checks of `action`. */
  lemma AdmissiblePasses(g: Grid, cells: seq<Vec>, name: string, color: Cell)
    requires IsGrid(g) && AllOnGrid(cells) && 1 <= |cells|
    requires Admissible(g, cells, name, color)
    ensures ColorCheck(g, cells, color) == AllColored && ExistingDirection(name)
    ensures Chain(cells) != LengthChainError && Chain(cells) != MarblesChainError
  {
    ChainOutcome(cells);
    ColorFromMeaning(g, cells, color, 0);
  }

  /**
   * Past the checks, `action` accepts exactly when one of the three shapes
   * accepts the sorted group; an accepted inline move or push is always the
   * one applied, and otherwise an accepted broadside.
   */
  lemma DecideTable(g: Grid, cells: seq<Vec>, name: string, color: Cell)
    requires IsGrid(g) && AllOnGrid(cells) && 1 <= |cells|
    ensures AllOnGrid(SortCells(cells))
    ensures Decide(g, cells, name, color).Some? <==>
      && Admissible(g, cells, name, color)
      && (|| LineOutcome(g, SortCells(cells), name).Succeeded()
          || ArrowOutcome(g, SortCells(cells), name).Succeeded()
          || SoloOutcome(g, SortCells(cells), name).Succeeded())
    ensures Decide(g, cells, name, color).Some? ==> Decide(g, cells, name, color).value.Succeeded()
    ensures Decide(g, cells, name, color).Some? && LineOutcome(g, SortCells(cells), name).Succeeded() ==>
      Decide(g, cells, name, color) == Some(LineOutcome(g, SortCells(cells), name))
    ensures (Decide(g, cells, name, color).Some? && !LineOutcome(g, SortCells(cells), name).Succeeded()
      && ArrowOutcome(g, SortCells(cells), name).Succeeded()) ==>
      Decide(g, cells, name, color) == Some(ArrowOutcome(g, SortCells(cells), name))
  {
    DecideRefuses(g, cells, name, color);
    DecideTries(g, cells, name, color);
  }
}
