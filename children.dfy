/**
 * The game-over flag a child position carries. `find_children` builds the
 * child's grid, but its `winner()` runs on the scratch grid rebuilt from the
 * parent's tuple, with the parent still to move (`Boards.Board.FindChildren`
 * states that). The child's own verdict is `ChildWinner`: the child's grid
 * seen by the side that moves next.
 */
module Children {
  import opened Grid
  import opened Rules
  import opened CellSort
  import opened MoveFacts
  import opened Scoring
  import opened PushFacts

  /** The winner the child of a move should carry: its own grid, the other side to move. */
  function ChildWinner(g: Grid, cells: seq<Vec>, name: string, turn: Cell): (w: Option<bool>)
    requires IsGrid(g) && AllOnGrid(cells) && 1 <= |cells| && IsColor(turn)
    ensures w.Some? <==>
      Count(Applied(g, cells, name, turn), B) == 8 || Count(Applied(g, cells, name, turn), W) == 8
    ensures w == Some(false) ==> Count(Applied(g, cells, name, turn), Other(turn)) == 8
    ensures w == Some(true) ==> Count(Applied(g, cells, name, turn), turn) == 8
    ensures Count(Applied(g, cells, name, turn), Other(turn)) == 8 && Count(Applied(g, cells, name, turn), turn) != 8
      ==> w == Some(false)
  {
    var h := Applied(g, cells, name, turn);
    WinnerMeaning(h, Other(turn));
    WinnerOf(h, Other(turn))
  }

  /**
   * A push that takes the opponent's sixth marble ends the game, and the
   * reward of the child is 0 for the side now to move, whose opponent has
   * just won; the flag computed as written still says the game goes on.
   */
  lemma StaleWinner(g: Grid, cells: seq<Vec>, name: string, turn: Cell)
    requires IsGrid(g) && AllOnGrid(cells) && 1 <= |cells| && IsColor(turn)
    requires Straight(SortCells(cells))
    requires Decide(g, cells, name, turn).Some? && Decide(g, cells, name, turn).value.Pushed?
    requires Count(g, Other(turn)) == 9 && Count(g, turn) != 8
    ensures WinnerOf(g, turn) == None
    ensures ChildWinner(g, cells, name, turn) == Some(false)
    ensures Reward(true, ChildWinner(g, cells, name, turn)) == Value(0.0)
    ensures Reward(WinnerOf(g, turn).Some?, WinnerOf(g, turn)) == NonTerminalError
  {
    WinnerMeaning(g, turn);
    PushCounts(g, cells, name, turn);
  }
}
