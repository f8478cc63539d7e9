/**
 * The `Board` position: the immutable namedtuple fields `tup`, `turn`,
 * `winner` and `terminal`, and the scratch grid `board` that every method
 * rebuilds from `tup` and then reads or overwrites. Each method is proved to
 * compute what the rule functions of `Rules` and `Scoring` describe.
 */
module Boards {
  import opened Grid
  import opened Directions
  import opened CellSort
  import opened Chains
  import opened Rules
  import opened MoveFacts
  import opened Scoring

  /** The front scan of `lineMove` (lines 280-294), for an axis direction. */
  method ScanFrontLoop(s: seq<Vec>, v: Vec) returns (front: Vec)
    requires |s| >= 1
    ensures front == ScanFront(s, v, s[0], 1)
  {
    front := s[0];
    var i := 1;
    while i < |s|
      invariant 1 <= i <= |s|
      invariant ScanFront(s, v, front, i) == ScanFront(s, v, s[0], 1)
    {
      if Key(v, s[i]) > Key(v, front) {
        front := s[i];
      }
      i := i + 1;
    }
  }

  /** `lastMarble`: the front of the group in the move direction. */
  method FrontMarble(s: seq<Vec>, v: Vec) returns (front: Vec)
    requires |s| >= 1
    ensures front == FrontOf(s, v)
  {
    front := s[0];
    if v == Vec(-1, -1) {
      front := s[0];
    } else if v == Vec(1, 1) {
      front := s[|s| - 1];
    } else if v == Vec(1, 0) || v == Vec(-1, 0) || v == Vec(0, 1) || v == Vec(0, -1) {
      front := ScanFrontLoop(s, v);
    }
  }

  /** The loops of lines 318-320 and 338-339: every member moved one step. */
  method ShiftLoop(s: seq<Vec>, v: Vec) returns (moved: seq<Vec>)
    ensures moved == Shift(s, v)
  {
    moved := [];
    var i := 0;
    while i < |s|
      invariant 0 <= i <= |s|
      invariant moved == Shift(s[..i], v)
    {
      assert Shift(s[..i + 1], v) == Shift(s[..i], v) + [Add(s[i], v)] by {
        ShiftAppend(s[..i], s[i], v);
        assert s[..i + 1] == s[..i] + [s[i]];
      }
      moved := moved + [Add(s[i], v)];
      i := i + 1;
    }
    assert s[..|s|] == s;
  }

  /** Shifting distributes over appending one more cell. */
  lemma ShiftAppend(s: seq<Vec>, p: Vec, v: Vec)
    ensures Shift(s + [p], v) == Shift(s, v) + [Add(p, v)]
  {
  }

  class Board {
    const tup: Grid
    const turn: Cell
    const winner: Option<bool>
    const terminal: bool
    /** The scratch grid the methods rebuild from `tup`. */
    var board: Grid

    predicate Valid()
      reads this
    {
      IsGrid(tup) && IsColor(turn) && IsGrid(board)
    }

    constructor(tup: Grid, turn: Cell, winner: Option<bool>, terminal: bool)
      requires IsGrid(tup) && IsColor(turn)
      ensures Valid()
      ensures this.tup == tup && this.turn == turn && this.winner == winner && this.terminal == terminal
      ensures board == tup
    {
      this.tup := tup;
      this.turn := turn;
      this.winner := winner;
      this.terminal := terminal;
      board := tup;
    }

    /** `self.board = self.tup_to_list(self.tup)`. */
    method Reset()
      requires IsGrid(tup)
      modifies this
      ensures board == tup
    {
      board := TupToList(tup);
    }

    /** `colored(marblesArray, color)`. */
    method Colored(cells: seq<Vec>, color: Cell) returns (r: ColorResult)
      requires Valid() && AllOnGrid(cells)
      modifies this
      ensures Valid() && board == tup
      ensures r == ColorCheck(tup, cells, color)
    {
      Reset();
      var i := 0;
      while i < |cells|
        invariant 0 <= i <= |cells| && board == tup
        invariant ColorFrom(board, cells, color, i) == ColorFrom(board, cells, color, 0)
      {
        assert cells[i] in cells;
        var v := board[cells[i].r][cells[i].c];
        if v != W && v != B {
          return CaseWithoutMarbleError;
        } else if v != color {
          return WrongColorError;
        }
        i := i + 1;
      }
      return AllColored;
    }

    /** `soloMove(marblesArray, moveName)`. */
    method SoloMove(cells: seq<Vec>, name: string) returns (r: Outcome)
      requires Valid() && AllOnGrid(cells) && name in Moves
      modifies this
      ensures Valid() && board == tup
      ensures r == SoloOutcome(tup, cells, name)
    {
      Reset();
      if |cells| == 1 {
        var p := cells[0];
        assert p in cells;
        var cur := board[p.r][p.c];
        var target := Add(p, Moves[name]);
        var next := cur;
        var read := Read(board, target);
        if read.Some? {
          next := read.value;
        }
        if next == X {
          return Rejected(OutLimitError);
        } else if next == cur {
          return Rejected(AllyPresenceError);
        } else if next == E {
          return Moved(cells, [target]);
        }
        return Rejected(OpponentMoveError);
      }
      return Rejected(NotASingleMarbleError);
    }

    /** The loop of lines 341-345: the opposing run in front, stopping at an empty cell. */
    method OpposingRun(front: Vec, v: Vec, n: int) returns (run: seq<Vec>)
      requires Valid()
      requires forall k :: 1 <= k < n ==> Indexable(Ahead(front, v, k))
      ensures run == Opponents(board, front, v, n, 1)
    {
      run := [];
      var i := 1;
      while i < n
        invariant 1 <= i && (n >= 1 ==> i <= n)
        invariant run + Opponents(board, front, v, n, i) == Opponents(board, front, v, n, 1)
        decreases n - i
      {
        var p := Ahead(front, v, i);
        if Read(board, p).value == E {
          break;
        }
        run := run + [p];
        i := i + 1;
      }
    }

    /** Lines 307-352, on the sorted chain and its front. */
    method Step(s: seq<Vec>, front: Vec, v: Vec) returns (r: Outcome)
      requires Valid() && board == tup && OnGrid(front) && 2 <= |s| <= 3
      requires -1 <= v.r <= 1 && -1 <= v.c <= 1
      ensures r == StepOutcome(tup, s, front, v)
    {
      var cur := board[front.r][front.c];
      var ahead := Read(board, Add(front, v));
      if ahead.None? {
        return Rejected(AllyOutOfBoardError);
      }
      var next := ahead.value;
      if next == X {
        return Rejected(OutLimitError);
      } else if next == cur {
        return Rejected(SameValueError);
      } else if next == E {
        var moved := ShiftLoop(s, v);
        return Moved(s, moved);
      }
      var beyond := Read(board, Ahead(front, v, |s|));
      if beyond.None? {
        beyond := Read(board, Ahead(front, v, |s| - 1));
        if beyond.None? {
          return Rejected(OutOfRange);
        }
      }
      if beyond.value == X {
        return Rejected(NonEmptyError);
      }
      BeyondReadable(board, front, v, |s|);
      var moved := ShiftLoop(s, v);
      var run := OpposingRun(front, v, |s|);
      if 2 <= |run| <= 3 {
        // the nested `lineMove` of line 347 sorts the run through `chain`
        run := SortCells(run);
      }
      return Pushed(s, moved, run);
    }

    /** `lineMove` on a sorted chain of two or three marbles aligned with the move. */
    method Inline(s: seq<Vec>, name: string) returns (r: Outcome)
      requires Valid() && board == tup && AllOnGrid(s) && 2 <= |s| <= 3 && name in Moves
      ensures r == InlineOutcome(tup, s, name)
    {
      var v := Moves[name];
      var front := FrontMarble(s, v);
      if EdgeRejects(s, name, front) {
        return Rejected(OutOfLimitError);
      }
      r := Step(s, front, v);
    }

    /** `lineMove(marblesArray, moveName)`. */
    method LineMove(cells: seq<Vec>, name: string) returns (r: Outcome)
      requires Valid() && AllOnGrid(cells) && 1 <= |cells| && name in Moves
      modifies this
      ensures Valid() && board == tup
      ensures r == LineOutcome(tup, cells, name)
    {
      Reset();
      var vc := Chain(cells);
      if vc == LengthChainError || vc == MarblesChainError {
        return Rejected(ChainError);
      } else if vc == NoVector {
        return Rejected(SoloMarbleInfo);
      }
      if !Aligned(Moves[name], vc.v) {
        return Rejected(NonAlignedError);
      }
      AlongSize(cells);
      var s := SortCells(cells);
      assert AllOnGrid(s) by {
        forall p | p in s ensures OnGrid(p) { assert p in multiset(cells); }
      }
      r := Inline(s, name);
      assert r == AlongOutcome(tup, cells, name, vc.v);
    }

    /** `arrowMove(marblesArray, moveName)`. */
    method ArrowMove(cells: seq<Vec>, name: string) returns (r: Outcome)
      requires Valid() && AllOnGrid(cells) && name in Moves
      modifies this
      ensures Valid() && board == tup
      ensures r == ArrowOutcome(tup, cells, name)
    {
      Reset();
      if |cells| == 1 {
        return Rejected(SingleMarbleInfo);
      }
      var updated: seq<Vec> := [];
      var i := 0;
      while i < |cells|
        invariant 0 <= i <= |cells| && board == tup
        invariant ArrowFrom(board, cells, name, i, updated) == ArrowFrom(board, cells, name, 0, [])
      {
        var m := cells[i];
        assert m in cells;
        if ArrowGuard(name, m) {
          ArrowTargetOnGrid(name, m);
          var t := Add(m, Moves[name]);
          var next := board[t.r][t.c];
          var cur := board[m.r][m.c];
          if next == cur {
            return Rejected(AllyPresenceError);
          } else if next == X {
            return Rejected(OutLimitError);
          } else if next != E {
            return Rejected(OutOfRange);
          }
          updated := updated + [t];
        }
        i := i + 1;
      }
      if updated != [] {
        return Moved(cells, updated);
      }
      return Rejected(NotAnArrowMoveError);
    }

    /** `updateBoard(oldPositions, newPositions)`. */
    method UpdateBoard(before: seq<Vec>, after: seq<Vec>)
      requires Valid() && 1 <= |before| && AllIndexable(before) && AllIndexable(after)
      modifies this
      ensures Valid()
      ensures board == ApplyMove(tup, before, after)
    {
      Reset();
      assert before[0] in before;
      var color := Read(board, before[0]).value;
      var i := 0;
      while i < |before|
        invariant 0 <= i <= |before| && IsGrid(board)
        invariant WriteFrom(board, before, E, i) == WriteFrom(tup, before, E, 0)
      {
        assert before[i] in before;
        board := Write(board, before[i], E);
        i := i + 1;
      }
      var cleared := board;
      i := 0;
      while i < |after|
        invariant 0 <= i <= |after| && IsGrid(board)
        invariant WriteFrom(board, after, color, i) == WriteFrom(cleared, after, color, 0)
      {
        assert after[i] in after;
        board := Write(board, after[i], color);
        i := i + 1;
      }
    }

    /**
     * `action(marblesArray, moveName, color, update)`: the move's name when one
     * of the three shapes accepts it, None where the source returns False.
     */
    method Action(cells: seq<Vec>, name: string, color: Cell, update: bool) returns (r: Option<string>)
      requires Valid() && AllOnGrid(cells) && 1 <= |cells|
      modifies this
      ensures Valid()
      ensures r.Some? <==> Decide(tup, cells, name, color).Some?
      ensures r.Some? ==> r.value == name
      ensures board == if update then Applied(tup, cells, name, color) else tup
    {
      Reset();
      var colored := Colored(cells, color);
      if colored != AllColored {
        return None;
      }
      if !ExistingDirection(name) {
        return None;
      }
      var vc := Chain(cells);
      if vc == LengthChainError || vc == MarblesChainError {
        return None;
      }
      // `chain` sorted the caller's list in place
      var s := SortCells(cells);
      assert AllOnGrid(s) by {
        forall p | p in s ensures OnGrid(p) { assert p in multiset(cells); }
      }
      var lm := LineMove(s, name);
      var am := ArrowMove(s, name);
      var sm := SoloMove(s, name);
      var chosen: Outcome;
      if !lm.Succeeded() {
        if !am.Succeeded() {
          if !sm.Succeeded() {
            return None;
          }
          chosen := sm;
        } else {
          chosen := am;
        }
      } else {
        chosen := lm;
      }
      assert Decide(tup, cells, name, color) == Some(chosen);
      if update {
        AppliedDecided(tup, cells, name, color);
        UpdateBoard(chosen.before, chosen.after);
      }
      return Some(name);
    }

    /** `opposingMarblesOut(yourColor)`: the row-by-row count of the other colour. */
    method OpposingMarblesOut(color: Cell) returns (n: int)
      requires Valid()
      modifies this
      ensures Valid() && board == tup
      ensures n == MarblesOut(tup, color)
    {
      Reset();
      var opposing := if color == B then W else B;
      var counter := 0;
      var i := 0;
      while i < |board|
        invariant 0 <= i <= |board| && board == tup
        invariant counter + CountFrom(board, opposing, i) == Count(board, opposing)
      {
        var row := board[i];
        var j := 0;
        var rowCounter := 0;
        while j < |row|
          invariant 0 <= j <= |row|
          invariant rowCounter + RowCount(row, opposing, j) == RowCount(row, opposing, 0)
        {
          if row[j] == opposing {
            rowCounter := rowCounter + 1;
          }
          j := j + 1;
        }
        counter := counter + rowCounter;
        i := i + 1;
      }
      return Marbles - counter;
    }

    /** `winner()`. */
    method Winner() returns (w: Option<bool>)
      requires Valid()
      modifies this
      ensures Valid() && board == tup
      ensures w == WinnerOf(tup, turn)
    {
      var scoreWhite := OpposingMarblesOut(B);
      var scoreBlack := OpposingMarblesOut(W);
      if scoreBlack == Lost && turn == W {
        return Some(true);
      } else if scoreBlack == Lost && turn == B {
        return Some(false);
      } else if scoreWhite == Lost && turn == B {
        return Some(true);
      } else if scoreWhite == Lost && turn == W {
        return Some(false);
      }
      return None;
    }

    /**
     * `find_children((marblesArray, moveName))`: the position after the move,
     * with the turn passed on. As written, `winner()` runs after the scratch
     * grid has been rebuilt from the parent, so the child's `winner` and
     * `terminal` describe the parent's position with the parent to move.
     */
    method FindChildren(cells: seq<Vec>, name: string) returns (child: Board)
      requires Valid() && AllOnGrid(cells) && 1 <= |cells|
      modifies this
      ensures Valid() && board == tup
      ensures fresh(child) && child.Valid()
      ensures child.tup == Applied(tup, cells, name, turn)
      ensures child.turn == Other(turn) && child.turn != turn
      ensures child.winner == WinnerOf(tup, turn)
      ensures child.terminal <==> child.winner.Some?
    {
      Reset();
      var _ := Action(cells, name, turn, true);
      var newTup := board;
      var w := Winner();
      var turn2 := if turn == W then B else W;
      child := new Board(newTup, turn2, w, w.Some?);
    }
  }
}
