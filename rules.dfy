/**
 * The move rules of the engine as functions of the position's grid: what
 * `colored`, `soloMove`, `lineMove`, `arrowMove`, `action` and `updateBoard`
 * compute. The `Board` class runs the same steps imperatively on its scratch
 * grid and is proved to agree with these functions.
 */
module Rules {
  import opened Grid
  import opened Directions
  import opened CellSort
  import opened Chains

  /** The rejection strings of the three move shapes. */
  datatype Reason =
    | ChainError | SoloMarbleInfo | OutOfLimitError | AllyOutOfBoardError | OutLimitError
    | SameValueError | OutOfRange | NonEmptyError | NonAlignedError | SingleMarbleInfo
    | AllyPresenceError | OpponentMoveError | NotAnArrowMoveError | NotASingleMarbleError
  {
    /** The string the engine returns for this rejection. */
    function Text(): string
    {
      match this
      case ChainError => "chainError"
      case SoloMarbleInfo => "soloMarbleInfo"
      case OutOfLimitError => "outOfLimitError"
      case AllyOutOfBoardError => "allyOutOfBoardError"
      case OutLimitError => "outLimitError"
      case SameValueError => "sameValueError"
      case OutOfRange => "outOfRange"
      case NonEmptyError => "NonEmptyError"
      case NonAlignedError => "nonAlignedError"
      case SingleMarbleInfo => "singleMarbleInfo"
      case AllyPresenceError => "allyPresenceError"
      case OpponentMoveError => "opponentMoveError"
      case NotAnArrowMoveError => "notAnArrowMoveError"
      case NotASingleMarbleError => "notAsingleMarbleError"
    }
  }

  /**
   * The result of one move shape: the old and new positions of the mover's
   * marbles, for a push also the opposing marbles in front, or a rejection.
   */
  datatype Outcome =
    | Moved(before: seq<Vec>, after: seq<Vec>)
    | Pushed(before: seq<Vec>, after: seq<Vec>, opponents: seq<Vec>)
    | Rejected(reason: Reason)
  {
    predicate Succeeded() { !Rejected? }
  }

  /** What `colored` returns. */
  datatype ColorResult = AllColored | CaseWithoutMarbleError | WrongColorError

  predicate AllOnGrid(cells: seq<Vec>)
  {
    forall p :: p in cells ==> OnGrid(p)
  }

  /** Sorting a group of grid cells gives grid cells. */
  lemma SortOnGrid(cells: seq<Vec>)
    requires AllOnGrid(cells)
    ensures AllOnGrid(SortCells(cells))
  {
    forall p | p in SortCells(cells) ensures OnGrid(p) { assert p in multiset(cells); }
  }

  predicate AllIndexable(cells: seq<Vec>)
  {
    forall p :: p in cells ==> Indexable(p)
  }

  predicate IsColor(c: Cell)
  {
    c == W || c == B
  }

  /** The opposing colour, as `opposingMarblesOut` picks it. */
  function Other(c: Cell): Cell
  {
    if c == B then W else B
  }

  // ---------------------------------------------------------------- colored

  /** The loop of `colored` from the `i`-th marble on. */
  function ColorFrom(g: Grid, cells: seq<Vec>, color: Cell, i: nat): ColorResult
    requires IsGrid(g) && AllOnGrid(cells) && i <= |cells|
    decreases |cells| - i
  {
    if i == |cells| then AllColored
    else
      var v := At(g, cells[i]);
      if v != W && v != B then CaseWithoutMarbleError
      else if v != color then WrongColorError
      else ColorFrom(g, cells, color, i + 1)
  }

  function ColorCheck(g: Grid, cells: seq<Vec>, color: Cell): ColorResult
    requires IsGrid(g) && AllOnGrid(cells)
  {
    ColorFrom(g, cells, color, 0)
  }

  /**
   * `colored` accepts exactly the groups whose every cell holds a marble of
   * the given colour; each error names a cell that fails.
   */
  lemma {:induction false} ColorFromMeaning(g: Grid, cells: seq<Vec>, color: Cell, i: nat)
    requires IsGrid(g) && AllOnGrid(cells) && i <= |cells|
    ensures ColorFrom(g, cells, color, i) == AllColored <==>
      forall k :: i <= k < |cells| ==> IsColor(At(g, cells[k])) && At(g, cells[k]) == color
    ensures ColorFrom(g, cells, color, i) == CaseWithoutMarbleError ==>
      exists k :: i <= k < |cells| && !IsColor(At(g, cells[k]))
    ensures ColorFrom(g, cells, color, i) == WrongColorError ==>
      exists k :: i <= k < |cells| && IsColor(At(g, cells[k])) && At(g, cells[k]) != color
    decreases |cells| - i
  {
    if i < |cells| {
      ColorFromMeaning(g, cells, color, i + 1);
    }
  }

  // ---------------------------------------------------------------- soloMove

  function SoloOutcome(g: Grid, cells: seq<Vec>, name: string): (r: Outcome)
    requires IsGrid(g) && AllOnGrid(cells) && name in Moves
    ensures r.Succeeded() ==>
      && |cells| == 1 && r == Moved(cells, [Add(cells[0], Moves[name])])
      && Read(g, Add(cells[0], Moves[name])) == Some(E)
  {
    if |cells| == 1 then
      var p := cells[0];
      var cur := At(g, p);
      var target := Add(p, Moves[name]);
      // an index that raises falls back to the marble's own cell
      var next := match Read(g, target) case Some(v) => v case None => cur;
      if next == X then Rejected(OutLimitError)
      else if next == cur then Rejected(AllyPresenceError)
      else if next == E then Moved(cells, [target])
      else Rejected(OpponentMoveError)
    else
      Rejected(NotASingleMarbleError)
  }

  // ---------------------------------------------------------------- lineMove

  /** Progress of a cell along an axis direction (rows for NE/SW, columns for E/W). */
  function Key(v: Vec, p: Vec): int
  {
    p.r * v.r + p.c * v.c
  }

  /** The scans of lines 280-294: keep the first member whose key is strictly larger. */
  function ScanFront(s: seq<Vec>, v: Vec, best: Vec, i: nat): (f: Vec)
    requires i <= |s|
    ensures f == best || f in s[i..]
    ensures Key(v, f) >= Key(v, best)
    ensures forall j :: i <= j < |s| ==> Key(v, s[j]) <= Key(v, f)
    decreases |s| - i
  {
    if i == |s| then best
    else ScanFront(s, v, if Key(v, s[i]) > Key(v, best) then s[i] else best, i + 1)
  }

  /**
   * `lastMarble` of `lineMove`, the front of the group in the move direction,
   * on the sorted group: `min` for NW and `max` for SE (the first and last
   * members), otherwise the scan.
   */
  function FrontOf(s: seq<Vec>, v: Vec): (f: Vec)
    requires |s| >= 1
    ensures f in s
  {
    if v == Vec(-1, -1) then s[0]
    else if v == Vec(1, 1) then s[|s| - 1]
    else if v == Vec(1, 0) || v == Vec(-1, 0) || v == Vec(0, 1) || v == Vec(0, -1) then ScanFront(s, v, s[0], 1)
    else s[0]
  }

  /** Every member moved one step along `v`. */
  function Shift(s: seq<Vec>, v: Vec): (t: seq<Vec>)
    ensures |t| == |s| && forall i :: 0 <= i < |s| ==> t[i] == Add(s[i], v)
  {
    if s == [] then [] else [Add(s[0], v)] + Shift(s[1..], v)
  }

  /** `front + k * v`. */
  function Ahead(front: Vec, v: Vec, k: int): Vec
  {
    Add(front, Scale(k, v))
  }

  /** Lines 323-329: the cell `n` steps past the front, or `n - 1` steps if that raises. */
  function Beyond(g: Grid, front: Vec, v: Vec, n: int): Option<Cell>
    requires IsGrid(g)
  {
    match Read(g, Ahead(front, v, n))
    case Some(x) => Some(x)
    case None => Read(g, Ahead(front, v, n - 1))
  }

  /** The loop of lines 341-345 from step `i`: the opposing run in front, stopping at an empty cell. */
  function Opponents(g: Grid, front: Vec, v: Vec, n: int, i: int): seq<Vec>
    requires IsGrid(g) && 1 <= i
    requires forall k :: i <= k < n ==> Indexable(Ahead(front, v, k))
    decreases n - i
  {
    if i >= n then []
    else if Read(g, Ahead(front, v, i)).value == E then []
    else [Ahead(front, v, i)] + Opponents(g, front, v, n, i + 1)
  }

  /** If a read `n` (or `n - 1`) steps ahead succeeded, every step before it can be read. */
  lemma BeyondReadable(g: Grid, front: Vec, v: Vec, n: int)
    requires IsGrid(g) && OnGrid(front) && 2 <= n <= 3
    requires -1 <= v.r <= 1 && -1 <= v.c <= 1
    requires Indexable(Add(front, v)) && Beyond(g, front, v, n).Some?
    ensures forall k :: 1 <= k < n ==> Indexable(Ahead(front, v, k))
  {
  }

  /** The push branch of `lineMove` (lines 322-352). */
  function PushOutcome(g: Grid, s: seq<Vec>, front: Vec, v: Vec): Outcome
    requires IsGrid(g) && OnGrid(front) && 2 <= |s| <= 3
    requires -1 <= v.r <= 1 && -1 <= v.c <= 1
    requires Indexable(Add(front, v))
  {
    match Beyond(g, front, v, |s|)
    case None => Rejected(OutOfRange)
    case Some(x) =>
      if x == X then Rejected(NonEmptyError)
      else
        BeyondReadable(g, front, v, |s|);
        Pushed(s, Shift(s, v), PushedRun(Opponents(g, front, v, |s|, 1)))
  }

  /**
   * The opponent list line 349 hands back. A run of two or three cells goes
   * through the nested `lineMove` of line 347, whose `chain` sorts the list
   * in place (line 239); a single opponent goes to `soloMove` and is left as
   * it is.
   */
  function PushedRun(run: seq<Vec>): (o: seq<Vec>)
    ensures multiset(o) == multiset(run)
    ensures 2 <= |run| <= 3 ==> Sorted(o)
    ensures |run| < 2 ==> o == run
  {
    if 2 <= |run| <= 3 then SortCells(run) else run
  }

  predicate OnEdge(p: Vec)
  {
    p.r == 0 || p.c == 0 || p.r == 8 || p.c == 8
  }

  /** Lines 296-304: the edge guards of 2- and 3-marble groups. */
  predicate EdgeRejects(s: seq<Vec>, name: string, front: Vec)
    requires 2 <= |s|
  {
    || (|s| == 3 && OnEdge(front))
    || (|s| == 2 && (s[0].r == 0 || s[0].c == 0) && (name == "NE" || name == "NW"))
    || (|s| == 2 && (s[1].r == 8 || s[1].c == 8) && (name == "SE" || name == "SW"))
  }

  /** Lines 307-352: the cell past the front decides the inline move. */
  function StepOutcome(g: Grid, s: seq<Vec>, front: Vec, v: Vec): (r: Outcome)
    requires IsGrid(g) && OnGrid(front) && 2 <= |s| <= 3
    requires -1 <= v.r <= 1 && -1 <= v.c <= 1
    ensures r.Succeeded() ==> r.before == s && r.after == Shift(s, v) && Indexable(Add(front, v))
    ensures r.Moved? ==> Read(g, Add(front, v)) == Some(E)
    ensures r.Pushed? ==>
      var next := Read(g, Add(front, v)).value;
      next != X && next != E && next != At(g, front)
  {
    var cur := At(g, front);
    match Read(g, Add(front, v))
    case None => Rejected(AllyOutOfBoardError)
    case Some(next) =>
      if next == X then Rejected(OutLimitError)
      else if next == cur then Rejected(SameValueError)
      else if next == E then Moved(s, Shift(s, v))
      else PushOutcome(g, s, front, v)
  }

  /** `lineMove` on a chain of two or three marbles aligned with the move. */
  function InlineOutcome(g: Grid, s: seq<Vec>, name: string): (r: Outcome)
    requires IsGrid(g) && AllOnGrid(s) && 2 <= |s| <= 3 && name in Moves
    ensures r.Succeeded() ==>
      r.before == s && r.after == Shift(s, Moves[name]) && Indexable(Add(FrontOf(s, Moves[name]), Moves[name]))
    ensures r.Pushed? ==>
      var front := FrontOf(s, Moves[name]);
      var next := Read(g, Add(front, Moves[name]));
      next.Some? && next != Some(X) && next != Some(E) && next != Read(g, front)
  {
    var v := Moves[name];
    var front := FrontOf(s, v);
    if EdgeRejects(s, name, front) then Rejected(OutOfLimitError)
    else StepOutcome(g, s, front, v)
  }

  /** A group that `chain` links has two or three members. */
  lemma AlongSize(cells: seq<Vec>)
    requires 1 <= |cells| && Chain(cells).Along?
    ensures 2 <= |cells| <= 3
  {
    ChainOutcome(cells);
  }

  /** `lineMove` on a group that `chain` links along `vc`. */
  function AlongOutcome(g: Grid, cells: seq<Vec>, name: string, vc: Vec): (r: Outcome)
    requires IsGrid(g) && AllOnGrid(cells) && 1 <= |cells| && name in Moves
    requires Chain(cells) == Along(vc)
    ensures r.Succeeded() ==>
      && r.before == SortCells(cells)
      && r.after == Shift(SortCells(cells), Moves[name])
      && Indexable(Add(FrontOf(SortCells(cells), Moves[name]), Moves[name]))
      && Aligned(Moves[name], vc)
    ensures r.Pushed? ==>
      var front := FrontOf(SortCells(cells), Moves[name]);
      var next := Read(g, Add(front, Moves[name]));
      next.Some? && next != Some(X) && next != Some(E) && next != Read(g, front)
  {
    if !Aligned(Moves[name], vc) then Rejected(NonAlignedError)
    else
      AlongSize(cells);
      var s := SortCells(cells);
      assert AllOnGrid(s) by {
        forall p | p in s ensures OnGrid(p) { assert p in multiset(cells); }
      }
      InlineOutcome(g, s, name)
  }

  /** `lineMove(marblesArray, moveName)`: the inline move and the push. */
  function LineOutcome(g: Grid, cells: seq<Vec>, name: string): (r: Outcome)
    requires IsGrid(g) && AllOnGrid(cells) && 1 <= |cells| && name in Moves
    ensures r.Succeeded() ==>
      && Chain(cells).Along?
      && r.before == SortCells(cells)
      && r.after == Shift(SortCells(cells), Moves[name])
      && Indexable(Add(FrontOf(SortCells(cells), Moves[name]), Moves[name]))
      && Aligned(Moves[name], Chain(cells).v)
    ensures r.Pushed? ==>
      var front := FrontOf(SortCells(cells), Moves[name]);
      var next := Read(g, Add(front, Moves[name]));
      next.Some? && next != Some(X) && next != Some(E) && next != Read(g, front)
  {
    match Chain(cells)
    case LengthChainError => Rejected(ChainError)
    case MarblesChainError => Rejected(ChainError)
    case NoVector => Rejected(SoloMarbleInfo)
    case Along(vc) => AlongOutcome(g, cells, name, vc)
  }

  // ---------------------------------------------------------------- arrowMove

  /** The guard of line 374, on the direction's name. */
  predicate ArrowGuard(name: string, m: Vec)
  {
    (('S' in name && m.r != 8) || ('N' in name && m.r != 0)) &&
    (('W' in name && m.c != 0) || ('E' in name && m.c != 8))
  }

  /** Where the guard lets a marble through, its target is a cell of the grid. */
  lemma ArrowTargetOnGrid(name: string, m: Vec)
    requires name in Moves && OnGrid(m) && ArrowGuard(name, m)
    ensures OnGrid(Add(m, Moves[name]))
  {
  }

  /** The loop of `arrowMove` from the `i`-th marble on, with the targets collected so far. */
  function ArrowFrom(g: Grid, cells: seq<Vec>, name: string, i: nat, acc: seq<Vec>): Outcome
    requires IsGrid(g) && AllOnGrid(cells) && name in Moves && i <= |cells|
    decreases |cells| - i
  {
    if i == |cells| then
      if acc == [] then Rejected(NotAnArrowMoveError) else Moved(cells, acc)
    else
      var m := cells[i];
      if ArrowGuard(name, m) then
        var t := Add(m, Moves[name]);
        ArrowTargetOnGrid(name, m);
        var next := At(g, t);
        if next == At(g, m) then Rejected(AllyPresenceError)
        else if next == X then Rejected(OutLimitError)
        else if next == E then ArrowFrom(g, cells, name, i + 1, acc + [t])
        // an opposing marble: the look-ahead names an undefined global, and the
        // NameError is caught as "outOfRange"
        else Rejected(OutOfRange)
      else
        ArrowFrom(g, cells, name, i + 1, acc)
  }

  /** The collected arrow targets are cells of the grid, and the old positions are the group. */
  lemma {:induction false} ArrowFromTargets(g: Grid, cells: seq<Vec>, name: string, i: nat, acc: seq<Vec>)
    requires IsGrid(g) && AllOnGrid(cells) && name in Moves && i <= |cells|
    requires AllOnGrid(acc)
    requires ArrowFrom(g, cells, name, i, acc).Succeeded()
    ensures ArrowFrom(g, cells, name, i, acc).Moved?
    ensures ArrowFrom(g, cells, name, i, acc).before == cells
    ensures AllOnGrid(ArrowFrom(g, cells, name, i, acc).after)
    decreases |cells| - i
  {
    if i < |cells| {
      var m := cells[i];
      if ArrowGuard(name, m) {
        ArrowTargetOnGrid(name, m);
        var t := Add(m, Moves[name]);
        if At(g, t) == E && At(g, t) != At(g, m) {
          ArrowFromTargets(g, cells, name, i + 1, acc + [t]);
        }
      } else {
        ArrowFromTargets(g, cells, name, i + 1, acc);
      }
    }
  }

  function ArrowOutcome(g: Grid, cells: seq<Vec>, name: string): (r: Outcome)
    requires IsGrid(g) && AllOnGrid(cells) && name in Moves
    ensures r.Succeeded() ==> r.Moved? && r.before == cells && AllOnGrid(r.after)
  {
    if |cells| == 1 then Rejected(SingleMarbleInfo)
    else
      var r := ArrowFrom(g, cells, name, 0, []);
      if r.Succeeded() then ArrowFromTargets(g, cells, name, 0, []); r
      else r
  }

  // ---------------------------------------------------------------- action

  /**
   * Lines 465-486 on a chain: the first successful shape among line, arrow and
   * solo, tried in that order; None if all three reject the move.
   */
  function FirstSuccess(g: Grid, s: seq<Vec>, name: string): (o: Option<Outcome>)
    requires IsGrid(g) && AllOnGrid(s) && 1 <= |s| && name in Moves
  {
    var lm := LineOutcome(g, s, name);
    if lm.Succeeded() then Some(lm)
    else
      var am := ArrowOutcome(g, s, name);
      if am.Succeeded() then Some(am)
      else
        var sm := SoloOutcome(g, s, name);
        if sm.Succeeded() then Some(sm) else None
  }

  /**
   * The move `action` applies: None where it returns False, otherwise the
   * first successful shape among line, arrow and solo, tried on the group as
   * `chain` left it (sorted).
   */
  function Decide(g: Grid, cells: seq<Vec>, name: string, color: Cell): Option<Outcome>
    requires IsGrid(g) && AllOnGrid(cells) && 1 <= |cells|
  {
    if ColorCheck(g, cells, color) != AllColored then None
    else if !ExistingDirection(name) then None
    else if Chain(cells) == LengthChainError || Chain(cells) == MarblesChainError then None
    else
      var s := SortCells(cells);
      assert AllOnGrid(s) by {
        forall p | p in s ensures OnGrid(p) { assert p in multiset(cells); }
      }
      FirstSuccess(g, s, name)
  }

  // ---------------------------------------------------------------- updateBoard

  /** The cells of the grid that a list of indexable pairs denotes. */
  function Targets(ps: seq<Vec>): (qs: seq<Vec>)
    requires AllIndexable(ps)
    ensures |qs| == |ps| && forall i :: 0 <= i < |ps| ==> qs[i] == Norm(ps[i])
  {
    if ps == [] then [] else [Norm(ps[0])] + Targets(ps[1..])
  }

  /** Writes `v` at `ps[i..]`, in order (one loop of `updateBoard`). */
  function WriteFrom(g: Grid, ps: seq<Vec>, v: Cell, i: nat): (h: Grid)
    requires IsGrid(g) && AllIndexable(ps) && i <= |ps|
    ensures IsGrid(h)
    ensures forall q :: OnGrid(q) ==> At(h, q) == if q in Targets(ps[i..]) then v else At(g, q)
    decreases |ps| - i
  {
    if i == |ps| then g
    else
      var h := WriteFrom(Write(g, ps[i], v), ps, v, i + 1);
      assert Targets(ps[i..]) == [Norm(ps[i])] + Targets(ps[i + 1..]);
      h
  }

  /**
   * `updateBoard(old, new)`: the old cells become empty, then the new cells take
   * the colour found at the first old cell.
   */
  function ApplyMove(g: Grid, before: seq<Vec>, after: seq<Vec>): (h: Grid)
    requires IsGrid(g) && 1 <= |before| && AllIndexable(before) && AllIndexable(after)
    ensures IsGrid(h)
    ensures forall q :: OnGrid(q) ==>
      At(h, q) == if q in Targets(after) then Read(g, before[0]).value
                  else if q in Targets(before) then E
                  else At(g, q)
  {
    assert before[0] in before;
    var color := Read(g, before[0]).value;
    var cleared := WriteFrom(g, before, E, 0);
    assert before[0..] == before && after[0..] == after;
    WriteFrom(cleared, after, color, 0)
  }
}
