/**
 * The outcome tables of `arrowMove` (the broadside) and `soloMove`, and a
 * broadside that loses one of the mover's own marbles.
 */
module ArrowFacts {
  import opened Grid
  import opened Directions
  import opened CellSort
  import opened Chains
  import opened Rules
  import opened MoveFacts
  import opened Counting
  import opened LineFacts

  /** The targets of the members that pass the guard of line 374, in order. */
  function GuardedTargets(s: seq<Vec>, name: string): (t: seq<Vec>)
    requires name in Moves
    ensures |t| <= |s|
    ensures t == [] <==> forall k :: 0 <= k < |s| ==> !ArrowGuard(name, s[k])
  {
    if s == [] then []
    else
      var rest := GuardedTargets(s[1..], name);
      assert forall k :: 1 <= k < |s| ==> s[k] == s[1..][k - 1];
      (if ArrowGuard(name, s[0]) then [Add(s[0], Moves[name])] else []) + rest
  }

  /** A guarded member may move: its target is empty and it stands on a marble. */
  predicate TargetFree(g: Grid, m: Vec, name: string)
    requires IsGrid(g) && OnGrid(m) && name in Moves
  {
    Read(g, Add(m, Moves[name])) == Some(E) && At(g, m) != E
  }

  /** The loop of `arrowMove`, from the `i`-th member on, against the table. */
  lemma {:induction false} ArrowFromTable(g: Grid, cells: seq<Vec>, name: string, i: nat, acc: seq<Vec>)
    requires IsGrid(g) && AllOnGrid(cells) && name in Moves && i <= |cells|
    ensures ArrowFrom(g, cells, name, i, acc).Succeeded() <==>
      && acc + GuardedTargets(cells[i..], name) != []
      && forall k :: i <= k < |cells| && ArrowGuard(name, cells[k]) ==> TargetFree(g, cells[k], name)
    ensures ArrowFrom(g, cells, name, i, acc).Succeeded() ==>
      ArrowFrom(g, cells, name, i, acc) == Moved(cells, acc + GuardedTargets(cells[i..], name))
    decreases |cells| - i
  {
    ArrowFromMoved(g, cells, name, i, acc);
    if i < |cells| {
      var m := cells[i];
      assert m in cells;
      GuardedStep(cells, name, i);
      if ArrowGuard(name, m) {
        ArrowTargetOnGrid(name, m);
        var t := Add(m, Moves[name]);
        ArrowFromTable(g, cells, name, i + 1, acc + [t]);
        assert acc + GuardedTargets(cells[i..], name) == acc + [t] + GuardedTargets(cells[i + 1..], name);
      } else {
        ArrowFromTable(g, cells, name, i + 1, acc);
      }
    }
  }

  /** An accepted loop moves the group onto the targets collected so far and those of the guarded rest. */
  lemma {:induction false} ArrowFromMoved(g: Grid, cells: seq<Vec>, name: string, i: nat, acc: seq<Vec>)
    requires IsGrid(g) && AllOnGrid(cells) && name in Moves && i <= |cells|
    ensures ArrowFrom(g, cells, name, i, acc).Succeeded() ==>
      ArrowFrom(g, cells, name, i, acc) == Moved(cells, acc + GuardedTargets(cells[i..], name))
    decreases |cells| - i
  {
    if i == |cells| {
      assert cells[i..] == [];
    } else {
      var step := if ArrowGuard(name, cells[i]) then [Add(cells[i], Moves[name])] else [];
      ArrowFromNext(g, cells, name, i, acc);
      GuardedStep(cells, name, i);
      ArrowFromMoved(g, cells, name, i + 1, acc + step);
      assert acc + GuardedTargets(cells[i..], name) == acc + step + GuardedTargets(cells[i + 1..], name);
    }
  }

  /** An accepting loop passes from one member to the next, collecting the target of a guarded one. */
  lemma ArrowFromNext(g: Grid, cells: seq<Vec>, name: string, i: nat, acc: seq<Vec>)
    requires IsGrid(g) && AllOnGrid(cells) && name in Moves && i < |cells|
    ensures ArrowFrom(g, cells, name, i, acc).Succeeded() ==>
      ArrowFrom(g, cells, name, i, acc) ==
        ArrowFrom(g, cells, name, i + 1, acc + if ArrowGuard(name, cells[i]) then [Add(cells[i], Moves[name])] else [])
  {
    assert cells[i] in cells;
    if ArrowGuard(name, cells[i]) {
      ArrowTargetOnGrid(name, cells[i]);
    } else {
      assert acc + [] == acc;
    }
  }

  /** One member of the loop: its target, if guarded, comes before those of the rest. */
  lemma GuardedStep(cells: seq<Vec>, name: string, i: nat)
    requires name in Moves && i < |cells|
    ensures GuardedTargets(cells[i..], name) ==
      (if ArrowGuard(name, cells[i]) then [Add(cells[i], Moves[name])] else []) + GuardedTargets(cells[i + 1..], name)
  {
    assert cells[i..][1..] == cells[i + 1..];
  }

  /**
   * `arrowMove`: one marble is `singleMarbleInfo`; otherwise the move succeeds
   * exactly when some member passes the guard and every guarded member's
   * target is empty, and then only the guarded members get new cells.
   */
  lemma ArrowTable(g: Grid, cells: seq<Vec>, name: string)
    requires IsGrid(g) && AllOnGrid(cells) && name in Moves
    ensures |cells| == 1 ==> ArrowOutcome(g, cells, name) == Rejected(SingleMarbleInfo)
    ensures |cells| != 1 ==> (ArrowOutcome(g, cells, name).Succeeded() <==>
      && GuardedTargets(cells, name) != []
      && forall k :: 0 <= k < |cells| && ArrowGuard(name, cells[k]) ==> TargetFree(g, cells[k], name))
    ensures ArrowOutcome(g, cells, name).Succeeded() ==>
      ArrowOutcome(g, cells, name) == Moved(cells, GuardedTargets(cells, name))
  {
    ArrowFromTable(g, cells, name, 0, []);
    assert cells[0..] == cells;
  }

  /**
   * Why a guarded member cannot step: its own colour on the target (or an
   * empty member before an empty target) is `allyPresenceError`, `X` is
   * `outLimitError`, and an opposing marble is `outOfRange`, the NameError of
   * the look-ahead being caught.
   */
  function ArrowRefusal(g: Grid, m: Vec, name: string): (e: Reason)
    requires IsGrid(g) && OnGrid(m) && name in Moves && ArrowGuard(name, m)
    requires !TargetFree(g, m, name)
    ensures e == AllyPresenceError || e == OutLimitError || e == OutOfRange
    ensures e == OutOfRange <==> Read(g, Add(m, Moves[name])).value !in {E, X, At(g, m)}
  {
    ArrowTargetOnGrid(name, m);
    var next := Read(g, Add(m, Moves[name])).value;
    if next == At(g, m) then AllyPresenceError
    else if next == X then OutLimitError
    else OutOfRange
  }

  /** With no guarded member from `i` on, the loop ends with the targets collected so far. */
  lemma {:induction false} ArrowFromUnguarded(g: Grid, cells: seq<Vec>, name: string, i: nat, acc: seq<Vec>)
    requires IsGrid(g) && AllOnGrid(cells) && name in Moves && i <= |cells|
    requires forall k :: i <= k < |cells| ==> !ArrowGuard(name, cells[k])
    ensures ArrowFrom(g, cells, name, i, acc) ==
      if acc == [] then Rejected(NotAnArrowMoveError) else Moved(cells, acc)
    decreases |cells| - i
  {
    if i < |cells| {
      ArrowFromUnguarded(g, cells, name, i + 1, acc);
    }
  }

  /** The first guarded member that cannot step decides the loop's refusal. */
  lemma {:induction false} ArrowFromFirstFail(g: Grid, cells: seq<Vec>, name: string, i: nat, acc: seq<Vec>, k: nat)
    requires IsGrid(g) && AllOnGrid(cells) && name in Moves && i <= k < |cells|
    requires ArrowGuard(name, cells[k]) && !TargetFree(g, cells[k], name)
    requires forall j :: i <= j < k && ArrowGuard(name, cells[j]) ==> TargetFree(g, cells[j], name)
    ensures cells[k] in cells
    ensures ArrowFrom(g, cells, name, i, acc) == Rejected(ArrowRefusal(g, cells[k], name))
    decreases k - i
  {
    var m := cells[i];
    assert m in cells;
    if i < k {
      if ArrowGuard(name, m) {
        ArrowTargetOnGrid(name, m);
        ArrowFromFirstFail(g, cells, name, i + 1, acc + [Add(m, Moves[name])], k);
      } else {
        ArrowFromFirstFail(g, cells, name, i + 1, acc, k);
      }
    }
  }

  /**
   * The refusals of `arrowMove` on two or more marbles: the first guarded
   * member whose target is not free gives its reason, and when no member
   * passes the guard the move is `notAnArrowMoveError`.
   */
  lemma ArrowRefusals(g: Grid, cells: seq<Vec>, name: string)
    requires IsGrid(g) && AllOnGrid(cells) && name in Moves && |cells| != 1
    ensures GuardedTargets(cells, name) == [] ==> ArrowOutcome(g, cells, name) == Rejected(NotAnArrowMoveError)
    ensures forall k ::
      (&& 0 <= k < |cells| && ArrowGuard(name, cells[k]) && !TargetFree(g, cells[k], name)
       && (forall j :: 0 <= j < k && ArrowGuard(name, cells[j]) ==> TargetFree(g, cells[j], name))) ==>
        ArrowOutcome(g, cells, name) == Rejected(ArrowRefusal(g, cells[k], name))
  {
    if GuardedTargets(cells, name) == [] {
      ArrowFromUnguarded(g, cells, name, 0, []);
    }
    forall k | 0 <= k < |cells| && ArrowGuard(name, cells[k]) && !TargetFree(g, cells[k], name)
      && (forall j :: 0 <= j < k && ArrowGuard(name, cells[j]) ==> TargetFree(g, cells[j], name))
      ensures ArrowOutcome(g, cells, name) == Rejected(ArrowRefusal(g, cells[k], name))
    {
      ArrowFromFirstFail(g, cells, name, 0, [], k);
    }
  }

  /** A broadside to the north-west of marbles all on row 0 has no guarded member. */
  lemma ArrowTopRow(g: Grid, cells: seq<Vec>)
    requires IsGrid(g) && AllOnGrid(cells) && |cells| >= 2
    requires forall k :: 0 <= k < |cells| ==> cells[k].r == 0
    ensures ArrowOutcome(g, cells, "NW") == Rejected(NotAnArrowMoveError)
  {
    assert 'S' !in "NW" && 'N' in "NW";
    assert forall k :: 0 <= k < |cells| ==> !ArrowGuard("NW", cells[k]);
    ArrowRefusals(g, cells, "NW");
  }

  /** The guard needs an N or an S in the name, so no member passes it for E or W. */
  lemma {:induction false} NoGuardEastWest(s: seq<Vec>, name: string)
    requires name == "E" || name == "W"
    ensures GuardedTargets(s, name) == []
    decreases |s|
  {
    if s != [] {
      assert 'S' !in name && 'N' !in name;
      NoGuardEastWest(s[1..], name);
    }
  }

  /** Broadsides to the east or west never succeed. */
  lemma ArrowNeverEastWest(g: Grid, cells: seq<Vec>, name: string)
    requires IsGrid(g) && AllOnGrid(cells) && (name == "E" || name == "W")
    ensures |cells| != 1 ==> ArrowOutcome(g, cells, name) == Rejected(NotAnArrowMoveError)
  {
    NoGuardEastWest(cells, name);
    ArrowTable(g, cells, name);
    if |cells| != 1 {
      ArrowFromTable(g, cells, name, 0, []);
      ArrowNeverEastWestLoop(g, cells, name, 0);
    }
  }

  lemma {:induction false} ArrowNeverEastWestLoop(g: Grid, cells: seq<Vec>, name: string, i: nat)
    requires IsGrid(g) && AllOnGrid(cells) && (name == "E" || name == "W") && i <= |cells|
    ensures ArrowFrom(g, cells, name, i, []) == Rejected(NotAnArrowMoveError)
    decreases |cells| - i
  {
    if i < |cells| {
      assert 'S' !in name && 'N' !in name;
      ArrowNeverEastWestLoop(g, cells, name, i + 1);
    }
  }

  /**
   * `soloMove`: one marble moves onto an empty target; an off-board target is
   * `outLimitError`; its own colour, or an index that raises (the code then
   * reads the marble's own cell), is `allyPresenceError`; another marble is
   * `opponentMoveError`; any other group size is `notAsingleMarbleError`.
   */
  lemma SoloTable(g: Grid, cells: seq<Vec>, name: string)
    requires IsGrid(g) && AllOnGrid(cells) && name in Moves
    ensures |cells| != 1 ==> SoloOutcome(g, cells, name) == Rejected(NotASingleMarbleError)
    ensures |cells| == 1 ==>
      var cur := At(g, cells[0]);
      var target := Add(cells[0], Moves[name]);
      var next := Read(g, target);
      && (next == Some(E) && cur != E ==> SoloOutcome(g, cells, name) == Moved(cells, [target]))
      && (next == Some(X) ==> SoloOutcome(g, cells, name) == Rejected(OutLimitError))
      && (next.None? && cur != X ==> SoloOutcome(g, cells, name) == Rejected(AllyPresenceError))
      && (next == Some(cur) && cur != X ==> SoloOutcome(g, cells, name) == Rejected(AllyPresenceError))
      && (next.Some? && next.value != E && next.value != X && next.value != cur ==>
            SoloOutcome(g, cells, name) == Rejected(OpponentMoveError))
  {
  }

  // ------------------------------------------------------------ a lost marble

  /**
   * The broadside as the guard of line 374 evidently means it: a member the
   * guard stops cannot move, so the whole move is refused (`outLimitError`)
   * instead of that member being left out of the new positions.
   */
  function BroadsideFrom(g: Grid, cells: seq<Vec>, name: string, i: nat, acc: seq<Vec>): Outcome
    requires IsGrid(g) && AllOnGrid(cells) && name in Moves && i <= |cells|
    decreases |cells| - i
  {
    if i == |cells| then
      if acc == [] then Rejected(NotAnArrowMoveError) else Moved(cells, acc)
    else
      var m := cells[i];
      if ArrowGuard(name, m) then
        var t := Add(m, Moves[name]);
        ArrowTargetOnGrid(name, m);
        var next := At(g, t);
        if next == At(g, m) then Rejected(AllyPresenceError)
        else if next == X then Rejected(OutLimitError)
        else if next == E then BroadsideFrom(g, cells, name, i + 1, acc + [t])
        else Rejected(OutOfRange)
      else
        Rejected(OutLimitError)
  }

  function BroadsideOutcome(g: Grid, cells: seq<Vec>, name: string): Outcome
    requires IsGrid(g) && AllOnGrid(cells) && name in Moves
  {
    if |cells| == 1 then Rejected(SingleMarbleInfo) else BroadsideFrom(g, cells, name, 0, [])
  }

  lemma {:induction false} BroadsideFromMovesAll(g: Grid, cells: seq<Vec>, name: string, i: nat, acc: seq<Vec>)
    requires IsGrid(g) && AllOnGrid(cells) && name in Moves && i <= |cells|
    requires BroadsideFrom(g, cells, name, i, acc).Succeeded()
    ensures BroadsideFrom(g, cells, name, i, acc) == Moved(cells, acc + Shift(cells[i..], Moves[name]))
    ensures forall k :: i <= k < |cells| ==> TargetFree(g, cells[k], name)
    decreases |cells| - i
  {
    if i < |cells| {
      var m := cells[i];
      assert m in cells;
      ArrowTargetOnGrid(name, m);
      var t := Add(m, Moves[name]);
      BroadsideFromMovesAll(g, cells, name, i + 1, acc + [t]);
      assert cells[i..] == [m] + cells[i + 1..];
    }
  }

  /** The intended broadside moves every marble of the group one step, each onto an empty cell. */
  lemma BroadsideMovesAll(g: Grid, cells: seq<Vec>, name: string)
    requires IsGrid(g) && AllOnGrid(cells) && name in Moves
    requires BroadsideOutcome(g, cells, name).Succeeded()
    ensures BroadsideOutcome(g, cells, name) == Moved(cells, Shift(cells, Moves[name]))
    ensures |BroadsideOutcome(g, cells, name).after| == |cells|
    ensures forall k :: 0 <= k < |cells| ==> TargetFree(g, cells[k], name)
  {
    BroadsideFromMovesAll(g, cells, name, 0, []);
    assert cells[0..] == cells;
  }

  /** Step of `ArrowDropsMarble`: the pair (0,1), (1,1) is sorted and one NE step apart. */
  lemma PairLinked()
    ensures Sorted([Vec(0, 1), Vec(1, 1)]) && Linked([Vec(0, 1), Vec(1, 1)])
  {
    assert Sub(Vec(0, 1), Vec(1, 1)) == Moves["NE"];
  }

  /** Step of `ArrowDropsMarble`: the pair (0,1), (1,1) is a chain along NE. */
  lemma PairChain()
    ensures Chain([Vec(0, 1), Vec(1, 1)]) == Along(Vec(-1, 0))
  {
    var cells := [Vec(0, 1), Vec(1, 1)];
    PairLinked();
    SortSorted(cells);
    ChainOutcome(cells);
  }

  /** Step of `ArrowDropsMarble`: `lineMove` refuses the pair moved NW, which is not aligned with it. */
  lemma PairLine(g: Grid)
    requires IsGrid(g)
    ensures LineOutcome(g, [Vec(0, 1), Vec(1, 1)], "NW") == Rejected(NonAlignedError)
  {
    var cells := [Vec(0, 1), Vec(1, 1)];
    PairChain();
    LineIsAlong(g, cells, "NW");
    PairNotAligned();
  }

  /** Step of `ArrowDropsMarble`: NW runs across the NE axis of the pair. */
  lemma PairNotAligned()
    ensures !Aligned(Moves["NW"], Vec(-1, 0))
  {
    assert Moves["NW"] == Vec(-1, -1);
  }

  /** Step of `ArrowDropsMarble`: `arrowMove` skips the row-0 marble and moves the other one to (0,0). */
  lemma PairArrow(g: Grid)
    requires IsGrid(g)
    requires At(g, Vec(0, 1)) == W && At(g, Vec(1, 1)) == W && At(g, Vec(0, 0)) == E
    ensures ArrowOutcome(g, [Vec(0, 1), Vec(1, 1)], "NW") == Moved([Vec(0, 1), Vec(1, 1)], [Vec(0, 0)])
  {
    var cells := [Vec(0, 1), Vec(1, 1)];
    assert 'S' !in "NW" && 'N' in "NW" && 'W' in "NW";
    assert !ArrowGuard("NW", cells[0]) && ArrowGuard("NW", cells[1]);
    assert ArrowFrom(g, cells, "NW", 2, [Vec(0, 0)]) == Moved(cells, [Vec(0, 0)]);
    assert ArrowFrom(g, cells, "NW", 1, []) == Moved(cells, [Vec(0, 0)]);
  }

  /** Step of `ArrowDropsMarble`: the broadside is the first shape that accepts the pair. */
  lemma PairFirst(g: Grid)
    requires IsGrid(g)
    requires At(g, Vec(0, 1)) == W && At(g, Vec(1, 1)) == W && At(g, Vec(0, 0)) == E
    ensures FirstSuccess(g, [Vec(0, 1), Vec(1, 1)], "NW") == Some(Moved([Vec(0, 1), Vec(1, 1)], [Vec(0, 0)]))
  {
    PairLine(g);
    PairArrow(g);
  }

  /** Step of `ArrowDropsMarble`: what `action` decides for the pair moved NW. */
  lemma PairDecide(g: Grid)
    requires IsGrid(g)
    requires At(g, Vec(0, 1)) == W && At(g, Vec(1, 1)) == W && At(g, Vec(0, 0)) == E
    ensures Decide(g, [Vec(0, 1), Vec(1, 1)], "NW", W) == Some(Moved([Vec(0, 1), Vec(1, 1)], [Vec(0, 0)]))
  {
    var cells := [Vec(0, 1), Vec(1, 1)];
    PairLinked();
    SortSorted(cells);
    assert AllOfColor(g, cells, W);
    assert Admissible(g, cells, "NW", W);
    DecideTries(g, cells, "NW", W);
    PairFirst(g);
  }

  /** Step of `ArrowDropsMarble`: emptying two white cells and filling one empty cell with white loses one white marble. */
  lemma PairCount(g: Grid)
    requires IsGrid(g)
    requires At(g, Vec(0, 1)) == W && At(g, Vec(1, 1)) == W && At(g, Vec(0, 0)) == E
    ensures AllIndexable([Vec(0, 1), Vec(1, 1)]) && AllIndexable([Vec(0, 0)])
    ensures Count(ApplyMove(g, [Vec(0, 1), Vec(1, 1)], [Vec(0, 0)]), W) == Count(g, W) - 1
  {
    var a, b, t := Vec(0, 1), Vec(1, 1), Vec(0, 0);
    var h := ApplyMove(g, [a, b], [t]);
    assert Targets([a, b]) == [a, b] && Targets([t]) == [t];
    var g1 := Write(g, a, E);
    var g2 := Write(g1, b, E);
    CountChange(g, g1, W, a);
    CountChange(g1, g2, W, b);
    CountChange(g2, h, W, t);
  }

  /** Step of `ArrowDropsMarble`: `action(..., update=True)` on the pair applies the broadside's old and new positions. */
  lemma PairApplied(g: Grid)
    requires IsGrid(g)
    requires At(g, Vec(0, 1)) == W && At(g, Vec(1, 1)) == W && At(g, Vec(0, 0)) == E
    ensures AllIndexable([Vec(0, 1), Vec(1, 1)]) && AllIndexable([Vec(0, 0)])
    ensures Applied(g, [Vec(0, 1), Vec(1, 1)], "NW", W) == ApplyMove(g, [Vec(0, 1), Vec(1, 1)], [Vec(0, 0)])
  {
    PairIndexable();
    PairDecide(g);
    var o := Moved([Vec(0, 1), Vec(1, 1)], [Vec(0, 0)]);
    assert Applied(g, [Vec(0, 1), Vec(1, 1)], "NW", W) == ApplyMove(g, o.before, o.after);
  }

  /** Step of `ArrowDropsMarble`: the pair and the cell it moves to can all be indexed. */
  lemma PairIndexable()
    ensures AllIndexable([Vec(0, 1), Vec(1, 1)]) && AllIndexable([Vec(0, 0)])
  {
  }

  /** Step of `ArrowDropsMarble`: the corrected broadside stops at the row-0 marble. */
  lemma PairBroadside(g: Grid)
    requires IsGrid(g)
    ensures BroadsideOutcome(g, [Vec(0, 1), Vec(1, 1)], "NW") == Rejected(OutLimitError)
  {
    assert 'N' in "NW" && 'S' !in "NW";
    assert !ArrowGuard("NW", Vec(0, 1));
  }

  /**
   * As written, a white pair on (0,1) and (1,1) moved NW onto an empty (0,0)
   * is accepted: the member on row 0 fails the guard and is skipped, the
   * other moves, and `updateBoard` empties both old cells, so White loses a
   * marble by its own move. The intended broadside refuses the move.
   */
  lemma ArrowDropsMarble(g: Grid)
    requires IsGrid(g)
    requires At(g, Vec(0, 1)) == W && At(g, Vec(1, 1)) == W && At(g, Vec(0, 0)) == E
    ensures Decide(g, [Vec(0, 1), Vec(1, 1)], "NW", W) == Some(Moved([Vec(0, 1), Vec(1, 1)], [Vec(0, 0)]))
    ensures Count(Applied(g, [Vec(0, 1), Vec(1, 1)], "NW", W), W) == Count(g, W) - 1
    ensures BroadsideOutcome(g, [Vec(0, 1), Vec(1, 1)], "NW") == Rejected(OutLimitError)
  {
    PairDecide(g);
    PairApplied(g);
    PairCount(g);
    PairBroadside(g);
  }
}
