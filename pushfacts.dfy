/**
 * What an accepted push does to the marble counts. `action` applies only the
 * attacker's one-step shift, so on a straight chain the cell in front of the
 * chain (an opposing marble) takes the attacker's colour and the chain's tail
 * becomes empty: the opponent loses exactly one marble and the mover none.
 */
module PushFacts {
  import opened Grid
  import opened Directions
  import opened CellSort
  import opened Chains
  import opened Rules
  import opened MoveFacts
  import opened Counting

  /** A group whose consecutive sorted members are all one and the same step apart. */
  predicate Straight(s: seq<Vec>)
  {
    2 <= |s| <= 3 && (|s| == 3 ==> Sub(s[0], s[1]) == Sub(s[1], s[2]))
  }

  /** The scan keeps its start when every later member has a strictly smaller key. */
  lemma ScanKeepsFirst(s: seq<Vec>, v: Vec)
    requires |s| >= 1
    requires forall j :: 1 <= j < |s| ==> Key(v, s[j]) < Key(v, s[0])
    ensures ScanFront(s, v, s[0], 1) == s[0]
  {
  }

  /** The scan ends on the last member when it has the strictly largest key. */
  lemma ScanTakesLast(s: seq<Vec>, v: Vec)
    requires |s| >= 2
    requires forall j :: 0 <= j < |s| - 1 ==> Key(v, s[j]) < Key(v, s[|s| - 1])
    ensures ScanFront(s, v, s[0], 1) == s[|s| - 1]
  {
    var f := ScanFront(s, v, s[0], 1);
    assert Key(v, s[|s| - 1]) <= Key(v, f);
  }

  /**
   * On a straight chain with step `d`, moving along `d` leads with the first
   * sorted member and moving along `-d` with the last.
   */
  lemma StraightFront(s: seq<Vec>, name: string, d: Vec)
    requires Straight(s) && name in Moves && d == Sub(s[0], s[1]) && BackStep(d)
    requires Moves[name] == d || Moves[name] == Neg(d)
    ensures Moves[name] == d ==> FrontOf(s, Moves[name]) == s[0]
    ensures Moves[name] == Neg(d) ==> FrontOf(s, Moves[name]) == s[|s| - 1]
  {
    var v := Moves[name];
    assert s[1] == Sub(s[0], d);
    KeyStep(v, s[0], d);
    if |s| == 3 {
      assert s[2] == Sub(s[1], d);
      KeyStep(v, s[1], d);
    }
    if v == d {
      if d != Vec(-1, -1) {
        ScanKeepsFirst(s, v);
      }
    } else {
      if d != Vec(-1, -1) {
        ScanTakesLast(s, v);
      }
    }
  }

  /** A step back by a back step lowers the key along it and raises the key against it. */
  lemma KeyStep(v: Vec, a: Vec, d: Vec)
    requires BackStep(d) && (v == d || v == Neg(d))
    ensures v == d ==> Key(v, Sub(a, d)) < Key(v, a)
    ensures v == Neg(d) ==> Key(v, Sub(a, d)) > Key(v, a)
  {
  }

  /** Every sorted neighbour pair of a straight chain is one step `d` apart. */
  lemma StraightSteps(s: seq<Vec>)
    requires Straight(s)
    ensures forall j :: 0 <= j < |s| - 1 ==> Sub(s[j], s[j + 1]) == Sub(s[0], s[1])
  {
  }

  lemma OnGridMembers(s: seq<Vec>)
    requires AllOnGrid(s)
    ensures forall j :: 0 <= j < |s| ==> OnGrid(s[j])
    ensures AllIndexable(s) && Targets(s) == s
  {
    assert forall j :: 0 <= j < |s| ==> s[j] in s;
  }

  /** The ends of a straight chain with a nonzero step occur once. */
  lemma StraightEnds(s: seq<Vec>)
    requires Straight(s) && BackStep(Sub(s[0], s[1]))
    ensures s[0] !in s[1..] && s[|s| - 1] !in s[..|s| - 1]
  {
    StraightSteps(s);
  }

  lemma MembersButLast(s: seq<Vec>)
    requires |s| >= 1
    ensures forall q :: q in s ==> q == s[|s| - 1] || q in s[..|s| - 1]
    ensures forall q :: q in s[..|s| - 1] ==> q in s
  {
    assert s == s[..|s| - 1] + [s[|s| - 1]];
  }

  lemma MembersButFirst(s: seq<Vec>)
    requires |s| >= 1
    ensures forall q :: q in s ==> q == s[0] || q in s[1..]
    ensures forall q :: q in s[1..] ==> q in s
  {
    assert s == [s[0]] + s[1..];
  }

  /** A straight chain moved along its back step `d`: each member after the first lands on its predecessor. */
  lemma AlongStepShift(s: seq<Vec>, d: Vec)
    requires Straight(s) && AllOnGrid(s) && d == Sub(s[0], s[1])
    requires Indexable(Add(s[0], d))
    ensures AllIndexable(Shift(s, d))
    ensures forall j :: 1 <= j < |s| ==> Shift(s, d)[j] == s[j - 1]
  {
    var t := Shift(s, d);
    StraightSteps(s);
    forall j | 1 <= j < |s| ensures t[j] == s[j - 1] && Indexable(t[j]) {
      assert Sub(s[j - 1], s[j]) == d;
      assert s[j - 1] in s;
    }
    IndexablePointwise(t);
  }

  /** Moving a straight chain along its own back step `d`: the front is the first member. */
  lemma TargetsAlongStep(s: seq<Vec>, d: Vec)
    requires Straight(s) && AllOnGrid(s) && d == Sub(s[0], s[1])
    requires Indexable(Add(s[0], d))
    ensures AllIndexable(Shift(s, d))
    ensures Targets(Shift(s, d)) == [Norm(Add(s[0], d))] + s[..|s| - 1]
  {
    AlongStepShift(s, d);
    OnGridMembers(s);
    var t := Shift(s, d);
    var want := [Norm(Add(s[0], d))] + s[..|s| - 1];
    forall j | 0 <= j < |t| ensures Norm(t[j]) == want[j] {
      if j >= 1 {
        assert OnGrid(s[j - 1]);
      }
    }
    TargetsPointwise(t, want);
  }

  /** A straight chain moved against its back step: each member but the last lands on its successor. */
  lemma AgainstStepShift(s: seq<Vec>, d: Vec)
    requires Straight(s) && AllOnGrid(s) && d == Sub(s[0], s[1])
    requires Indexable(Add(s[|s| - 1], Neg(d)))
    ensures AllIndexable(Shift(s, Neg(d)))
    ensures forall j :: 0 <= j < |s| - 1 ==> Shift(s, Neg(d))[j] == s[j + 1]
  {
    var t := Shift(s, Neg(d));
    StraightSteps(s);
    forall j | 0 <= j < |s| - 1 ensures t[j] == s[j + 1] && Indexable(t[j]) {
      BackOnto(s[j], s[j + 1], d);
      assert s[j + 1] in s;
    }
    IndexablePointwise(t);
  }

  /** Stepping against the vector from `b` to `a` leads from `a` back to `b`. */
  lemma BackOnto(a: Vec, b: Vec, d: Vec)
    requires Sub(a, b) == d
    ensures Add(a, Neg(d)) == b
  {
  }

  /** Every member of a sequence can be indexed when each position can. */
  lemma IndexablePointwise(ps: seq<Vec>)
    requires forall j :: 0 <= j < |ps| ==> Indexable(ps[j])
    ensures AllIndexable(ps)
  {
    forall p | p in ps ensures Indexable(p) {
      var j :| 0 <= j < |ps| && ps[j] == p;
    }
  }

  /** Moving a straight chain against its back step: the front is the last member. */
  lemma TargetsAgainstStep(s: seq<Vec>, d: Vec)
    requires Straight(s) && AllOnGrid(s) && d == Sub(s[0], s[1])
    requires Indexable(Add(s[|s| - 1], Neg(d)))
    ensures AllIndexable(Shift(s, Neg(d)))
    ensures Targets(Shift(s, Neg(d))) == s[1..] + [Norm(Add(s[|s| - 1], Neg(d)))]
  {
    AgainstStepShift(s, d);
    OnGridMembers(s);
    var t := Shift(s, Neg(d));
    var want := s[1..] + [Norm(Add(s[|s| - 1], Neg(d)))];
    forall j | 0 <= j < |t| ensures Norm(t[j]) == want[j] {
      if j < |s| - 1 {
        assert OnGrid(s[j + 1]);
      }
    }
    TargetsPointwise(t, want);
  }

  /** `Targets` is determined cell by cell. */
  lemma TargetsPointwise(ps: seq<Vec>, want: seq<Vec>)
    requires AllIndexable(ps) && |ps| == |want|
    requires forall j :: 0 <= j < |ps| ==> Norm(ps[j]) == want[j]
    ensures Targets(ps) == want
  {
  }

  /**
   * The grid after a push of a straight chain of `c` marbles: it differs from
   * the old grid at the tail (now empty) and at the cell `f` in front (now `c`,
   * where an opposing marble stood), so the opponent loses one marble and the
   * mover none.
   */
  lemma TwoCellCounts(g: Grid, h: Grid, c: Cell, tail: Vec, f: Vec)
    requires IsGrid(g) && IsGrid(h) && IsColor(c) && OnGrid(tail) && OnGrid(f)
    requires At(g, tail) == c && At(g, f) == Other(c)
    requires At(h, tail) == E && At(h, f) == c
    requires forall q :: OnGrid(q) && q != tail && q != f ==> At(h, q) == At(g, q)
    ensures Count(h, c) == Count(g, c)
    ensures Count(h, Other(c)) == Count(g, Other(c)) - 1
  {
    var g1 := Write(g, tail, E);
    CountChange(g, g1, c, tail);
    CountChange(g, g1, Other(c), tail);
    CountChange(g1, h, c, f);
    CountChange(g1, h, Other(c), f);
  }

  /**
   * `updateBoard` on a move whose new cells are the old ones minus `tail`
   * plus `f`, where an opposing marble stands.
   */
  lemma TwoCellMove(g: Grid, before: seq<Vec>, after: seq<Vec>, c: Cell, tail: Vec, f: Vec)
    requires IsGrid(g) && 1 <= |before| && AllIndexable(before) && AllIndexable(after) && IsColor(c)
    requires OnGrid(tail) && OnGrid(f)
    requires Read(g, before[0]) == Some(c)
    requires At(g, tail) == c && At(g, f) == Other(c)
    requires tail in Targets(before)
    requires forall q :: q in Targets(before) ==> OnGrid(q) && At(g, q) == c
    requires forall q :: q in Targets(after) <==> q == f || (q in Targets(before) && q != tail)
    ensures Count(ApplyMove(g, before, after), c) == Count(g, c)
    ensures Count(ApplyMove(g, before, after), Other(c)) == Count(g, Other(c)) - 1
  {
    var h := ApplyMove(g, before, after);
    TwoCellCounts(g, h, c, tail, f);
  }

  /** A push along the chain's back step `d`: the tail is the last sorted member. */
  lemma PushAlongStep(g: Grid, s: seq<Vec>, d: Vec, c: Cell)
    requires IsGrid(g) && Straight(s) && AllOnGrid(s) && d == Sub(s[0], s[1]) && BackStep(d) && IsColor(c)
    requires forall p :: p in s ==> At(g, p) == c
    requires Indexable(Add(s[0], d)) && At(g, Norm(Add(s[0], d))) == Other(c)
    ensures AllIndexable(s) && AllIndexable(Shift(s, d))
    ensures Count(ApplyMove(g, s, Shift(s, d)), c) == Count(g, c)
    ensures Count(ApplyMove(g, s, Shift(s, d)), Other(c)) == Count(g, Other(c)) - 1
  {
    TargetsAlongStep(s, d);
    OnGridMembers(s);
    MembersButLast(s);
    StraightEnds(s);
    var tail := s[|s| - 1];
    assert s[0] in s && tail in s;
    TwoCellMove(g, s, Shift(s, d), c, tail, Norm(Add(s[0], d)));
  }

  /** A push against the chain's back step: the tail is the first sorted member. */
  lemma PushAgainstStep(g: Grid, s: seq<Vec>, d: Vec, c: Cell)
    requires IsGrid(g) && Straight(s) && AllOnGrid(s) && d == Sub(s[0], s[1]) && BackStep(d) && IsColor(c)
    requires forall p :: p in s ==> At(g, p) == c
    requires Indexable(Add(s[|s| - 1], Neg(d))) && At(g, Norm(Add(s[|s| - 1], Neg(d)))) == Other(c)
    ensures AllIndexable(s) && AllIndexable(Shift(s, Neg(d)))
    ensures Count(ApplyMove(g, s, Shift(s, Neg(d))), c) == Count(g, c)
    ensures Count(ApplyMove(g, s, Shift(s, Neg(d))), Other(c)) == Count(g, Other(c)) - 1
  {
    TargetsAgainstStep(s, d);
    OnGridMembers(s);
    MembersButFirst(s);
    StraightEnds(s);
    assert s[0] in s && s[|s| - 1] in s;
    TwoCellMove(g, s, Shift(s, Neg(d)), c, s[0], Norm(Add(s[|s| - 1], Neg(d))));
  }

  /** What an accepted line push on a sorted straight chain tells about the chain and the cell in front. */
  lemma LinePushFacts(g: Grid, s: seq<Vec>, name: string, c: Cell)
    requires IsGrid(g) && AllOnGrid(s) && Sorted(s) && Straight(s) && IsColor(c) && name in Moves
    requires forall p :: p in s ==> At(g, p) == c
    requires LineOutcome(g, s, name).Pushed?
    ensures LineOutcome(g, s, name).before == s
    ensures LineOutcome(g, s, name).after == Shift(s, Moves[name])
    ensures BackStep(Sub(s[0], s[1]))
    ensures Moves[name] == Sub(s[0], s[1]) || Moves[name] == Neg(Sub(s[0], s[1]))
    ensures Indexable(Add(FrontOf(s, Moves[name]), Moves[name]))
    ensures At(g, Norm(Add(FrontOf(s, Moves[name]), Moves[name]))) == Other(c)
  {
    SortSorted(s);
    ChainOutcome(s);
    StraightSteps(s);
    var d := Sub(s[0], s[1]);
    assert Sub(s[|s| - 2], s[|s| - 1]) == d;
    assert Chain(s) == Along(d);
    assert Aligned(Moves[name], d);
    AlignedEitherWay(Moves[name], d);
    StepBetweenSorted(s[0], s[1]);
    LinePushTarget(g, s, name, c);
  }

  /** Alignment, read from the move's side: the move is the chain's vector or its negation. */
  lemma AlignedEitherWay(v: Vec, d: Vec)
    requires Aligned(v, d)
    ensures v == d || v == Neg(d)
  {
  }

  /** The front of a pushing line can step along the move, onto an opponent marble. */
  lemma LinePushTarget(g: Grid, s: seq<Vec>, name: string, c: Cell)
    requires IsGrid(g) && AllOnGrid(s) && Sorted(s) && 1 <= |s| && IsColor(c) && name in Moves
    requires forall p :: p in s ==> At(g, p) == c
    requires LineOutcome(g, s, name).Pushed?
    ensures Indexable(Add(FrontOf(s, Moves[name]), Moves[name]))
    ensures At(g, Norm(Add(FrontOf(s, Moves[name]), Moves[name]))) == Other(c)
  {
    SortSorted(s);
    var front := FrontOf(s, Moves[name]);
    assert front in s;
    PushedNeighbour(g, front, Moves[name], c);
  }

  /** The cell a push runs into holds the opponent's colour. */
  lemma PushedNeighbour(g: Grid, front: Vec, v: Vec, c: Cell)
    requires IsGrid(g) && OnGrid(front) && IsColor(c) && At(g, front) == c
    requires
      var next := Read(g, Add(front, v));
      next.Some? && next != Some(X) && next != Some(E) && next != Read(g, front)
    ensures At(g, Norm(Add(front, v))) == Other(c)
  {
    assert Norm(front) == front;
  }

  /** The push of a straight sorted chain of `c` marbles, on the grid it was decided on. */
  lemma PushCount(g: Grid, s: seq<Vec>, name: string, c: Cell)
    requires IsGrid(g) && AllOnGrid(s) && Sorted(s) && Straight(s) && IsColor(c) && name in Moves
    requires forall p :: p in s ==> At(g, p) == c
    requires LineOutcome(g, s, name).Pushed?
    ensures LineOutcome(g, s, name).before == s
    ensures AllIndexable(s) && AllIndexable(LineOutcome(g, s, name).after)
    ensures Count(ApplyMove(g, s, LineOutcome(g, s, name).after), c) == Count(g, c)
    ensures Count(ApplyMove(g, s, LineOutcome(g, s, name).after), Other(c)) == Count(g, Other(c)) - 1
  {
    LinePushFacts(g, s, name, c);
    var d := Sub(s[0], s[1]);
    StraightFront(s, name, d);
    if Moves[name] == d {
      PushAlongStep(g, s, d, c);
    } else {
      PushAgainstStep(g, s, d, c);
    }
  }

  /** A push `action` accepts is the line move on the sorted group, by a player whose marbles these are. */
  lemma DecidedPush(g: Grid, cells: seq<Vec>, name: string, c: Cell)
    requires IsGrid(g) && AllOnGrid(cells) && 1 <= |cells|
    requires Decide(g, cells, name, c).Some? && Decide(g, cells, name, c).value.Pushed?
    ensures name in Moves && ColorCheck(g, cells, c) == AllColored
    ensures AllOnGrid(SortCells(cells))
    ensures Decide(g, cells, name, c).value == LineOutcome(g, SortCells(cells), name)
  {
    var s := SortCells(cells);
    assert AllOnGrid(s) by {
      forall p | p in s ensures OnGrid(p) { assert p in multiset(cells); }
    }
  }

  /**
   * A push takes exactly one marble: when `action(..., update=True)` pushes
   * with a straight chain, the opponent has exactly one marble fewer and the
   * mover as many as before.
   */
  lemma PushCounts(g: Grid, cells: seq<Vec>, name: string, c: Cell)
    requires IsGrid(g) && AllOnGrid(cells) && 1 <= |cells| && IsColor(c)
    requires Straight(SortCells(cells))
    requires Decide(g, cells, name, c).Some? && Decide(g, cells, name, c).value.Pushed?
    ensures Count(Applied(g, cells, name, c), c) == Count(g, c)
    ensures Count(Applied(g, cells, name, c), Other(c)) == Count(g, Other(c)) - 1
  {
    DecidedPush(g, cells, name, c);
    var s := SortCells(cells);
    ColorFromMeaning(g, cells, c, 0);
    forall p | p in s ensures At(g, p) == c {
      assert p in multiset(cells);
      var k :| 0 <= k < |cells| && cells[k] == p;
    }
    PushCount(g, s, name, c);
  }
}
