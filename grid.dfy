/**
 * The 9x9 grid of an Abalone position and the way the engine reads and
 * writes it. The engine keeps the grid as nested Python lists, so a read
 * `board[r][c]` accepts any index in -9..8 (a negative index counts from the
 * end of the row list) and raises for anything else.
 */
module Grid {

  /** Contents of one grid cell: a white or black marble, empty, or off the hexagon. */
  datatype Cell = W | B | E | X

  /** A row/column pair; used both for cells and for direction vectors. */
  datatype Vec = Vec(r: int, c: int)

  datatype Option<T> = None | Some(value: T)

  type Grid = seq<seq<Cell>>

  const Size: nat := 9

  predicate IsGrid(g: Grid)
  {
    |g| == Size && forall i :: 0 <= i < |g| ==> |g[i]| == Size
  }

  function Add(a: Vec, b: Vec): Vec
  {
    Vec(a.r + b.r, a.c + b.c)
  }

  function Sub(a: Vec, b: Vec): Vec
  {
    Vec(a.r - b.r, a.c - b.c)
  }

  function Neg(a: Vec): Vec
  {
    Vec(-a.r, -a.c)
  }

  function Scale(k: int, a: Vec): Vec
  {
    Vec(k * a.r, k * a.c)
  }

  /** A cell of the 9x9 grid proper. */
  predicate OnGrid(p: Vec)
  {
    0 <= p.r < Size && 0 <= p.c < Size
  }

  /** An index pair that Python list indexing accepts on a 9x9 grid. */
  predicate Indexable(p: Vec)
  {
    -(Size as int) <= p.r < Size && -(Size as int) <= p.c < Size
  }

  /** Python list indexing into a list of length 9: None when the index raises. */
  function PyIndex(i: int): (k: Option<nat>)
    ensures k.Some? <==> -9 <= i < 9
    ensures k.Some? ==> k.value < 9 && (k.value == i || k.value == i + 9)
  {
    if 0 <= i < 9 then Some(i) else if -9 <= i < 0 then Some(i + 9) else None
  }

  /** The on-grid cell that an indexable pair denotes. */
  function Norm(p: Vec): (q: Vec)
    requires Indexable(p)
    ensures OnGrid(q)
    ensures OnGrid(p) ==> q == p
  {
    Vec(PyIndex(p.r).value, PyIndex(p.c).value)
  }

  /** The cell at an on-grid position. */
  function At(g: Grid, p: Vec): Cell
    requires IsGrid(g) && OnGrid(p)
  {
    g[p.r][p.c]
  }

  /** `board[p[0]][p[1]]`: the cell read, or None where Python raises IndexError. */
  function Read(g: Grid, p: Vec): (v: Option<Cell>)
    requires IsGrid(g)
    ensures v.Some? <==> Indexable(p)
    ensures v.Some? ==> v.value == At(g, Norm(p))
  {
    match PyIndex(p.r)
    case None => None
    case Some(i) =>
      match PyIndex(p.c)
      case None => None
      case Some(j) => Some(g[i][j])
  }

  /** `board[p[0]][p[1]] = v` on an indexable pair. */
  function Write(g: Grid, p: Vec, v: Cell): (h: Grid)
    requires IsGrid(g) && Indexable(p)
    ensures IsGrid(h)
    ensures forall q :: OnGrid(q) ==> At(h, q) == if q == Norm(p) then v else At(g, q)
  {
    var q := Norm(p);
    g[q.r := g[q.r][q.c := v]]
  }

  /** `[list(i) for i in tup]`: a row-by-row copy of the position. */
  function TupToList(tup: seq<seq<Cell>>): (g: Grid)
    ensures |g| == |tup| && forall i :: 0 <= i < |tup| ==> g[i] == tup[i]
  {
    if tup == [] then [] else [tup[0]] + TupToList(tup[1..])
  }

  /** Number of cells holding `v` in `row[j..]`. */
  function RowCount(row: seq<Cell>, v: Cell, j: nat): (n: nat)
    requires j <= |row|
    ensures n <= |row| - j
    decreases |row| - j
  {
    if j == |row| then 0 else (if row[j] == v then 1 else 0) + RowCount(row, v, j + 1)
  }

  /** Number of cells holding `v` in rows `g[i..]`. */
  function CountFrom(g: Grid, v: Cell, i: nat): nat
    requires i <= |g|
    decreases |g| - i
  {
    if i == |g| then 0 else RowCount(g[i], v, 0) + CountFrom(g, v, i + 1)
  }

  /** Number of cells of the grid holding `v`. */
  function Count(g: Grid, v: Cell): nat
  {
    CountFrom(g, v, 0)
  }
}
