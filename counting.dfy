/**
 * How the number of cells holding a value changes when grid cells change:
 * the basis of the marble-count facts about pushes and broadside moves.
 */
module Counting {
  import opened Grid

  /** Two rows of the same length that agree everywhere except possibly at index `k`. */
  lemma {:induction false} RowCountChange(a: seq<Cell>, b: seq<Cell>, x: Cell, k: nat, j: nat)
    requires |a| == |b| && k < |a| && j <= |a|
    requires forall i :: 0 <= i < |a| && i != k ==> a[i] == b[i]
    ensures RowCount(b, x, j) + (if j <= k && a[k] == x then 1 else 0)
         == RowCount(a, x, j) + (if j <= k && b[k] == x then 1 else 0)
    decreases |a| - j
  {
    if j < |a| {
      RowCountChange(a, b, x, k, j + 1);
    }
  }

  /** Rows of the same length with the same cells hold the same counts. */
  lemma {:induction false} RowCountSame(a: seq<Cell>, b: seq<Cell>, x: Cell, j: nat)
    requires |a| == |b| && j <= |a|
    requires forall i :: 0 <= i < |a| ==> a[i] == b[i]
    ensures RowCount(b, x, j) == RowCount(a, x, j)
    decreases |a| - j
  {
    if j < |a| {
      RowCountSame(a, b, x, j + 1);
    }
  }

  lemma {:induction false} CountFromChange(g: Grid, h: Grid, x: Cell, p: Vec, i: nat)
    requires IsGrid(g) && IsGrid(h) && OnGrid(p) && i <= |g|
    requires forall q :: OnGrid(q) && q != p ==> At(h, q) == At(g, q)
    ensures CountFrom(h, x, i) + (if i <= p.r && At(g, p) == x then 1 else 0)
         == CountFrom(g, x, i) + (if i <= p.r && At(h, p) == x then 1 else 0)
    decreases |g| - i
  {
    if i < |g| {
      CountFromChange(g, h, x, p, i + 1);
      if i == p.r {
        forall c | 0 <= c < Size && c != p.c ensures g[i][c] == h[i][c] {
          assert At(h, Vec(i, c)) == At(g, Vec(i, c));
        }
        RowCountChange(g[i], h[i], x, p.c, 0);
      } else {
        forall c | 0 <= c < Size ensures g[i][c] == h[i][c] {
          assert At(h, Vec(i, c)) == At(g, Vec(i, c));
        }
        RowCountSame(g[i], h[i], x, 0);
      }
    }
  }

  /**
   * Changing the single cell `p` changes the count of `x` by what left the
   * cell and what arrived there.
   */
  lemma CountChange(g: Grid, h: Grid, x: Cell, p: Vec)
    requires IsGrid(g) && IsGrid(h) && OnGrid(p)
    requires forall q :: OnGrid(q) && q != p ==> At(h, q) == At(g, q)
    ensures Count(h, x) + (if At(g, p) == x then 1 else 0) == Count(g, x) + (if At(h, p) == x then 1 else 0)
  {
    CountFromChange(g, h, x, p, 0);
  }

  /** Grids that agree on every cell are equal. */
  lemma GridExt(g: Grid, h: Grid)
    requires IsGrid(g) && IsGrid(h)
    requires forall q :: OnGrid(q) ==> At(h, q) == At(g, q)
    ensures g == h
  {
    forall i | 0 <= i < Size ensures g[i] == h[i] {
      forall c | 0 <= c < Size ensures g[i][c] == h[i][c] {
        assert At(h, Vec(i, c)) == At(g, Vec(i, c));
      }
    }
  }
}
