/** The grid of step buttons: one sequence of `isActive` flags per instrument row. */
module Grid {

  type Cells = seq<seq<bool>>

  /** `(r, s)` names an existing button: row `r`, step `s`. */
  predicate InRange(g: Cells, r: int, s: int)
  {
    0 <= r < |g| && 0 <= s < |g[r]|
  }

  /** Same number of rows, and the same number of buttons in each row. */
  predicate SameShape(a: Cells, b: Cells)
  {
    |a| == |b| && forall r :: 0 <= r < |a| ==> |a[r]| == |b[r]|
  }

  /** Every row has a button at step `col`. */
  predicate HasColumn(g: Cells, col: nat)
  {
    forall r :: 0 <= r < |g| ==> col < |g[r]|
  }

  /** A click on button `(r, s)`: its handler negates that button's `isActive`. */
  function Toggle(g: Cells, r: nat, s: nat): (g': Cells)
    requires InRange(g, r, s)
    ensures SameShape(g, g')
    ensures g'[r][s] == !g[r][s]
    ensures forall i, j :: InRange(g, i, j) && (i != r || j != s) ==> g'[i][j] == g[i][j]
  {
    g[r := g[r][s := !g[r][s]]]
  }

  /** Two grids of the same shape that agree on every button are equal. */
  lemma SameGrid(a: Cells, b: Cells)
    requires SameShape(a, b)
    requires forall r, s :: InRange(a, r, s) ==> a[r][s] == b[r][s]
    ensures a == b
  {
    forall r | 0 <= r < |a| ensures a[r] == b[r] {
      assert forall s :: 0 <= s < |a[r]| ==> a[r][s] == b[r][s];
    }
  }

  /** Clicking the same button twice gives back the grid one started from. */
  lemma ToggleTwice(g: Cells, r: nat, s: nat)
    requires InRange(g, r, s)
    ensures Toggle(Toggle(g, r, s), r, s) == g
  {
    SameGrid(Toggle(Toggle(g, r, s), r, s), g);
  }

  /** Clicks on any two buttons commute. */
  lemma ToggleCommutes(g: Cells, r1: nat, s1: nat, r2: nat, s2: nat)
    requires InRange(g, r1, s1) && InRange(g, r2, s2)
    ensures Toggle(Toggle(g, r1, s1), r2, s2) == Toggle(Toggle(g, r2, s2), r1, s1)
  {
    SameGrid(Toggle(Toggle(g, r1, s1), r2, s2), Toggle(Toggle(g, r2, s2), r1, s1));
  }
}
