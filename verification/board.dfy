/** The 15x15 Gomoku grid with its validity and five-in-a-row primitives
    (the board half of `GomokuAI` in source/AI.py). */
module Board {

  /** Side length of the board. */
  const N: int := 15

  /** A cell holds 0 (empty), 1 (the engine) or -1 (the human). */
  predicate IsState(v: int)
  {
    v == -1 || v == 0 || v == 1
  }

  type Grid = seq<seq<int>>

  /** A board position `(row, column)`. */
  type Pos = (int, int)

  /** The frontier ("bound"): candidate cells with a heuristic score. */
  type Bound = map<Pos, int>

  /** `bound.get(p, 0)` */
  function Get(bound: Bound, p: Pos): int
  {
    if p in bound then bound[p] else 0
  }

  predicate InBoard(i: int, j: int)
  {
    0 <= i < N && 0 <= j < N
  }

  predicate WellFormed(g: Grid)
  {
    && |g| == N
    && (forall i :: 0 <= i < N ==> |g[i]| == N)
    && (forall i, j :: 0 <= i < N && 0 <= j < N ==> IsState(g[i][j]))
  }

  /** The cell `(i, j)` is on the board and holds `s`. */
  predicate Holds(g: Grid, i: int, j: int, s: int)
    requires WellFormed(g)
  {
    InBoard(i, j) && g[i][j] == s
  }

  /** The empty 15x15 board the engine starts from. */
  function EmptyGrid(): (g: Grid)
    ensures WellFormed(g)
    ensures forall i, j :: InBoard(i, j) ==> g[i][j] == 0
  {
    seq(N, i => seq(N, j => 0))
  }

  /** `isValid(i, j, state)`: inside the board, and empty when `checkEmpty`. */
  function IsValid(g: Grid, i: int, j: int, checkEmpty: bool): (r: bool)
    requires WellFormed(g)
    ensures !InBoard(i, j) ==> !r
    ensures InBoard(i, j) && !checkEmpty ==> r
    ensures InBoard(i, j) && checkEmpty ==> (r <==> g[i][j] == 0)
  {
    if i < 0 || i >= N || j < 0 || j >= N then false
    else if checkEmpty then
      if g[i][j] != 0 then false else true
    else true
  }

  /** `isPositionEmpty(i, j)` */
  function IsPositionEmpty(g: Grid, i: int, j: int): bool
    requires WellFormed(g)
  {
    0 <= i < N && 0 <= j < N && g[i][j] == 0
  }

  /** The two emptiness tests of the source agree. */
  lemma ValidIsPositionEmpty(g: Grid, i: int, j: int)
    requires WellFormed(g)
    ensures IsValid(g, i, j, true) == IsPositionEmpty(g, i, j)
    ensures IsValid(g, i, j, true) == Holds(g, i, j, 0)
  {
  }

  /** The in-place write `boardMap[i][j] = v`: exactly one cell changes. */
  function SetCell(g: Grid, i: int, j: int, v: int): (r: Grid)
    requires WellFormed(g) && InBoard(i, j) && IsState(v)
    ensures WellFormed(r)
    ensures r[i][j] == v
    ensures forall a, b :: InBoard(a, b) && (a, b) != (i, j) ==> r[a][b] == g[a][b]
  {
    g[i := g[i][j := v]]
  }

  /** Writing back the value a cell held restores the board. */
  lemma SetCellRestore(g: Grid, i: int, j: int, v: int)
    requires WellFormed(g) && InBoard(i, j) && IsState(v)
    ensures SetCell(SetCell(g, i, j, v), i, j, g[i][j]) == g
  {
    var r := SetCell(SetCell(g, i, j, v), i, j, g[i][j]);
    assert forall a :: 0 <= a < N ==> r[a] == g[a];
  }

  /** Writing the value a cell already holds changes nothing. */
  lemma SetCellSame(g: Grid, i: int, j: int)
    requires WellFormed(g) && InBoard(i, j)
    ensures SetCell(g, i, j, g[i][j]) == g
  {
    assert g[i][j := g[i][j]] == g[i];
  }

  /** A second write to the same cell overrides the first. */
  lemma SetCellTwice(g: Grid, i: int, j: int, v: int, w: int)
    requires WellFormed(g) && InBoard(i, j) && IsState(v) && IsState(w)
    ensures SetCell(SetCell(g, i, j, v), i, j, w) == SetCell(g, i, j, w)
  {
    var r := SetCell(SetCell(g, i, j, v), i, j, w);
    assert forall a :: 0 <= a < N ==> r[a] == SetCell(g, i, j, w)[a];
  }

  // ----- five in a row -----

  /** The cell `k` steps from `(i, j)` in direction `(xdir, ydir)` (x moves the
      column, y moves the row) is on the board and holds `s`. */
  predicate RunCell(g: Grid, i: int, j: int, xdir: int, ydir: int, s: int, k: int)
    requires WellFormed(g)
  {
    Holds(g, i + ydir * k, j + xdir * k, s)
  }

  /** The loop of `countDirection` from `step` on. */
  function CountFrom(g: Grid, i: int, j: int, xdir: int, ydir: int, s: int, step: int): (r: int)
    requires WellFormed(g) && InBoard(i, j) && 1 <= step <= 5
    ensures 0 <= r <= 5 - step
    ensures forall k :: step <= k < step + r ==> RunCell(g, i, j, xdir, ydir, s, k)
    ensures step + r < 5 ==> !RunCell(g, i, j, xdir, ydir, s, step + r)
    decreases 5 - step
  {
    if step == 5 then 0
    else if xdir != 0 && (j + xdir * step < 0 || j + xdir * step >= N) then 0
    else if ydir != 0 && (i + ydir * step < 0 || i + ydir * step >= N) then 0
    else if g[i + ydir * step][j + xdir * step] == s then
      1 + CountFrom(g, i, j, xdir, ydir, s, step + 1)
    else 0
  }

  /** `countDirection`: the length of the run of `s` cells that starts one step
      away from `(i, j)`, stopped by the edge, the first other cell, or 4 steps. */
  function CountDirection(g: Grid, i: int, j: int, xdir: int, ydir: int, s: int): (r: int)
    requires WellFormed(g) && InBoard(i, j)
    ensures 0 <= r <= 4
    ensures forall k :: 1 <= k <= r ==> RunCell(g, i, j, xdir, ydir, s, k)
    ensures r < 4 ==> !RunCell(g, i, j, xdir, ydir, s, r + 1)
  {
    CountFrom(g, i, j, xdir, ydir, s, 1)
  }

  /** The four axes of `isFive`, each as its pair of opposite directions
      `(xdir, ydir)`: horizontal, vertical and the two diagonals. */
  const Axes: seq<((int, int), (int, int))> :=
    [((-1, 0), (1, 0)), ((0, -1), (0, 1)), ((-1, 1), (1, -1)), ((-1, -1), (1, 1))]

  /** The loop of `isFive` over the axes from `a` on. */
  function IsFiveFrom(g: Grid, i: int, j: int, s: int, a: nat): bool
    requires WellFormed(g) && InBoard(i, j) && a <= 4
    decreases 4 - a
  {
    if a == 4 then false
    else
      var (d1, d2) := Axes[a];
      var c1 := 1 + CountDirection(g, i, j, d1.0, d1.1, s);
      if c1 >= 5 then true
      else if c1 + CountDirection(g, i, j, d2.0, d2.1, s) >= 5 then true
      else IsFiveFrom(g, i, j, s, a + 1)
  }

  /** `isFive(i, j, state)` */
  function IsFive(g: Grid, i: int, j: int, s: int): bool
    requires WellFormed(g) && InBoard(i, j)
  {
    IsFiveFrom(g, i, j, s, 0)
  }

  /** Five consecutive cells along direction `(dx, dy)`, at offsets `o .. o+4`
      from `(i, j)`, all hold `s` apart from `(i, j)` itself, which `isFive`
      counts without looking at it. */
  ghost predicate LineThrough(g: Grid, i: int, j: int, dx: int, dy: int, s: int, o: int)
    requires WellFormed(g)
  {
    forall t :: o <= t <= o + 4 && t != 0 ==> Holds(g, i + dy * t, j + dx * t, s)
  }

  /** Some window of five along direction `(dx, dy)` contains `(i, j)`. */
  ghost predicate FiveOnAxis(g: Grid, i: int, j: int, dx: int, dy: int, s: int)
    requires WellFormed(g)
  {
    exists o :: -4 <= o <= 0 && LineThrough(g, i, j, dx, dy, s, o)
  }

  lemma CountAtLeast(g: Grid, i: int, j: int, xdir: int, ydir: int, s: int, m: int)
    requires WellFormed(g) && InBoard(i, j) && 0 <= m <= 4
    requires forall k :: 1 <= k <= m ==> RunCell(g, i, j, xdir, ydir, s, k)
    ensures CountDirection(g, i, j, xdir, ydir, s) >= m
  {
  }

  /** Stepping `k` cells along the reversed direction is stepping `-k` cells
      along the direction itself. */
  lemma Reverse(g: Grid, i: int, j: int, dx: int, dy: int, s: int, k: int)
    requires WellFormed(g)
    ensures RunCell(g, i, j, -dx, -dy, s, k) == Holds(g, i + dy * (-k), j + dx * (-k), s)
  {
    assert (-dy) * k == dy * (-k) && (-dx) * k == dx * (-k);
  }

  /** A five-cell window through `(i, j)` makes both runs long enough. */
  lemma AxisCountFromLine(g: Grid, i: int, j: int, dx: int, dy: int, s: int, o: int)
    requires WellFormed(g) && InBoard(i, j) && -4 <= o <= 0
    requires LineThrough(g, i, j, dx, dy, s, o)
    ensures 1 + CountDirection(g, i, j, -dx, -dy, s) + CountDirection(g, i, j, dx, dy, s) >= 5
  {
    var rx, ry := -dx, -dy;
    forall k | 1 <= k <= -o
      ensures RunCell(g, i, j, rx, ry, s, k)
    {
      Reverse(g, i, j, dx, dy, s, k);
    }
    CountAtLeast(g, i, j, -dx, -dy, s, -o);
    forall k | 1 <= k <= o + 4
      ensures RunCell(g, i, j, dx, dy, s, k)
    {
    }
    CountAtLeast(g, i, j, dx, dy, s, o + 4);
  }

  /** Long enough runs give a five-cell window through `(i, j)`. */
  lemma AxisLineFromCount(g: Grid, i: int, j: int, dx: int, dy: int, s: int)
    requires WellFormed(g) && InBoard(i, j)
    requires 1 + CountDirection(g, i, j, -dx, -dy, s) + CountDirection(g, i, j, dx, dy, s) >= 5
    ensures LineThrough(g, i, j, dx, dy, s, -CountDirection(g, i, j, -dx, -dy, s))
  {
    var cb := CountDirection(g, i, j, -dx, -dy, s);
    var cf := CountDirection(g, i, j, dx, dy, s);
    forall t | -cb <= t <= -cb + 4 && t != 0
      ensures Holds(g, i + dy * t, j + dx * t, s)
    {
      if t < 0 {
        assert RunCell(g, i, j, -dx, -dy, s, -t);
        Reverse(g, i, j, dx, dy, s, -t);
      } else {
        assert RunCell(g, i, j, dx, dy, s, t);
      }
    }
  }

  /** One axis: the backward and forward runs reach five exactly when a
      five-cell window on that axis passes through `(i, j)`. */
  lemma AxisCount(g: Grid, i: int, j: int, dx: int, dy: int, s: int)
    requires WellFormed(g) && InBoard(i, j)
    ensures 1 + CountDirection(g, i, j, -dx, -dy, s) + CountDirection(g, i, j, dx, dy, s) >= 5
            <==> FiveOnAxis(g, i, j, dx, dy, s)
  {
    if 1 + CountDirection(g, i, j, -dx, -dy, s) + CountDirection(g, i, j, dx, dy, s) >= 5 {
      AxisLineFromCount(g, i, j, dx, dy, s);
    }
    if FiveOnAxis(g, i, j, dx, dy, s) {
      var o :| -4 <= o <= 0 && LineThrough(g, i, j, dx, dy, s, o);
      AxisCountFromLine(g, i, j, dx, dy, s, o);
    }
  }

  /** Some axis from `a` on carries a five-cell window through `(i, j)`. */
  ghost predicate FiveFrom(g: Grid, i: int, j: int, s: int, a: nat)
    requires WellFormed(g) && a <= 4
  {
    exists b :: a <= b < 4 && FiveOnAxis(g, i, j, Axes[b].1.0, Axes[b].1.1, s)
  }

  lemma {:induction false} IsFiveFromIff(g: Grid, i: int, j: int, s: int, a: nat)
    requires WellFormed(g) && InBoard(i, j) && a <= 4
    ensures IsFiveFrom(g, i, j, s, a) <==> FiveFrom(g, i, j, s, a)
    decreases 4 - a
  {
    if a < 4 {
      var (d1, d2) := Axes[a];
      assert d1 == (-d2.0, -d2.1);
      AxisCount(g, i, j, d2.0, d2.1, s);
      IsFiveFromIff(g, i, j, s, a + 1);
      FiveFromSplit(g, i, j, s, a);
    }
  }

  /** The axes from `a` on: axis `a` or the axes after it. */
  lemma FiveFromSplit(g: Grid, i: int, j: int, s: int, a: nat)
    requires WellFormed(g) && a < 4
    ensures FiveFrom(g, i, j, s, a) <==> FiveOnAxis(g, i, j, Axes[a].1.0, Axes[a].1.1, s) || FiveFrom(g, i, j, s, a + 1)
  {
    if FiveFrom(g, i, j, s, a) {
      var b :| a <= b < 4 && FiveOnAxis(g, i, j, Axes[b].1.0, Axes[b].1.1, s);
      if b > a {
        assert FiveFrom(g, i, j, s, a + 1);
      }
    }
    if FiveFrom(g, i, j, s, a + 1) {
      var b :| a + 1 <= b < 4 && FiveOnAxis(g, i, j, Axes[b].1.0, Axes[b].1.1, s);
      assert FiveFrom(g, i, j, s, a);
    }
  }

  /** On one of the four axes, five consecutive cells including `(i, j)`
      all hold `s`, the cell `(i, j)` itself excepted. */
  ghost predicate FiveThrough(g: Grid, i: int, j: int, s: int)
    requires WellFormed(g)
  {
    exists b :: 0 <= b < 4 && FiveOnAxis(g, i, j, Axes[b].1.0, Axes[b].1.1, s)
  }

  /** `isFive` holds exactly when a five-cell line passes through `(i, j)`
      (the cell `(i, j)` itself is counted without being read). */
  lemma IsFiveIff(g: Grid, i: int, j: int, s: int)
    requires WellFormed(g) && InBoard(i, j)
    ensures IsFive(g, i, j, s) <==> FiveThrough(g, i, j, s)
  {
    IsFiveFromIff(g, i, j, s, 0);
  }
}
