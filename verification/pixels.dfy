/** Converting between screen pixels and board cells (`pixel_conversion`,
    `pos_pixel2map` and `create_mapping` in source/utils.py). The float
    constants of the source are resolved to the integers they produce. */
module Pixels {

  /** Python's `range(start, stop, step)` for a positive step: the
      numbers `start + step * k` below `stop`, of which there are
      `ceil((stop - start) / step)`. */
  function Range(start: int, stop: int, step: int): (r: seq<int>)
    requires step > 0
  {
    var n := if start >= stop then 0 else (stop - start + step - 1) / step;
    seq(n, k => start + step * k)
  }

  predicate Ascending(s: seq<int>)
  {
    forall a, b :: 0 <= a < b < |s| ==> s[a] < s[b]
  }

  /** The index `pixel_conversion` settles on for `target`: 0 left of the
      first point, the last gap right of the last point, and otherwise the
      gap `[s[k], s[k + 1])` holding the target. */
  predicate Located(s: seq<int>, target: int, k: int)
    requires |s| >= 1
  {
    if target < s[0] then k == 0
    else if target >= s[|s| - 1] then k == |s| - 2
    else 0 <= k < |s| - 1 && s[k] <= target < s[k + 1]
  }

  /** On ascending points a target has one location. */
  lemma LocatedUnique(s: seq<int>, target: int, k: int, k': int)
    requires |s| >= 1 && Ascending(s)
    requires Located(s, target, k) && Located(s, target, k')
    ensures k == k'
  {
    if s[0] <= target < s[|s| - 1] {
      if k < k' {
        AscendingLe(s, k + 1, k');
      } else if k' < k {
        AscendingLe(s, k' + 1, k);
      }
    }
  }

  lemma AscendingLe(s: seq<int>, a: int, b: int)
    requires Ascending(s) && 0 <= a <= b < |s|
    ensures s[a] <= s[b]
  {
    if a < b {
      assert s[a] < s[b];
    }
  }

  /** `pixel_conversion(list_points, target)`: start in the middle and walk
      one point at a time towards the gap holding the target. */
  method PixelConversion(s: seq<int>, target: int) returns (index: int)
    requires |s| >= 1 && Ascending(s)
    ensures Located(s, target, index)
    ensures |s| >= 2 ==> 0 <= index <= |s| - 2
  {
    index := (|s| - 1) / 2;
    while true
      invariant 0 <= index < |s|
      decreases if s[index] > target then index else |s| - index
    {
      if target < s[0] {
        index := 0;
        break;
      } else if target >= s[|s| - 1] {
        index := |s| - 2;
        break;
      } else if s[index] > target {
        if s[index - 1] <= target {
          index := index - 1;
          break;
        } else {
          index := index - 1;
        }
      } else {
        if s[index + 1] > target {
          break;
        } else {
          index := index + 1;
        }
      }
    }
  }

  /** `list_points` of `pos_pixel2map`: the points 6, 41, ..., 531. */
  function Points(): (s: seq<int>)
    ensures |s| == 16
    ensures forall k :: 0 <= k < 16 ==> s[k] == 6 + 35 * k
    ensures Ascending(s)
  {
    seq(16, k => 6 + 35 * k)
  }

  /** The points are `range(6, 535, 35)`, where 6 is
      `int(MARGIN - GRID // 2)`, 534 is `int(SIZE - MARGIN + GRID // 2)`
      and 35 is `int(GRID)`. */
  lemma PointsRange()
    ensures Range(6, 535, 35) == Points()
  {
  }

  /** `pos_pixel2map(x, y)`: the row from `y` and the column from `x`,
      each the gap of the points that holds it, so both are cells of the
      board whatever the pixel. */
  method PosPixel2Map(x: int, y: int) returns (i: int, j: int)
    ensures 0 <= i < 15 && 0 <= j < 15
    ensures Located(Points(), y, i) && Located(Points(), x, j)
  {
    var points := Range(6, 535, 35);
    PointsRange();
    i := PixelConversion(points, y);
    j := PixelConversion(points, x);
  }

  /** `spacing` of `create_mapping`: the pixel centres 23, 58, ..., 513 of
      the 15 lines. */
  function Spacing(): (s: seq<int>)
    ensures |s| == 15
    ensures forall k :: 0 <= k < 15 ==> s[k] == 23 + 35 * k
  {
    seq(15, k => 23 + 35 * k)
  }

  /** The spacing is `range(MARGIN, SIZE - MARGIN + 1, int(GRID))`. */
  lemma SpacingRange()
    ensures Range(23, 518, 35) == Spacing()
  {
  }

  /** `create_mapping()`: cell `(i, j)` is drawn at pixel
      `(spacing[j], spacing[i])`. */
  function CreateMapping(): (m: map<(int, int), (int, int)>)
    ensures forall c: (int, int) :: c in m <==> 0 <= c.0 < 15 && 0 <= c.1 < 15
    ensures forall i, j :: 0 <= i < 15 && 0 <= j < 15 ==> m[(i, j)] == (23 + 35 * j, 23 + 35 * i)
  {
    var spacing := Range(23, 518, 35);
    SpacingRange();
    map c: (int, int) | c in Cells() :: (spacing[c.1], spacing[c.0])
  }

  /** The 225 cells, as `for i in range(N) for j in range(N)` visits them. */
  function Cells(): (cs: set<(int, int)>)
    ensures forall c: (int, int) :: c in cs <==> 0 <= c.0 < 15 && 0 <= c.1 < 15
  {
    var cs := set i, j | 0 <= i < 15 && 0 <= j < 15 :: (i, j);
    assert forall c: (int, int) :: 0 <= c.0 < 15 && 0 <= c.1 < 15 ==> c in cs by {
      forall c: (int, int) | 0 <= c.0 < 15 && 0 <= c.1 < 15 ensures c in cs { assert c == (c.0, c.1); }
    }
    cs
  }

  /** A line's centre pixel lies in that line's gap of the points. */
  lemma CentreLocated(k: int)
    requires 0 <= k < 15
    ensures Located(Points(), 23 + 35 * k, k)
  {
  }

  /** Clicking the centre of a cell gives back that cell: `pos_pixel2map`
      inverts `create_mapping`. */
  method PixelRoundTrip(i: int, j: int) returns (i': int, j': int)
    requires 0 <= i < 15 && 0 <= j < 15
    ensures (i', j') == (i, j)
  {
    var m := CreateMapping();
    var (x, y) := m[(i, j)];
    i', j' := PosPixel2Map(x, y);
    CentreLocated(i);
    CentreLocated(j);
    LocatedUnique(Points(), y, i, i');
    LocatedUnique(Points(), x, j, j');
  }
}
