/** The frontier ("bound") of the search: ranking candidate moves
    (`childNodes`) and growing the frontier after a move (`updateBound` and
    `_add_distant_human_moves` in source/AI.py). */
module Frontier {
  import opened Scores
  import opened Board

  // ----- enumerating the board -----

  /** Python's order on `(i, j)` tuples. */
  predicate LexLess(p: Pos, q: Pos)
  {
    p.0 < q.0 || (p.0 == q.0 && p.1 < q.1)
  }

  predicate StrictlyLex(s: seq<Pos>)
  {
    forall a, b :: 0 <= a < b < |s| ==> LexLess(s[a], s[b])
  }

  lemma LexAppend(a: seq<Pos>, b: seq<Pos>)
    requires StrictlyLex(a) && StrictlyLex(b)
    requires forall x, y :: x in a && y in b ==> LexLess(x, y)
    ensures StrictlyLex(a + b)
  {
    forall x, y | 0 <= x < y < |a + b| ensures LexLess((a + b)[x], (a + b)[y])
    {
      if x < |a| && y >= |a| {
        assert (a + b)[x] in a && (a + b)[y] == b[y - |a|];
      } else if x >= |a| {
        assert (a + b)[x] == b[x - |a|] && (a + b)[y] == b[y - |a|];
      }
    }
  }

  /** All cells, row by row (`for i in range(N) for j in range(N)`). */
  function AllCells(): (r: seq<Pos>)
    ensures forall p: Pos :: p in r <==> InBoard(p.0, p.1)
    ensures StrictlyLex(r)
    ensures |r| == N * N
  {
    var r := seq(N * N, k => (k / N, k % N));
    assert forall p: Pos :: InBoard(p.0, p.1) ==> p in r by {
      forall p: Pos | InBoard(p.0, p.1) ensures p in r { assert r[p.0 * N + p.1] == p; }
    }
    r
  }

  predicate NoDup(s: seq<Pos>)
  {
    forall a, b :: 0 <= a < b < |s| ==> s[a] != s[b]
  }

  lemma {:induction false} CardNoDup(s: seq<Pos>)
    requires NoDup(s)
    ensures |set p | p in s| == |s|
  {
    if |s| > 0 {
      var rest := s[1..];
      assert NoDup(rest) by {
        forall a, b | 0 <= a < b < |rest| ensures rest[a] != rest[b] { assert rest[a] == s[a + 1] && rest[b] == s[b + 1]; }
      }
      CardNoDup(rest);
      assert s[0] !in rest by {
        forall t | 0 <= t < |rest| ensures rest[t] != s[0] { assert rest[t] == s[t + 1]; }
      }
      assert (set p | p in s) == {s[0]} + (set p | p in rest) by {
        assert s == [s[0]] + rest;
      }
    }
  }

  // ----- ranking the frontier -----

  /** `p` sorts before `q` under the key `(-abs(score), pos)`: a larger
      absolute score first, ties by ascending position. */
  predicate Before(b: Bound, p: Pos, q: Pos)
  {
    Abs(Get(b, p)) > Abs(Get(b, q)) || (Abs(Get(b, p)) == Abs(Get(b, q)) && LexLess(p, q))
  }

  /** `s` is strictly ordered by the sort key. */
  predicate Ranked(b: Bound, s: seq<Pos>)
  {
    forall x, y :: 0 <= x < y < |s| ==> Before(b, s[x], s[y])
  }

  lemma RankedNoDup(b: Bound, s: seq<Pos>)
    requires Ranked(b, s)
    ensures NoDup(s)
  {
    forall x, y | 0 <= x < y < |s| ensures s[x] != s[y]
    {
      assert Before(b, s[x], s[y]);
    }
  }

  /** Insertion of `x` in front of the first element it sorts before. */
  function Insert(b: Bound, x: Pos, s: seq<Pos>): (r: seq<Pos>)
    ensures multiset(r) == multiset(s) + multiset{x}
  {
    if |s| == 0 then [x]
    else if Before(b, x, s[0]) then [x] + s
    else
      assert s == [s[0]] + s[1..];
      [s[0]] + Insert(b, x, s[1..])
  }

  /** The rest of a ranked sequence is ranked. */
  lemma RankedTail(b: Bound, s: seq<Pos>)
    requires Ranked(b, s) && |s| > 0
    ensures Ranked(b, s[1..])
    ensures forall t :: 0 <= t < |s[1..]| ==> Before(b, s[0], s[1..][t])
  {
    forall u, v | 0 <= u < v < |s[1..]| ensures Before(b, s[1..][u], s[1..][v])
    {
      assert s[1..][u] == s[u + 1] && s[1..][v] == s[v + 1];
    }
    forall t | 0 <= t < |s[1..]| ensures Before(b, s[0], s[1..][t])
    {
      assert s[1..][t] == s[t + 1];
    }
  }

  /** Inserting a new element into a ranked sequence keeps it ranked. */
  lemma {:induction false} InsertRanked(b: Bound, x: Pos, s: seq<Pos>)
    requires Ranked(b, s) && x !in s
    ensures Ranked(b, Insert(b, x, s))
  {
    if |s| == 0 {
    } else if Before(b, x, s[0]) {
      PrependRanked(b, x, s);
    } else {
      RankedTail(b, s);
      assert x !in s[1..] by { assert s == [s[0]] + s[1..]; }
      InsertRanked(b, x, s[1..]);
      InsertAfterHead(b, x, s);
    }
  }

  /** An element that sorts before the head of a ranked sequence can go in
      front of it. */
  lemma PrependRanked(b: Bound, x: Pos, s: seq<Pos>)
    requires Ranked(b, s) && |s| > 0 && Before(b, x, s[0])
    ensures Ranked(b, [x] + s)
  {
    var r := [x] + s;
    forall u, v | 0 <= u < v < |r| ensures Before(b, r[u], r[v])
    {
      if u == 0 && v > 1 { assert Before(b, s[0], s[v - 1]); }
    }
  }

  /** When `x` goes after the head, the head still comes first. */
  lemma InsertAfterHead(b: Bound, x: Pos, s: seq<Pos>)
    requires Ranked(b, s) && |s| > 0 && !Before(b, x, s[0]) && x != s[0]
    requires Ranked(b, Insert(b, x, s[1..]))
    ensures Ranked(b, Insert(b, x, s))
  {
    var rest := Insert(b, x, s[1..]);
    var r := Insert(b, x, s);
    assert r == [s[0]] + rest;
    HeadBeforeRest(b, x, s);
    forall u, v | 0 <= u < v < |r| ensures Before(b, r[u], r[v])
    {
      if u > 0 { assert r[u] == rest[u - 1] && r[v] == rest[v - 1]; }
      else { assert r[v] == rest[v - 1]; }
    }
  }

  /** The head of a ranked sequence comes before everything inserted
      behind it. */
  lemma HeadBeforeRest(b: Bound, x: Pos, s: seq<Pos>)
    requires Ranked(b, s) && |s| > 0 && !Before(b, x, s[0]) && x != s[0]
    ensures forall v :: 0 <= v < |Insert(b, x, s[1..])| ==> Before(b, s[0], Insert(b, x, s[1..])[v])
  {
    var rest := Insert(b, x, s[1..]);
    RankedTail(b, s);
    forall v | 0 <= v < |rest| ensures Before(b, s[0], rest[v])
    {
      assert rest[v] in multiset(rest);
      if rest[v] == x {
        BeforeTotal(b, x, s[0]);
      } else {
        assert rest[v] in s[1..];
        var t :| 0 <= t < |s[1..]| && s[1..][t] == rest[v];
      }
    }
  }

  /** `Before` orders any two distinct cells one way or the other. */
  lemma BeforeTotal(b: Bound, p: Pos, q: Pos)
    requires p != q
    ensures Before(b, p, q) || Before(b, q, p)
  {
  }

  /** Insertion sort by the key `(-abs(score), pos)`. */
  function Sort(b: Bound, s: seq<Pos>): (r: seq<Pos>)
    ensures multiset(r) == multiset(s)
  {
    if |s| == 0 then []
    else
      assert s == [s[0]] + s[1..];
      Insert(b, s[0], Sort(b, s[1..]))
  }

  /** Without duplicates the sort is strict: the result is ranked. */
  lemma {:induction false} SortRanked(b: Bound, s: seq<Pos>)
    requires NoDup(s)
    ensures Ranked(b, Sort(b, s))
  {
    if |s| > 0 {
      var rest := Sort(b, s[1..]);
      assert s == [s[0]] + s[1..];
      forall u, v | 0 <= u < v < |s[1..]| ensures s[1..][u] != s[1..][v]
      {
        assert s[1..][u] == s[u + 1] && s[1..][v] == s[v + 1];
      }
      SortRanked(b, s[1..]);
      forall t | 0 <= t < |s[1..]| ensures s[1..][t] != s[0]
      {
        assert s[1..][t] == s[t + 1];
      }
      assert s[0] !in multiset(s[1..]);
      InsertRanked(b, s[0], rest);
    }
  }

  /** The elements of `cells` that satisfy `f`, in their original order
      (a list comprehension with a condition). */
  function Filter(f: Pos -> bool, cells: seq<Pos>): (r: seq<Pos>)
    ensures forall p :: p in r <==> p in cells && f(p)
  {
    if |cells| == 0 then []
    else
      var rest := Filter(f, cells[1..]);
      assert forall p :: p in cells <==> p == cells[0] || p in cells[1..] by {
        assert cells == [cells[0]] + cells[1..];
      }
      if f(cells[0]) then [cells[0]] + rest else rest
  }

  /** Filtering keeps the board order. */
  lemma {:induction false} FilterInOrder(f: Pos -> bool, cells: seq<Pos>)
    requires StrictlyLex(cells)
    ensures StrictlyLex(Filter(f, cells))
  {
    if |cells| > 0 {
      var rest := Filter(f, cells[1..]);
      assert StrictlyLex(cells[1..]) by {
        forall u, v | 0 <= u < v < |cells[1..]| ensures LexLess(cells[1..][u], cells[1..][v])
        {
          assert cells[1..][u] == cells[u + 1] && cells[1..][v] == cells[v + 1];
        }
      }
      FilterInOrder(f, cells[1..]);
      forall p | p in rest ensures LexLess(cells[0], p)
      {
        var t :| 0 <= t < |cells[1..]| && cells[1..][t] == p;
        assert cells[t + 1] == p;
      }
      LexAppend([cells[0]], rest);
    }
  }

  /** The empty cells among the frontier's keys. */
  ghost function ValidMoves(g: Grid, b: Bound): set<Pos>
    requires WellFormed(g)
  {
    set p | p in b && IsPositionEmpty(g, p.0, p.1)
  }

  /** `valid_moves` after the sort: every empty key once, best first. */
  function RankedMoves(g: Grid, b: Bound): (v: seq<Pos>)
    requires WellFormed(g)
    ensures forall p :: p in v <==> p in ValidMoves(g, b)
    ensures Ranked(b, v) && NoDup(v)
    ensures |v| == |ValidMoves(g, b)|
  {
    var c := Filter(p => p in b && IsPositionEmpty(g, p.0, p.1), AllCells());
    FilterInOrder(p => p in b && IsPositionEmpty(g, p.0, p.1), AllCells());
    assert NoDup(c) by {
      forall x, y | 0 <= x < y < |c| ensures c[x] != c[y] { assert LexLess(c[x], c[y]); }
    }
    var v := Sort(b, c);
    SortRanked(b, c);
    assert forall p :: p in v <==> p in ValidMoves(g, b) by {
      forall p ensures p in v <==> p in ValidMoves(g, b)
      {
        assert p in v <==> p in multiset(v);
        assert p in c <==> p in multiset(c);
      }
    }
    assert (set p | p in v) == ValidMoves(g, b);
    RankedNoDup(b, v);
    CardNoDup(v);
    v
  }

  /** `childNodes(bound, k)`: the first `k` empty keys of the frontier by
      the key `(-abs(score), pos)`. */
  function ChildNodes(g: Grid, b: Bound, k: nat): (r: seq<Pos>)
    requires WellFormed(g)
    ensures |r| == if k < |ValidMoves(g, b)| then k else |ValidMoves(g, b)|
    ensures forall p :: p in r ==> p in b && IsPositionEmpty(g, p.0, p.1)
    ensures Ranked(b, r) && NoDup(r)
    ensures forall p, q :: p in ValidMoves(g, b) && p !in r && q in r ==> Before(b, q, p)
  {
    var v := RankedMoves(g, b);
    var n := if k < |v| then k else |v|;
    PrefixRanked(b, v, n);
    v[..n]
  }

  /** A prefix of a ranked list is ranked, holds elements of the list, and
      every element left out ranks below every element kept. */
  lemma PrefixRanked(b: Bound, v: seq<Pos>, n: nat)
    requires Ranked(b, v) && n <= |v|
    ensures Ranked(b, v[..n]) && NoDup(v[..n])
    ensures forall p :: p in v[..n] ==> p in v
    ensures forall p, q :: p in v && p !in v[..n] && q in v[..n] ==> Before(b, q, p)
  {
    var r := v[..n];
    assert Ranked(b, r);
    RankedNoDup(b, r);
    forall p, q | p in v && p !in r && q in r ensures Before(b, q, p)
    {
      var x :| 0 <= x < |v| && v[x] == p;
      var y :| 0 <= y < |r| && r[y] == q;
      assert x >= n;
    }
  }

  // ----- growing the frontier -----

  /** The eight neighbour offsets, in the order `updateBound` visits them. */
  const Dirs8: seq<(int, int)> := [(-1, 0), (1, 0), (0, -1), (0, 1), (-1, 1), (1, -1), (-1, -1), (1, 1)]

  function Step(c: Pos, d: (int, int)): Pos
  {
    (c.0 + d.0, c.1 + d.1)
  }

  /** `p` is one of the eight cells around `c`. */
  predicate Adjacent(c: Pos, p: Pos)
  {
    p != c && -1 <= p.0 - c.0 <= 1 && -1 <= p.1 - c.1 <= 1
  }

  /** `p` is reached from `c` by one of the offsets `ds`. */
  ghost predicate Around(c: Pos, ds: seq<(int, int)>, p: Pos)
  {
    exists t :: 0 <= t < |ds| && p == Step(c, ds[t])
  }

  /** The eight offsets reach exactly the adjacent cells. */
  lemma Dirs8Adjacent(c: Pos, p: Pos)
    ensures Adjacent(c, p) <==> Around(c, Dirs8, p)
  {
    if Adjacent(c, p) {
      var di, dj := p.0 - c.0, p.1 - c.1;
      var t := if (di, dj) == (-1, 0) then 0 else if (di, dj) == (1, 0) then 1
        else if (di, dj) == (0, -1) then 2 else if (di, dj) == (0, 1) then 3
        else if (di, dj) == (-1, 1) then 4 else if (di, dj) == (1, -1) then 5
        else if (di, dj) == (-1, -1) then 6 else 7;
      assert p == Step(c, Dirs8[t]);
    }
  }

  /** For each offset in turn, the neighbour of `c` becomes a key with
      value `v` when it is a valid (in-board, empty) cell not yet a key. */
  function MarkAround(g: Grid, b: Bound, c: Pos, ds: seq<(int, int)>, v: int): (r: Bound)
    requires WellFormed(g)
    ensures forall p :: p in b ==> p in r && r[p] == b[p]
    ensures forall p :: Around(c, ds, p) && IsPositionEmpty(g, p.0, p.1) ==> p in r
    ensures forall p :: p in r && p !in b ==> r[p] == v && IsPositionEmpty(g, p.0, p.1) && Around(c, ds, p)
    decreases |ds|
  {
    if |ds| == 0 then b
    else
      var q := Step(c, ds[0]);
      ValidIsPositionEmpty(g, q.0, q.1);
      var b' := if IsValid(g, q.0, q.1, true) && q !in b then b[q := v] else b;
      var r := MarkAround(g, b', c, ds[1..], v);
      AroundCons(c, ds);
      r
  }

  lemma AroundCons(c: Pos, ds: seq<(int, int)>)
    requires |ds| > 0
    ensures forall p :: Around(c, ds, p) <==> p == Step(c, ds[0]) || Around(c, ds[1..], p)
  {
    forall p | Around(c, ds, p) && p != Step(c, ds[0]) ensures Around(c, ds[1..], p)
    {
      var t :| 0 <= t < |ds| && p == Step(c, ds[t]);
      assert ds[1..][t - 1] == ds[t];
    }
    forall p | Around(c, ds[1..], p) ensures Around(c, ds, p)
    {
      var t :| 0 <= t < |ds[1..]| && p == Step(c, ds[1..][t]);
      assert ds[t + 1] == ds[1..][t];
    }
    assert Around(c, ds, Step(c, ds[0])) by { assert Step(c, ds[0]) == Step(c, ds[0]); }
  }

  /** The eight-neighbour marking, in terms of adjacency. */
  method MarkNeighbours(g: Grid, b: Bound, c: Pos, v: int) returns (r: Bound)
    requires WellFormed(g)
    ensures forall p :: p in b ==> p in r && r[p] == b[p]
    ensures forall p :: Adjacent(c, p) && IsPositionEmpty(g, p.0, p.1) ==> p in r
    ensures forall p :: p in r && p !in b ==> r[p] == v && IsPositionEmpty(g, p.0, p.1) && Adjacent(c, p)
  {
    r := MarkAround(g, b, c, Dirs8, v);
    forall p ensures Adjacent(c, p) <==> Around(c, Dirs8, p) { Dirs8Adjacent(c, p); }
  }

  /** Manhattan distance. */
  function Manhattan(p: Pos, q: Pos): (r: int)
    ensures r >= 0
    ensures r == 0 <==> p == q
  {
    Abs(p.0 - q.0) + Abs(p.1 - q.1)
  }

  /** The cells holding `s`, row by row. */
  function StonesOf(g: Grid, s: int): (r: seq<Pos>)
    requires WellFormed(g)
  {
    Filter((p: Pos) => Holds(g, p.0, p.1, s), AllCells())
  }

  /** `distant_groups`: the human stones farther than 3 (Manhattan) from
      every engine stone, row by row. */
  function DistantHumans(g: Grid): seq<Pos>
    requires WellFormed(g)
  {
    var ai := StonesOf(g, 1);
    Filter(h => forall a :: a in ai ==> Manhattan(h, a) > 3, StonesOf(g, -1))
  }

  /** A human stone with no engine stone within Manhattan distance 3. */
  ghost predicate IsDistantHuman(g: Grid, h: Pos)
    requires WellFormed(g)
  {
    Holds(g, h.0, h.1, -1) && forall a: Pos :: Holds(g, a.0, a.1, 1) ==> Manhattan(h, a) > 3
  }

  /** The distant human stones are exactly the stones `IsDistantHuman`
      describes, in board order, so the first two are the two earliest. */
  lemma DistantHumansIff(g: Grid)
    requires WellFormed(g)
    ensures forall h :: h in DistantHumans(g) <==> IsDistantHuman(g, h)
    ensures StrictlyLex(DistantHumans(g))
  {
    var ai := StonesOf(g, 1);
    FilterInOrder((p: Pos) => Holds(g, p.0, p.1, -1), AllCells());
    FilterInOrder(h => forall a :: a in ai ==> Manhattan(h, a) > 3, StonesOf(g, -1));
  }

  /** The counters `updateBound` keeps on the engine: `move_count` and
      `_last_distant_check` (absent until the first distant check fires). */
  datatype Tracker = Tracker(moveCount: int, lastCheck: Option<int>)

  /** The distant check is throttled: it runs only when it never ran or
      ran at least 3 moves ago. */
  predicate Throttled(t: Tracker)
  {
    t.lastCheck.Some? && t.moveCount - t.lastCheck.value < 3
  }

  /** The check runs and finds at least two distant human stones. */
  predicate DistantFires(g: Grid, t: Tracker)
    requires WellFormed(g)
  {
    !Throttled(t) && |DistantHumans(g)| >= 2
  }

  /** `p` is adjacent to one of the first two stones of `d`. */
  predicate NearFirstTwo(d: seq<Pos>, p: Pos)
  {
    |d| >= 2 && (Adjacent(d[0], p) || Adjacent(d[1], p))
  }

  /** `_add_distant_human_moves`: when the check is not throttled and
      finds at least two distant human stones, the valid cells around the
      first two that are not keys yet become keys with the score -100, and
      the check is stamped with the move count. */
  method AddDistant(g: Grid, b: Bound, t: Tracker) returns (r: Bound, t': Tracker)
    requires WellFormed(g)
    ensures t'.moveCount == t.moveCount
    ensures t'.lastCheck == if DistantFires(g, t) then Some(t.moveCount) else t.lastCheck
    ensures forall p :: p in b ==> p in r && r[p] == b[p]
    ensures !DistantFires(g, t) ==> r == b
    ensures DistantFires(g, t) ==>
      forall p :: NearFirstTwo(DistantHumans(g), p) && IsPositionEmpty(g, p.0, p.1) ==> p in r
    ensures forall p :: p in r && p !in b ==>
      r[p] == -100 && IsPositionEmpty(g, p.0, p.1) && DistantFires(g, t) && NearFirstTwo(DistantHumans(g), p)
  {
    r, t' := b, t;
    if !Throttled(t) {
      var d := DistantHumans(g);
      if |d| >= 2 {
        var b1 := MarkNeighbours(g, b, d[0], -100);
        r := MarkNeighbours(g, b1, d[1], -100);
        t' := Tracker(t.moveCount, Some(t.moveCount));
      }
    }
  }

  /** The frontier and counters after `updateBound(new_i, new_j, bound)`. */
  datatype Growth = Growth(bound: Bound, tracker: Tracker)

  /** `updateBound`: drop the played cell, add its valid neighbours with
      score 0, after a human move run the (throttled) distant check, and
      count the move. `lastPlayed` is the engine's record of who moved
      last and `g` the board at the call: the search calls it with the
      move already on the board, the game driver before placing the human's
      stone. The played cell leaves the candidates, and only the distant
      check can put it back while it is still empty. Every key it
      adds is a valid cell: a neighbour of the move with score 0, or, after
      a human move when the distant check fires, a neighbour of one of the
      first two distant human stones with -100. */
  method UpdateBound(g: Grid, b: Bound, lastPlayed: int, t: Tracker, ni: int, nj: int) returns (r: Growth)
    requires WellFormed(g)
    ensures r.tracker.moveCount == t.moveCount + 1
    ensures r.tracker.lastCheck == if lastPlayed == -1 && DistantFires(g, t) then Some(t.moveCount) else t.lastCheck
    ensures forall p :: p in b && p != (ni, nj) ==> p in r.bound && r.bound[p] == b[p]
    ensures lastPlayed != -1 || !IsPositionEmpty(g, ni, nj) ==> (ni, nj) !in r.bound
    ensures forall p :: Adjacent((ni, nj), p) && IsPositionEmpty(g, p.0, p.1) ==> p in r.bound
    ensures lastPlayed == -1 && DistantFires(g, t) ==>
      forall p :: NearFirstTwo(DistantHumans(g), p) && IsPositionEmpty(g, p.0, p.1) ==> p in r.bound
    ensures forall p :: p in r.bound && p !in b ==>
      && IsPositionEmpty(g, p.0, p.1)
      && (Adjacent((ni, nj), p) ==> r.bound[p] == 0)
      && (!Adjacent((ni, nj), p) ==>
            r.bound[p] == -100 && lastPlayed == -1 && DistantFires(g, t) && NearFirstTwo(DistantHumans(g), p))
  {
    var played := (ni, nj);
    var b1 := b - {played};
    assert forall p :: p in b && p != played ==> p in b1 && b1[p] == b[p];
    var b2 := MarkNeighbours(g, b1, played, 0);
    assert forall p :: p in b2 && p !in b ==> p !in b1;
    if lastPlayed == -1 {
      var b3, t3 := AddDistant(g, b2, t);
      forall p | p in b3 && p !in b
        ensures IsPositionEmpty(g, p.0, p.1)
        ensures Adjacent(played, p) ==> b3[p] == 0
        ensures !Adjacent(played, p) ==> b3[p] == -100 && DistantFires(g, t) && NearFirstTwo(DistantHumans(g), p)
      {
        if p !in b2 {
          assert p !in b1;
        }
      }
      r := Growth(b3, Tracker(t.moveCount + 1, t3.lastCheck));
    } else {
      r := Growth(b2, Tracker(t.moveCount + 1, t.lastCheck));
    }
  }
}
