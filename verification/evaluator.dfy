/** The incremental evaluator of the engine (`countPattern` and `evaluate` in
    source/AI.py): counting the catalogue's patterns on windows around a cell
    and folding the hits into the board value and the candidate scores. */
module Evaluator {
  import opened Scores
  import opened Board
  import opened Patterns

  /** The scan directions of `countPattern`, as (row step, column step). */
  const Directions: seq<(int, int)> := [(1, 0), (1, 1), (0, 1), (-1, 1)]

  /** One placement of a pattern: the line through the anchor cell with
      direction (`di`, `dj`), starting `step` cells from the anchor. */
  datatype Window = Window(di: int, dj: int, step: int)

  /** Cell number `idx` of window `w` anchored at (`i0`, `j0`). */
  function Cell(i0: int, j0: int, w: Window, idx: int): Pos
  {
    (i0 + w.di * (w.step + idx), j0 + w.dj * (w.step + idx))
  }

  /** The room left on one axis: towards the far edge for a positive step,
      and otherwise the anchor coordinate itself (also for a zero step). */
  function Room(d: int, c: int): int
  {
    if d == 1 then N - 1 - c else c
  }

  /** `max_steps` of direction (`di`, `dj`): the least of 5 and the room on
      both axes. The source has two branches, on `di * dj == 0`, that
      compute the same expression. */
  function MaxSteps(i0: int, j0: int, di: int, dj: int): (r: int)
    ensures r <= 5 && r <= Room(di, i0) && r <= Room(dj, j0)
    ensures r == 5 || r == Room(di, i0) || r == Room(dj, j0)
  {
    var a := Room(di, i0);
    var b := Room(dj, j0);
    if a <= b && a <= 5 then a else if b <= 5 then b else 5
  }

  /** The windows of `range(lo, hi)` in direction (`di`, `dj`), in order. */
  function StepWindows(di: int, dj: int, lo: int, hi: int): (r: seq<Window>)
    ensures |r| == if lo < hi then hi - lo else 0
    ensures forall t :: 0 <= t < |r| ==> r[t] == Window(di, dj, lo + t)
    ensures forall w :: w in r <==> w.di == di && w.dj == dj && lo <= w.step < hi
    decreases hi - lo
  {
    if lo >= hi then []
    else
      var r := [Window(di, dj, lo)] + StepWindows(di, dj, lo + 1, hi);
      assert forall w :: w in r && w.step != lo ==> w in StepWindows(di, dj, lo + 1, hi);
      r
  }

  /** The windows of a pattern of length `len` scanned in direction `d`:
      steps `range(-max_steps, max_steps - len + 2)`. */
  function DirWindows(i0: int, j0: int, len: int, d: (int, int)): (r: seq<Window>)
    ensures forall w :: w in r <==>
      (w.di, w.dj) == d && -MaxSteps(i0, j0, d.0, d.1) <= w.step <= MaxSteps(i0, j0, d.0, d.1) - len + 1
    ensures Distinct(r)
  {
    var ms := MaxSteps(i0, j0, d.0, d.1);
    StepWindows(d.0, d.1, -ms, ms - len + 2)
  }

  /** All windows scanned, direction by direction, in source order. */
  function AllWindows(i0: int, j0: int, len: int): seq<Window>
  {
    DirWindows(i0, j0, len, Directions[0]) + DirWindows(i0, j0, len, Directions[1]) +
    DirWindows(i0, j0, len, Directions[2]) + DirWindows(i0, j0, len, Directions[3])
  }

  /** A window is scanned when its direction is one of the four and its step
      lies between `-max_steps` and `max_steps - len + 1`. */
  ghost predicate Scanned(i0: int, j0: int, len: int, w: Window)
  {
    (w.di, w.dj) in Directions &&
    -MaxSteps(i0, j0, w.di, w.dj) <= w.step <= MaxSteps(i0, j0, w.di, w.dj) - len + 1
  }

  predicate Distinct(ws: seq<Window>)
  {
    forall a, b :: 0 <= a < b < |ws| ==> ws[a] != ws[b]
  }

  /** The scan visits exactly the scanned windows, each once. */
  lemma AllWindowsScanned(i0: int, j0: int, len: int)
    ensures forall w :: w in AllWindows(i0, j0, len) <==> Scanned(i0, j0, len, w)
    ensures Distinct(AllWindows(i0, j0, len))
  {
    AllWindowsMembers(i0, j0, len);
    AllWindowsDistinct(i0, j0, len);
  }

  lemma AllWindowsMembers(i0: int, j0: int, len: int)
    ensures forall w :: w in AllWindows(i0, j0, len) <==> Scanned(i0, j0, len, w)
  {
    var d0 := DirWindows(i0, j0, len, Directions[0]);
    var d1 := DirWindows(i0, j0, len, Directions[1]);
    var d2 := DirWindows(i0, j0, len, Directions[2]);
    var d3 := DirWindows(i0, j0, len, Directions[3]);
    forall w ensures w in AllWindows(i0, j0, len) <==> Scanned(i0, j0, len, w)
    {
      assert w in AllWindows(i0, j0, len) <==> w in d0 || w in d1 || w in d2 || w in d3;
    }
  }

  lemma AllWindowsDistinct(i0: int, j0: int, len: int)
    ensures Distinct(AllWindows(i0, j0, len))
  {
    var d0 := DirWindows(i0, j0, len, Directions[0]);
    var d1 := DirWindows(i0, j0, len, Directions[1]);
    var d2 := DirWindows(i0, j0, len, Directions[2]);
    var d3 := DirWindows(i0, j0, len, Directions[3]);
    DistinctAppend(d0, d1);
    assert forall w :: w in d0 + d1 ==> w !in d2;
    DistinctAppend(d0 + d1, d2);
    assert forall w :: w in d0 + d1 + d2 ==> w !in d3;
    DistinctAppend(d0 + d1 + d2, d3);
  }

  lemma DistinctAppend(a: seq<Window>, b: seq<Window>)
    requires Distinct(a) && Distinct(b)
    requires forall w :: w in a ==> w !in b
    ensures Distinct(a + b)
  {
    forall x, y | 0 <= x < y < |a + b| ensures (a + b)[x] != (a + b)[y]
    {
      if y >= |a| {
        assert (a + b)[y] == b[y - |a|];
        if x < |a| { assert (a + b)[x] in a; }
      }
    }
  }

  /** The window holds the pattern: every cell is on the board and in the
      state the pattern asks for. */
  predicate Matches(g: Grid, i0: int, j0: int, w: Window, pat: Pattern)
    requires WellFormed(g)
  {
    forall idx :: 0 <= idx < |pat| ==> Holds(g, Cell(i0, j0, w, idx).0, Cell(i0, j0, w, idx).1, pat[idx])
  }

  /** The cells of the window, from number `k` on, where the pattern asks for
      an empty cell, in pattern order (`remember`). */
  function EmptiesFrom(i0: int, j0: int, w: Window, pat: Pattern, k: nat): (r: seq<Pos>)
    ensures forall p :: p in r <==> exists idx :: k <= idx < |pat| && pat[idx] == 0 && Cell(i0, j0, w, idx) == p
    decreases |pat| - k
  {
    if k >= |pat| then []
    else (if pat[k] == 0 then [Cell(i0, j0, w, k)] else []) + EmptiesFrom(i0, j0, w, pat, k + 1)
  }

  function Empties(i0: int, j0: int, w: Window, pat: Pattern): seq<Pos>
  {
    EmptiesFrom(i0, j0, w, pat, 0)
  }

  /** `bound[pos] = bound.get(pos, 0) + delta` for every `pos` of `ps` in turn. */
  function AddAll(b: Bound, ps: seq<Pos>, delta: int): (r: Bound)
    ensures forall p :: Get(r, p) == Get(b, p) + delta * multiset(ps)[p]
    ensures forall p :: p in r <==> p in b || p in ps
    decreases |ps|
  {
    if |ps| == 0 then b
    else
      var b1 := b[ps[0] := Get(b, ps[0]) + delta];
      var r := AddAll(b1, ps[1..], delta);
      assert ps == [ps[0]] + ps[1..];
      assert multiset(ps) == multiset{ps[0]} + multiset(ps[1..]);
      assert forall p :: Get(r, p) == Get(b, p) + delta * multiset(ps)[p] by {
        forall p ensures Get(r, p) == Get(b, p) + delta * multiset(ps)[p]
        {
          var one := if p == ps[0] then 1 else 0;
          assert Get(b1, p) == Get(b, p) + delta * one;
          assert multiset(ps)[p] == one + multiset(ps[1..])[p];
          Distribute(delta, one, multiset(ps[1..])[p]);
        }
      }
      r
  }

  lemma Distribute(d: int, x: int, y: int)
    ensures d * (x + y) == d * x + d * y
  {
  }

  /** Two weighted additions in a row are one addition of the sum. */
  lemma Regroup(r: int, b': int, b: int, d: int, x: int, y: int, h: int)
    requires r == b' + d * y && b' == b + d * x && h == x + y
    ensures r == b + d * h
  {
    Distribute(d, x, y);
  }

  /** The result of a scan: the number of matched windows and the updated
      candidate scores. */
  datatype Tally = Tally(count: nat, bound: Bound)

  /** The windows of `ws` that hold the pattern. */
  ghost function MatchedIn(g: Grid, i0: int, j0: int, pat: Pattern, ws: seq<Window>): set<Window>
    requires WellFormed(g)
  {
    set w | w in ws && Matches(g, i0, j0, w, pat)
  }

  /** The empty cells of every matched window of `ws`, counted once per
      window that asks for them. */
  ghost function Hits(g: Grid, i0: int, j0: int, pat: Pattern, ws: seq<Window>): multiset<Pos>
    requires WellFormed(g)
  {
    if |ws| == 0 then multiset{}
    else
      (if Matches(g, i0, j0, ws[0], pat) then multiset(Empties(i0, j0, ws[0], pat)) else multiset{}) +
      Hits(g, i0, j0, pat, ws[1..])
  }

  /** The scan of the windows `ws`: one count and one score update per
      matched window. */
  function Scan(g: Grid, i0: int, j0: int, pat: Pattern, delta: int, ws: seq<Window>, b: Bound): (r: Tally)
    requires WellFormed(g)
    ensures Distinct(ws) ==> r.count == |MatchedIn(g, i0, j0, pat, ws)|
    ensures forall p :: Get(r.bound, p) == Get(b, p) + delta * Hits(g, i0, j0, pat, ws)[p]
    ensures forall p :: p in r.bound <==> p in b || p in Hits(g, i0, j0, pat, ws)
  {
    if |ws| == 0 then
      assert MatchedIn(g, i0, j0, pat, ws) == {};
      Tally(0, b)
    else
      var w := ws[0];
      var m := Matches(g, i0, j0, w, pat);
      var b' := if m then AddAll(b, Empties(i0, j0, w, pat), delta) else b;
      var rest := Scan(g, i0, j0, pat, delta, ws[1..], b');
      CountStep(g, i0, j0, pat, ws, rest.count);
      ScanStep(g, i0, j0, pat, delta, ws, b, b', rest.bound);
      Tally(if m then rest.count + 1 else rest.count, rest.bound)
  }

  /** One step of the scan: the scores the first window adds and those the
      remaining windows add sum to those all windows add. */
  lemma ScanStep(g: Grid, i0: int, j0: int, pat: Pattern, delta: int, ws: seq<Window>, b: Bound, b': Bound, r: Bound)
    requires WellFormed(g) && |ws| > 0
    requires b' == if Matches(g, i0, j0, ws[0], pat) then AddAll(b, Empties(i0, j0, ws[0], pat), delta) else b
    requires forall p :: Get(r, p) == Get(b', p) + delta * Hits(g, i0, j0, pat, ws[1..])[p]
    requires forall p :: p in r <==> p in b' || p in Hits(g, i0, j0, pat, ws[1..])
    ensures forall p :: Get(r, p) == Get(b, p) + delta * Hits(g, i0, j0, pat, ws)[p]
    ensures forall p :: p in r <==> p in b || p in Hits(g, i0, j0, pat, ws)
  {
    var first := if Matches(g, i0, j0, ws[0], pat) then multiset(Empties(i0, j0, ws[0], pat)) else multiset{};
    var rest := Hits(g, i0, j0, pat, ws[1..]);
    assert Hits(g, i0, j0, pat, ws) == first + rest;
    forall p ensures Get(r, p) == Get(b, p) + delta * Hits(g, i0, j0, pat, ws)[p]
    {
      var x, y, h := first[p], rest[p], Hits(g, i0, j0, pat, ws)[p];
      var vr, vb', vb := Get(r, p), Get(b', p), Get(b, p);
      assert vr == vb' + delta * y;
      assert vb' == vb + delta * x;
      assert h == x + y;
      Regroup(vr, vb', vb, delta, x, y, h);
    }
  }

  /** One step of the count: the first window adds one when it matches. */
  lemma CountStep(g: Grid, i0: int, j0: int, pat: Pattern, ws: seq<Window>, n: nat)
    requires WellFormed(g) && |ws| > 0
    requires Distinct(ws[1..]) ==> n == |MatchedIn(g, i0, j0, pat, ws[1..])|
    ensures Distinct(ws) ==> (if Matches(g, i0, j0, ws[0], pat) then n + 1 else n) == |MatchedIn(g, i0, j0, pat, ws)|
  {
    MatchedSplit(g, i0, j0, pat, ws);
  }

  lemma MatchedSplit(g: Grid, i0: int, j0: int, pat: Pattern, ws: seq<Window>)
    requires WellFormed(g) && |ws| > 0
    ensures Distinct(ws) ==> Distinct(ws[1..]) && ws[0] !in MatchedIn(g, i0, j0, pat, ws[1..])
    ensures MatchedIn(g, i0, j0, pat, ws) ==
            (if Matches(g, i0, j0, ws[0], pat) then {ws[0]} else {}) + MatchedIn(g, i0, j0, pat, ws[1..])
  {
    assert ws == [ws[0]] + ws[1..];
    if Distinct(ws) {
      forall t | 0 <= t < |ws[1..]| ensures ws[1..][t] != ws[0]
      {
        assert ws[1..][t] == ws[t + 1];
      }
    }
  }


  /** Cell `p` is within five cells of the anchor on both axes. */
  predicate Near(i0: int, j0: int, p: Pos)
  {
    Abs(p.0 - i0) <= 5 && Abs(p.1 - j0) <= 5
  }

  /** Every cell of every scanned window lies within five cells of the anchor. */
  lemma WindowsNear(i0: int, j0: int, len: int, w: Window, idx: int)
    requires w in AllWindows(i0, j0, len) && 0 <= idx < len
    ensures Near(i0, j0, Cell(i0, j0, w, idx))
  {
    AllWindowsScanned(i0, j0, len);
    var k := w.step + idx;
    var ms := MaxSteps(i0, j0, w.di, w.dj);
    assert -ms <= w.step && w.step + idx <= ms;
    assert -5 <= k <= 5;
    assert w.di == 0 || w.di == 1 || w.di == -1;
    assert w.dj == 0 || w.dj == 1;
    var c := Cell(i0, j0, w, idx);
    assert c.0 == i0 + w.di * k && c.1 == j0 + w.dj * k;
  }

  /** A cell gets a score from a scan only if it is an empty cell of a
      matched window. */
  lemma {:induction false} HitsEmpty(g: Grid, i0: int, j0: int, pat: Pattern, ws: seq<Window>, p: Pos)
    requires WellFormed(g) && p in Hits(g, i0, j0, pat, ws)
    ensures exists t, idx :: 0 <= t < |ws| && 0 <= idx < |pat| && Matches(g, i0, j0, ws[t], pat) &&
                             pat[idx] == 0 && Cell(i0, j0, ws[t], idx) == p
  {
    if Matches(g, i0, j0, ws[0], pat) && p in multiset(Empties(i0, j0, ws[0], pat)) {
      assert p in Empties(i0, j0, ws[0], pat);
      var idx :| 0 <= idx < |pat| && pat[idx] == 0 && Cell(i0, j0, ws[0], idx) == p;
      assert Matches(g, i0, j0, ws[0], pat);
    } else {
      HitsEmpty(g, i0, j0, pat, ws[1..], p);
      var t, idx :| 0 <= t < |ws[1..]| && 0 <= idx < |pat| && Matches(g, i0, j0, ws[1..][t], pat) &&
                    pat[idx] == 0 && Cell(i0, j0, ws[1..][t], idx) == p;
      assert ws[1..][t] == ws[t + 1];
    }
  }

  /** The cells a pattern scan scores are empty, on the board and near the
      anchor. */
  lemma ScanScoresNearEmpty(g: Grid, i0: int, j0: int, pat: Pattern)
    requires WellFormed(g)
    ensures forall p :: p in Hits(g, i0, j0, pat, AllWindows(i0, j0, |pat|)) ==> Holds(g, p.0, p.1, 0) && Near(i0, j0, p)
  {
    var ws := AllWindows(i0, j0, |pat|);
    forall p | p in Hits(g, i0, j0, pat, ws) ensures Holds(g, p.0, p.1, 0) && Near(i0, j0, p)
    {
      HitsEmpty(g, i0, j0, pat, ws, p);
      var t, idx :| 0 <= t < |ws| && 0 <= idx < |pat| && Matches(g, i0, j0, ws[t], pat) &&
                    pat[idx] == 0 && Cell(i0, j0, ws[t], idx) == p;
      WindowsNear(i0, j0, |pat|, ws[t], idx);
    }
  }

  /** `countPattern(i_0, j_0, pattern, score, bound, flag)`: the number of
      scanned windows that hold the pattern, with `flag * score` added to
      the candidate score of every empty cell of every matched window;
      nothing else changes. */
  function CountPattern(g: Grid, i0: int, j0: int, pat: Pattern, score: int, b: Bound, flag: int): (r: Tally)
    requires WellFormed(g)
    ensures r.count == |MatchedIn(g, i0, j0, pat, AllWindows(i0, j0, |pat|))|
    ensures forall p :: Get(r.bound, p) == Get(b, p) + flag * score * Hits(g, i0, j0, pat, AllWindows(i0, j0, |pat|))[p]
    ensures forall p :: p in r.bound <==> p in b || p in Hits(g, i0, j0, pat, AllWindows(i0, j0, |pat|))
  {
    AllWindowsScanned(i0, j0, |pat|);
    Scan(g, i0, j0, pat, flag * score, AllWindows(i0, j0, |pat|), b)
  }

  /** A pattern scan changes the score of no cell but the empty cells near
      the anchor. */
  lemma CountPatternLocal(g: Grid, i0: int, j0: int, pat: Pattern, score: int, b: Bound, flag: int)
    requires WellFormed(g)
    ensures forall p :: !(Near(i0, j0, p) && Holds(g, p.0, p.1, 0)) ==>
              Get(CountPattern(g, i0, j0, pat, score, b, flag).bound, p) == Get(b, p) &&
              (p in CountPattern(g, i0, j0, pat, score, b, flag).bound <==> p in b)
  {
    ScanScoresNearEmpty(g, i0, j0, pat);
    var h := Hits(g, i0, j0, pat, AllWindows(i0, j0, |pat|));
    var r := CountPattern(g, i0, j0, pat, score, b, flag);
    forall p | p !in h ensures Get(r.bound, p) == Get(b, p)
    {
      assert h[p] == 0;
      assert flag * score * h[p] == 0;
    }
  }

  /** The number of scanned windows around (`i0`, `j0`) that hold `pat`. */
  ghost function MatchCount(g: Grid, i0: int, j0: int, pat: Pattern): nat
    requires WellFormed(g)
  {
    |MatchedIn(g, i0, j0, pat, AllWindows(i0, j0, |pat|))|
  }

  /** The weight of the board around (`i0`, `j0`): every pattern of the
      dictionary, counted on its scanned windows, times its score. */
  ghost function Worth(g: Grid, i0: int, j0: int, d: Dict): int
    requires WellFormed(g)
  {
    if |d| == 0 then 0 else MatchCount(g, i0, j0, d[0].0) * d[0].1 + Worth(g, i0, j0, d[1..])
  }

  /** What placing `turn` at (`i`, `j`) adds to the weight around the cell. */
  ghost function WorthGain(g: Grid, i: int, j: int, turn: int, d: Dict): int
    requires WellFormed(g) && InBoard(i, j) && IsState(turn)
  {
    Worth(SetCell(g, i, j, turn), i, j, d) - Worth(g, i, j, d)
  }

  /** The totals and the state left by the loop of `evaluate`. */
  datatype Pass = Pass(before: int, after: int, board: Grid, bound: Bound)

  /** `value_after - value_before` */
  function Gain(p: Pass): int
  {
    p.after - p.before
  }

  /** The loop of `evaluate` over the dictionary entries `d`: for each
      pattern, count it before the move (taking its score off the candidate
      cells), place `turn` at (`i`, `j`), count it again (adding the score
      back), and clear the cell. */
  function EvalEntries(g: Grid, i: int, j: int, turn: int, b: Bound, d: Dict): (r: Pass)
    requires WellFormed(g) && InBoard(i, j) && IsState(turn)
    ensures WellFormed(r.board)
    decreases |d|
  {
    if |d| == 0 then Pass(0, 0, g, b)
    else
      var pat := d[0].0;
      var score := d[0].1;
      var before := CountPattern(g, i, j, pat, Abs(score), b, -1);
      var after := CountPattern(SetCell(g, i, j, turn), i, j, pat, Abs(score), before.bound, 1);
      var rest := EvalEntries(SetCell(SetCell(g, i, j, turn), i, j, 0), i, j, turn, after.bound, d[1..]);
      Pass(before.count * score + rest.before, after.count * score + rest.after, rest.board, rest.bound)
  }

  /** The loop leaves the move's cell cleared, whatever it held. */
  lemma {:induction false} EvalEntriesBoard(g: Grid, i: int, j: int, turn: int, b: Bound, d: Dict)
    requires WellFormed(g) && InBoard(i, j) && IsState(turn)
    ensures |d| == 0 ==> EvalEntries(g, i, j, turn, b, d).board == g
    ensures |d| > 0 ==> EvalEntries(g, i, j, turn, b, d).board == SetCell(g, i, j, 0)
    decreases |d|
  {
    if |d| > 0 {
      var before := CountPattern(g, i, j, d[0].0, Abs(d[0].1), b, -1);
      var g1 := SetCell(g, i, j, turn);
      var after := CountPattern(g1, i, j, d[0].0, Abs(d[0].1), before.bound, 1);
      var g2 := SetCell(g1, i, j, 0);
      var rest := EvalEntries(g2, i, j, turn, after.bound, d[1..]);
      assert EvalEntries(g, i, j, turn, b, d).board == rest.board;
      SetCellTwice(g, i, j, turn, 0);
      assert g2 == SetCell(g, i, j, 0);
      EvalEntriesBoard(g2, i, j, turn, after.bound, d[1..]);
      if |d| > 1 {
        SetCellTwice(g, i, j, 0, 0);
        assert rest.board == SetCell(g2, i, j, 0);
      }
    }
  }

  /** On an empty cell, the loop's first total is the dictionary's weight
      around the cell before the move. */
  lemma {:induction false} EvalEntriesBefore(g: Grid, i: int, j: int, turn: int, b: Bound, d: Dict)
    requires WellFormed(g) && InBoard(i, j) && IsState(turn) && g[i][j] == 0
    ensures EvalEntries(g, i, j, turn, b, d).before == Worth(g, i, j, d)
    decreases |d|
  {
    if |d| > 0 {
      var before := CountPattern(g, i, j, d[0].0, Abs(d[0].1), b, -1);
      var g1 := SetCell(g, i, j, turn);
      var after := CountPattern(g1, i, j, d[0].0, Abs(d[0].1), before.bound, 1);
      SetCellRestore(g, i, j, turn);
      assert SetCell(g1, i, j, 0) == g;
      var rest := EvalEntries(g, i, j, turn, after.bound, d[1..]);
      assert EvalEntries(g, i, j, turn, b, d).before == before.count * d[0].1 + rest.before;
      EvalEntriesBefore(g, i, j, turn, after.bound, d[1..]);
      assert before.count == MatchCount(g, i, j, d[0].0);
    }
  }

  /** On an empty cell, the loop's second total is the dictionary's weight
      around the cell after the move. */
  lemma {:induction false} EvalEntriesAfter(g: Grid, i: int, j: int, turn: int, b: Bound, d: Dict)
    requires WellFormed(g) && InBoard(i, j) && IsState(turn) && g[i][j] == 0
    ensures EvalEntries(g, i, j, turn, b, d).after == Worth(SetCell(g, i, j, turn), i, j, d)
    decreases |d|
  {
    if |d| > 0 {
      var before := CountPattern(g, i, j, d[0].0, Abs(d[0].1), b, -1);
      var g1 := SetCell(g, i, j, turn);
      var after := CountPattern(g1, i, j, d[0].0, Abs(d[0].1), before.bound, 1);
      SetCellRestore(g, i, j, turn);
      assert SetCell(g1, i, j, 0) == g;
      var rest := EvalEntries(g, i, j, turn, after.bound, d[1..]);
      assert EvalEntries(g, i, j, turn, b, d).after == after.count * d[0].1 + rest.after;
      EvalEntriesAfter(g, i, j, turn, after.bound, d[1..]);
      assert after.count == MatchCount(g1, i, j, d[0].0);
    }
  }

  /** On an empty cell, the loop gives new scores only to cells near the move
      that are empty. */
  lemma {:induction false} EvalEntriesLocal(g: Grid, i: int, j: int, turn: int, b: Bound, d: Dict, p: Pos)
    requires WellFormed(g) && InBoard(i, j) && IsState(turn) && g[i][j] == 0
    requires !(Near(i, j, p) && Holds(g, p.0, p.1, 0))
    ensures Get(EvalEntries(g, i, j, turn, b, d).bound, p) == Get(b, p)
    ensures p in EvalEntries(g, i, j, turn, b, d).bound <==> p in b
    decreases |d|
  {
    if |d| > 0 {
      var before := CountPattern(g, i, j, d[0].0, Abs(d[0].1), b, -1);
      var g1 := SetCell(g, i, j, turn);
      var after := CountPattern(g1, i, j, d[0].0, Abs(d[0].1), before.bound, 1);
      SetCellRestore(g, i, j, turn);
      assert SetCell(g1, i, j, 0) == g;
      assert !(Near(i, j, p) && Holds(g1, p.0, p.1, 0));
      CountPatternLocal(g, i, j, d[0].0, Abs(d[0].1), b, -1);
      CountPatternLocal(g1, i, j, d[0].0, Abs(d[0].1), before.bound, 1);
      EvalEntriesLocal(g, i, j, turn, after.bound, d[1..], p);
    }
  }

  /** On an empty cell the passes together add the weight the move adds. */
  lemma EvalEntriesGain(g: Grid, i: int, j: int, turn: int, b: Bound, d: Dict)
    requires WellFormed(g) && InBoard(i, j) && IsState(turn) && g[i][j] == 0
    ensures Gain(EvalEntries(g, i, j, turn, b, d)) == WorthGain(g, i, j, turn, d)
  {
    EvalEntriesBefore(g, i, j, turn, b, d);
    EvalEntriesAfter(g, i, j, turn, b, d);
  }

  /** On an empty cell the passes leave the scores of cells that are not
      empty cells near the move as they were. */
  lemma EvalEntriesKeepsFar(g: Grid, i: int, j: int, turn: int, b: Bound, d: Dict)
    requires WellFormed(g) && InBoard(i, j) && IsState(turn) && g[i][j] == 0
    ensures forall p :: !(Near(i, j, p) && Holds(g, p.0, p.1, 0)) ==>
              Get(EvalEntries(g, i, j, turn, b, d).bound, p) == Get(b, p) &&
              (p in EvalEntries(g, i, j, turn, b, d).bound <==> p in b)
  {
    forall p | !(Near(i, j, p) && Holds(g, p.0, p.1, 0))
      ensures Get(EvalEntries(g, i, j, turn, b, d).bound, p) == Get(b, p)
      ensures p in EvalEntries(g, i, j, turn, b, d).bound <==> p in b
    {
      EvalEntriesLocal(g, i, j, turn, b, d, p);
    }
  }

  /** How many matched windows of `pat` around (`i0`, `j0`) need `p` empty. */
  ghost function Demand(g: Grid, i0: int, j0: int, pat: Pattern, p: Pos): nat
    requires WellFormed(g)
  {
    Hits(g, i0, j0, pat, AllWindows(i0, j0, |pat|))[p]
  }

  /** What one entry adds to the candidate score of `p`: `abs(score)` per
      matched window needing `p` empty once `turn` is at (`i`, `j`), less
      `abs(score)` per such window before. */
  ghost function EntryShift(g: Grid, i: int, j: int, turn: int, e: Entry, p: Pos): int
    requires WellFormed(g) && InBoard(i, j) && IsState(turn)
  {
    Abs(e.1) * Demand(SetCell(g, i, j, turn), i, j, e.0, p) - Abs(e.1) * Demand(g, i, j, e.0, p)
  }

  /** What the loop of `evaluate` adds to the candidate score of `p`: the
      shifts of all entries. */
  ghost function ScoreShift(g: Grid, i: int, j: int, turn: int, d: Dict, p: Pos): int
    requires WellFormed(g) && InBoard(i, j) && IsState(turn)
    decreases |d|
  {
    if |d| == 0 then 0 else EntryShift(g, i, j, turn, d[0], p) + ScoreShift(g, i, j, turn, d[1..], p)
  }

  /** Some entry has a matched window, before or after the move, that
      needs `p` empty. */
  ghost predicate Demanded(g: Grid, i: int, j: int, turn: int, d: Dict, p: Pos)
    requires WellFormed(g) && InBoard(i, j) && IsState(turn)
    decreases |d|
  {
    |d| > 0 &&
    (Demand(g, i, j, d[0].0, p) > 0 || Demand(SetCell(g, i, j, turn), i, j, d[0].0, p) > 0 ||
     Demanded(g, i, j, turn, d[1..], p))
  }

  /** A pass taking `a` per window off and adding `a` per window back. */
  lemma Combine(x0: int, x1: int, x2: int, a: int, h0: int, h1: int)
    requires x1 == x0 + -1 * a * h0 && x2 == x1 + 1 * a * h1
    ensures x2 == x0 + (a * h1 - a * h0)
  {
  }

  /** One entry of the loop of `evaluate` on an empty cell: the count before
      the move takes `abs(score)` off per window, and the count after adds
      it back per window. */
  lemma EntryPass(g: Grid, i: int, j: int, turn: int, b: Bound, e: Entry, p: Pos)
    requires WellFormed(g) && InBoard(i, j) && IsState(turn) && g[i][j] == 0
    ensures var before := CountPattern(g, i, j, e.0, Abs(e.1), b, -1);
            var after := CountPattern(SetCell(g, i, j, turn), i, j, e.0, Abs(e.1), before.bound, 1);
            Get(after.bound, p) == Get(b, p) + EntryShift(g, i, j, turn, e, p)
  {
    var before := CountPattern(g, i, j, e.0, Abs(e.1), b, -1);
    var after := CountPattern(SetCell(g, i, j, turn), i, j, e.0, Abs(e.1), before.bound, 1);
    PassAt(g, i, j, e.0, Abs(e.1), b, -1, p);
    PassAt(SetCell(g, i, j, turn), i, j, e.0, Abs(e.1), before.bound, 1, p);
    Combine(Get(b, p), Get(before.bound, p), Get(after.bound, p), Abs(e.1),
            Demand(g, i, j, e.0, p), Demand(SetCell(g, i, j, turn), i, j, e.0, p));
  }

  /** One pattern scan seen at a single cell: its score moves by
      `flag * score` per matched window that needs it empty. */
  lemma PassAt(g: Grid, i0: int, j0: int, pat: Pattern, score: int, b: Bound, flag: int, p: Pos)
    requires WellFormed(g)
    ensures Get(CountPattern(g, i0, j0, pat, score, b, flag).bound, p) == Get(b, p) + flag * score * Demand(g, i0, j0, pat, p)
  {
  }

  /** The keys one entry's two passes leave: a cell becomes a key when a
      matched window, before or after the move, needs it empty. */
  lemma EntryReach(g: Grid, i: int, j: int, turn: int, b: Bound, e: Entry, p: Pos)
    requires WellFormed(g) && InBoard(i, j) && IsState(turn)
    ensures var before := CountPattern(g, i, j, e.0, Abs(e.1), b, -1);
            var after := CountPattern(SetCell(g, i, j, turn), i, j, e.0, Abs(e.1), before.bound, 1);
            p in after.bound <==> p in b || Demand(g, i, j, e.0, p) > 0 || Demand(SetCell(g, i, j, turn), i, j, e.0, p) > 0
  {
  }

  /** On an empty cell, the loop of `evaluate` moves the candidate score
      of every cell by its score shift, and makes a cell a key exactly when
      it was one or some entry's window needs it empty. */
  lemma {:induction false} EvalEntriesShift(g: Grid, i: int, j: int, turn: int, b: Bound, d: Dict, p: Pos)
    requires WellFormed(g) && InBoard(i, j) && IsState(turn) && g[i][j] == 0
    ensures Get(EvalEntries(g, i, j, turn, b, d).bound, p) == Get(b, p) + ScoreShift(g, i, j, turn, d, p)
    ensures p in EvalEntries(g, i, j, turn, b, d).bound <==> p in b || Demanded(g, i, j, turn, d, p)
    decreases |d|
  {
    if |d| > 0 {
      EntryPass(g, i, j, turn, b, d[0], p);
      EntryReach(g, i, j, turn, b, d[0], p);
      SetCellRestore(g, i, j, turn);
      var before := CountPattern(g, i, j, d[0].0, Abs(d[0].1), b, -1);
      var after := CountPattern(SetCell(g, i, j, turn), i, j, d[0].0, Abs(d[0].1), before.bound, 1);
      var rest := EvalEntries(g, i, j, turn, after.bound, d[1..]);
      assert EvalEntries(g, i, j, turn, b, d).bound == rest.bound;
      EvalEntriesShift(g, i, j, turn, after.bound, d[1..], p);
    }
  }

  /** The result of `evaluate`: the new board value, the board and the
      candidate scores it leaves. */
  datatype Evaluation = Evaluation(value: Ext, board: Grid, bound: Bound)

  /** `evaluate(new_i, new_j, board_value, turn, bound)` with the dictionary
      `d`: on an empty cell, the board value moves by the weight the move adds
      around the cell, the board comes back unchanged, and only empty cells
      near the move get new candidate scores: each cell's score moves by
      its `ScoreShift`, and it becomes a key when some matched window needs
      it empty. */
  method Evaluate(g: Grid, i: int, j: int, boardValue: Ext, turn: int, b: Bound, d: Dict) returns (r: Evaluation)
    requires WellFormed(g) && InBoard(i, j) && IsState(turn)
    ensures WellFormed(r.board)
    ensures |d| > 0 ==> r.board == SetCell(g, i, j, 0)
    ensures g[i][j] == 0 ==> r.board == g
    ensures g[i][j] == 0 ==> r.value == Plus(boardValue, WorthGain(g, i, j, turn, d))
    ensures g[i][j] == 0 ==> forall p :: !(Near(i, j, p) && Holds(g, p.0, p.1, 0)) ==>
              Get(r.bound, p) == Get(b, p) && (p in r.bound <==> p in b)
    ensures g[i][j] == 0 ==> forall p ::
              && Get(r.bound, p) == Get(b, p) + ScoreShift(g, i, j, turn, d, p)
              && (p in r.bound <==> p in b || Demanded(g, i, j, turn, d, p))
  {
    var pass := EvalEntries(g, i, j, turn, b, d);
    EvalEntriesBoard(g, i, j, turn, b, d);
    SetCellSame(g, i, j);
    if g[i][j] == 0 {
      EvalEntriesGain(g, i, j, turn, b, d);
      EvalEntriesKeepsFar(g, i, j, turn, b, d);
      forall p
        ensures Get(pass.bound, p) == Get(b, p) + ScoreShift(g, i, j, turn, d, p)
        ensures p in pass.bound <==> p in b || Demanded(g, i, j, turn, d, p)
      {
        EvalEntriesShift(g, i, j, turn, b, d, p);
      }
    }
    r := Evaluation(Plus(boardValue, Gain(pass)), pass.board, pass.bound);
  }
}
