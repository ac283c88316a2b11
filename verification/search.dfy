/** The engine's state, the game-end test and the minimax search with
    alpha-beta pruning (`GomokuAI` in source/AI.py). */
module Search {
  import opened Scores
  import opened Board
  import opened Patterns
  import opened Evaluator
  import opened Frontier
  import opened Zobrist

  // ----- the end of the game -----

  /** `checkResult()`: the last mover if they have five in a row through
      the current cell, 0 for a full board, otherwise nothing. The cell is
      only read when the last mover is a player. */
  function CheckResult(g: Grid, ci: int, cj: int, lastPlayed: int, emptyCells: int): Option<int>
    requires WellFormed(g)
    requires lastPlayed == 1 || lastPlayed == -1 ==> InBoard(ci, cj)
  {
    if (lastPlayed == 1 || lastPlayed == -1) && IsFive(g, ci, cj, lastPlayed) then Some(lastPlayed)
    else if emptyCells <= 0 then Some(0)
    else None
  }

  /** The game is won exactly when the last mover has a five-cell line
      through the current cell; it is drawn when it is not won and no empty
      cell is left; otherwise it goes on. */
  lemma CheckResultIff(g: Grid, ci: int, cj: int, lastPlayed: int, emptyCells: int)
    requires WellFormed(g)
    requires lastPlayed == 1 || lastPlayed == -1 ==> InBoard(ci, cj)
    ensures var r := CheckResult(g, ci, cj, lastPlayed, emptyCells);
      && ((r.Some? && r.value != 0) <==> (lastPlayed == 1 || lastPlayed == -1) && FiveThrough(g, ci, cj, lastPlayed))
      && (r.Some? && r.value != 0 ==> r.value == lastPlayed)
      && (r == Some(0) <==> !((lastPlayed == 1 || lastPlayed == -1) && FiveThrough(g, ci, cj, lastPlayed)) && emptyCells <= 0)
  {
    if lastPlayed == 1 || lastPlayed == -1 {
      IsFiveIff(g, ci, cj, lastPlayed);
    }
  }

  // ----- the search -----

  /** `childNodes(bound)` runs with its default `k`. */
  const Breadth: nat := 5

  /** What a search reports at its root: `currentI`, `currentJ`,
      `ourScore`, `boardValue` and `nextBound`. */
  datatype Choice = Choice(currentI: int, currentJ: int, ourScore: int, boardValue: Ext, nextBound: Bound)

  /** The engine attributes a search reads and never writes: the root depth
      `self.depth`, `lastPlayed`, `emptyCells`, the pattern dictionary and
      the Zobrist keys. */
  datatype Context = Context(maxDepth: int, lastPlayed: int, emptyCells: int, dict: Dict, z: ZTable)

  /** The engine attributes a search writes: the board and `rollingHash`
      (restored), the transposition table (grown), the move counters of
      `updateBound` and the root's choice. */
  datatype State = State(board: Grid, hash: nat, tt: TTable, tracker: Tracker, choice: Choice)

  predicate Valid(ctx: Context, s: State)
  {
    && WellFormed(s.board) && ZWellFormed(ctx.z)
    && (ctx.lastPlayed == 1 || ctx.lastPlayed == -1 ==> InBoard(s.choice.currentI, s.choice.currentJ))
  }

  /** `depth <= 0 or checkResult() != None`: the search returns the static
      value. */
  predicate Static(ctx: Context, s: State, depth: int)
    requires Valid(ctx, s)
  {
    depth <= 0 || CheckResult(s.board, s.choice.currentI, s.choice.currentJ, ctx.lastPlayed, ctx.emptyCells).Some?
  }

  /** The table holds this position at `depth` or deeper. */
  predicate Hit(s: State, depth: int)
  {
    s.hash in s.tt && s.tt[s.hash].1 >= depth
  }

  /** The stone the side to move places: 1 for the maximising engine. */
  function Player(maximizing: bool): (p: int)
    ensures p == 1 || p == -1
    ensures maximizing <==> p == 1
  {
    if maximizing then 1 else -1
  }

  /** Every move is an empty cell that is a key of the frontier. */
  predicate Playable(g: Grid, bound: Bound, ms: seq<Pos>)
    requires WellFormed(g)
  {
    forall t :: 0 <= t < |ms| ==> ms[t] in bound && IsPositionEmpty(g, ms[t].0, ms[t].1)
  }

  /** The moves `childNodes(bound)` yields, as the search sees them: only
      that they are playable. The full contract of `ChildNodes` (order and
      cut-off) would otherwise enter every proof obligation of
      `AlphaBeta`; this wrapper keeps the search's proofs small. */
  method Moves(g: Grid, bound: Bound) returns (ms: seq<Pos>)
    requires WellFormed(g)
    ensures Playable(g, bound, ms)
  {
    ms := ChildNodes(g, bound, Breadth);
  }

  /** `evaluate` on an empty cell, seen from the search: the board is
      left as it was. Like `Moves`, this wrapper exists to keep the full
      contract of `Evaluate` out of the search's proof obligations; the
      search relies on nothing else about the evaluation. */
  method Score(g: Grid, i: int, j: int, value: Ext, player: int, bound: Bound, d: Dict) returns (ev: Evaluation)
    requires WellFormed(g) && InBoard(i, j) && g[i][j] == 0 && IsState(player)
    ensures ev.board == g
  {
    ev := Evaluate(g, i, j, value, player, bound, d);
  }

  /** A child about to be searched: its value, its frontier and the state. */
  datatype Child = Child(value: Ext, bound: Bound, state: State)

  /** The first half of one child in `alphaBetaPruning`: evaluate the move
      on a copy of the frontier, place the stone, toggle the hash, and grow
      the copy around the move. */
  method Descend(ctx: Context, s: State, value: Ext, bound: Bound, i: int, j: int, maximizing: bool) returns (c: Child)
    requires Valid(ctx, s) && InBoard(i, j) && s.board[i][j] == 0
    ensures Valid(ctx, c.state)
    ensures c.state.board == SetCell(s.board, i, j, Player(maximizing))
    ensures c.state.hash == Toggle(ctx.z, s.hash, i, j, Player(maximizing))
    ensures c.state.tt == s.tt && c.state.choice == s.choice
    ensures c.state.tracker.moveCount == s.tracker.moveCount + 1
  {
    var player := Player(maximizing);
    var ev := Score(s.board, i, j, value, player, bound, ctx.dict);
    var board := SetCell(ev.board, i, j, player);
    var grown := UpdateBound(board, ev.bound, ctx.lastPlayed, s.tracker, i, j);
    c := Child(ev.value, grown.bound, State(board, Toggle(ctx.z, s.hash, i, j, player), s.tt, grown.tracker, s.choice));
  }

  /** The second half: take the stone back and toggle the hash again. */
  function Undo(ctx: Context, t: State, i: int, j: int, maximizing: bool): (r: State)
    requires Valid(ctx, t) && InBoard(i, j)
    ensures Valid(ctx, r)
    ensures r.tt == t.tt && r.tracker == t.tracker && r.choice == t.choice
  {
    t.(board := SetCell(t.board, i, j, 0), hash := Toggle(ctx.z, t.hash, i, j, Player(maximizing)))
  }

  /** Undoing a move placed on an empty cell gives back the board and the
      hash from before it. */
  lemma UndoRestores(ctx: Context, s: State, t: State, i: int, j: int, maximizing: bool)
    requires Valid(ctx, s) && Valid(ctx, t) && InBoard(i, j) && s.board[i][j] == 0
    requires t.board == SetCell(s.board, i, j, Player(maximizing))
    requires t.hash == Toggle(ctx.z, s.hash, i, j, Player(maximizing))
    ensures Undo(ctx, t, i, j, maximizing).board == s.board
    ensures Undo(ctx, t, i, j, maximizing).hash == s.hash
  {
    SetCellRestore(s.board, i, j, Player(maximizing));
    ToggleTwice(ctx.z, s.hash, i, j, Player(maximizing));
  }

  /** What a search may change in the state: the board and the hash come
      back, the table only grows and the move counter only rises. */
  predicate Kept(ctx: Context, s: State, s': State)
  {
    && Valid(ctx, s')
    && s'.board == s.board && s'.hash == s.hash
    && (forall h :: h in s.tt ==> h in s'.tt)
    && s'.tracker.moveCount >= s.tracker.moveCount
  }

  /** The value a search starts its running best from: `-inf` for the
      maximiser, `inf` for the minimiser. */
  function Initial(maximizing: bool): (e: Ext)
    ensures maximizing ==> forall x: Ext :: LessEq(e, x)
    ensures !maximizing ==> forall x: Ext :: LessEq(x, e)
  {
    if maximizing then NegInf else PosInf
  }

  /** `alphaBetaPruning(depth, board_value, bound, alpha, beta,
      maximizingPlayer)`: the value of the position and the state after the
      search. A static position returns `value`, a position the table holds
      at this depth or deeper returns the stored value, and any other is
      searched child by child and stored in the table. At the root depth
      an improving child is recorded as the choice. */
  method AlphaBeta(ctx: Context, s: State, depth: int, value: Ext, bound: Bound, alpha: Ext, beta: Ext, maximizing: bool)
    returns (r: (Ext, State))
    requires Valid(ctx, s)
    ensures Kept(ctx, s, r.1)
    ensures Static(ctx, s, depth) ==> r == (value, s)
    ensures !Static(ctx, s, depth) && Hit(s, depth) ==> r == (s.tt[s.hash].0, s)
    ensures !Static(ctx, s, depth) && !Hit(s, depth) ==> s.hash in r.1.tt && r.1.tt[s.hash] == (r.0, depth)
    ensures depth < ctx.maxDepth ==> r.1.choice == s.choice
    ensures depth == ctx.maxDepth && r.0 != Initial(maximizing) && !Static(ctx, s, depth) && !Hit(s, depth) ==>
      && r.1.choice.boardValue == r.0
      && (r.1.choice.currentI, r.1.choice.currentJ) in bound
      && IsPositionEmpty(s.board, r.1.choice.currentI, r.1.choice.currentJ)
      && r.1.choice.ourScore == bound[(r.1.choice.currentI, r.1.choice.currentJ)]
    decreases if depth > 0 then depth else 0, 1
  {
    if Static(ctx, s, depth) {
      return (value, s);
    }
    if Hit(s, depth) {
      return (s.tt[s.hash].0, s);
    }
    var moves := Moves(s.board, bound);
    var best, a, b, cur := Initial(maximizing), alpha, beta, s;
    var k := 0;
    while k < |moves|
      invariant 0 <= k <= |moves|
      invariant Kept(ctx, s, cur)
      invariant Improves(maximizing, Initial(maximizing), best)
      invariant depth < ctx.maxDepth || (depth == ctx.maxDepth && best == Initial(maximizing)) ==> cur.choice == s.choice
      invariant depth == ctx.maxDepth && best != Initial(maximizing) ==>
        && cur.choice.boardValue == best
        && (cur.choice.currentI, cur.choice.currentJ) in bound
        && IsPositionEmpty(s.board, cur.choice.currentI, cur.choice.currentJ)
        && cur.choice.ourScore == bound[(cur.choice.currentI, cur.choice.currentJ)]
      decreases |moves| - k
    {
      var v := Visit(ctx, cur, depth, value, bound, a, b, maximizing, moves[k].0, moves[k].1, best);
      assert Improves(maximizing, Initial(maximizing), v.best) && (v.best == Initial(maximizing) ==> best == v.best) by {
        if maximizing { LessChain(Initial(maximizing), best, v.best); } else { LessChain(v.best, best, Initial(maximizing)); }
      }
      best, a, b, cur := v.best, v.alpha, v.beta, v.state;
      k := k + 1;
      if LessEq(b, a) {
        break;
      }
    }
    r := (best, cur.(tt := UpdateTTable(cur.tt, cur.hash, best, depth)));
  }

  /** The best value so far, the window and the state after one child. */
  datatype Visited = Visited(best: Ext, alpha: Ext, beta: Ext, state: State)

  /** The best value moves only towards the side to move. */
  predicate Improves(maximizing: bool, best: Ext, best': Ext)
  {
    if maximizing then LessEq(best, best') else LessEq(best', best)
  }

  /** One pass of the loop body in `alphaBetaPruning`: search the child
      `(i, j)`, then settle its value. */
  method Visit(ctx: Context, s: State, depth: int, value: Ext, bound: Bound, alpha: Ext, beta: Ext,
               maximizing: bool, i: int, j: int, best: Ext) returns (v: Visited)
    requires Valid(ctx, s) && depth > 0
    requires (i, j) in bound && IsPositionEmpty(s.board, i, j)
    ensures Kept(ctx, s, v.state)
    ensures Improves(maximizing, best, v.best)
    ensures depth < ctx.maxDepth || (depth == ctx.maxDepth && v.best == best) ==> v.state.choice == s.choice
    ensures depth == ctx.maxDepth && v.best != best ==>
      v.state.choice.boardValue == v.best && v.state.choice.currentI == i && v.state.choice.currentJ == j
      && v.state.choice.ourScore == bound[(i, j)]
    decreases depth, 0
  {
    var c := Descend(ctx, s, value, bound, i, j, maximizing);
    var r := AlphaBeta(ctx, c.state, depth - 1, c.value, c.bound, alpha, beta, !maximizing);
    v := Settle(ctx, s, c, r.0, r.1, depth, bound, alpha, beta, maximizing, i, j, best);
  }

  /** The rest of the loop body once the child `(i, j)` has been searched
      to `eval` in state `t`: keep the better value, record the root's
      choice when the value improves at the root depth, narrow the window
      and take the stone back. */
  function Settle(ctx: Context, s: State, c: Child, eval: Ext, t: State, depth: int, bound: Bound,
                  alpha: Ext, beta: Ext, maximizing: bool, i: int, j: int, best: Ext): (v: Visited)
    requires Valid(ctx, s) && (i, j) in bound && IsPositionEmpty(s.board, i, j)
    requires c.state.board == SetCell(s.board, i, j, Player(maximizing))
    requires c.state.hash == Toggle(ctx.z, s.hash, i, j, Player(maximizing))
    requires c.state.tt == s.tt && c.state.tracker.moveCount == s.tracker.moveCount + 1
    requires Kept(ctx, c.state, t)
    requires depth - 1 < ctx.maxDepth ==> t.choice == s.choice
    ensures Kept(ctx, s, v.state)
    ensures Improves(maximizing, best, v.best)
    ensures depth < ctx.maxDepth || (depth == ctx.maxDepth && v.best == best) ==> v.state.choice == s.choice
    ensures depth == ctx.maxDepth && v.best != best ==>
      v.state.choice.boardValue == v.best && v.state.choice.currentI == i && v.state.choice.currentJ == j
      && v.state.choice.ourScore == bound[(i, j)]
  {
    var better := if maximizing then Less(best, eval) else Less(eval, best);
    var best' := if better then eval else best;
    var choice := if better && depth == ctx.maxDepth then Choice(i, j, bound[(i, j)], eval, c.bound) else t.choice;
    var s' := Undo(ctx, t.(choice := choice), i, j, maximizing);
    UndoRestores(ctx, s, t.(choice := choice), i, j, maximizing);
    assert Improves(maximizing, best, best') && (better <==> best' != best) by { LessTotal(best, eval); }
    Visited(best', if maximizing then Max(alpha, eval) else alpha, if maximizing then beta else Min(beta, eval), s')
  }
}
