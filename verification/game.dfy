/** The engine as the game drives it: a fresh `GomokuAI`, `setState`,
    the opening `firstMove`, and the moves the driver in play_analysis.py
    plays on it, with the bookkeeping of `rollingHash` and `emptyCells`. */
module Game {
  import opened Scores
  import opened Board
  import opened Patterns
  import opened Evaluator
  import opened Frontier
  import opened Zobrist
  import opened Search
  import Pixels

  /** The attributes of a `GomokuAI` the model keeps: the search depth, the
      board, the move counters of `updateBound`, the root choice
      (`currentI`, `currentJ`, `ourScore`, `boardValue`, `nextBound`),
      `turn`, `lastPlayed`, `emptyCells`, the pattern dictionary, the
      Zobrist keys, `rollingHash` and the transposition table. */
  datatype Engine = Engine(depth: int, board: Grid, tracker: Tracker, choice: Choice, turn: int,
                           lastPlayed: int, emptyCells: int, dict: Dict, z: ZTable, hash: nat, tt: TTable)

  predicate Sound(e: Engine)
  {
    WellFormed(e.board) && ZWellFormed(e.z)
  }

  // ----- counting empty cells -----

  /** How many of `cells` are empty on `g`. */
  function EmptyAmong(g: Grid, cells: seq<Pos>): (n: nat)
    requires WellFormed(g) && OnBoard(cells)
    ensures n <= |cells|
  {
    if |cells| == 0 then 0
    else
      assert OnBoard(cells[1..]) by {
        forall t | 0 <= t < |cells[1..]| ensures InBoard(cells[1..][t].0, cells[1..][t].1) { assert cells[1..][t] == cells[t + 1]; }
      }
      (if g[cells[0].0][cells[0].1] == 0 then 1 else 0) + EmptyAmong(g, cells[1..])
  }

  lemma NoDupTail(cells: seq<Pos>)
    requires |cells| > 0 && NoDup(cells)
    ensures NoDup(cells[1..]) && cells[0] !in cells[1..]
  {
    forall a, b | 0 <= a < b < |cells[1..]| ensures cells[1..][a] != cells[1..][b] {
      assert cells[1..][a] == cells[a + 1] && cells[1..][b] == cells[b + 1];
    }
    forall t | 0 <= t < |cells[1..]| ensures cells[1..][t] != cells[0] {
      assert cells[1..][t] == cells[t + 1];
    }
  }

  /** None of the cells is empty exactly when the count is zero. */
  lemma {:induction false} EmptyAmongZero(g: Grid, cells: seq<Pos>)
    requires WellFormed(g) && OnBoard(cells)
    ensures EmptyAmong(g, cells) == 0 <==> forall t :: 0 <= t < |cells| ==> g[cells[t].0][cells[t].1] != 0
  {
    if |cells| > 0 {
      EmptyAmongZero(g, cells[1..]);
      assert forall t :: 1 <= t < |cells| ==> cells[t] == cells[1..][t - 1];
    }
  }

  /** Placing a stone on an empty cell among distinct cells lowers the
      count by one; elsewhere it leaves the count alone. */
  lemma {:induction false} EmptyAmongPlace(g: Grid, cells: seq<Pos>, i: int, j: int, s: int)
    requires WellFormed(g) && OnBoard(cells) && NoDup(cells)
    requires InBoard(i, j) && g[i][j] == 0 && (s == 1 || s == -1)
    ensures EmptyAmong(SetCell(g, i, j, s), cells) == EmptyAmong(g, cells) - (if (i, j) in cells then 1 else 0)
  {
    if |cells| > 0 {
      NoDupTail(cells);
      EmptyAmongPlace(g, cells[1..], i, j, s);
      assert (i, j) in cells <==> (i, j) == cells[0] || (i, j) in cells[1..] by {
        assert cells == [cells[0]] + cells[1..];
      }
    }
  }

  /** The number of empty cells on the board. */
  function EmptyCount(g: Grid): (n: nat)
    requires WellFormed(g)
    ensures n <= N * N
  {
    AllCellsOnBoard();
    EmptyAmong(g, AllCells())
  }

  /** The board is full exactly when no cell is empty. */
  lemma EmptyCountZero(g: Grid)
    requires WellFormed(g)
    ensures EmptyCount(g) == 0 <==> forall i, j :: InBoard(i, j) ==> g[i][j] != 0
  {
    var cells := AllCells();
    AllCellsOnBoard();
    EmptyAmongZero(g, cells);
    if EmptyCount(g) == 0 {
      forall i, j | InBoard(i, j) ensures g[i][j] != 0 {
        assert (i, j) in cells;
        var t :| 0 <= t < |cells| && cells[t] == (i, j);
      }
    }
  }

  /** A move on an empty cell lowers the count by one. */
  lemma EmptyCountPlace(g: Grid, i: int, j: int, s: int)
    requires WellFormed(g) && InBoard(i, j) && g[i][j] == 0 && (s == 1 || s == -1)
    ensures EmptyCount(SetCell(g, i, j, s)) == EmptyCount(g) - 1
  {
    AllCellsOnBoard();
    assert (i, j) in AllCells();
    EmptyAmongPlace(g, AllCells(), i, j, s);
  }

  /** Every cell of an all-empty list counts. */
  lemma {:induction false} EmptyAmongAll(g: Grid, cells: seq<Pos>)
    requires WellFormed(g) && OnBoard(cells)
    requires forall t :: 0 <= t < |cells| ==> g[cells[t].0][cells[t].1] == 0
    ensures EmptyAmong(g, cells) == |cells|
  {
    if |cells| > 0 {
      assert forall t :: 0 <= t < |cells[1..]| ==> cells[1..][t] == cells[t + 1];
      EmptyAmongAll(g, cells[1..]);
    }
  }

  /** All N * N cells of the empty board are empty. */
  lemma EmptyCountEmpty()
    ensures EmptyCount(EmptyGrid()) == N * N
  {
    AllCellsOnBoard();
    EmptyAmongAll(EmptyGrid(), AllCells());
  }

  // ----- the engine's bookkeeping -----

  /** `rollingHash` is the Zobrist hash of the board and `emptyCells` the
      number of empty cells: what the incremental updates after each move
      are there to keep. */
  predicate Synced(e: Engine)
    requires Sound(e)
  {
    e.hash == ZHash(e.z, e.board) && e.emptyCells == EmptyCount(e.board)
  }

  /** The engine `GomokuAI(depth)` builds, with the random Zobrist keys
      `z` of `init_zobrist` and the pattern dictionary `d` as parameters:
      an empty board whose hash and count of empty cells are in step with
      it, and no candidates, counters or table entries yet. */
  function Fresh(depth: int, z: ZTable, d: Dict): (e: Engine)
    requires ZWellFormed(z)
    ensures Sound(e) && Synced(e) && Searchable(e)
    ensures forall i, j :: InBoard(i, j) ==> e.board[i][j] == 0
    ensures e.emptyCells == N * N
  {
    var g := EmptyGrid();
    EmptyHash(z);
    EmptyCountEmpty();
    Engine(depth, g, Tracker(0, None), Choice(-1, -1, -1, Fin(0), map[]), 0, 0, N * N, d, z, 0, map[])
  }

  /** `GomokuAI(depth)`: the fresh engine with the dictionary of
      `create_pattern_dict()`. */
  method NewEngine(depth: int, z: ZTable) returns (e: Engine)
    requires ZWellFormed(z)
    ensures Sound(e) && Synced(e) && e.emptyCells == N * N
    ensures e.dict == CreatePatternDict() && DistinctKeys(e.dict)
  {
    var d := CreatePatternDict();
    e := Fresh(depth, z, d);
  }

  /** `setState(i, j, state)`: `None` where the source's assertion on
      `state` fails; otherwise the cell holds `state`, `lastPlayed` is
      `state`, and nothing else changes. */
  function SetState(e: Engine, i: int, j: int, state: int): (r: Option<Engine>)
    requires Sound(e) && InBoard(i, j)
    ensures r.Some? <==> IsState(state)
    ensures r.Some? ==> Sound(r.value) && r.value.lastPlayed == state
    ensures r.Some? ==> r.value.board[i][j] == state
    ensures r.Some? ==> forall a, b :: InBoard(a, b) && (a, b) != (i, j) ==> r.value.board[a][b] == e.board[a][b]
    ensures r.Some? ==> r.value.(board := e.board, lastPlayed := e.lastPlayed) == e
  {
    if IsState(state) then Some(e.(board := SetCell(e.board, i, j, state), lastPlayed := state)) else None
  }

  /** Can the search start from this engine: the search's validity of its
      context and state. */
  predicate Searchable(e: Engine)
  {
    Valid(Context(e.depth, e.lastPlayed, e.emptyCells, e.dict, e.z),
          State(e.board, e.hash, e.tt, e.tracker, e.choice))
  }

  /** `firstMove()` as written: the engine's stone in the centre, with
      neither `rollingHash` nor `emptyCells` updated. */
  function FirstMove(e: Engine): (r: Engine)
    requires Sound(e)
    ensures Sound(r) && Searchable(r)
    ensures r.board == SetCell(e.board, 7, 7, 1) && r.lastPlayed == 1
    ensures (r.choice.currentI, r.choice.currentJ) == (7, 7)
    ensures r.hash == e.hash && r.emptyCells == e.emptyCells
  {
    SetState(e.(choice := e.choice.(currentI := 7, currentJ := 7)), 7, 7, 1).value
  }

  /** After the opening as written, `emptyCells` counts one empty cell too
      many, and `rollingHash` misses the centre's key. */
  lemma FirstMoveDrifts(e: Engine)
    requires Sound(e) && Synced(e) && e.board[7][7] == 0
    ensures FirstMove(e).emptyCells == EmptyCount(FirstMove(e).board) + 1
    ensures FirstMove(e).hash == Xor(ZHash(e.z, FirstMove(e).board), e.z[7][7][0])
  {
    var g := FirstMove(e).board;
    EmptyCountPlace(e.board, 7, 7, 1);
    PlaceHash(e.z, e.board, 7, 7, 1);
    var h, k := ZHash(e.z, e.board), e.z[7][7][0];
    XorAssoc(h, k, k);
    XorSelf(k);
  }

  /** With `emptyCells` one too high, a full board on which nobody has
      five is not reported as a draw: `checkResult()` answers `None`. */
  lemma FullBoardMissesDraw(e: Engine)
    requires Sound(e) && Searchable(e)
    requires e.emptyCells == EmptyCount(e.board) + 1
    requires forall i, j :: InBoard(i, j) ==> e.board[i][j] != 0
    requires !((e.lastPlayed == 1 || e.lastPlayed == -1) && FiveThrough(e.board, e.choice.currentI, e.choice.currentJ, e.lastPlayed))
    ensures CheckResult(e.board, e.choice.currentI, e.choice.currentJ, e.lastPlayed, e.emptyCells) == None
  {
    EmptyCountZero(e.board);
    CheckResultIff(e.board, e.choice.currentI, e.choice.currentJ, e.lastPlayed, e.emptyCells);
  }

  /** With the counter in step, the same full board is the draw 0. */
  lemma FullBoardIsDraw(e: Engine)
    requires Sound(e) && Searchable(e) && Synced(e)
    requires forall i, j :: InBoard(i, j) ==> e.board[i][j] != 0
    requires !((e.lastPlayed == 1 || e.lastPlayed == -1) && FiveThrough(e.board, e.choice.currentI, e.choice.currentJ, e.lastPlayed))
    ensures CheckResult(e.board, e.choice.currentI, e.choice.currentJ, e.lastPlayed, e.emptyCells) == Some(0)
  {
    EmptyCountZero(e.board);
    CheckResultIff(e.board, e.choice.currentI, e.choice.currentJ, e.lastPlayed, e.emptyCells);
  }

  /** The opening as evidently intended: `firstMove()` followed by the
      same bookkeeping as every other engine move, so a synced engine
      stays synced. */
  function FixedFirstMove(e: Engine): (r: Engine)
    requires Sound(e)
    ensures Sound(r) && Searchable(r)
    ensures r.board == SetCell(e.board, 7, 7, 1) && r.lastPlayed == 1
    ensures (r.choice.currentI, r.choice.currentJ) == (7, 7)
    ensures Synced(e) && e.board[7][7] == 0 ==> Synced(r)
  {
    var r := FirstMove(e);
    if Synced(e) && e.board[7][7] == 0 then
      EmptyCountPlace(e.board, 7, 7, 1);
      PlaceHash(e.z, e.board, 7, 7, 1);
      r.(hash := Toggle(e.z, r.hash, 7, 7, 1), emptyCells := r.emptyCells - 1)
    else
      r.(hash := Toggle(e.z, r.hash, 7, 7, 1), emptyCells := r.emptyCells - 1)
  }

  // ----- the moves of the driver -----

  /** The engine's opening in play_analysis.py as written: `firstMove`,
      then the turn passes to the human. The centre stone is placed, but
      `rollingHash` and `emptyCells` stay as they were, so a synced engine
      drifts out of step (`FirstMoveDrifts`). */
  method Opening(e: Engine) returns (r: Engine)
    requires Sound(e) && e.turn == 1
    ensures Sound(r) && Searchable(r) && r.turn == -1
    ensures r.board == SetCell(e.board, 7, 7, 1)
    ensures (r.choice.currentI, r.choice.currentJ) == (7, 7)
    ensures r.hash == e.hash && r.emptyCells == e.emptyCells
    ensures Synced(e) && e.board[7][7] == 0 ==> !Synced(r)
  {
    r := FirstMove(e);
    if Synced(e) && e.board[7][7] == 0 {
      FirstMoveDrifts(e);
    }
    r := r.(turn := -r.turn);
  }

  /** The opening as evidently intended: the first move updates
      `rollingHash` and `emptyCells` like every other engine move, so a
      synced engine stays synced. */
  method FixedOpening(e: Engine) returns (r: Engine)
    requires Sound(e) && e.turn == 1
    ensures Sound(r) && Searchable(r) && r.turn == -1
    ensures r.board == SetCell(e.board, 7, 7, 1)
    ensures (r.choice.currentI, r.choice.currentJ) == (7, 7)
    ensures Synced(e) && e.board[7][7] == 0 ==> Synced(r)
  {
    r := FixedFirstMove(e);
    r := r.(turn := -r.turn);
  }

  /** The engine's move `(i, j)` in play_analysis.py: `setState`, the
      engine's key toggled into `rollingHash`, one empty cell fewer, and
      the turn passes. On an empty cell a synced engine stays synced. */
  method EngineMove(e: Engine, i: int, j: int) returns (r: Engine)
    requires Sound(e) && InBoard(i, j) && e.turn == 1
    ensures Sound(r) && r.turn == -1 && r.lastPlayed == 1
    ensures r.board == SetCell(e.board, i, j, 1)
    ensures r.hash == Toggle(e.z, e.hash, i, j, 1) && r.emptyCells == e.emptyCells - 1
    ensures r.choice == e.choice && r.tracker == e.tracker && r.tt == e.tt
    ensures Synced(e) && e.board[i][j] == 0 ==> Synced(r)
  {
    r := SetState(e, i, j, 1).value;
    r := r.(hash := Toggle(e.z, e.hash, i, j, 1), emptyCells := e.emptyCells - 1, turn := -e.turn);
    if Synced(e) && e.board[i][j] == 0 {
      EmptyCountPlace(e.board, i, j, 1);
      PlaceHash(e.z, e.board, i, j, 1);
    }
  }

  /** The human's move `(i, j)` in play_analysis.py. A cell that is not
      valid and empty is ignored. Otherwise `updateBound` grows the
      engine's candidates (before the stone is placed, while `lastPlayed`
      still names the engine), `evaluate` moves the board value by the
      weight of the human's move, the move becomes the current cell, the
      stone is placed with the human's key toggled into `rollingHash`, and
      the turn passes. */
  method HumanMove(e: Engine, i: int, j: int) returns (r: Engine)
    requires Sound(e) && e.turn == -1
    ensures !IsValid(e.board, i, j, true) ==> r == e
    ensures IsValid(e.board, i, j, true) ==>
      && Sound(r) && Searchable(r) && r.turn == 1 && r.lastPlayed == -1
      && r.board == SetCell(e.board, i, j, -1)
      && r.hash == Toggle(e.z, e.hash, i, j, -1) && r.emptyCells == e.emptyCells - 1
      && (r.choice.currentI, r.choice.currentJ) == (i, j)
      && r.choice.boardValue == Plus(e.choice.boardValue, WorthGain(e.board, i, j, -1, e.dict))
      && r.tracker.moveCount == e.tracker.moveCount + 1
      && (Synced(e) ==> Synced(r))
  {
    if !IsValid(e.board, i, j, true) {
      return e;
    }
    var grown := UpdateBound(e.board, e.choice.nextBound, e.lastPlayed, e.tracker, i, j);
    var ev := Evaluate(e.board, i, j, e.choice.boardValue, -1, grown.bound, e.dict);
    var choice := e.choice.(currentI := i, currentJ := j, boardValue := ev.value, nextBound := ev.bound);
    r := e.(tracker := grown.tracker, choice := choice);
    r := SetState(r, i, j, -1).value;
    r := r.(hash := Toggle(e.z, e.hash, i, j, -1), emptyCells := e.emptyCells - 1, turn := -e.turn);
    if Synced(e) {
      EmptyCountPlace(e.board, i, j, -1);
      PlaceHash(e.z, e.board, i, j, -1);
    }
  }

  /** A click at pixel `(x, y)` on the human's turn: `pos_pixel2map` finds
      the cell whose gaps hold the pixel, and the move is played there if
      that cell is empty. */
  method HumanClick(e: Engine, x: int, y: int) returns (r: Engine)
    requires Sound(e) && e.turn == -1
    ensures exists i, j :: && Pixels.Located(Pixels.Points(), y, i) && Pixels.Located(Pixels.Points(), x, j)
                           && InBoard(i, j)
                           && (e.board[i][j] != 0 ==> r == e)
                           && (e.board[i][j] == 0 ==> r.board == SetCell(e.board, i, j, -1) && r.turn == 1)
  {
    var i, j := Pixels.PosPixel2Map(x, y);
    r := HumanMove(e, i, j);
  }
}
