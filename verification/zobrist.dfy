/** Zobrist hashing of positions and the transposition table
    (`init_zobrist` and `update_TTable` in source/utils.py, and the
    `rollingHash` updates in source/AI.py). */
module Zobrist {
  import opened Scores
  import opened Board
  import opened Frontier

  // ----- exclusive-or on Python integers -----

  /** Python's `^` on non-negative integers, bit by bit from the lowest. */
  function Xor(a: nat, b: nat): nat
    decreases a + b
  {
    if a == 0 then b
    else if b == 0 then a
    else 2 * Xor(a / 2, b / 2) + (if a % 2 == b % 2 then 0 else 1)
  }

  /** Bit by bit: the low bit is the exclusive-or of the low bits and the
      rest is the exclusive-or of the rest. */
  lemma XorBits(a: nat, b: nat)
    ensures Xor(a, b) / 2 == Xor(a / 2, b / 2)
    ensures Xor(a, b) % 2 == if a % 2 == b % 2 then 0 else 1
  {
    if a == 0 {
      assert Xor(a / 2, b / 2) == b / 2;
    } else if b == 0 {
      assert Xor(a / 2, b / 2) == a / 2;
    }
  }

  /** Two numbers with the same low bit and the same other bits are equal. */
  lemma SameBits(x: nat, y: nat)
    requires x / 2 == y / 2 && x % 2 == y % 2
    ensures x == y
  {
  }

  lemma {:induction false} XorSelf(a: nat)
    ensures Xor(a, a) == 0
    decreases a
  {
    if a > 0 {
      XorSelf(a / 2);
    }
  }

  lemma {:induction false} XorComm(a: nat, b: nat)
    ensures Xor(a, b) == Xor(b, a)
    decreases a + b
  {
    if a > 0 && b > 0 {
      XorComm(a / 2, b / 2);
    }
  }

  lemma {:induction false} XorAssoc(a: nat, b: nat, c: nat)
    ensures Xor(Xor(a, b), c) == Xor(a, Xor(b, c))
    decreases a + b + c
  {
    if a + b + c > 0 {
      var l, r := Xor(Xor(a, b), c), Xor(a, Xor(b, c));
      XorBits(Xor(a, b), c);
      XorBits(a, b);
      XorBits(a, Xor(b, c));
      XorBits(b, c);
      XorAssoc(a / 2, b / 2, c / 2);
      SameBits(l, r);
    }
  }

  // ----- keys and toggling -----

  /** `uuid4().int` values are below 2^128. */
  const KeyLimit: nat := 0x1_0000_0000_0000_0000_0000_0000_0000_0000

  /** One random key per cell and player: `z[i][j][0]` for the engine,
      `z[i][j][1]` for the human. The table is a parameter because
      `init_zobrist` draws it at random. */
  type ZTable = seq<seq<seq<nat>>>

  predicate ZWellFormed(z: ZTable)
  {
    && |z| == N
    && (forall i :: 0 <= i < N ==> |z[i]| == N)
    && (forall i, j :: 0 <= i < N && 0 <= j < N ==> |z[i][j]| == 2)
    && (forall i, j, k :: 0 <= i < N && 0 <= j < N && 0 <= k < 2 ==> z[i][j][k] < KeyLimit)
  }

  /** Which key a player's stone uses: 0 for the engine, 1 for the human. */
  function KeyIndex(s: int): (k: int)
    ensures k == 0 || k == 1
    ensures s == 1 <==> k == 0
  {
    if s == 1 then 0 else 1
  }

  /** `rollingHash ^= zobristTable[i][j][index]`: placing or removing a
      stone of player `s` at `(i, j)`. */
  function Toggle(z: ZTable, h: nat, i: int, j: int, s: int): nat
    requires ZWellFormed(z) && InBoard(i, j)
  {
    Xor(h, z[i][j][KeyIndex(s)])
  }

  /** Undoing a move restores the hash. */
  lemma ToggleTwice(z: ZTable, h: nat, i: int, j: int, s: int)
    requires ZWellFormed(z) && InBoard(i, j)
    ensures Toggle(z, Toggle(z, h, i, j, s), i, j, s) == h
  {
    var k := z[i][j][KeyIndex(s)];
    XorAssoc(h, k, k);
    XorSelf(k);
  }

  /** Two moves toggle the hash to the same value in either order, so
      transposed move orders reach one hash. */
  lemma ToggleCommutes(z: ZTable, h: nat, i: int, j: int, s: int, i': int, j': int, s': int)
    requires ZWellFormed(z) && InBoard(i, j) && InBoard(i', j')
    ensures Toggle(z, Toggle(z, h, i, j, s), i', j', s') == Toggle(z, Toggle(z, h, i', j', s'), i, j, s)
  {
    var k, k' := z[i][j][KeyIndex(s)], z[i'][j'][KeyIndex(s')];
    XorAssoc(h, k, k');
    XorAssoc(h, k', k);
    XorComm(k, k');
  }

  // ----- the hash of a board -----

  /** The key a cell contributes: its stone's key, or 0 when empty. */
  function CellKey(z: ZTable, g: Grid, p: Pos): nat
    requires ZWellFormed(z) && WellFormed(g) && InBoard(p.0, p.1)
  {
    if g[p.0][p.1] == 0 then 0 else z[p.0][p.1][KeyIndex(g[p.0][p.1])]
  }

  /** The exclusive-or of a list of keys. */
  function XorAll(ks: seq<nat>): nat
  {
    if |ks| == 0 then 0 else Xor(ks[0], XorAll(ks[1..]))
  }

  /** Setting a zero entry to `k` toggles `k` in the exclusive-or. */
  lemma {:induction false} XorAllUpdate(ks: seq<nat>, t: int, k: nat)
    requires 0 <= t < |ks| && ks[t] == 0
    ensures XorAll(ks[t := k]) == Xor(XorAll(ks), k)
  {
    var ks' := ks[t := k];
    var x := XorAll(ks[1..]);
    if t == 0 {
      assert ks'[1..] == ks[1..];
      XorComm(k, x);
    } else {
      assert ks'[1..] == ks[1..][t - 1 := k];
      XorAllUpdate(ks[1..], t - 1, k);
      XorAssoc(ks[0], x, k);
    }
  }

  /** A list of zero keys has exclusive-or 0. */
  lemma {:induction false} XorAllZero(ks: seq<nat>)
    requires forall t :: 0 <= t < |ks| ==> ks[t] == 0
    ensures XorAll(ks) == 0
  {
    if |ks| > 0 {
      XorAllZero(ks[1..]);
    }
  }

  predicate OnBoard(cells: seq<Pos>)
  {
    forall t :: 0 <= t < |cells| ==> InBoard(cells[t].0, cells[t].1)
  }

  /** The keys of `cells`, in order. */
  function Keys(z: ZTable, g: Grid, cells: seq<Pos>): (ks: seq<nat>)
    requires ZWellFormed(z) && WellFormed(g) && OnBoard(cells)
    ensures |ks| == |cells|
    ensures forall t :: 0 <= t < |ks| ==> ks[t] == CellKey(z, g, cells[t])
  {
    seq(|cells|, t requires 0 <= t < |cells| => CellKey(z, g, cells[t]))
  }

  lemma AllCellsOnBoard()
    ensures OnBoard(AllCells()) && NoDup(AllCells())
  {
    var cells := AllCells();
    forall t | 0 <= t < |cells| ensures InBoard(cells[t].0, cells[t].1) { assert cells[t] in cells; }
    forall a, b | 0 <= a < b < |cells| ensures cells[a] != cells[b] { assert LexLess(cells[a], cells[b]); }
  }

  /** The Zobrist hash of a board, over its cells row by row: the value
      the game keeps in `rollingHash`. */
  function ZHash(z: ZTable, g: Grid): nat
    requires ZWellFormed(z) && WellFormed(g)
  {
    AllCellsOnBoard();
    XorAll(Keys(z, g, AllCells()))
  }

  /** Placing a stone on an empty cell changes exactly that cell's key. */
  lemma KeysPlace(z: ZTable, g: Grid, cells: seq<Pos>, i: int, j: int, s: int) returns (t: int)
    requires ZWellFormed(z) && WellFormed(g) && InBoard(i, j) && g[i][j] == 0 && (s == 1 || s == -1)
    requires OnBoard(cells) && NoDup(cells) && (i, j) in cells
    ensures 0 <= t < |cells| && Keys(z, g, cells)[t] == 0
    ensures Keys(z, SetCell(g, i, j, s), cells) == Keys(z, g, cells)[t := z[i][j][KeyIndex(s)]]
  {
    t :| 0 <= t < |cells| && cells[t] == (i, j);
    var ks, ks' := Keys(z, g, cells), Keys(z, SetCell(g, i, j, s), cells);
    forall u | 0 <= u < |ks| ensures ks'[u] == ks[t := z[i][j][KeyIndex(s)]][u]
    {
      if u != t {
        assert cells[u] != cells[t];
      }
    }
  }

  /** Making a move on an empty cell toggles that cell's key, so the
      game's `rollingHash ^= zobristTable[i][j][index]` after each move
      keeps `rollingHash` equal to the hash of the board. */
  lemma PlaceHash(z: ZTable, g: Grid, i: int, j: int, s: int)
    requires ZWellFormed(z) && WellFormed(g) && InBoard(i, j) && g[i][j] == 0 && (s == 1 || s == -1)
    ensures ZHash(z, SetCell(g, i, j, s)) == Toggle(z, ZHash(z, g), i, j, s)
  {
    AllCellsOnBoard();
    var t := KeysPlace(z, g, AllCells(), i, j, s);
    XorAllUpdate(Keys(z, g, AllCells()), t, z[i][j][KeyIndex(s)]);
  }

  /** The empty board hashes to 0, the initial `rollingHash`. */
  lemma EmptyHash(z: ZTable)
    requires ZWellFormed(z)
    ensures ZHash(z, EmptyGrid()) == 0
  {
    AllCellsOnBoard();
    XorAllZero(Keys(z, EmptyGrid(), AllCells()));
  }

  // ----- the transposition table -----

  /** `{hash: [score, depth]}` */
  type TTable = map<nat, (Ext, int)>

  /** `update_TTable(table, hash, score, depth)` */
  function UpdateTTable(t: TTable, h: nat, score: Ext, depth: int): (r: TTable)
    ensures h in r && r[h] == (score, depth)
    ensures forall k :: k != h ==> (k in r <==> k in t)
    ensures forall k :: k != h && k in t ==> r[k] == t[k]
  {
    t[h := (score, depth)]
  }

  /** A later store at the same hash replaces the earlier one, whatever
      the depths. */
  lemma UpdateTTableOverwrites(t: TTable, h: nat, s1: Ext, d1: int, s2: Ext, d2: int)
    ensures UpdateTTable(UpdateTTable(t, h, s1, d1), h, s2, d2) == UpdateTTable(t, h, s2, d2)
  {
  }
}
