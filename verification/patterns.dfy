/** The pattern catalogue of `create_pattern_dict` (source/utils.py): a table
    from stone configurations to signed scores, built by a fixed sequence of
    dictionary writes in which a later write to the same key wins. */
module Patterns {
  import opened Scores

  /** A configuration of 4 to 7 consecutive cells, read along one axis. */
  type Pattern = seq<int>

  /** One dictionary write `pattern_dict[k] = v`. */
  type Entry = (Pattern, int)

  /** A Python dictionary: entries in insertion order, keys pairwise distinct. */
  type Dict = seq<Entry>

  // Scoring tiers.
  const WIN: int := 10_000_000
  const CRITICAL: int := 1_000_000
  const HIGH: int := 100_000
  const MEDIUM: int := 10_000
  const LOW: int := 1_000

  predicate DistinctKeys(d: Dict)
  {
    forall a, b :: 0 <= a < b < |d| ==> d[a].0 != d[b].0
  }

  function KeySet(d: seq<Entry>): set<Pattern>
  {
    set t | 0 <= t < |d| :: d[t].0
  }

  lemma KeySetCons(x: Entry, d: seq<Entry>)
    ensures KeySet([x] + d) == {x.0} + KeySet(d)
  {
    var r := [x] + d;
    forall k | k in KeySet(r) ensures k in {x.0} + KeySet(d)
    {
      var t :| 0 <= t < |r| && r[t].0 == k;
      if t > 0 { assert d[t - 1].0 == k; }
    }
    forall k | k in KeySet(d) ensures k in KeySet(r)
    {
      var t :| 0 <= t < |d| && d[t].0 == k;
      assert r[t + 1].0 == k;
    }
    assert r[0].0 == x.0;
  }

  lemma KeySetAppend(d: seq<Entry>, e: seq<Entry>)
    ensures KeySet(d + e) == KeySet(d) + KeySet(e)
  {
    var r := d + e;
    forall k | k in KeySet(r) ensures k in KeySet(d) + KeySet(e)
    {
      var t :| 0 <= t < |r| && r[t].0 == k;
      if t >= |d| { assert e[t - |d|].0 == k; }
    }
    forall k | k in KeySet(d) ensures k in KeySet(r)
    {
      var t :| 0 <= t < |d| && d[t].0 == k;
      assert r[t].0 == k;
    }
    forall k | k in KeySet(e) ensures k in KeySet(r)
    {
      var t :| 0 <= t < |e| && e[t].0 == k;
      assert r[t + |d|].0 == k;
    }
  }

  /** `d.get(k)`: the value stored under `k`, if any. */
  function Lookup(d: Dict, k: Pattern): (r: Option<int>)
    ensures r.None? <==> k !in KeySet(d)
  {
    if |d| == 0 then None
    else
      KeySetCons(d[0], d[1..]);
      assert d == [d[0]] + d[1..];
      if d[0].0 == k then Some(d[0].1)
      else Lookup(d[1..], k)
  }

  /** `d[k] = v`: overwrite in place when `k` is present, append otherwise. */
  function Put(d: Dict, k: Pattern, v: int): (r: Dict)
    ensures KeySet(r) == KeySet(d) + {k}
    ensures k !in KeySet(d) ==> r == d + [(k, v)]
    ensures k in KeySet(d) ==> |r| == |d| && forall t :: 0 <= t < |d| ==> r[t].0 == d[t].0
  {
    if |d| == 0 then
      assert KeySet([(k, v)]) == {k} by { KeySetCons((k, v), []); }
      [(k, v)]
    else
      KeySetCons(d[0], d[1..]);
      assert d == [d[0]] + d[1..];
      if d[0].0 == k then
        KeySetCons((k, v), d[1..]);
        [(k, v)] + d[1..]
      else
        var rest := Put(d[1..], k, v);
        KeySetCons(d[0], rest);
        [d[0]] + rest
  }

  /** After `d[k] = v`, `k` holds `v` and every other key is unchanged. */
  lemma {:induction false} PutLookup(d: Dict, k: Pattern, v: int, k': Pattern)
    ensures Lookup(Put(d, k, v), k') == if k' == k then Some(v) else Lookup(d, k')
  {
    if |d| > 0 && d[0].0 != k {
      PutLookup(d[1..], k, v, k');
      var r := Put(d, k, v);
      assert r[1..] == Put(d[1..], k, v);
    } else if |d| > 0 {
      var r := Put(d, k, v);
      assert r[1..] == d[1..];
    }
  }

  lemma PutDistinct(d: Dict, k: Pattern, v: int)
    requires DistinctKeys(d)
    ensures DistinctKeys(Put(d, k, v))
  {
    var r := Put(d, k, v);
    if k !in KeySet(d) {
      forall a, b | 0 <= a < b < |r| ensures r[a].0 != r[b].0
      {
        if b == |d| { assert d[a].0 in KeySet(d); }
      }
    }
  }

  /** The dictionary produced by performing the writes `ws` in order on `{}`. */
  function Build(ws: seq<Entry>): (d: Dict)
    ensures DistinctKeys(d)
    ensures KeySet(d) == KeySet(ws)
  {
    if |ws| == 0 then []
    else
      var last := ws[|ws| - 1];
      KeySetAppend(ws[..|ws| - 1], [last]);
      KeySetCons(last, []);
      assert ws == ws[..|ws| - 1] + [last];
      PutDistinct(Build(ws[..|ws| - 1]), last.0, last.1);
      Put(Build(ws[..|ws| - 1]), last.0, last.1)
  }

  /** The write at index `t` is the last one to key `k`. */
  ghost predicate LastWrite(ws: seq<Entry>, k: Pattern, t: int)
  {
    0 <= t < |ws| && ws[t].0 == k && forall u :: t < u < |ws| ==> ws[u].0 != k
  }

  /** Last write wins: the dictionary maps `k` to `v` exactly when the last
      write to `k` wrote `v`. */
  lemma {:induction false} LastWriteWins(ws: seq<Entry>, k: Pattern, v: int)
    ensures Lookup(Build(ws), k) == Some(v) <==> exists t :: LastWrite(ws, k, t) && ws[t].1 == v
  {
    if |ws| > 0 {
      var n := |ws| - 1;
      var init := ws[..n];
      assert Build(ws) == Put(Build(init), ws[n].0, ws[n].1);
      PutLookup(Build(init), ws[n].0, ws[n].1, k);
      if ws[n].0 == k {
        assert LastWrite(ws, k, n);
        assert forall t :: LastWrite(ws, k, t) ==> t == n;
      } else {
        LastWriteWins(init, k, v);
        assert Lookup(Build(ws), k) == Lookup(Build(init), k);
        LastWriteInit(ws, k);
      }
    }
  }

  lemma LastWriteInit(ws: seq<Entry>, k: Pattern)
    requires |ws| > 0 && ws[|ws| - 1].0 != k
    ensures forall t :: LastWrite(ws, k, t) <==> LastWrite(ws[..|ws| - 1], k, t)
    ensures forall t :: 0 <= t < |ws| - 1 ==> ws[t] == ws[..|ws| - 1][t]
  {
  }

  lemma BuildSnoc(ws: seq<Entry>, x: Entry)
    ensures Build(ws + [x]) == Put(Build(ws), x.0, x.1)
  {
    assert (ws + [x])[..|ws|] == ws;
  }

  /** Writes appended after `a` decide every key they touch; the others keep
      the value `a` gave them. */
  lemma {:induction false} LookupAppend(a: seq<Entry>, b: seq<Entry>, k: Pattern)
    ensures Lookup(Build(a + b), k) ==
            if k in KeySet(b) then Lookup(Build(b), k) else Lookup(Build(a), k)
    decreases |b|
  {
    if |b| == 0 {
      assert a + b == a;
      assert KeySet(b) == {};
    } else {
      var n := |b| - 1;
      var b' := b[..n];
      var x := b[n];
      assert b == b' + [x];
      assert a + b == (a + b') + [x];
      LookupAppend(a, b', k);
      BuildSnoc(a + b', x);
      BuildSnoc(b', x);
      PutLookup(Build(a + b'), x.0, x.1, k);
      PutLookup(Build(b'), x.0, x.1, k);
      KeySetAppend(b', [x]);
      KeySetCons(x, []);
    }
  }

  /** A key is absent exactly when it was never written. */
  lemma NeverWritten(ws: seq<Entry>, k: Pattern)
    ensures Lookup(Build(ws), k) == None <==> forall t :: 0 <= t < |ws| ==> ws[t].0 != k
  {
  }

  /** Number of cells of `p` equal to `v`: `p.count(v)`. */
  function Count(p: Pattern, v: int): (r: nat)
    ensures r <= |p|
  {
    if |p| == 0 then 0 else (if p[0] == v then 1 else 0) + Count(p[1..], v)
  }

  /** The score of an edge pattern: 1.2 x MEDIUM when the player owns more than
      one of its cells, MEDIUM otherwise. */
  function EdgeScore(p: Pattern, player: int): int
  {
    if Count(p, player) > 1 then MEDIUM * 12 / 10 * player else MEDIUM * player
  }

  // The writes made by one pass of the `for player in [-1, 1]` loop, grouped
  // as the source groups them, in source order. `p` is the player, `o` the
  // opponent. Every fractional multiplier of the source yields an integer
  // here (0.9 x CRITICAL = 900000, ...), so the scores are exact.

  /** Five in a row. */
  function WinWrites(p: int): (r: seq<Entry>)
    ensures p == -1 || p == 1 ==> AllWellFormed(r)
  {
    [([p, p, p, p, p], WIN * p)]
  }

  /** Open and blocked fours. */
  function FourWrites(p: int): (r: seq<Entry>)
    ensures p == -1 || p == 1 ==> AllWellFormed(r)
  {
    var o := -p;
    [ ([0, p, p, p, p, 0], CRITICAL * p),
      ([p, p, p, p, 0], CRITICAL * 9 / 10 * p),
      ([0, p, p, p, p], CRITICAL * 9 / 10 * p),
      ([o, p, p, p, p, 0], CRITICAL * 9 / 10 * p),
      ([0, p, p, p, p, o], CRITICAL * 9 / 10 * p) ]
  }

  /** Gap fours. */
  function GapFourWrites(p: int): (r: seq<Entry>)
    ensures p == -1 || p == 1 ==> AllWellFormed(r)
  {
    [ ([p, 0, p, p, p], HIGH * 12 / 10 * p),
      ([p, p, 0, p, p], HIGH * 15 / 10 * p),
      ([p, p, p, 0, p], HIGH * 12 / 10 * p) ]
  }

  /** Double fours and triple threats. */
  function ForcingWrites(p: int): (r: seq<Entry>)
    ensures p == -1 || p == 1 ==> AllWellFormed(r)
  {
    [ ([p, 0, p, 0, p, p], CRITICAL * p),
      ([p, p, 0, p, 0, p], CRITICAL * p),
      ([p, 0, p, 0, p], HIGH * 18 / 10 * p),
      ([0, p, 0, p, 0], HIGH * 15 / 10 * p) ]
  }

  /** Open threes and gap threes. */
  function ThreeWrites(p: int): (r: seq<Entry>)
    ensures p == -1 || p == 1 ==> AllWellFormed(r)
  {
    [ ([0, p, p, p, 0], HIGH * 2 * p),
      ([0, 0, p, p, p, 0], HIGH * 15 / 10 * p),
      ([p, 0, p, p], MEDIUM * p),
      ([p, p, 0, p], MEDIUM * p) ]
  }

  /** Blocking the opponent's fours. */
  function BlockFourWrites(p: int): (r: seq<Entry>)
    ensures p == -1 || p == 1 ==> AllWellFormed(r)
  {
    var o := -p;
    [ ([0, o, o, o, o, 0], -CRITICAL * 25 / 10 * p),
      ([o, o, o, o, 0], -CRITICAL * 25 / 10 * p),
      ([0, o, o, o, o], -CRITICAL * 25 / 10 * p),
      ([p, o, o, o, o, 0], -CRITICAL * 2 * p),
      ([0, o, o, o, o, p], -CRITICAL * 2 * p),
      ([o, o, o, o, p], -CRITICAL * 2 * p),
      ([p, o, o, o, o], -CRITICAL * 2 * p) ]
  }

  /** Blocking the opponent's gap fours. */
  function BlockGapFourWrites(p: int): (r: seq<Entry>)
    ensures p == -1 || p == 1 ==> AllWellFormed(r)
  {
    var o := -p;
    [ ([o, 0, o, o, o], -WIN * 12 / 10 * p),
      ([o, o, 0, o, o], -WIN * 15 / 10 * p),
      ([0, o, 0, o, o, o], -WIN * 12 / 10 * p),
      ([0, o, o, 0, o, o], -WIN * 15 / 10 * p),
      ([0, o, 0, o, o, o, 0], -WIN * 12 / 10 * p),
      ([0, o, o, 0, o, o, 0], -WIN * 15 / 10 * p),
      ([o, 0, o, o, o, 0], -WIN * 12 / 10 * p),
      ([o, o, 0, o, o, 0], -WIN * 15 / 10 * p) ]
  }

  /** Twos with potential. */
  function TwoWrites(p: int): (r: seq<Entry>)
    ensures p == -1 || p == 1 ==> AllWellFormed(r)
  {
    [ ([0, p, p, 0], LOW * p),
      ([p, 0, 0, p], LOW * 8 / 10 * p) ]
  }

  /** Edge threats and corner sacrifices; the source writes the literal -1
      (the human) in these shapes, not the opponent. */
  function EdgeWrites(p: int): (r: seq<Entry>)
    ensures p == -1 || p == 1 ==> AllWellFormed(r)
  {
    [ ([0, 0, p, p, -1], EdgeScore([0, 0, p, p, -1], p)),
      ([-1, p, p, 0, 0], EdgeScore([-1, p, p, 0, 0], p)),
      ([0, p, -1, p, 0], EdgeScore([0, p, -1, p, 0], p)),
      ([p, -1, -1, 0, p], HIGH * 7 / 10 * p),
      ([-1, p, p, 0, -1], HIGH * 7 / 10 * p) ]
  }

  /** The groups of one pass, in source order. */
  function Sections(p: int): seq<seq<Entry>>
  {
    [ WinWrites(p), FourWrites(p), GapFourWrites(p), ForcingWrites(p), ThreeWrites(p),
      BlockFourWrites(p), BlockGapFourWrites(p), TwoWrites(p), EdgeWrites(p) ]
  }

  /** The groups `ss`, one after the other. */
  function Concat(ss: seq<seq<Entry>>): seq<Entry>
  {
    if |ss| == 0 then [] else Concat(ss[..|ss| - 1]) + ss[|ss| - 1]
  }

  /** All writes of one pass of the loop, in source order. */
  function Writes(p: int): seq<Entry>
  {
    Concat(Sections(p))
  }

  /** All writes of `create_pattern_dict`: the human pass, then the engine pass. */
  function AllWrites(): seq<Entry>
  {
    Writes(-1) + Writes(1)
  }

  /** `create_pattern_dict()` */
  function CreatePatternDict(): (d: Dict)
    ensures DistinctKeys(d)
  {
    Build(AllWrites())
  }

  predicate WellFormedPattern(p: Pattern)
  {
    4 <= |p| <= 7 && forall t :: 0 <= t < |p| ==> -1 <= p[t] <= 1
  }

  predicate AllWellFormed(ws: seq<Entry>)
  {
    forall t :: 0 <= t < |ws| ==> WellFormedPattern(ws[t].0)
  }

  lemma AllWellFormedAppend(a: seq<Entry>, b: seq<Entry>)
    requires AllWellFormed(a) && AllWellFormed(b)
    ensures AllWellFormed(a + b)
  {
    forall t | 0 <= t < |a + b| ensures WellFormedPattern((a + b)[t].0)
    {
      if t >= |a| { assert (a + b)[t] == b[t - |a|]; }
    }
  }

  lemma {:induction false} ConcatWellFormed(ss: seq<seq<Entry>>)
    requires forall m :: 0 <= m < |ss| ==> AllWellFormed(ss[m])
    ensures AllWellFormed(Concat(ss))
  {
    if |ss| > 0 {
      ConcatWellFormed(ss[..|ss| - 1]);
      AllWellFormedAppend(Concat(ss[..|ss| - 1]), ss[|ss| - 1]);
    }
  }

  lemma WritesWellFormed(p: int)
    requires p == -1 || p == 1
    ensures AllWellFormed(Writes(p))
  {
    SectionsWellFormed(p);
    ConcatWellFormed(Sections(p));
  }

  lemma SectionsWellFormed(p: int)
    requires p == -1 || p == 1
    ensures forall m :: 0 <= m < |Sections(p)| ==> AllWellFormed(Sections(p)[m])
  {
    SectionsAre(p);
  }

  /** Every key of the catalogue is a configuration of 4 to 7 cell states. */
  lemma CatalogueKeysWellFormed()
    ensures forall k :: k in KeySet(CreatePatternDict()) ==> WellFormedPattern(k)
  {
    WritesWellFormed(-1);
    WritesWellFormed(1);
    AllWellFormedAppend(Writes(-1), Writes(1));
  }

  /** A key is written by the groups exactly when one group writes it. */
  lemma {:induction false} ConcatKeys(ss: seq<seq<Entry>>, k: Pattern)
    ensures k in KeySet(Concat(ss)) <==> exists m :: 0 <= m < |ss| && k in KeySet(ss[m])
  {
    if |ss| > 0 {
      var init := ss[..|ss| - 1];
      ConcatKeys(init, k);
      KeySetAppend(Concat(init), ss[|ss| - 1]);
      if exists m :: 0 <= m < |ss| && k in KeySet(ss[m]) {
        var m :| 0 <= m < |ss| && k in KeySet(ss[m]);
        if m < |ss| - 1 { assert k in KeySet(init[m]); }
      }
    } else {
      assert KeySet(Concat(ss)) == {};
    }
  }

  /** The value left under `k` is decided by the last group that writes it. */
  lemma {:induction false} LookupConcat(ss: seq<seq<Entry>>, n: nat, k: Pattern)
    requires n < |ss|
    requires k in KeySet(ss[n])
    requires forall m :: n < m < |ss| ==> k !in KeySet(ss[m])
    ensures Lookup(Build(Concat(ss)), k) == Lookup(Build(ss[n]), k)
  {
    var init := ss[..|ss| - 1];
    LookupAppend(Concat(init), ss[|ss| - 1], k);
    if n < |ss| - 1 {
      LookupConcat(init, n, k);
    }
  }

  /** A key no group writes is left absent. */
  lemma NotInConcat(ss: seq<seq<Entry>>, k: Pattern)
    requires forall m :: 0 <= m < |ss| ==> k !in KeySet(ss[m])
    ensures Lookup(Build(Concat(ss)), k) == None
  {
    ConcatKeys(ss, k);
  }

  /** Entry `t` of group `n` is among the writes. */
  lemma {:induction false} ConcatMember(ss: seq<seq<Entry>>, n: nat, t: nat)
    requires n < |ss| && t < |ss[n]|
    ensures ss[n][t] in Concat(ss)
  {
    var init := ss[..|ss| - 1];
    if n < |ss| - 1 {
      ConcatMember(init, n, t);
      assert Concat(ss) == Concat(init) + ss[|ss| - 1];
    } else {
      assert Concat(ss) == Concat(init) + ss[n];
      assert Concat(ss)[|Concat(init)| + t] == ss[n][t];
    }
  }

  lemma SectionsAre(p: int)
    ensures |Sections(p)| == 9
    ensures Sections(p)[0] == WinWrites(p) && Sections(p)[1] == FourWrites(p)
    ensures Sections(p)[2] == GapFourWrites(p) && Sections(p)[3] == ForcingWrites(p)
    ensures Sections(p)[4] == ThreeWrites(p) && Sections(p)[5] == BlockFourWrites(p)
    ensures Sections(p)[6] == BlockGapFourWrites(p) && Sections(p)[7] == TwoWrites(p)
    ensures Sections(p)[8] == EdgeWrites(p)
  {
  }

  /** The value the engine pass leaves under a key whose last engine write is
      entry `t` of group `n`. */
  lemma EnginePassDecides(n: nat, t: nat, k: Pattern)
    requires n < 9 && t < |Sections(1)[n]| && Sections(1)[n][t].0 == k
    requires forall u :: t < u < |Sections(1)[n]| ==> Sections(1)[n][u].0 != k
    requires forall m :: n < m < 9 ==> k !in KeySet(Sections(1)[m])
    ensures Lookup(CreatePatternDict(), k) == Some(Sections(1)[n][t].1)
  {
    var s := Sections(1)[n];
    assert LastWrite(s, k, t);
    LastWriteWins(s, k, s[t].1);
    LookupConcat(Sections(1), n, k);
    ConcatKeys(Sections(1), k);
    LookupAppend(Writes(-1), Writes(1), k);
  }

  /** The value the human pass leaves under a key whose last write is entry
      `t` of its group `n` and which the engine pass never writes. */
  lemma HumanPassDecides(n: nat, t: nat, k: Pattern)
    requires n < 9 && t < |Sections(-1)[n]| && Sections(-1)[n][t].0 == k
    requires forall u :: t < u < |Sections(-1)[n]| ==> Sections(-1)[n][u].0 != k
    requires forall m :: n < m < 9 ==> k !in KeySet(Sections(-1)[m])
    requires forall m :: 0 <= m < 9 ==> k !in KeySet(Sections(1)[m])
    ensures Lookup(CreatePatternDict(), k) == Some(Sections(-1)[n][t].1)
  {
    var s := Sections(-1)[n];
    assert LastWrite(s, k, t);
    LastWriteWins(s, k, s[t].1);
    LookupConcat(Sections(-1), n, k);
    ConcatKeys(Sections(1), k);
    LookupAppend(Writes(-1), Writes(1), k);
  }

  /** The engine's five is written by no engine group after the first. */
  lemma EngineFiveLater()
    ensures forall m :: 0 < m < 9 ==> [1, 1, 1, 1, 1] !in KeySet(Sections(1)[m])
  {
    var k := [1, 1, 1, 1, 1];
    SectionsAre(1);
    assert k !in KeySet(FourWrites(1));
    assert k !in KeySet(GapFourWrites(1));
    assert k !in KeySet(ForcingWrites(1));
    assert k !in KeySet(ThreeWrites(1));
    assert k !in KeySet(BlockFourWrites(1));
    assert k !in KeySet(BlockGapFourWrites(1));
    assert k !in KeySet(TwoWrites(1));
    assert k !in KeySet(EdgeWrites(1));
  }

  /** The last write to [1, 1, 1, 1, 1] in group 0 of its pass. */
  lemma EngineFiveEntry()
    ensures |Sections(1)[0]| > 0 && Sections(1)[0][0] == ([1, 1, 1, 1, 1], WIN)
    ensures forall u :: 0 < u < |Sections(1)[0]| ==> Sections(1)[0][u].0 != [1, 1, 1, 1, 1]
  {
    var k := [1, 1, 1, 1, 1];
    assert Sections(1)[0] == WinWrites(1);
    assert WinWrites(1)[0] == (k, WIN);
  }

  /** The engine's five is worth WIN. */
  lemma CatalogueEngineFive()
    ensures Lookup(CreatePatternDict(), [1, 1, 1, 1, 1]) == Some(WIN)
  {
    var k := [1, 1, 1, 1, 1];
    EngineFiveEntry();
    EngineFiveLater();
    EnginePassDecides(0, 0, k);
  }

  /** The human's five is written by no human group after the first. */
  lemma HumanFiveLater()
    ensures forall m :: 0 < m < 9 ==> [-1, -1, -1, -1, -1] !in KeySet(Sections(-1)[m])
  {
    var k := [-1, -1, -1, -1, -1];
    SectionsAre(-1);
    assert k !in KeySet(FourWrites(-1));
    assert k !in KeySet(GapFourWrites(-1));
    assert k !in KeySet(ForcingWrites(-1));
    assert k !in KeySet(ThreeWrites(-1));
    assert k !in KeySet(BlockFourWrites(-1));
    assert k !in KeySet(BlockGapFourWrites(-1));
    assert k !in KeySet(TwoWrites(-1));
    assert k !in KeySet(EdgeWrites(-1));
  }

  /** The engine pass never writes the human's five. */
  lemma HumanFiveNotEngine()
    ensures forall m :: 0 <= m < 9 ==> [-1, -1, -1, -1, -1] !in KeySet(Sections(1)[m])
  {
    var k := [-1, -1, -1, -1, -1];
    SectionsAre(1);
    assert k !in KeySet(WinWrites(1));
    assert k !in KeySet(FourWrites(1));
    assert k !in KeySet(GapFourWrites(1));
    assert k !in KeySet(ForcingWrites(1));
    assert k !in KeySet(ThreeWrites(1));
    assert k !in KeySet(BlockFourWrites(1));
    assert k !in KeySet(BlockGapFourWrites(1));
    assert k !in KeySet(TwoWrites(1));
    assert k !in KeySet(EdgeWrites(1));
  }

  /** The last write to [-1, -1, -1, -1, -1] in group 0 of its pass. */
  lemma HumanFiveEntry()
    ensures |Sections(-1)[0]| > 0 && Sections(-1)[0][0] == ([-1, -1, -1, -1, -1], -WIN)
    ensures forall u :: 0 < u < |Sections(-1)[0]| ==> Sections(-1)[0][u].0 != [-1, -1, -1, -1, -1]
  {
    var k := [-1, -1, -1, -1, -1];
    assert Sections(-1)[0] == WinWrites(-1);
    assert WinWrites(-1)[0] == (k, -WIN);
  }

  /** The human's five is worth -WIN. */
  lemma CatalogueHumanFive()
    ensures Lookup(CreatePatternDict(), [-1, -1, -1, -1, -1]) == Some(-WIN)
  {
    var k := [-1, -1, -1, -1, -1];
    HumanFiveEntry();
    HumanFiveLater();
    HumanFiveNotEngine();
    HumanPassDecides(0, 0, k);
  }

  /** The engine's open four is written by no engine group after the fours. */
  lemma EngineOpenFourLater()
    ensures forall m :: 1 < m < 9 ==> [0, 1, 1, 1, 1, 0] !in KeySet(Sections(1)[m])
  {
    var k := [0, 1, 1, 1, 1, 0];
    SectionsAre(1);
    assert k !in KeySet(GapFourWrites(1));
    assert k !in KeySet(ForcingWrites(1));
    assert k !in KeySet(ThreeWrites(1));
    assert k !in KeySet(BlockFourWrites(1));
    assert k !in KeySet(BlockGapFourWrites(1));
    assert k !in KeySet(TwoWrites(1));
    assert k !in KeySet(EdgeWrites(1));
  }

  /** The last write to [0, 1, 1, 1, 1, 0] in group 1 of its pass. */
  lemma EngineOpenFourEntry()
    ensures |Sections(1)[1]| > 0 && Sections(1)[1][0] == ([0, 1, 1, 1, 1, 0], CRITICAL)
    ensures forall u :: 0 < u < |Sections(1)[1]| ==> Sections(1)[1][u].0 != [0, 1, 1, 1, 1, 0]
  {
    var k := [0, 1, 1, 1, 1, 0];
    assert Sections(1)[1] == FourWrites(1);
    assert FourWrites(1)[0] == (k, CRITICAL);
  }

  /** The engine's open four ends at CRITICAL, the engine pass's value. */
  lemma CatalogueEngineOpenFour()
    ensures Lookup(CreatePatternDict(), [0, 1, 1, 1, 1, 0]) == Some(CRITICAL)
  {
    var k := [0, 1, 1, 1, 1, 0];
    EngineOpenFourEntry();
    EngineOpenFourLater();
    EnginePassDecides(1, 0, k);
  }

  /** The human's open four is written by no engine group after the blocking fours. */
  lemma HumanOpenFourLater()
    ensures forall m :: 5 < m < 9 ==> [0, -1, -1, -1, -1, 0] !in KeySet(Sections(1)[m])
  {
    var k := [0, -1, -1, -1, -1, 0];
    SectionsAre(1);
    assert k !in KeySet(BlockGapFourWrites(1));
    assert k !in KeySet(TwoWrites(1));
    assert k !in KeySet(EdgeWrites(1));
  }

  /** The last write to [0, -1, -1, -1, -1, 0] in group 5 of its pass. */
  lemma HumanOpenFourEntry()
    ensures |Sections(1)[5]| > 0 && Sections(1)[5][0] == ([0, -1, -1, -1, -1, 0], -25 * CRITICAL / 10)
    ensures forall u :: 0 < u < |Sections(1)[5]| ==> Sections(1)[5][u].0 != [0, -1, -1, -1, -1, 0]
  {
    var k := [0, -1, -1, -1, -1, 0];
    assert Sections(1)[5] == BlockFourWrites(1);
    assert BlockFourWrites(1)[0] == (k, -25 * CRITICAL / 10);
  }

  /** The human's open four ends at the engine pass's blocking value -2.5 x CRITICAL. */
  lemma CatalogueHumanOpenFour()
    ensures Lookup(CreatePatternDict(), [0, -1, -1, -1, -1, 0]) == Some(-25 * CRITICAL / 10)
  {
    var k := [0, -1, -1, -1, -1, 0];
    HumanOpenFourEntry();
    HumanOpenFourLater();
    EnginePassDecides(5, 0, k);
  }

  /** The engine pass never writes the human's open three. */
  lemma HumanOpenThreeNotEngine()
    ensures forall m :: 0 <= m < 9 ==> [0, -1, -1, -1, 0] !in KeySet(Sections(1)[m])
  {
    var k := [0, -1, -1, -1, 0];
    SectionsAre(1);
    assert k !in KeySet(WinWrites(1));
    assert k !in KeySet(FourWrites(1));
    assert k !in KeySet(GapFourWrites(1));
    assert k !in KeySet(ForcingWrites(1));
    assert k !in KeySet(ThreeWrites(1));
    assert k !in KeySet(BlockFourWrites(1));
    assert k !in KeySet(BlockGapFourWrites(1));
    assert k !in KeySet(TwoWrites(1));
    assert k !in KeySet(EdgeWrites(1));
  }

  /** The last write to [0, -1, -1, -1, 0] in group 8 of its pass. */
  lemma HumanOpenThreeEntry()
    ensures |Sections(-1)[8]| > 2 && Sections(-1)[8][2] == ([0, -1, -1, -1, 0], -12 * MEDIUM / 10)
    ensures forall u :: 2 < u < |Sections(-1)[8]| ==> Sections(-1)[8][u].0 != [0, -1, -1, -1, 0]
  {
    var k := [0, -1, -1, -1, 0];
    assert Sections(-1)[8] == EdgeWrites(-1);
    assert Count(k, -1) == 3;
    assert EdgeWrites(-1)[2] == (k, -12 * MEDIUM / 10);
  }

  /** The human's open three ends at the edge group's -1.2 x MEDIUM. */
  lemma CatalogueHumanOpenThree()
    ensures Lookup(CreatePatternDict(), [0, -1, -1, -1, 0]) == Some(-12 * MEDIUM / 10)
  {
    var k := [0, -1, -1, -1, 0];
    HumanOpenThreeEntry();
    HumanOpenThreeNotEngine();
    HumanPassDecides(8, 2, k);
  }

  /** The human pass rates the engine's open four as a shape to block, a
      value the engine pass then overwrites. */
  lemma HumanPassBlocksOpenFour()
    ensures ([0, 1, 1, 1, 1, 0], 25 * CRITICAL / 10) in Writes(-1)
  {
    assert BlockFourWrites(-1)[0] == ([0, 1, 1, 1, 1, 0], 25 * CRITICAL / 10);
    SectionsAre(-1);
    ConcatMember(Sections(-1), 5, 0);
  }

  /** The human pass first scores the human's open three as an open three,
      a value its edge group then overwrites. */
  lemma HumanPassOpenThree()
    ensures ([0, -1, -1, -1, 0], -2 * HIGH) in Writes(-1)
  {
    assert ThreeWrites(-1)[0] == ([0, -1, -1, -1, 0], -2 * HIGH);
    SectionsAre(-1);
    ConcatMember(Sections(-1), 4, 0);
  }
}
