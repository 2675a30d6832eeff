/** The board of misc/reversi/src/board.rs: an 8 by 8 grid of squares,
    each EMPTY, HUMAN or COMPUTER, and the two players' scores kept
    alongside. The grid-level functions below say what each board
    operation computes; the `Board` class updates the arrays in place and is
    proved against them. Squares are addressed by column and row, and stored
    row first. */
module Reversi {
  import opened Results

  const EMPTY: int := 0
  const HUMAN: int := 1
  const COMPUTER: int := 2

  /** Off the board: what `At` reports past an edge. No square holds it. */
  const OFF: int := -1

  /** The eight column and row deltas, from "right" round to "down and right". */
  const OFFSETS: seq<(int, int)> :=
    [(1, 0), (1, -1), (0, -1), (-1, -1), (-1, 0), (-1, 1), (0, 1), (1, 1)]

  /** The weight of a move to each square, by row then column. */
  const VALUES: seq<seq<int>> := [
    [10, 2, 8, 6, 6, 8, 2, 10],
    [2, 1, 3, 4, 4, 3, 1, 2],
    [8, 3, 7, 5, 5, 7, 3, 8],
    [6, 4, 5, 1, 1, 5, 4, 6],
    [6, 4, 5, 1, 1, 5, 4, 6],
    [8, 3, 7, 5, 5, 7, 3, 8],
    [2, 1, 3, 4, 4, 3, 1, 2],
    [10, 2, 8, 6, 6, 8, 2, 10]
  ]

  /** A snapshot of the squares, row by row. */
  type Grid = seq<seq<int>>

  predicate IsGrid(g: Grid) {
    |g| == 8 && forall r :: 0 <= r < 8 ==> |g[r]| == 8
  }

  predicate OnBoard(c: int, r: int) {
    0 <= c < 8 && 0 <= r < 8
  }

  /** Every square of a row holds EMPTY, HUMAN or COMPUTER. */
  predicate TidyRow(row: seq<int>) {
    row == [] || (EMPTY <= row[0] <= COMPUTER && TidyRow(row[1..]))
  }

  /** Every square of the grid holds EMPTY, HUMAN or COMPUTER, row by row
      (`TidyMeaning` states it square by square). */
  predicate Tidy(g: Grid) {
    g == [] || (TidyRow(g[0]) && Tidy(g[1..]))
  }

  predicate IsPlayer(p: int) {
    p == HUMAN || p == COMPUTER
  }

  /** The opponent of a `u8` player, `player ^ 0b11`: the two low bits
      complemented, the others kept. */
  function Other(p: int): (o: int)
    requires 0 <= p < 256
    ensures 0 <= o < 256 && o != p
    ensures p == HUMAN ==> o == COMPUTER
    ensures p == COMPUTER ==> o == HUMAN
  {
    4 * (p / 4) + (3 - p % 4)
  }

  /** Exclusive-or with three undoes itself. */
  lemma OtherFacts(p: int)
    requires 0 <= p < 256
    ensures Other(Other(p)) == p
  {
    var q, m := p / 4, p % 4;
    var o := Other(p);
    assert o == 4 * q + (3 - m);
    assert o / 4 == q && o % 4 == 3 - m;
  }

  // ---------------------------------------------------------------- rays

  function DX(d: nat): int
    requires d < 8
  {
    OFFSETS[d].0
  }

  function DY(d: nat): int
    requires d < 8
  {
    OFFSETS[d].1
  }

  /** Each offset is a step to one of the eight neighbours, and the eight
      are different. */
  lemma OffsetFacts(d: nat)
    requires d < 8
    ensures -1 <= DX(d) <= 1 && -1 <= DY(d) <= 1 && (DX(d) != 0 || DY(d) != 0)
  {
    if d == 0 {
    } else if d == 1 {
    } else if d == 2 {
    } else if d == 3 {
    } else if d == 4 {
    } else if d == 5 {
    } else if d == 6 {
    } else {
    }
  }

  /** The direction index of a neighbour step. */
  function DirOf(dx: int, dy: int): nat {
    if dx == 1 && dy == 0 then 0
    else if dx == 1 && dy == -1 then 1
    else if dx == 0 && dy == -1 then 2
    else if dx == -1 && dy == -1 then 3
    else if dx == -1 && dy == 0 then 4
    else if dx == -1 && dy == 1 then 5
    else if dx == 0 && dy == 1 then 6
    else 7
  }

  /** The offset of direction `d` leads back to `d`: no two directions
      share an offset. */
  lemma OffsetsDistinct(d: nat)
    requires d < 8
    ensures DirOf(DX(d), DY(d)) == d
  {
    OffsetFacts(d);
  }

  /** `x + j * dx` for a delta `dx` of -1, 0 or 1. */
  function Along(x: int, dx: int, j: int): int {
    if dx > 0 then x + j else if dx < 0 then x - j else x
  }

  /** The square `j` steps from (c, r) in direction `d`, or OFF when that
      lies beyond an edge. */
  function At(g: Grid, c: int, r: int, d: nat, j: int): int
    requires IsGrid(g) && d < 8
  {
    var x := Along(c, DX(d), j);
    var y := Along(r, DY(d), j);
    if OnBoard(x, y) then g[y][x] else OFF
  }

  /** Two rays from one square meet only where they are the same ray at the
      same distance. */
  lemma RaysApart(c: int, r: int, d: nat, e: nat, j: int, i: int)
    requires d < 8 && e < 8 && j >= 1 && i >= 1
    requires Along(c, DX(d), j) == Along(c, DX(e), i)
    requires Along(r, DY(d), j) == Along(r, DY(e), i)
    ensures d == e && j == i
  {
    OffsetFacts(d);
    OffsetFacts(e);
    OffsetsDistinct(d);
    OffsetsDistinct(e);
  }

  /** Only the first seven steps from a square can stay on the board. */
  lemma StepsOnBoard(c: int, r: int, d: nat, j: int)
    requires OnBoard(c, r) && d < 8 && j >= 0
    requires OnBoard(Along(c, DX(d), j), Along(r, DY(d), j))
    ensures j <= 7
  {
    OffsetFacts(d);
  }

  /** The loop of `count_in_dir` from step `j + 1` on, the `j` squares
      before having held the opponent: the run's length when it ends on the
      player's own piece, 0 when it runs off the board or into any other
      square. The eighth step from a square is always off the board. */
  function Walk(g: Grid, c: int, r: int, p: int, d: nat, j: nat): (k: int)
    requires IsGrid(g) && 0 <= p < 256 && d < 8
    ensures k >= 0
    decreases 8 - j
  {
    if j >= 8 then 0
    else if At(g, c, r, d, j + 1) == p then j
    else if At(g, c, r, d, j + 1) == Other(p) then Walk(g, c, r, p, d, j + 1)
    else 0
  }

  /** What `count_in_dir(col, row, player, dir)` returns. */
  function RayCount(g: Grid, c: int, r: int, p: int, d: nat): int
    requires IsGrid(g) && 0 <= p < 256 && d < 8
  {
    Walk(g, c, r, p, d, 0)
  }

  /** From (c, r) in direction `d`: `k` opponent pieces, then one of `p`'s. */
  predicate Bracketed(g: Grid, c: int, r: int, p: int, d: nat, k: nat)
    requires IsGrid(g) && 0 <= p < 256 && d < 8
  {
    (forall j :: 1 <= j <= k ==> At(g, c, r, d, j) == Other(p)) &&
    At(g, c, r, d, k + 1) == p
  }

  lemma {:induction false} WalkBracketed(g: Grid, c: int, r: int, p: int, d: nat, j: nat, k: nat)
    requires IsGrid(g) && 0 <= p < 256 && d < 8 && j <= k < 8
    requires forall i :: j < i <= k ==> At(g, c, r, d, i) == Other(p)
    requires At(g, c, r, d, k + 1) == p
    ensures Walk(g, c, r, p, d, j) == k
    decreases k - j
  {
    if j < k {
      WalkBracketed(g, c, r, p, d, j + 1, k);
    }
  }

  lemma {:induction false} WalkFound(g: Grid, c: int, r: int, p: int, d: nat, j: nat)
    requires IsGrid(g) && 0 <= p < 256 && d < 8
    ensures var k := Walk(g, c, r, p, d, j);
      k != 0 ==>
        j <= k < 8 && (forall i :: j < i <= k ==> At(g, c, r, d, i) == Other(p)) &&
        At(g, c, r, d, k + 1) == p
    decreases 8 - j
  {
    if j < 8 && At(g, c, r, d, j + 1) != p && At(g, c, r, d, j + 1) == Other(p) {
      WalkFound(g, c, r, p, d, j + 1);
    }
  }

  /** Two grids that agree along a ray give the same count on it. */
  lemma {:induction false} WalkAgree(g: Grid, h: Grid, c: int, r: int, p: int, d: nat, j: nat)
    requires IsGrid(g) && IsGrid(h) && 0 <= p < 256 && d < 8
    requires forall i :: 1 <= i <= 8 ==> At(g, c, r, d, i) == At(h, c, r, d, i)
    ensures Walk(g, c, r, p, d, j) == Walk(h, c, r, p, d, j)
    decreases 8 - j
  {
    if j < 8 {
      WalkAgree(g, h, c, r, p, d, j + 1);
    }
  }

  /** `count_in_dir` counts exactly a bracketed run: for any positive `k`,
      it returns `k` just when `k` opponent pieces lie next to the square in
      that direction, closed by one of the player's own. Otherwise (the ray
      leaves the board, meets an empty square, or ends at once on an own
      piece) it returns 0. */
  lemma RayCountMeaning(g: Grid, c: int, r: int, p: int, d: nat, k: nat)
    requires IsGrid(g) && OnBoard(c, r) && 0 <= p < 256 && d < 8 && k > 0
    ensures RayCount(g, c, r, p, d) == k <==> Bracketed(g, c, r, p, d, k)
  {
    if Bracketed(g, c, r, p, d, k) {
      StepsOnBoard(c, r, d, k + 1);
      WalkBracketed(g, c, r, p, d, 0, k);
    }
    WalkFound(g, c, r, p, d, 0);
  }

  // ---------------------------------------------------------------- moves

  /** The sum of the first `n` directions' counts. */
  function DirSum(g: Grid, c: int, r: int, p: int, n: nat): (s: int)
    requires IsGrid(g) && OnBoard(c, r) && 0 <= p < 256 && n <= 8
    ensures s >= 0
  {
    if n == 0 then 0 else DirSum(g, c, r, p, n - 1) + RayCount(g, c, r, p, n - 1)
  }

  /** What `count_move(col, row, player)` returns: on an empty square the
      pieces flipped in all eight directions, elsewhere 0. */
  function MoveCount(g: Grid, c: int, r: int, p: int): (n: int)
    requires IsGrid(g) && OnBoard(c, r) && 0 <= p < 256
    ensures n >= 0
  {
    if g[r][c] == EMPTY then DirSum(g, c, r, p, 8) else 0
  }

  lemma {:induction false} DirSumPositive(g: Grid, c: int, r: int, p: int, n: nat)
    requires IsGrid(g) && OnBoard(c, r) && 0 <= p < 256 && n <= 8
    ensures DirSum(g, c, r, p, n) > 0 <==> exists d :: 0 <= d < n && RayCount(g, c, r, p, d) > 0
  {
    if n > 0 {
      DirSumPositive(g, c, r, p, n - 1);
      var k := RayCount(g, c, r, p, n - 1);
      assert DirSum(g, c, r, p, n) == DirSum(g, c, r, p, n - 1) + k;
      if k > 0 {
        assert 0 <= n - 1 < n && RayCount(g, c, r, p, n - 1) > 0;
      }
    }
  }

  /** A move is legal (`count_move` is positive) just when the square is
      empty and in some direction a run of opponent pieces is closed by one
      of the player's own. */
  lemma MoveCountMeaning(g: Grid, c: int, r: int, p: int)
    requires IsGrid(g) && OnBoard(c, r) && 0 <= p < 256
    ensures MoveCount(g, c, r, p) > 0 <==>
      g[r][c] == EMPTY && exists d: nat, k: nat :: d < 8 && k > 0 && Bracketed(g, c, r, p, d, k)
  {
    DirSumPositive(g, c, r, p, 8);
    if exists d: nat, k: nat :: d < 8 && k > 0 && Bracketed(g, c, r, p, d, k) {
      var d: nat, k: nat :| d < 8 && k > 0 && Bracketed(g, c, r, p, d, k);
      RayCountMeaning(g, c, r, p, d, k);
    }
    if exists d :: 0 <= d < 8 && RayCount(g, c, r, p, d) > 0 {
      var d :| 0 <= d < 8 && RayCount(g, c, r, p, d) > 0;
      RayCountMeaning(g, c, r, p, d, RayCount(g, c, r, p, d));
    }
  }

  /** The row-major index of a square given as (column, row). */
  function Index(m: (int, int)): int {
    m.1 * 8 + m.0
  }

  predicate Increasing(ms: seq<(int, int)>) {
    forall i, j :: 0 <= i < j < |ms| ==> Index(ms[i]) < Index(ms[j])
  }

  /** Which squares are legal moves, row by row. */
  function Legality(g: Grid, p: int): (f: seq<seq<bool>>)
    requires IsGrid(g) && 0 <= p < 256
    ensures |f| == 8 && forall r :: 0 <= r < 8 ==> |f[r]| == 8
  {
    seq(8, r requires 0 <= r < 8 => seq(8, c requires 0 <= c < 8 => MoveCount(g, c, r, p) > 0))
  }

  /** The flagged squares among the first `n` columns of row `r`, left to right. */
  function RowMoves(fr: seq<bool>, r: int, n: nat): seq<(int, int)>
    requires n <= |fr|
  {
    if n == 0 then [] else RowMoves(fr, r, n - 1) + (if fr[n - 1] then [(n - 1, r)] else [])
  }

  /** The flagged squares of the first `n` rows, in row-major order. */
  function RowsMoves(f: seq<seq<bool>>, n: nat): seq<(int, int)>
    requires n <= |f| && forall r :: 0 <= r < |f| ==> |f[r]| == 8
  {
    if n == 0 then [] else RowsMoves(f, n - 1) + RowMoves(f[n - 1], n - 1, 8)
  }

  /** What `get_moves(player)` returns. */
  function LegalMoves(g: Grid, p: int): seq<(int, int)>
    requires IsGrid(g) && 0 <= p < 256
  {
    RowsMoves(Legality(g, p), 8)
  }

  lemma {:induction false} RowMovesMeaning(fr: seq<bool>, r: int, n: nat)
    requires n <= |fr|
    ensures forall m :: m in RowMoves(fr, r, n) <==> m.1 == r && 0 <= m.0 < n && fr[m.0]
    ensures Increasing(RowMoves(fr, r, n))
  {
    if n > 0 {
      RowMovesMeaning(fr, r, n - 1);
    }
  }

  lemma {:induction false} RowsMovesMeaning(f: seq<seq<bool>>, n: nat)
    requires n <= |f| && forall r :: 0 <= r < |f| ==> |f[r]| == 8
    ensures forall m :: m in RowsMoves(f, n) <==> 0 <= m.1 < n && 0 <= m.0 < 8 && f[m.1][m.0]
    ensures Increasing(RowsMoves(f, n))
  {
    if n > 0 {
      RowsMovesMeaning(f, n - 1);
      RowMovesMeaning(f[n - 1], n - 1, 8);
      var front, back := RowsMoves(f, n - 1), RowMoves(f[n - 1], n - 1, 8);
      assert forall i :: 0 <= i < |front| ==> front[i] in front;
      assert forall i :: 0 <= i < |back| ==> back[i] in back;
    }
  }

  /** `get_moves` lists every square where `count_move` is positive, and
      only those, each once, in row-major order. */
  lemma LegalMovesMeaning(g: Grid, p: int)
    requires IsGrid(g) && 0 <= p < 256
    ensures forall m :: m in LegalMoves(g, p) <==> OnBoard(m.0, m.1) && MoveCount(g, m.0, m.1, p) > 0
    ensures Increasing(LegalMoves(g, p))
  {
    RowsMovesMeaning(Legality(g, p), 8);
  }

  /** A player has no move just when `count_move` is 0 on every square. */
  lemma NoMovesMeaning(g: Grid, p: int)
    requires IsGrid(g) && 0 <= p < 256
    ensures LegalMoves(g, p) == [] <==>
      forall c, r :: OnBoard(c, r) ==> MoveCount(g, c, r, p) == 0
  {
    LegalMovesMeaning(g, p);
    if LegalMoves(g, p) != [] {
      var m := LegalMoves(g, p)[0];
      assert m in LegalMoves(g, p);
    } else {
      forall c, r | OnBoard(c, r)
        ensures MoveCount(g, c, r, p) == 0
      {
        assert (c, r) !in LegalMoves(g, p);
      }
    }
  }

  /** The heuristic value `select_move` gives a move. */
  function Score(g: Grid, m: (int, int), p: int): int
    requires IsGrid(g) && OnBoard(m.0, m.1) && 0 <= p < 256
  {
    MoveCount(g, m.0, m.1, p) * VALUES[m.1][m.0]
  }

  lemma ScoreNonnegative(g: Grid, m: (int, int), p: int)
    requires IsGrid(g) && OnBoard(m.0, m.1) && 0 <= p < 256
    ensures Score(g, m, p) >= 0
  {
    assert VALUES[m.1][m.0] >= 1 by {
      var row := VALUES[m.1];
      assert forall x :: 0 <= x < 8 ==> row[x] >= 1;
    }
  }

  /** A ray flips at most the seven squares between an edge and the other. */
  lemma {:induction false} WalkAtMostSeven(g: Grid, c: int, r: int, p: int, d: nat, j: nat)
    requires IsGrid(g) && 0 <= p < 256 && d < 8
    ensures Walk(g, c, r, p, d, j) <= 7
    decreases 8 - j
  {
    if j < 8 && At(g, c, r, d, j + 1) != p && At(g, c, r, d, j + 1) == Other(p) {
      WalkAtMostSeven(g, c, r, p, d, j + 1);
    }
  }

  lemma {:induction false} DirSumAtMost(g: Grid, c: int, r: int, p: int, n: nat)
    requires IsGrid(g) && OnBoard(c, r) && 0 <= p < 256 && n <= 8
    ensures DirSum(g, c, r, p, n) <= 7 * n
  {
    if n > 0 {
      DirSumAtMost(g, c, r, p, n - 1);
      WalkAtMostSeven(g, c, r, p, n - 1, 0);
    }
  }

  /** `select_move`'s `count_move * mult` stays within 0..560: at most seven
      pieces in each of eight directions, times a weight of at most 10. So
      the source's `i32` arithmetic never overflows there. */
  lemma ScoreBound(g: Grid, m: (int, int), p: int)
    requires IsGrid(g) && OnBoard(m.0, m.1) && 0 <= p < 256
    ensures 0 <= MoveCount(g, m.0, m.1, p) <= 56
    ensures 0 <= Score(g, m, p) <= 560
  {
    ScoreNonnegative(g, m, p);
    DirSumAtMost(g, m.0, m.1, p, 8);
    var w := VALUES[m.1][m.0];
    assert w <= 10 by {
      var row := VALUES[m.1];
      assert forall x :: 0 <= x < 8 ==> row[x] <= 10;
    }
    assert Score(g, m, p) == MoveCount(g, m.0, m.1, p) * w;
  }

  // ---------------------------------------------------------------- updates

  /** The grid with one square changed. */
  function SetCell(g: Grid, c: int, r: int, v: int): Grid
    requires 0 <= r < |g| && 0 <= c < |g[r]|
  {
    g[r := g[r][c := v]]
  }

  /** Two grids with the same squares are the same. */
  lemma GridExt(a: Grid, b: Grid)
    requires IsGrid(a) && IsGrid(b)
    requires forall r, c :: 0 <= r < 8 && 0 <= c < 8 ==> a[r][c] == b[r][c]
    ensures a == b
  {
    forall r | 0 <= r < 8
      ensures a[r] == b[r]
    {
    }
  }

  /** The number of squares in a row that hold `p`. */
  function CountRow(row: seq<int>, p: int): nat {
    if row == [] then 0 else (if row[0] == p then 1 else 0) + CountRow(row[1..], p)
  }

  /** The number of squares on the board that hold `p`. */
  function Count(g: Grid, p: int): nat {
    if g == [] then 0 else CountRow(g[0], p) + Count(g[1..], p)
  }

  lemma {:induction false} CountRowSet(row: seq<int>, c: int, v: int, p: int)
    requires 0 <= c < |row|
    ensures CountRow(row[c := v], p) ==
      CountRow(row, p) - (if row[c] == p then 1 else 0) + (if v == p then 1 else 0)
  {
    if c > 0 {
      assert row[c := v][1..] == row[1..][c - 1 := v];
      CountRowSet(row[1..], c - 1, v, p);
    } else {
      assert row[c := v][1..] == row[1..];
    }
  }

  /** Changing one square moves at most one unit between two counts. */
  lemma {:induction false} CountSet(g: Grid, c: int, r: int, v: int, p: int)
    requires 0 <= r < |g| && 0 <= c < |g[r]|
    ensures Count(SetCell(g, c, r, v), p) ==
      Count(g, p) - (if g[r][c] == p then 1 else 0) + (if v == p then 1 else 0)
  {
    if r > 0 {
      assert SetCell(g, c, r, v)[1..] == SetCell(g[1..], c, r - 1, v);
      CountSet(g[1..], c, r - 1, v, p);
    } else {
      assert SetCell(g, c, r, v)[1..] == g[1..];
      CountRowSet(g[0], c, v, p);
    }
  }

  lemma {:induction false} TidyRowMeaning(row: seq<int>)
    ensures TidyRow(row) <==> forall c :: 0 <= c < |row| ==> EMPTY <= row[c] <= COMPUTER
  {
    if row != [] {
      TidyRowMeaning(row[1..]);
      assert forall c :: 1 <= c < |row| ==> row[1..][c - 1] == row[c];
    }
  }

  /** `Tidy` holds just when every square holds EMPTY, HUMAN or COMPUTER. */
  lemma {:induction false} TidyMeaning(g: Grid)
    ensures Tidy(g) <==>
      forall r, c :: 0 <= r < |g| && 0 <= c < |g[r]| ==> EMPTY <= g[r][c] <= COMPUTER
  {
    if g != [] {
      TidyRowMeaning(g[0]);
      TidyMeaning(g[1..]);
      assert forall r :: 1 <= r < |g| ==> g[1..][r - 1] == g[r];
    }
  }

  /** Writing EMPTY, HUMAN or COMPUTER into a tidy grid keeps it tidy. */
  lemma {:induction false} TidySet(g: Grid, c: int, r: int, v: int)
    requires 0 <= r < |g| && 0 <= c < |g[r]| && Tidy(g) && EMPTY <= v <= COMPUTER
    ensures Tidy(SetCell(g, c, r, v))
  {
    TidyMeaning(g);
    TidyMeaning(SetCell(g, c, r, v));
  }

  /** Which step of the ray in direction `d` would reach (x, y). */
  function RayIndex(c: int, r: int, d: nat, x: int, y: int): int
    requires d < 8
  {
    if DX(d) > 0 then x - c
    else if DX(d) < 0 then c - x
    else if DY(d) > 0 then y - r
    else r - y
  }

  /** (x, y) is one of the first `k` squares from (c, r) in direction `d`. */
  predicate OnRay(c: int, r: int, d: nat, k: int, x: int, y: int)
    requires d < 8
  {
    var j := RayIndex(c, r, d, x, y);
    1 <= j <= k && Along(c, DX(d), j) == x && Along(r, DY(d), j) == y
  }

  lemma RayIndexAt(c: int, r: int, d: nat, j: int)
    requires d < 8
    ensures RayIndex(c, r, d, Along(c, DX(d), j), Along(r, DY(d), j)) == j
  {
    OffsetFacts(d);
  }

  /** The grid with the first `k` squares of a ray given to `p`, one at a
      time: what `flip_dir` leaves behind. */
  function FlipRay(g: Grid, c: int, r: int, p: int, d: nat, k: int): (h: Grid)
    requires IsGrid(g) && d < 8
    ensures IsGrid(h)
    decreases k
  {
    if k <= 0 then g
    else
      var h := FlipRay(g, c, r, p, d, k - 1);
      var x, y := Along(c, DX(d), k), Along(r, DY(d), k);
      if OnBoard(x, y) then SetCell(h, x, y, p) else h
  }

  /** Square by square, flipping a ray gives `p` the squares on its first
      `k` steps and leaves every other square alone. */
  lemma {:induction false} FlipRaySquare(g: Grid, c: int, r: int, p: int, d: nat, k: int, x: int, y: int)
    requires IsGrid(g) && d < 8 && OnBoard(x, y)
    ensures FlipRay(g, c, r, p, d, k)[y][x] == if OnRay(c, r, d, k, x, y) then p else g[y][x]
    decreases k
  {
    if k > 0 {
      FlipRaySquare(g, c, r, p, d, k - 1, x, y);
      RayIndexAt(c, r, d, k);
    }
  }

  /** Giving a bracketed run of `k` opponent pieces to `p` adds `k` to `p`'s
      count and takes `k` from the opponent's. */
  lemma {:induction false} FlipRayCount(g: Grid, c: int, r: int, p: int, d: nat, k: nat)
    requires IsGrid(g) && OnBoard(c, r) && 0 <= p < 256 && d < 8
    requires forall j :: 1 <= j <= k ==> At(g, c, r, d, j) == Other(p)
    ensures Count(FlipRay(g, c, r, p, d, k), p) == Count(g, p) + k
    ensures Count(FlipRay(g, c, r, p, d, k), Other(p)) == Count(g, Other(p)) - k
  {
    if k > 0 {
      FlipRayCount(g, c, r, p, d, k - 1);
      var x, y := Along(c, DX(d), k), Along(r, DY(d), k);
      assert At(g, c, r, d, k) == Other(p);
      var before := FlipRay(g, c, r, p, d, k - 1);
      RayIndexAt(c, r, d, k);
      FlipRaySquare(g, c, r, p, d, k - 1, x, y);
      CountSet(before, x, y, p, p);
      CountSet(before, x, y, p, Other(p));
    }
  }

  /** Inside the run that `count_in_dir` reports, every square holds an
      opponent piece, and the square just past it the player's own. */
  lemma RayCountAt(g: Grid, c: int, r: int, p: int, d: nat, j: nat)
    requires IsGrid(g) && OnBoard(c, r) && 0 <= p < 256 && d < 8
    requires 0 < RayCount(g, c, r, p, d) && j <= RayCount(g, c, r, p, d)
    ensures At(g, c, r, d, j + 1) == if j < RayCount(g, c, r, p, d) then Other(p) else p
  {
    var k := RayCount(g, c, r, p, d);
    RayCountMeaning(g, c, r, p, d, k);
    if j < k {
      assert At(g, c, r, d, j + 1) == Other(p);
    }
  }

  /** One step of `flip_dir` along the run of `k` that `count_in_dir`
      reports, `j` squares of it already flipped: the next square lies one
      step further and on the board; it holds the player's own piece
      exactly at the end of the run, and otherwise an opponent piece whose
      flip extends the flipped part by one. */
  lemma FlipDirStep(g: Grid, c: int, r: int, p: int, d: nat, j: nat)
    requires IsGrid(g) && OnBoard(c, r) && IsPlayer(p) && d < 8
    requires 0 < RayCount(g, c, r, p, d) && j <= RayCount(g, c, r, p, d)
    ensures Along(c, DX(d), 0) == c && Along(r, DY(d), 0) == r
    ensures Along(c, DX(d), j + 1) == Along(c, DX(d), j) + DX(d)
    ensures Along(r, DY(d), j + 1) == Along(r, DY(d), j) + DY(d)
    ensures var k, x, y := RayCount(g, c, r, p, d), Along(c, DX(d), j + 1), Along(r, DY(d), j + 1);
      OnBoard(x, y) &&
      (FlipRay(g, c, r, p, d, j)[y][x] == p <==> j == k) &&
      (j < k ==>
         FlipRay(g, c, r, p, d, j)[y][x] == Other(p) &&
         FlipRay(g, c, r, p, d, j + 1) == SetCell(FlipRay(g, c, r, p, d, j), x, y, p))
  {
    RayCountAt(g, c, r, p, d, j);
    OffsetFacts(d);
    RayIndexAt(c, r, d, j + 1);
    var x, y := Along(c, DX(d), j + 1), Along(r, DY(d), j + 1);
    assert OnBoard(x, y);
    FlipRaySquare(g, c, r, p, d, j, x, y);
    assert FlipRay(g, c, r, p, d, j)[y][x] == At(g, c, r, d, j + 1);
  }

  /** Flipping the whole run that `count_in_dir` reports moves that many
      pieces from the opponent to the player. */
  lemma FlipDirCount(g: Grid, c: int, r: int, p: int, d: nat)
    requires IsGrid(g) && OnBoard(c, r) && IsPlayer(p) && d < 8
    ensures var k := RayCount(g, c, r, p, d);
      Count(FlipRay(g, c, r, p, d, k), p) == Count(g, p) + k &&
      Count(FlipRay(g, c, r, p, d, k), Other(p)) == Count(g, Other(p)) - k
  {
    var k := RayCount(g, c, r, p, d);
    if k > 0 {
      RayCountMeaning(g, c, r, p, d, k);
    }
    FlipRayCount(g, c, r, p, d, k);
  }

  /** (x, y) lies in one of the runs that a move at (c, r) flips, counting
      only the first `n` directions. */
  predicate Flipped(g: Grid, c: int, r: int, p: int, x: int, y: int, n: nat)
    requires IsGrid(g) && OnBoard(c, r) && 0 <= p < 256 && n <= 8
  {
    n > 0 && (Flipped(g, c, r, p, x, y, n - 1) || OnRay(c, r, n - 1, RayCount(g, c, r, p, n - 1), x, y))
  }

  /** The grid part way through `do_move`: the square taken, then the runs
      of the first `n` directions flipped one direction after another. */
  function Partial(g: Grid, c: int, r: int, p: int, n: nat): (h: Grid)
    requires IsGrid(g) && OnBoard(c, r) && 0 <= p < 256 && n <= 8
    ensures IsGrid(h)
  {
    if n == 0 then SetCell(g, c, r, p)
    else FlipRay(Partial(g, c, r, p, n - 1), c, r, p, n - 1, RayCount(g, c, r, p, n - 1))
  }

  /** The grid after `do_move(col, row, player)`. */
  function AfterMove(g: Grid, c: int, r: int, p: int): Grid
    requires IsGrid(g) && OnBoard(c, r) && 0 <= p < 256
  {
    Partial(g, c, r, p, 8)
  }

  /** Square by square, part way through `do_move`: the moved-to square
      and the squares of the runs flipped so far are `p`'s, the rest are
      as they were. */
  lemma {:induction false} PartialSquare(g: Grid, c: int, r: int, p: int, n: nat, x: int, y: int)
    requires IsGrid(g) && OnBoard(c, r) && 0 <= p < 256 && n <= 8 && OnBoard(x, y)
    ensures Partial(g, c, r, p, n)[y][x] ==
      if (x == c && y == r) || Flipped(g, c, r, p, x, y, n) then p else g[y][x]
  {
    if n > 0 {
      PartialSquare(g, c, r, p, n - 1, x, y);
      FlipRaySquare(Partial(g, c, r, p, n - 1), c, r, p, n - 1, RayCount(g, c, r, p, n - 1), x, y);
    }
  }

  lemma {:induction false} FlippedMeaning(g: Grid, c: int, r: int, p: int, x: int, y: int, n: nat)
    requires IsGrid(g) && OnBoard(c, r) && 0 <= p < 256 && n <= 8
    ensures Flipped(g, c, r, p, x, y, n) <==>
      exists d: nat :: d < n && OnRay(c, r, d, RayCount(g, c, r, p, d), x, y)
  {
    if n > 0 {
      FlippedMeaning(g, c, r, p, x, y, n - 1);
      var k := RayCount(g, c, r, p, n - 1);
      if OnRay(c, r, n - 1, k, x, y) {
        assert n - 1 < n && OnRay(c, r, n - 1, RayCount(g, c, r, p, n - 1), x, y);
      }
    }
  }

  /** What `do_move` does to each square: the moved-to square and every
      square of a run that some direction brackets become the mover's; all
      other squares keep what they held. */
  lemma AfterMoveSquares(g: Grid, c: int, r: int, p: int, x: int, y: int)
    requires IsGrid(g) && OnBoard(c, r) && 0 <= p < 256 && OnBoard(x, y)
    ensures AfterMove(g, c, r, p)[y][x] ==
      if (x == c && y == r) || exists d: nat :: d < 8 && OnRay(c, r, d, RayCount(g, c, r, p, d), x, y)
      then p else g[y][x]
  {
    PartialSquare(g, c, r, p, 8, x, y);
    FlippedMeaning(g, c, r, p, x, y, 8);
  }

  /** A square of ray `d` is not the moved-to square and lies in no run of
      an earlier direction. */
  lemma {:induction false} NotEarlier(g: Grid, c: int, r: int, p: int, d: nat, n: nat, j: int)
    requires IsGrid(g) && OnBoard(c, r) && 0 <= p < 256 && d < 8 && n <= d && j >= 1
    ensures !Flipped(g, c, r, p, Along(c, DX(d), j), Along(r, DY(d), j), n)
  {
    if n > 0 {
      NotEarlier(g, c, r, p, d, n - 1, j);
      var x, y := Along(c, DX(d), j), Along(r, DY(d), j);
      if OnRay(c, r, n - 1, RayCount(g, c, r, p, n - 1), x, y) {
        RaysApart(c, r, n - 1, d, RayIndex(c, r, n - 1, x, y), j);
      }
    }
  }

  /** Part way through `do_move`, the next direction's ray still looks as
      it did before the move, so it flips the same run. */
  lemma PartialRay(g: Grid, c: int, r: int, p: int, d: nat)
    requires IsGrid(g) && OnBoard(c, r) && 0 <= p < 256 && d < 8
    ensures RayCount(Partial(g, c, r, p, d), c, r, p, d) == RayCount(g, c, r, p, d)
    ensures Partial(g, c, r, p, d + 1) ==
      FlipRay(Partial(g, c, r, p, d), c, r, p, d, RayCount(g, c, r, p, d))
  {
    var h := Partial(g, c, r, p, d);
    OffsetFacts(d);
    forall i | 1 <= i <= 8
      ensures At(h, c, r, d, i) == At(g, c, r, d, i)
    {
      var x, y := Along(c, DX(d), i), Along(r, DY(d), i);
      if OnBoard(x, y) {
        NotEarlier(g, c, r, p, d, d, i);
        PartialSquare(g, c, r, p, d, x, y);
      }
    }
    WalkAgree(h, g, c, r, p, d, 0);
  }

  /** Taking the square alone gives the mover one piece. */
  lemma PartialStart(g: Grid, c: int, r: int, p: int)
    requires IsGrid(g) && OnBoard(c, r) && IsPlayer(p) && g[r][c] == EMPTY
    ensures Count(Partial(g, c, r, p, 0), p) == Count(g, p) + 1
    ensures Count(Partial(g, c, r, p, 0), Other(p)) == Count(g, Other(p))
  {
    CountSet(g, c, r, p, p);
    CountSet(g, c, r, p, Other(p));
  }

  /** Flipping the next direction's run moves its pieces to the mover. */
  lemma PartialNext(g: Grid, c: int, r: int, p: int, d: nat)
    requires IsGrid(g) && OnBoard(c, r) && IsPlayer(p) && d < 8
    ensures Count(Partial(g, c, r, p, d + 1), p) == Count(Partial(g, c, r, p, d), p) + RayCount(g, c, r, p, d)
    ensures Count(Partial(g, c, r, p, d + 1), Other(p)) ==
      Count(Partial(g, c, r, p, d), Other(p)) - RayCount(g, c, r, p, d)
  {
    PartialRay(g, c, r, p, d);
    FlipDirCount(Partial(g, c, r, p, d), c, r, p, d);
  }

  /** Taking a square and flipping the runs of the first `n` directions
      moves exactly the flipped pieces, plus the new one, to the mover. */
  lemma {:induction false} PartialCount(g: Grid, c: int, r: int, p: int, n: nat)
    requires IsGrid(g) && OnBoard(c, r) && IsPlayer(p) && n <= 8 && g[r][c] == EMPTY
    ensures Count(Partial(g, c, r, p, n), p) == Count(g, p) + 1 + DirSum(g, c, r, p, n)
    ensures Count(Partial(g, c, r, p, n), Other(p)) == Count(g, Other(p)) - DirSum(g, c, r, p, n)
  {
    if n == 0 {
      PartialStart(g, c, r, p);
    } else {
      PartialCount(g, c, r, p, n - 1);
      PartialNext(g, c, r, p, n - 1);
    }
  }

  /** `do_move` on an empty square gives the mover one piece plus all the
      pieces `count_move` counted, and takes those from the opponent. */
  lemma MoveScores(g: Grid, c: int, r: int, p: int)
    requires IsGrid(g) && OnBoard(c, r) && IsPlayer(p) && g[r][c] == EMPTY
    ensures Count(AfterMove(g, c, r, p), p) == Count(g, p) + 1 + MoveCount(g, c, r, p)
    ensures Count(AfterMove(g, c, r, p), Other(p)) == Count(g, Other(p)) - MoveCount(g, c, r, p)
  {
    PartialCount(g, c, r, p, 8);
  }

  /** The grid before any piece is placed. */
  function Blank(): (g: Grid)
    ensures IsGrid(g)
  {
    var row := [EMPTY, EMPTY, EMPTY, EMPTY, EMPTY, EMPTY, EMPTY, EMPTY];
    [row, row, row, row, row, row, row, row]
  }

  /** The position `Board::new` sets up: the four centre squares placed on
      the blank grid in the source's order. */
  function InitialGrid(): (g: Grid)
    ensures IsGrid(g)
  {
    var g1 := SetCell(Blank(), 3, 3, HUMAN);
    var g2 := SetCell(g1, 4, 4, HUMAN);
    var g3 := SetCell(g2, 3, 4, COMPUTER);
    SetCell(g3, 4, 3, COMPUTER)
  }

  // ---------------------------------------------------------------- board

  class Board {
    const squares: array2<int>
    const scores: array<int>
    /** The squares as a grid value, kept equal to the array. */
    ghost var grid: Grid

    /** The arrays have the source's fixed sizes. */
    predicate Shape()
    {
      squares.Length0 == 8 && squares.Length1 == 8 && scores.Length == 2
    }

    /** `grid` shows what the array holds. */
    ghost predicate Mirrors()
      reads this, squares
    {
      Shape() && IsGrid(grid) &&
      forall r, c :: 0 <= r < 8 && 0 <= c < 8 ==> squares[r, c] == grid[r][c]
    }

    /** The board's invariant: every square EMPTY, HUMAN or COMPUTER, and
        each kept score equal to the number of squares the player holds. */
    ghost predicate Valid()
      reads this, squares, scores
    {
      Mirrors() && Tidy(grid) &&
      scores[HUMAN - 1] == Count(grid, HUMAN) &&
      scores[COMPUTER - 1] == Count(grid, COMPUTER)
    }

    /** The kept scores of a player and of the opponent. */
    lemma ScoresCount(p: int)
      requires Valid() && IsPlayer(p)
      ensures scores[p - 1] == Count(grid, p) && scores[Other(p) - 1] == Count(grid, Other(p))
    {
    }

    /** `Board::new()`: the four centre pieces placed, two each, scores 2 and 2. */
    constructor()
      ensures Valid() && fresh(squares) && fresh(scores)
      ensures grid == InitialGrid()
      ensures scores[..] == [2, 2]
    {
      squares := new int[8, 8]((_, _) => EMPTY);
      scores := new int[] [2, 2];
      grid := Blank();
      new;
      assert scores[..] == [2, 2];
      Set(3, 3, HUMAN);
      Set(4, 4, HUMAN);
      Set(3, 4, COMPUTER);
      Set(4, 3, COMPUTER);
      InitialSquares();
      InitialSetup();
    }

    /** `get(col, row)`; the casts to `usize` panic on a negative index and
        the array access on one past the edge. */
    function Get(c: int, r: int): (v: int)
      reads this, squares
      requires Mirrors() && OnBoard(c, r)
      ensures v == grid[r][c]
    {
      squares[r, c]
    }

    /** `set(col, row, value)`. */
    method Set(c: int, r: int, v: int)
      requires Mirrors() && OnBoard(c, r)
      modifies this, squares
      ensures Mirrors() && grid == SetCell(old(grid), c, r, v)
    {
      squares[r, c] := v;
      grid := SetCell(grid, c, r, v);
    }

    /** `count_in_dir(col, row, player, dir)`: walks away from the square
        while it sees opponent pieces. */
    method CountInDir(col: int, row: int, p: int, dir: nat) returns (found: int)
      requires Mirrors() && OnBoard(col, row) && 0 <= p < 256 && dir < 8
      ensures found == RayCount(grid, col, row, p, dir)
    {
      var other := Other(p);
      OffsetFacts(dir);
      var c, r := col, row;
      found := 0;
      while true
        invariant 0 <= found <= 7
        invariant c == Along(col, DX(dir), found) && r == Along(row, DY(dir), found)
        invariant Walk(grid, col, row, p, dir, found) == RayCount(grid, col, row, p, dir)
        decreases 8 - found
      {
        c := c + OFFSETS[dir].0;
        assert c == Along(col, DX(dir), found + 1);
        if !(0 <= c < 8) {
          assert At(grid, col, row, dir, found + 1) == OFF;
          return 0;
        }
        r := r + OFFSETS[dir].1;
        assert r == Along(row, DY(dir), found + 1);
        if !(0 <= r < 8) {
          assert At(grid, col, row, dir, found + 1) == OFF;
          return 0;
        }
        StepsOnBoard(col, row, dir, found + 1);
        var v := Get(c, r);
        if v == p {
          return found;
        } else if v == other {
          found := found + 1;
        } else {
          return 0;
        }
      }
    }

    /** `count_move(col, row, player)`. */
    method CountMove(col: int, row: int, p: int) returns (count: int)
      requires Mirrors() && OnBoard(col, row) && 0 <= p < 256
      ensures count == MoveCount(grid, col, row, p)
    {
      if Get(col, row) == EMPTY {
        count := 0;
        for dir := 0 to 8
          invariant count == DirSum(grid, col, row, p, dir)
        {
          var n := CountInDir(col, row, p, dir);
          count := count + n;
        }
      } else {
        count := 0;
      }
    }

    /** `flip(col, row)`: the piece changes sides and one point passes
        between the scores. The score index panics unless the square holds
        a piece. */
    method Flip(c: int, r: int)
      requires Valid() && OnBoard(c, r) && IsPlayer(grid[r][c])
      modifies this, squares, scores
      ensures Valid()
      ensures grid == SetCell(old(grid), c, r, Other(old(grid)[r][c]))
      ensures var was := old(grid)[r][c];
        scores[was - 1] == old(scores[was - 1]) - 1 &&
        scores[Other(was) - 1] == old(scores[Other(was) - 1]) + 1
    {
      ghost var g := grid;
      var was := Get(c, r);
      var now := Other(was);
      Set(c, r, now);
      TidySet(g, c, r, now);
      scores[was - 1] := scores[was - 1] - 1;
      scores[now - 1] := scores[now - 1] + 1;
      CountSet(g, c, r, now, was);
      CountSet(g, c, r, now, now);
    }

    /** `flip_dir(col, row, player, dir)`: flips the opponent pieces along
        the ray until it reaches one of the player's own. The direction must
        be known to flip something; otherwise the walk could run past an
        edge. */
    method FlipDir(col: int, row: int, p: int, dir: nat)
      requires Valid() && OnBoard(col, row) && IsPlayer(p) && dir < 8
      requires RayCount(grid, col, row, p, dir) > 0
      modifies this, squares, scores
      ensures Valid()
      ensures var k := old(RayCount(grid, col, row, p, dir));
        grid == FlipRay(old(grid), col, row, p, dir, k) &&
        scores[p - 1] == old(scores[p - 1]) + k &&
        scores[Other(p) - 1] == old(scores[Other(p) - 1]) - k
    {
      ghost var g := grid;
      ghost var k := RayCount(g, col, row, p, dir);
      ScoresCount(p);
      OtherFacts(p);
      ghost var j := 0;
      var c, r := col + DX(dir), row + DY(dir);
      FlipDirStep(g, col, row, p, dir, j);
      while Get(c, r) != p
        invariant Valid() && 0 <= j <= k && grid == FlipRay(g, col, row, p, dir, j)
        invariant c == Along(col, DX(dir), j + 1) && r == Along(row, DY(dir), j + 1)
        invariant OnBoard(c, r)
        decreases k - j
      {
        FlipDirStep(g, col, row, p, dir, j);
        Flip(c, r);
        j := j + 1;
        c, r := c + DX(dir), r + DY(dir);
        FlipDirStep(g, col, row, p, dir, j);
      }
      FlipDirStep(g, col, row, p, dir, j);
      FlipDirCount(g, col, row, p, dir);
      ScoresCount(p);
    }

    /** `do_move(col, row, player)`: takes the square, counts it, and flips
        every direction that brackets opponent pieces. The move must be to an
        empty square for the kept scores to stay right. */
    method DoMove(col: int, row: int, p: int)
      requires Valid() && OnBoard(col, row) && IsPlayer(p)
      requires grid[row][col] == EMPTY
      modifies this, squares, scores
      ensures Valid()
      ensures grid == AfterMove(old(grid), col, row, p)
      ensures var n := MoveCount(old(grid), col, row, p);
        scores[p - 1] == old(scores[p - 1]) + 1 + n &&
        scores[Other(p) - 1] == old(scores[Other(p) - 1]) - n
    {
      ghost var g := grid;
      ScoresCount(p);
      Set(col, row, p);
      TidySet(g, col, row, p);
      scores[p - 1] := scores[p - 1] + 1;
      CountSet(g, col, row, p, p);
      CountSet(g, col, row, p, Other(p));
      for dir := 0 to 8
        invariant Valid() && grid == Partial(g, col, row, p, dir)
      {
        PartialRay(g, col, row, p, dir);
        var n := CountInDir(col, row, p, dir);
        if n > 0 {
          FlipDir(col, row, p, dir);
        }
      }
      MoveScores(g, col, row, p);
      ScoresCount(p);
    }

    /** `game_over()`: neither player has a move. */
    method GameOver() returns (over: bool)
      requires Mirrors()
      ensures over <==> forall c, r :: OnBoard(c, r) ==>
        MoveCount(grid, c, r, HUMAN) == 0 && MoveCount(grid, c, r, COMPUTER) == 0
    {
      var human := GetMoves(HUMAN);
      var computer := GetMoves(COMPUTER);
      NoMovesMeaning(grid, HUMAN);
      NoMovesMeaning(grid, COMPUTER);
      over := |human| == 0 && |computer| == 0;
    }

    /** `get_moves(player)`: scans rows, then columns. */
    method GetMoves(p: int) returns (moves: seq<(int, int)>)
      requires Mirrors() && 0 <= p < 256
      ensures moves == LegalMoves(grid, p)
    {
      ghost var f := Legality(grid, p);
      moves := [];
      for row := 0 to 8
        invariant moves == RowsMoves(f, row)
      {
        for col := 0 to 8
          invariant moves == RowsMoves(f, row) + RowMoves(f[row], row, col)
        {
          var n := CountMove(col, row, p);
          if n > 0 {
            moves := moves + [(col, row)];
          }
        }
      }
    }

    /** `get_score(player)`: the kept score of a player, nothing for any
        other value. */
    function GetScore(p: int): (s: Option<int>)
      reads this, squares, scores
      requires Shape()
      ensures s.Some? <==> IsPlayer(p)
      ensures Valid() && s.Some? ==> s.value == Count(grid, p)
    {
      if p == HUMAN || p == COMPUTER then Some(scores[p - 1]) else None
    }

    /** `select_move(moves, player)`: the first of the moves with the
        highest `count_move * VALUES` score. An empty list panics. */
    method SelectMove(moves: seq<(int, int)>, p: int) returns (best: (int, int))
      requires Mirrors() && 0 <= p < 256
      requires |moves| > 0 && forall i :: 0 <= i < |moves| ==> OnBoard(moves[i].0, moves[i].1)
      ensures OnBoard(best.0, best.1)
      ensures forall i :: 0 <= i < |moves| ==> Score(grid, moves[i], p) <= Score(grid, best, p)
      ensures exists i :: 0 <= i < |moves| && moves[i] == best &&
                          forall j :: 0 <= j < i ==> Score(grid, moves[j], p) < Score(grid, best, p)
    {
      best := moves[0];
      var bestScore := -1;
      ghost var at := 0;
      for i := 0 to |moves|
        invariant 0 <= at < |moves| && best == moves[at]
        invariant i == 0 ==> bestScore == -1 && at == 0
        invariant i > 0 ==> at < i && bestScore == Score(grid, best, p)
        invariant forall j :: 0 <= j < i ==> Score(grid, moves[j], p) <= bestScore
        invariant forall j :: 0 <= j < at ==> Score(grid, moves[j], p) < bestScore
      {
        var m := moves[i];
        var mult := VALUES[m.1][m.0];
        var n := CountMove(m.0, m.1, p);
        var score := n * mult;
        ScoreNonnegative(grid, m, p);
        if score > bestScore {
          best := m;
          bestScore := score;
          at := i;
        }
      }
    }
  }

  /** The initial position holds HUMAN on (3, 3) and (4, 4), COMPUTER on
      (3, 4) and (4, 3), and nothing but EMPTY elsewhere. */
  lemma InitialSquares()
    ensures forall r, c :: 0 <= r < 8 && 0 <= c < 8 ==>
      InitialGrid()[r][c] ==
        if (c, r) == (3, 3) || (c, r) == (4, 4) then HUMAN
        else if (c, r) == (3, 4) || (c, r) == (4, 3) then COMPUTER
        else EMPTY
    ensures Tidy(InitialGrid())
  {
    var g1 := SetCell(Blank(), 3, 3, HUMAN);
    var g2 := SetCell(g1, 4, 4, HUMAN);
    var g3 := SetCell(g2, 3, 4, COMPUTER);
    forall r, c | 0 <= r < 8 && 0 <= c < 8
      ensures InitialGrid()[r][c] ==
        if (c, r) == (3, 3) || (c, r) == (4, 4) then HUMAN
        else if (c, r) == (3, 4) || (c, r) == (4, 3) then COMPUTER
        else EMPTY
    {
      assert Blank()[r][c] == EMPTY;
      assert g1[r][c] == if (c, r) == (3, 3) then HUMAN else EMPTY;
      assert g2[r][c] == if (c, r) == (3, 3) || (c, r) == (4, 4) then HUMAN else EMPTY;
    }
    TidyMeaning(InitialGrid());
  }

  lemma BlankEmpty()
    ensures forall r, c :: 0 <= r < 8 && 0 <= c < 8 ==> Blank()[r][c] == EMPTY
  {
  }

  /** The initial position gives each player two pieces. */
  lemma InitialSetup()
    ensures Count(InitialGrid(), HUMAN) == 2 && Count(InitialGrid(), COMPUTER) == 2
  {
    BlankEmpty();
    var g0 := Blank();
    var g1 := SetCell(g0, 3, 3, HUMAN);
    var g2 := SetCell(g1, 4, 4, HUMAN);
    var g3 := SetCell(g2, 3, 4, COMPUTER);
    CountNone(g0, HUMAN);
    CountNone(g0, COMPUTER);
    CountSet(g0, 3, 3, HUMAN, HUMAN);
    CountSet(g0, 3, 3, HUMAN, COMPUTER);
    CountSet(g1, 4, 4, HUMAN, HUMAN);
    CountSet(g1, 4, 4, HUMAN, COMPUTER);
    CountSet(g2, 3, 4, COMPUTER, HUMAN);
    CountSet(g2, 3, 4, COMPUTER, COMPUTER);
    CountSet(g3, 4, 3, COMPUTER, HUMAN);
    CountSet(g3, 4, 3, COMPUTER, COMPUTER);
  }

  lemma {:induction false} CountRowNone(row: seq<int>, p: int)
    requires forall c :: 0 <= c < |row| ==> row[c] != p
    ensures CountRow(row, p) == 0
  {
    if row != [] {
      CountRowNone(row[1..], p);
    }
  }

  /** A grid without any piece of `p` counts none. */
  lemma {:induction false} CountNone(g: Grid, p: int)
    requires forall r, c :: 0 <= r < |g| && 0 <= c < |g[r]| ==> g[r][c] != p
    ensures Count(g, p) == 0
  {
    if g != [] {
      CountRowNone(g[0], p);
      CountNone(g[1..], p);
    }
  }
}
