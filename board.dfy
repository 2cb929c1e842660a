/**
 * The Connect Four board as a value: a 6 x 7 grid of cells, row 0 at the top.
 * A cell holds 0 when it is empty and otherwise the number (1 or 2) of the
 * player whose mark it holds.  This module gives the value-level meaning of
 * `Game.update_board` (a gravity drop) and `Game.game_tied` (the full-board
 * test); the array-backed game in module Engine is proved against it.
 */
module Board {

  const Rows: int := 6
  const Cols: int := 7
  const Empty: int := 0

  type Grid = seq<seq<int>>

  /** Six rows of seven cells each. */
  ghost predicate Shaped(g: Grid)
  {
    |g| == Rows && forall r :: 0 <= r < Rows ==> |g[r]| == Cols
  }

  /** A well-formed board: 6 x 7 and every cell is 0, 1 or 2. */
  ghost predicate IsGrid(g: Grid)
  {
    Shaped(g) && forall r, c :: 0 <= r < Rows && 0 <= c < Cols ==> 0 <= g[r][c] <= 2
  }

  /** The board a game starts with (`np.zeros([6,7])`). */
  function EmptyGrid(): (g: Grid)
    ensures IsGrid(g)
    ensures forall r, c :: 0 <= r < Rows && 0 <= c < Cols ==> g[r][c] == Empty
  {
    seq(Rows, r => seq(Cols, c => Empty))
  }

  /** Two boards with the same cells are the same board. */
  lemma SameCells(g: Grid, h: Grid)
    requires Shaped(g) && Shaped(h)
    requires forall r, c :: 0 <= r < Rows && 0 <= c < Cols ==> g[r][c] == h[r][c]
    ensures g == h
  {
    forall r | 0 <= r < Rows
      ensures g[r] == h[r]
    {
      assert forall c :: 0 <= c < Cols ==> g[r][c] == h[r][c];
    }
  }

  /** Column c read from top to bottom (`board[:, c]`). */
  function Column(g: Grid, c: int): (col: seq<int>)
    requires Shaped(g) && 0 <= c < Cols
    ensures |col| == Rows && forall r :: 0 <= r < Rows ==> col[r] == g[r][c]
  {
    seq(Rows, r requires 0 <= r < Rows => g[r][c])
  }

  /** `0 in board[:, c]`: the column still has an empty cell. */
  predicate HasEmpty(g: Grid, c: int)
    requires Shaped(g) && 0 <= c < Cols
  {
    Empty in Column(g, c)
  }

  /** No occupied cell lies above an empty cell of the same column. */
  ghost predicate Gravity(g: Grid)
    requires Shaped(g)
  {
    forall r, r', c :: 0 <= r < r' < Rows && 0 <= c < Cols && g[r][c] != Empty ==> g[r'][c] != Empty
  }

  /**
   * Row r of column c is a place the drop loop of update_board can stop at:
   * the cell is empty and it is the bottom row or the cell below is occupied.
   */
  ghost predicate IsLanding(g: Grid, c: int, r: int)
    requires Shaped(g) && 0 <= c < Cols
  {
    0 <= r < Rows && g[r][c] == Empty && (r == Rows - 1 || g[r + 1][c] > 0)
  }

  /** The first landing row of column c at or below row r, scanning downwards; Rows if none. */
  ghost function LandingFrom(g: Grid, c: int, r: int): (d: int)
    requires Shaped(g) && 0 <= c < Cols && 0 <= r <= Rows
    ensures r <= d <= Rows
    ensures d < Rows ==> IsLanding(g, c, d)
    ensures forall k :: r <= k < d ==> !IsLanding(g, c, k)
    decreases Rows - r
  {
    if r == Rows then Rows
    else if IsLanding(g, c, r) then r
    else LandingFrom(g, c, r + 1)
  }

  /** The row update_board writes into: the first landing row from the top. */
  ghost function DropRow(g: Grid, c: int): (d: int)
    requires Shaped(g) && 0 <= c < Cols
    ensures 0 <= d <= Rows
    ensures d < Rows ==> IsLanding(g, c, d)
    ensures forall k :: 0 <= k < d ==> !IsLanding(g, c, k)
  {
    LandingFrom(g, c, 0)
  }

  /** Below any empty cell there is a landing row. */
  lemma {:induction false} LandingBelow(g: Grid, c: int, r: int)
    requires IsGrid(g) && 0 <= c < Cols && 0 <= r < Rows && g[r][c] == Empty
    ensures exists k :: r <= k < Rows && IsLanding(g, c, k)
    decreases Rows - r
  {
    if r == Rows - 1 || g[r + 1][c] > 0 {
      assert IsLanding(g, c, r);
    } else {
      LandingBelow(g, c, r + 1);
    }
  }

  /** The drop loop finds a row exactly when the column has an empty cell. */
  lemma HasEmptyIffLanding(g: Grid, c: int)
    requires IsGrid(g) && 0 <= c < Cols
    ensures HasEmpty(g, c) <==> DropRow(g, c) < Rows
  {
    var col := Column(g, c);
    if HasEmpty(g, c) {
      var r :| 0 <= r < Rows && col[r] == Empty;
      LandingBelow(g, c, r);
      var k :| r <= k < Rows && IsLanding(g, c, k);
      assert DropRow(g, c) <= k;
    }
    if DropRow(g, c) < Rows {
      assert col[DropRow(g, c)] == Empty;
    }
  }

  /** update_board on a column with an empty cell: player p's mark goes into the drop row. */
  ghost function Drop(g: Grid, c: int, p: int): (g': Grid)
    requires IsGrid(g) && 0 <= c < Cols && HasEmpty(g, c) && 1 <= p <= 2
    ensures IsGrid(g')
  {
    HasEmptyIffLanding(g, c);
    var d := DropRow(g, c);
    g[d := g[d][c := p]]
  }

  /** The drop writes p into the drop row, an empty cell of the column, and leaves every other cell as it was. */
  lemma DropWrites(g: Grid, c: int, p: int)
    requires IsGrid(g) && 0 <= c < Cols && HasEmpty(g, c) && 1 <= p <= 2
    ensures var d := DropRow(g, c);
            && 0 <= d < Rows && g[d][c] == Empty && Drop(g, c, p)[d][c] == p
            && forall r, k :: 0 <= r < Rows && 0 <= k < Cols && (r != d || k != c) ==> Drop(g, c, p)[r][k] == g[r][k]
  {
    HasEmptyIffLanding(g, c);
  }

  /**
   * On a board obeying gravity, the drop row is the lowest empty cell of the column:
   * every cell below it is occupied.
   */
  lemma DropLowest(g: Grid, c: int, p: int)
    requires IsGrid(g) && Gravity(g) && 0 <= c < Cols && HasEmpty(g, c) && 1 <= p <= 2
    ensures var d := DropRow(g, c);
            && 0 <= d < Rows && g[d][c] == Empty
            && forall r :: d < r < Rows ==> g[r][c] != Empty
  {
    HasEmptyIffLanding(g, c);
    var d := DropRow(g, c);
    assert IsLanding(g, c, d);
    forall r | d < r < Rows
      ensures g[r][c] != Empty
    {
      assert g[d + 1][c] != Empty;
    }
  }

  /** The empty board obeys gravity. */
  lemma EmptyGridGravity()
    ensures Gravity(EmptyGrid())
  {
  }

  /** Dropping a mark keeps the gravity invariant. */
  lemma DropKeepsGravity(g: Grid, c: int, p: int)
    requires IsGrid(g) && Gravity(g) && 0 <= c < Cols && HasEmpty(g, c) && 1 <= p <= 2
    ensures Gravity(Drop(g, c, p))
  {
    DropWrites(g, c, p);
    DropLowest(g, c, p);
    var d := DropRow(g, c);
    var g' := Drop(g, c, p);
    forall r, r', k | 0 <= r < r' < Rows && 0 <= k < Cols && g'[r][k] != Empty
      ensures g'[r'][k] != Empty
    {
      if r' == d && k == c {
      } else if r == d && k == c {
        assert g[r'][k] != Empty;
      } else {
        assert g[r][k] != Empty;
      }
    }
  }

  /** Number of occupied cells of a line. */
  function CountLine(s: seq<int>): (n: nat)
    ensures n <= |s|
  {
    if s == [] then 0 else (if s[0] != Empty then 1 else 0) + CountLine(s[1..])
  }

  /** Number of occupied cells of a board. */
  function CountFilled(g: Grid): nat
  {
    if g == [] then 0 else CountLine(g[0]) + CountFilled(g[1..])
  }

  lemma {:induction false} CountLineUpdate(s: seq<int>, i: int, v: int)
    requires 0 <= i < |s|
    ensures CountLine(s[i := v]) == CountLine(s) - (if s[i] != Empty then 1 else 0) + (if v != Empty then 1 else 0)
    decreases |s|
  {
    if i == 0 {
      assert s[i := v][1..] == s[1..];
    } else {
      assert s[i := v][1..] == s[1..][i - 1 := v];
      CountLineUpdate(s[1..], i - 1, v);
    }
  }

  lemma {:induction false} CountFilledUpdate(g: Grid, d: int, row: seq<int>)
    requires 0 <= d < |g|
    ensures CountFilled(g[d := row]) == CountFilled(g) - CountLine(g[d]) + CountLine(row)
    decreases |g|
  {
    if d == 0 {
      assert g[d := row][1..] == g[1..];
    } else {
      assert g[d := row][1..] == g[1..][d - 1 := row];
      CountFilledUpdate(g[1..], d - 1, row);
    }
  }

  /** Each drop fills exactly one more cell. */
  lemma DropCount(g: Grid, c: int, p: int)
    requires IsGrid(g) && 0 <= c < Cols && HasEmpty(g, c) && 1 <= p <= 2
    ensures CountFilled(Drop(g, c, p)) == CountFilled(g) + 1
  {
    HasEmptyIffLanding(g, c);
    var d := DropRow(g, c);
    assert IsLanding(g, c, d);
    CountLineUpdate(g[d], c, p);
    CountFilledUpdate(g, d, g[d][c := p]);
  }

  /** The cells of the board, row after row. */
  function Flatten(g: Grid): seq<int>
  {
    if g == [] then [] else g[0] + Flatten(g[1..])
  }

  /** `game_tied`: `0 not in board`. */
  predicate Tied(g: Grid)
  {
    Empty !in Flatten(g)
  }

  lemma {:induction false} InFlatten(g: Grid, x: int)
    ensures x in Flatten(g) <==> exists r, c :: 0 <= r < |g| && 0 <= c < |g[r]| && g[r][c] == x
    decreases |g|
  {
    if g != [] {
      InFlatten(g[1..], x);
      if x in Flatten(g) {
        if x in g[0] {
          var c :| 0 <= c < |g[0]| && g[0][c] == x;
          assert g[0][c] == x;
        } else {
          var r, c :| 0 <= r < |g[1..]| && 0 <= c < |g[1..][r]| && g[1..][r][c] == x;
          assert g[r + 1][c] == x;
        }
      }
      if exists r, c :: 0 <= r < |g| && 0 <= c < |g[r]| && g[r][c] == x {
        var r, c :| 0 <= r < |g| && 0 <= c < |g[r]| && g[r][c] == x;
        if r == 0 {
          assert g[0][c] == x;
        } else {
          assert g[1..][r - 1][c] == x;
        }
      }
    }
  }

  /** Every cell of the board is occupied. */
  ghost predicate Full(g: Grid)
    requires Shaped(g)
  {
    forall r, c :: 0 <= r < Rows && 0 <= c < Cols ==> g[r][c] != Empty
  }

  /** The board is tied exactly when no cell is empty. */
  lemma TiedIff(g: Grid)
    requires Shaped(g)
    ensures Tied(g) <==> Full(g)
  {
    InFlatten(g, Empty);
  }

  /** A single empty cell anywhere keeps the game from being tied. */
  lemma EmptyCellNotTied(g: Grid, r: int, c: int)
    requires Shaped(g) && 0 <= r < Rows && 0 <= c < Cols && g[r][c] == Empty
    ensures !Tied(g)
  {
    InFlatten(g, Empty);
  }

  lemma {:induction false} CountLineFull(s: seq<int>)
    ensures CountLine(s) == |s| <==> forall i :: 0 <= i < |s| ==> s[i] != Empty
    decreases |s|
  {
    if s != [] {
      CountLineFull(s[1..]);
      assert forall i :: 1 <= i < |s| ==> s[i] == s[1..][i - 1];
    }
  }

  lemma {:induction false} CountFilledFull(g: Grid)
    requires forall r :: 0 <= r < |g| ==> |g[r]| == Cols
    ensures CountFilled(g) <= Cols * |g|
    ensures CountFilled(g) == Cols * |g| <==> forall r, c :: 0 <= r < |g| && 0 <= c < Cols ==> g[r][c] != Empty
    decreases |g|
  {
    if g != [] {
      CountFilledFull(g[1..]);
      CountLineFull(g[0]);
      assert forall r :: 1 <= r < |g| ==> g[r] == g[1..][r - 1];
    }
  }

  /** The board is full exactly when all 42 cells are occupied. */
  lemma FullIffCount(g: Grid)
    requires Shaped(g)
    ensures CountFilled(g) <= Rows * Cols
    ensures Full(g) <==> CountFilled(g) == Rows * Cols
  {
    CountFilledFull(g);
  }
}
