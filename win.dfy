/**
 * `Game.game_won`: the four-in-a-row test, written the way the source computes it
 * (each line of the board turned into a string of digits and searched for the
 * string "pppp"; rows, columns via the transpose, and the diagonals at offsets
 * 0, +-1, +-2, +-3 of the board and of its left-right mirror), together with a
 * direct reference definition and the proof that the two agree.
 */
module Win {
  import opened Board

  // ---------------------------------------------------------------------------
  // The string trick

  /** `str(d)` for a single-digit d. */
  function DigitChar(d: int): char
    requires 0 <= d <= 9
  {
    (48 + d) as char
  }

  ghost predicate Digits(s: seq<int>)
  {
    forall i :: 0 <= i < |s| ==> 0 <= s[i] <= 9
  }

  /** `''.join(line.astype(str))` for a line of single-digit cells. */
  function ToStr(s: seq<int>): (r: string)
    requires Digits(s)
    ensures |r| == |s|
    ensures forall i :: 0 <= i < |r| ==> '0' <= r[i] <= '9'
  {
    seq(|s|, i requires 0 <= i < |s| => DigitChar(s[i]))
  }

  /** `'{0}{0}{0}{0}'.format(p)`. */
  function WinStr(p: int): string
    requires 0 <= p <= 9
  {
    var d := DigitChar(p);
    [d, d, d, d]
  }

  /** Python's `pat in s`: pat is a prefix of s or occurs in s without its first character. */
  function Contains(s: string, pat: string): bool
    decreases |s|
  {
    |pat| <= |s| && (s[..|pat|] == pat || (|s| > 0 && Contains(s[1..], pat)))
  }

  /** Four consecutive entries of s, starting at index i, equal p. */
  ghost predicate RunAt(s: seq<int>, p: int, i: int)
  {
    0 <= i && i + 4 <= |s| && s[i] == p && s[i + 1] == p && s[i + 2] == p && s[i + 3] == p
  }

  /** Because every cell is one digit, the substring test finds exactly the runs of four. */
  lemma {:induction false} ContainsIffRun(s: seq<int>, p: int)
    requires Digits(s) && 0 <= p <= 9
    ensures Contains(ToStr(s), WinStr(p)) <==> exists i :: RunAt(s, p, i)
    decreases |s|
  {
    var t, w := ToStr(s), WinStr(p);
    if |s| >= 4 {
      assert t[1..] == ToStr(s[1..]);
      ContainsIffRun(s[1..], p);
      if t[..4] == w {
        assert t[0] == w[0] && t[1] == w[1] && t[2] == w[2] && t[3] == w[3];
        assert RunAt(s, p, 0);
      }
      if RunAt(s, p, 0) {
        assert t[..4] == w;
      }
      if exists i :: RunAt(s[1..], p, i) {
        var i :| RunAt(s[1..], p, i);
        assert RunAt(s, p, i + 1);
      }
      if exists i :: RunAt(s, p, i) {
        var i :| RunAt(s, p, i);
        if i > 0 {
          assert RunAt(s[1..], p, i - 1);
        }
      }
    } else {
      assert forall i :: !RunAt(s, p, i);
    }
  }

  // ---------------------------------------------------------------------------
  // Lines of the board

  ghost predicate DigitLines(lines: seq<seq<int>>)
  {
    forall k, i :: 0 <= k < |lines| && 0 <= i < |lines[k]| ==> 0 <= lines[k][i] <= 9
  }

  /** `check_horizontal`: some line, as a string, contains the winning string. */
  function AnyLine(lines: seq<seq<int>>, p: int): bool
    requires DigitLines(lines) && 0 <= p <= 9
  {
    if |lines| == 0 then false
    else
      assert Digits(lines[0]) by { assert forall i :: 0 <= i < |lines[0]| ==> 0 <= lines[0][i] <= 9; }
      Contains(ToStr(lines[0]), WinStr(p)) || AnyLine(lines[1..], p)
  }

  lemma {:induction false} AnyLineIff(lines: seq<seq<int>>, p: int)
    requires DigitLines(lines) && 0 <= p <= 9
    ensures AnyLine(lines, p) <==> exists k, i :: 0 <= k < |lines| && RunAt(lines[k], p, i)
    decreases |lines|
  {
    if |lines| > 0 {
      assert Digits(lines[0]) by { assert forall i :: 0 <= i < |lines[0]| ==> 0 <= lines[0][i] <= 9; }
      ContainsIffRun(lines[0], p);
      AnyLineIff(lines[1..], p);
      if exists k, i :: 0 <= k < |lines| && RunAt(lines[k], p, i) {
        var k, i :| 0 <= k < |lines| && RunAt(lines[k], p, i);
        if k > 0 {
          assert RunAt(lines[1..][k - 1], p, i);
        }
      }
      if exists k, i :: 0 <= k < |lines[1..]| && RunAt(lines[1..][k], p, i) {
        var k, i :| 0 <= k < |lines[1..]| && RunAt(lines[1..][k], p, i);
        assert RunAt(lines[k + 1], p, i);
      }
    }
  }

  /** `b.T`: the columns of the board as lines. */
  function Transpose(b: Grid): (t: seq<seq<int>>)
    requires Shaped(b)
    ensures |t| == Cols && forall c :: 0 <= c < Cols ==> t[c] == Column(b, c)
  {
    seq(Cols, c requires 0 <= c < Cols => Column(b, c))
  }

  /** `np.fliplr(b)`: the board mirrored left to right. */
  function FlipLR(b: Grid): (f: Grid)
    requires Shaped(b)
    ensures Shaped(f) && forall r, c :: 0 <= r < Rows && 0 <= c < Cols ==> f[r][c] == b[r][Cols - 1 - c]
    ensures IsGrid(b) ==> IsGrid(f)
  {
    seq(Rows, r requires 0 <= r < Rows => seq(Cols, c requires 0 <= c < Cols => b[r][Cols - 1 - c]))
  }

  function Min(a: int, b: int): int
  {
    if a < b then a else b
  }

  /** Length of `np.diagonal(b, offset=k)` on a 6 x 7 array. */
  function DiagLen(k: int): int
    requires -Rows <= k <= Cols
  {
    if k >= 0 then Min(Rows, Cols - k) else Min(Rows + k, Cols)
  }

  /** Row and column of entry i of the diagonal at offset k. */
  function DiagRow(k: int, i: int): int { if k >= 0 then i else i - k }
  function DiagCol(k: int, i: int): int { if k >= 0 then i + k else i }

  /** `np.diagonal(b, offset=k)`: the cells b[i][i+k] (k >= 0) or b[i-k][i] (k < 0). */
  function Diagonal(b: Grid, k: int): (d: seq<int>)
    requires Shaped(b) && -Rows <= k <= Cols
    ensures |d| == DiagLen(k)
    ensures forall i :: 0 <= i < |d| ==> d[i] == b[DiagRow(k, i)][DiagCol(k, i)]
  {
    seq(DiagLen(k), i requires 0 <= i < DiagLen(k) => b[DiagRow(k, i)][DiagCol(k, i)])
  }

  /** The diagonal at offset k, as a string, contains the winning string. */
  function DiagHit(b: Grid, p: int, k: int): bool
    requires IsGrid(b) && 0 <= p <= 9 && -Rows <= k <= Cols
  {
    var d := Diagonal(b, k);
    assert Digits(d);
    Contains(ToStr(d), WinStr(p))
  }

  /** The inner loop of `check_diagonal`: offsets i and -i for i in `range(i, b.shape[1] - 3)`. */
  function OffsetsFrom(b: Grid, p: int, i: int): bool
    requires IsGrid(b) && 0 <= p <= 9 && 1 <= i <= Cols - 3
    decreases Cols - 3 - i
  {
    i < Cols - 3 && (DiagHit(b, p, i) || DiagHit(b, p, -i) || OffsetsFrom(b, p, i + 1))
  }

  /** One pass of `check_diagonal` over one view of the board: the root diagonal, then the offsets. */
  function DiagonalView(b: Grid, p: int): bool
    requires IsGrid(b) && 0 <= p <= 9
  {
    DiagHit(b, p, 0) || OffsetsFrom(b, p, 1)
  }

  /** `check_diagonal`: the board, then its mirror. */
  function CheckDiagonal(g: Grid, p: int): bool
    requires IsGrid(g) && 0 <= p <= 9
  {
    DiagonalView(g, p) || DiagonalView(FlipLR(g), p)
  }

  /** `game_won(p)`. */
  function Won(g: Grid, p: int): bool
    requires IsGrid(g) && 0 <= p <= 9
  {
    var t := Transpose(g);
    assert DigitLines(g);
    assert DigitLines(t) by {
      forall k, i | 0 <= k < |t| && 0 <= i < |t[k]| ensures 0 <= t[k][i] <= 9 {
        assert t[k][i] == g[i][k];
      }
    }
    AnyLine(g, p) || AnyLine(t, p) || CheckDiagonal(g, p)
  }

  // ---------------------------------------------------------------------------
  // The reference definition

  /** Four cells from (r, c) in steps of (dr, dc) lie on the board and all hold p. */
  ghost predicate FourAt(g: Grid, p: int, r: int, c: int, dr: int, dc: int)
    requires Shaped(g)
  {
    && 0 <= r < Rows && 0 <= c < Cols
    && 0 <= r + 3 * dr < Rows && 0 <= c + 3 * dc < Cols
    && g[r][c] == p && g[r + dr][c + dc] == p
    && g[r + 2 * dr][c + 2 * dc] == p && g[r + 3 * dr][c + 3 * dc] == p
  }

  ghost predicate HasRow(g: Grid, p: int) requires Shaped(g) { exists r, c :: FourAt(g, p, r, c, 0, 1) }
  ghost predicate HasColumn(g: Grid, p: int) requires Shaped(g) { exists r, c :: FourAt(g, p, r, c, 1, 0) }
  /** Down and to the right. */
  ghost predicate HasDiagonal(g: Grid, p: int) requires Shaped(g) { exists r, c :: FourAt(g, p, r, c, 1, 1) }
  /** Down and to the left. */
  ghost predicate HasAntiDiagonal(g: Grid, p: int) requires Shaped(g) { exists r, c :: FourAt(g, p, r, c, 1, -1) }

  /** Four consecutive cells hold p along some row, column or diagonal of either direction. */
  ghost predicate HasFour(g: Grid, p: int)
    requires Shaped(g)
  {
    HasRow(g, p) || HasColumn(g, p) || HasDiagonal(g, p) || HasAntiDiagonal(g, p)
  }

  // ---------------------------------------------------------------------------
  // The proof that game_won is the reference definition

  lemma HorizontalIff(g: Grid, p: int)
    requires IsGrid(g) && 0 <= p <= 9
    ensures AnyLine(g, p) <==> HasRow(g, p)
  {
    AnyLineIff(g, p);
    if AnyLine(g, p) {
      var r, c :| 0 <= r < |g| && RunAt(g[r], p, c);
      assert FourAt(g, p, r, c, 0, 1);
    }
    if HasRow(g, p) {
      var r, c :| FourAt(g, p, r, c, 0, 1);
      assert RunAt(g[r], p, c);
    }
  }

  /** Every entry of the transposed board is a digit. */
  lemma TransposeDigits(g: Grid)
    requires IsGrid(g)
    ensures DigitLines(Transpose(g))
  {
    var t := Transpose(g);
    forall k, i | 0 <= k < |t| && 0 <= i < |t[k]| ensures 0 <= t[k][i] <= 9 {
      assert t[k][i] == g[i][k];
    }
  }

  /** Entry r of column c starts a run of four exactly when its cell starts a downward run. */
  lemma ColumnRunAt(g: Grid, p: int, r: int, c: int)
    requires Shaped(g) && 0 <= c < Cols
    ensures RunAt(Column(g, c), p, r) <==> FourAt(g, p, r, c, 1, 0)
  {
  }

  lemma VerticalIff(g: Grid, p: int)
    requires IsGrid(g) && 0 <= p <= 9
    ensures var t := Transpose(g); DigitLines(t) && (AnyLine(t, p) <==> HasColumn(g, p))
  {
    var t := Transpose(g);
    TransposeDigits(g);
    AnyLineIff(t, p);
    if AnyLine(t, p) {
      var c, r :| 0 <= c < |t| && RunAt(t[c], p, r);
      ColumnRunAt(g, p, r, c);
    }
    if HasColumn(g, p) {
      var r, c :| FourAt(g, p, r, c, 1, 0);
      ColumnRunAt(g, p, r, c);
      assert RunAt(t[c], p, r);
    }
  }

  /** Entry i of the diagonal at offset k starts a run of four exactly when its cell starts a down-right run. */
  lemma DiagRunAt(b: Grid, p: int, k: int, i: int)
    requires Shaped(b) && -Rows <= k <= Cols && 0 <= i
    ensures RunAt(Diagonal(b, k), p, i) <==> FourAt(b, p, DiagRow(k, i), DiagCol(k, i), 1, 1)
  {
    var d := Diagonal(b, k);
    var r, c := DiagRow(k, i), DiagCol(k, i);
    if RunAt(d, p, i) {
      assert d[i] == b[r][c] && d[i + 3] == b[r + 3][c + 3];
      assert d[i + 1] == b[r + 1][c + 1] && d[i + 2] == b[r + 2][c + 2];
    }
    if FourAt(b, p, r, c, 1, 1) {
      assert i + 4 <= DiagLen(k);
      assert d[i] == b[r][c] && d[i + 3] == b[r + 3][c + 3];
      assert d[i + 1] == b[r + 1][c + 1] && d[i + 2] == b[r + 2][c + 2];
    }
  }

  /** A hit on the diagonal at offset k is a down-right run of four along it, and back. */
  lemma DiagHitIff(b: Grid, p: int, k: int)
    requires IsGrid(b) && 0 <= p <= 9 && -Rows <= k <= Cols
    ensures DiagHit(b, p, k) <==> exists i :: 0 <= i && FourAt(b, p, DiagRow(k, i), DiagCol(k, i), 1, 1)
  {
    var d := Diagonal(b, k);
    ContainsIffRun(d, p);
    if DiagHit(b, p, k) {
      var i :| RunAt(d, p, i);
      DiagRunAt(b, p, k, i);
    }
    if exists i :: 0 <= i && FourAt(b, p, DiagRow(k, i), DiagCol(k, i), 1, 1) {
      var i :| 0 <= i && FourAt(b, p, DiagRow(k, i), DiagCol(k, i), 1, 1);
      DiagRunAt(b, p, k, i);
    }
  }

  /** The diagonals at offsets k and -k. */
  ghost predicate PairHit(b: Grid, p: int, k: int)
    requires IsGrid(b) && 0 <= p <= 9 && 0 <= k <= Rows
  {
    DiagHit(b, p, k) || DiagHit(b, p, -k)
  }

  lemma {:induction false} OffsetsFromIff(b: Grid, p: int, i: int)
    requires IsGrid(b) && 0 <= p <= 9 && 1 <= i <= Cols - 3
    ensures OffsetsFrom(b, p, i) <==> exists k :: i <= k < Cols - 3 && PairHit(b, p, k)
    decreases Cols - 3 - i
  {
    if i < Cols - 3 {
      OffsetsFromIff(b, p, i + 1);
      assert OffsetsFrom(b, p, i) == (PairHit(b, p, i) || OffsetsFrom(b, p, i + 1));
      if OffsetsFrom(b, p, i) && !PairHit(b, p, i) {
        var k :| i + 1 <= k < Cols - 3 && PairHit(b, p, k);
        assert i <= k;
      }
      if exists k :: i <= k < Cols - 3 && PairHit(b, p, k) {
        var k :| i <= k < Cols - 3 && PairHit(b, p, k);
        if k != i {
          assert i + 1 <= k;
        }
      }
    }
  }

  /** The offsets 0, +-1, +-2, +-3 reach every down-right diagonal run of four. */
  lemma DiagonalViewIff(b: Grid, p: int)
    requires IsGrid(b) && 0 <= p <= 9
    ensures DiagonalView(b, p) <==> HasDiagonal(b, p)
  {
    OffsetsFromIff(b, p, 1);
    if DiagonalView(b, p) {
      var k: int;
      if DiagHit(b, p, 0) {
        k := 0;
      } else {
        var j :| 1 <= j < Cols - 3 && PairHit(b, p, j);
        k := if DiagHit(b, p, j) then j else -j;
      }
      DiagHitIff(b, p, k);
      var i :| 0 <= i && FourAt(b, p, DiagRow(k, i), DiagCol(k, i), 1, 1);
    }
    if HasDiagonal(b, p) {
      var r, c :| FourAt(b, p, r, c, 1, 1);
      var k := c - r;
      var i := if k >= 0 then r else c;
      assert DiagRow(k, i) == r && DiagCol(k, i) == c;
      DiagHitIff(b, p, k);
      assert DiagHit(b, p, k);
      if k != 0 {
        var j := if k > 0 then k else -k;
        assert PairHit(b, p, j);
      }
    }
  }

  /** A down-right run in the mirror from (r, c) is a down-left run in the board from column Cols - 1 - c. */
  lemma FlipRunAt(g: Grid, p: int, r: int, c: int)
    requires Shaped(g)
    ensures FourAt(FlipLR(g), p, r, c, 1, 1) <==> FourAt(g, p, r, Cols - 1 - c, 1, -1)
  {
  }

  /** A down-left run in the board is a down-right run in its mirror, and back. */
  lemma AntiDiagonalIff(g: Grid, p: int)
    requires IsGrid(g) && 0 <= p <= 9
    ensures HasDiagonal(FlipLR(g), p) <==> HasAntiDiagonal(g, p)
  {
    var f := FlipLR(g);
    if HasDiagonal(f, p) {
      var r, c :| FourAt(f, p, r, c, 1, 1);
      FlipRunAt(g, p, r, c);
    }
    if HasAntiDiagonal(g, p) {
      var r, c :| FourAt(g, p, r, c, 1, -1);
      FlipRunAt(g, p, r, Cols - 1 - c);
      assert FourAt(f, p, r, Cols - 1 - c, 1, 1);
    }
  }

  /** `game_won(p)` holds exactly when p has four in a row in some direction. */
  lemma WonIff(g: Grid, p: int)
    requires IsGrid(g) && 0 <= p <= 9
    ensures Won(g, p) <==> HasFour(g, p)
  {
    HorizontalIff(g, p);
    VerticalIff(g, p);
    DiagonalViewIff(g, p);
    DiagonalViewIff(FlipLR(g), p);
    AntiDiagonalIff(g, p);
  }

  /** The offsets the source scans include every offset whose diagonal is long enough to hold four. */
  lemma OffsetsCoverLongDiagonals(k: int)
    requires -Rows <= k <= Cols && DiagLen(k) >= 4
    ensures k == 0 || (1 <= k < Cols - 3) || (1 <= -k < Cols - 3)
  {
  }

  /** A board with marks of player 1 at (5, 0), (5, 1), (5, 2) and (5, 3): a win for player 1 along the bottom row. */
  lemma BottomRowExample()
    ensures var g := EmptyGrid()[5 := [1, 1, 1, 1, 0, 0, 0]];
            IsGrid(g) && Won(g, 1)
  {
    var g := EmptyGrid()[5 := [1, 1, 1, 1, 0, 0, 0]];
    assert IsGrid(g) by {
      forall r, c | 0 <= r < Rows && 0 <= c < Cols
        ensures 0 <= g[r][c] <= 2
      {
        if r == 5 {
          assert c < 4 || c >= 4;
        }
      }
    }
    assert FourAt(g, 1, 5, 0, 0, 1);
    WonIff(g, 1);
  }

  /** Marks of player 1 at (5, 0), (4, 1), (3, 2) and (2, 3): a win for player 1 along a rising diagonal. */
  lemma RisingDiagonalExample()
    ensures var g := EmptyGrid()[5 := EmptyGrid()[5][0 := 1]][4 := EmptyGrid()[4][1 := 1]]
                                [3 := EmptyGrid()[3][2 := 1]][2 := EmptyGrid()[2][3 := 1]];
            IsGrid(g) && Won(g, 1)
  {
    var g := EmptyGrid()[5 := EmptyGrid()[5][0 := 1]][4 := EmptyGrid()[4][1 := 1]]
                        [3 := EmptyGrid()[3][2 := 1]][2 := EmptyGrid()[2][3 := 1]];
    assert FourAt(g, 1, 2, 3, 1, -1);
    WonIff(g, 1);
  }
}
