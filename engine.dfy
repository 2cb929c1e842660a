/**
 * The turn engine of ConnectFour.py: class `Game` with its board (a 6 x 7
 * array of cells updated in place), `update_board`, `game_tied`, `game_won`,
 * the post-move state logic of `make_move` and the `gameloop`.
 *
 * What an agent hands back for a turn is an input of the model (MoveInput);
 * how it was computed, and the worker process with its time limit, are not
 * modelled.  The turns of a game are a finite script; a game still running when
 * its script runs out is reported as such (Unfinished), never as an ending.
 * Each state-changing method is proved against a value-level function of the
 * old state (Place, Step, Play), and the properties the source promises are
 * proved about those functions.  The turns are those of the console path,
 * without a Tk window.
 */
module Engine {
  import opened Results
  import opened Board
  import Win

  /** A participant as the engine sees it: its mark number and its display name. */
  datatype Player = Player(number: int, name: string)

  /** What the current player's agent hands back for one turn. */
  datatype MoveInput =
    | Move(col: int)  // a column
    | NoMove          // the agent returned None
    | Fault           // the worker could not be started, or was terminated at its time limit

  /** The exceptions a turn can raise; without a Tk window each ends the game and the whole run. */
  datatype Error =
    | PlayerFault(player: int)             // "something is wrong with Player n", then 'Game Over'
    | InvalidMove(player: int, column: int) // 'Invalid move by player p. Column c': the column is full
    | ColumnOutOfRange(column: int)        // indexing the board with a column outside 0..6

  /** The fields of a Game that a turn reads and writes, as a value. */
  datatype State = State(cells: Grid, turn: int, over: bool, winner: Option<string>, loser: Option<string>)

  /** One pass of `gameloop`: the operator's command (read only when interactive) and the agent's answer. */
  datatype Turn = Turn(command: string, response: MoveInput)

  /** How `gameloop` over a finite script of turns comes out. */
  datatype Ending =
    | Finished(state: State)   // the loop was left: the game is over, or the operator typed x
    | Raised(error: Error)     // a turn raised
    | Unfinished(state: State) // the script ran out while the loop would still ask for turns

  /** `int(not t)`. */
  function Other(t: int): (o: int)
    ensures t == 0 ==> o == 1
    ensures t != 0 ==> o == 0
    ensures 0 <= t <= 1 ==> 0 <= o <= 1 && o != t
  {
    if t == 0 then 1 else 0
  }

  /** Passing the turn twice gives it back. */
  lemma OtherTwice(t: int)
    requires 0 <= t <= 1
    ensures Other(Other(t)) == t
  {
  }

  /** `make_player` gives the first player number 1 and the second number 2. */
  ghost predicate PlayersOk(players: seq<Player>)
  {
    |players| == 2 && players[0].number == 1 && players[1].number == 2
  }

  /**
   * The invariant every game state keeps: a well-formed board, the
   * turn index 0 or 1, and a winner only in a finished game, who is the player to
   * move and has the other player as loser.
   */
  ghost predicate Consistent(s: State, players: seq<Player>)
  {
    && PlayersOk(players)
    && IsGrid(s.cells)
    && 0 <= s.turn <= 1
    && (s.winner.Some? ==> s.over && s.winner == Some(players[s.turn].name) && s.loser == Some(players[Other(s.turn)].name))
    && (s.winner.None? ==> s.loser.None?)
  }

  /** The state `Game.__init__` sets up: empty board, player 1 to move, no winner. */
  function InitialState(): (s: State)
    ensures forall players :: PlayersOk(players) ==> Consistent(s, players)
  {
    State(EmptyGrid(), 0, false, None, None)
  }

  /** `update_board(move, p)` as a function of the board value. */
  ghost function Place(g: Grid, move: int, p: int): (r: Result<Grid, Error>)
    requires IsGrid(g) && 1 <= p <= 2
    ensures r.Ok? <==> 0 <= move < Cols && HasEmpty(g, move)
    ensures r.Ok? ==> IsGrid(r.value)
    ensures r.Err? && 0 <= move < Cols ==> r.error == InvalidMove(p, move)
  {
    if !(0 <= move < Cols) then Err(ColumnOutOfRange(move))
    else if HasEmpty(g, move) then Ok(Drop(g, move, p))
    else Err(InvalidMove(p, move))
  }

  /** The first half of `make_move`: the board after the agent's answer is applied, or the exception. */
  ghost function Apply(s: State, players: seq<Player>, input: MoveInput): (r: Result<Grid, Error>)
    requires Consistent(s, players)
    ensures r.Ok? ==> IsGrid(r.value)
  {
    var mover := players[s.turn];
    match input
    case Fault => Err(PlayerFault(mover.number))
    case NoMove => Ok(s.cells)
    case Move(c) => Place(s.cells, c, mover.number)
  }

  /**
   * The second half of `make_move`: on the new board g, a win for the mover, else a
   * tie on a full board, else the turn passes.  The source's tests `game_won` and
   * `game_tied` are proved equal to HasFour and Full (Win.WonIff, Board.TiedIff).
   */
  ghost function Decide(s: State, players: seq<Player>, g: Grid): (t: State)
    requires Consistent(s, players) && !s.over && IsGrid(g)
    ensures Consistent(t, players)
  {
    var mover := players[s.turn];
    if Win.HasFour(g, mover.number) then
      State(g, s.turn, true, Some(mover.name), Some(players[Other(s.turn)].name))
    else if Full(g) then
      s.(cells := g, over := true)
    else
      s.(cells := g, turn := Other(s.turn))
  }

  /** `make_move` with the agent's answer `input`, as a function of the state. */
  ghost function Step(s: State, players: seq<Player>, input: MoveInput): (r: Result<State, Error>)
    requires Consistent(s, players)
    ensures r.Ok? ==> Consistent(r.value, players)
  {
    if s.over then Ok(s)
    else
      match Apply(s, players, input)
      case Err(e) => Err(e)
      case Ok(g) => Ok(Decide(s, players, g))
  }

  /** A move that applies cleanly to a running game is followed by the decision on the new board. */
  lemma StepIsDecide(s: State, players: seq<Player>, input: MoveInput, g: Grid)
    requires Consistent(s, players) && !s.over && Apply(s, players, input) == Ok(g)
    ensures IsGrid(g)
    ensures Step(s, players, input) == Ok(Decide(s, players, g))
  {
  }

  /**
   * `gameloop` over a finite script of turns: leave when the operator types x in an
   * interactive game or when the game is over, stop when a turn raises, and report
   * the game as unfinished when the script runs out first.
   */
  ghost function Play(s: State, players: seq<Player>, interactive: bool, script: seq<Turn>): (r: Ending)
    requires Consistent(s, players)
    ensures !r.Raised? ==> Consistent(r.state, players)
    decreases |script|
  {
    if script == [] then Unfinished(s)
    else if interactive && script[0].command == "x" then Finished(s)
    else
      match Step(s, players, script[0].response)
      case Err(e) => Raised(e)
      case Ok(t) => if t.over then Finished(t) else Play(t, players, interactive, script[1..])
  }

  /** Once the game is over, `make_move` changes nothing and raises nothing. */
  lemma StepWhenOver(s: State, players: seq<Player>, input: MoveInput)
    requires Consistent(s, players) && s.over
    ensures Step(s, players, input) == Ok(s)
  {
  }

  /**
   * A turn of a running game raises exactly when the agent's worker failed, or the
   * agent named a column off the board, or a full column; the exception names the
   * player (for a failed worker or a full column) or the column.
   */
  lemma StepErrors(s: State, players: seq<Player>, input: MoveInput)
    requires Consistent(s, players)
    ensures var p := players[s.turn].number;
            Step(s, players, input).Err? <==>
              !s.over && (input.Fault? || (input.Move? && (!(0 <= input.col < Cols) || !HasEmpty(s.cells, input.col))))
    ensures var p := players[s.turn].number;
            Step(s, players, input).Err? ==>
              Step(s, players, input).error ==
                (if input.Fault? then PlayerFault(p)
                 else if !(0 <= input.col < Cols) then ColumnOutOfRange(input.col)
                 else InvalidMove(p, input.col))
  {
  }

  /**
   * What the agent's answer does to the board of a running game: None leaves it as it
   * is; a column with room gets the mover's mark in an empty cell of that column, every
   * other cell keeps its value, and exactly one more cell is filled.  On a board
   * obeying gravity that cell is the lowest empty one: every cell below it is occupied.
   */
  lemma ApplyBoard(s: State, players: seq<Player>, input: MoveInput)
    requires Consistent(s, players)
    ensures input.NoMove? ==> Apply(s, players, input) == Ok(s.cells)
    ensures input.Move? && 0 <= input.col < Cols && HasEmpty(s.cells, input.col) ==>
              var c, p := input.col, players[s.turn].number;
              var d := DropRow(s.cells, c);
              && Apply(s, players, input).Ok?
              && var g := Apply(s, players, input).value;
              && 0 <= d < Rows && s.cells[d][c] == Empty && g[d][c] == p
              && (Gravity(s.cells) ==> forall r :: d < r < Rows ==> s.cells[r][c] != Empty)
              && (forall r, k :: 0 <= r < Rows && 0 <= k < Cols && (r != d || k != c) ==> g[r][k] == s.cells[r][k])
              && CountFilled(g) == CountFilled(s.cells) + 1
  {
    if input.Move? && 0 <= input.col < Cols && HasEmpty(s.cells, input.col) {
      var c, p := input.col, players[s.turn].number;
      DropWrites(s.cells, c, p);
      DropCount(s.cells, c, p);
      if Gravity(s.cells) {
        DropLowest(s.cells, c, p);
      }
    }
  }

  /** A turn keeps every column of the board free of holes. */
  lemma StepKeepsGravity(s: State, players: seq<Player>, input: MoveInput)
    requires Consistent(s, players) && Gravity(s.cells)
    ensures Step(s, players, input).Ok? ==> Gravity(Step(s, players, input).value.cells)
  {
    if !s.over && input.Move? && 0 <= input.col < Cols && HasEmpty(s.cells, input.col) {
      DropKeepsGravity(s.cells, input.col, players[s.turn].number);
    }
  }

  /** A whole game loop keeps every column of the board free of holes. */
  lemma {:induction false} PlayKeepsGravity(s: State, players: seq<Player>, interactive: bool, script: seq<Turn>)
    requires Consistent(s, players) && Gravity(s.cells)
    ensures !Play(s, players, interactive, script).Raised? ==> Gravity(Play(s, players, interactive, script).state.cells)
    decreases |script|
  {
    if script != [] && !(interactive && script[0].command == "x") {
      StepKeepsGravity(s, players, script[0].response);
      var o := Step(s, players, script[0].response);
      if o.Ok? && !o.value.over {
        PlayKeepsGravity(o.value, players, interactive, script[1..]);
      }
    }
  }

  /**
   * After an answer applies cleanly to a running game, leaving board g: when the
   * source's `game_won` holds for the mover, the game is over with the mover as winner,
   * the other player as loser and the turn unchanged (a win is checked before a tie);
   * otherwise when `game_tied` holds the game is over with no winner; otherwise the
   * game goes on with the other player to move.
   */
  lemma StepOutcome(s: State, players: seq<Player>, input: MoveInput)
    requires Consistent(s, players) && !s.over && Apply(s, players, input).Ok?
    ensures var g, mover := Apply(s, players, input).value, players[s.turn];
            && Step(s, players, input).Ok?
            && var t := Step(s, players, input).value;
            && t.cells == g
            && (Win.Won(g, mover.number) ==>
                  t.over && t.turn == s.turn && t.winner == Some(mover.name) && t.loser == Some(players[Other(s.turn)].name))
            && (!Win.Won(g, mover.number) && Tied(g) ==>
                  t.over && t.turn == s.turn && t.winner.None? && t.loser.None?)
            && (!Win.Won(g, mover.number) && !Tied(g) ==>
                  !t.over && t.turn == Other(s.turn) && t.winner.None? && t.loser.None?)
  {
    var g := Apply(s, players, input).value;
    Win.WonIff(g, players[s.turn].number);
    TiedIff(g);
  }

  /** The game is over, or its board still has an empty cell. */
  ghost predicate Live(s: State)
    requires Shaped(s.cells)
  {
    s.over || !Full(s.cells)
  }

  /** Every turn that does not raise leaves the game over or its board not yet full. */
  lemma StepLive(s: State, players: seq<Player>, input: MoveInput)
    requires Consistent(s, players) && Live(s)
    ensures Step(s, players, input).Ok? ==> Live(Step(s, players, input).value)
  {
  }

  /**
   * A game in which every answer is a column, and the operator never types x, is over
   * after at most as many turns as the board has empty cells: it ends with a win or a
   * tie, or raises.
   */
  lemma {:induction false} PlayFinishes(s: State, players: seq<Player>, interactive: bool, script: seq<Turn>)
    requires Consistent(s, players) && !s.over && !Full(s.cells)
    requires forall k :: 0 <= k < |script| ==> script[k].response.Move? && !(interactive && script[k].command == "x")
    requires CountFilled(s.cells) + |script| >= Rows * Cols
    ensures var r := Play(s, players, interactive, script);
            !r.Raised? ==> r.Finished? && r.state.over
    decreases |script|
  {
    FullIffCount(s.cells);
    if script != [] && !s.over {
      var input := script[0].response;
      if Step(s, players, input).Ok? {
        var t := Step(s, players, input).value;
        ApplyBoard(s, players, input);
        StepLive(s, players, input);
        if !t.over {
          assert t.cells == Apply(s, players, input).value;
          PlayFinishes(t, players, interactive, script[1..]);
        }
      }
    }
  }

  /** Every game, whatever its turns, keeps every column of the board free of holes. */
  lemma GameKeepsGravity(players: seq<Player>, interactive: bool, script: seq<Turn>)
    requires PlayersOk(players)
    ensures !Play(InitialState(), players, interactive, script).Raised? ==>
              Gravity(Play(InitialState(), players, interactive, script).state.cells)
  {
    EmptyGridGravity();
    PlayKeepsGravity(InitialState(), players, interactive, script);
  }

  /**
   * Without an operator, `gameloop` is only ever left once the game is over: a game
   * that is not over when the loop stops has raised or run out of turns.
   */
  lemma {:induction false} FinishedOnlyWhenOver(s: State, players: seq<Player>, script: seq<Turn>)
    requires Consistent(s, players)
    ensures Play(s, players, false, script).Finished? ==> Play(s, players, false, script).state.over
    decreases |script|
  {
    if script != [] {
      var o := Step(s, players, script[0].response);
      if o.Ok? && !o.value.over {
        FinishedOnlyWhenOver(o.value, players, script[1..]);
      }
    }
  }

  /**
   * A game in which every answer is a column and the operator never types x is over,
   * with a win or a tie, within 42 turns, unless a turn raises.
   */
  lemma GameFinishes(players: seq<Player>, interactive: bool, script: seq<Turn>)
    requires PlayersOk(players)
    requires forall k :: 0 <= k < |script| ==> script[k].response.Move? && !(interactive && script[k].command == "x")
    requires |script| >= Rows * Cols
    ensures var r := Play(InitialState(), players, interactive, script);
            !r.Raised? ==> r.Finished? && r.state.over
  {
    assert EmptyGrid()[0][0] == Empty;
    PlayFinishes(InitialState(), players, interactive, script);
  }

  /**
   * Answers of None fill no cell, so a game without an operator on a board with no
   * four in a row and room left never ends: the turn just passes back and forth.
   */
  lemma {:induction false} NoMovesStall(s: State, players: seq<Player>, script: seq<Turn>)
    requires Consistent(s, players) && !s.over && !Full(s.cells)
    requires !Win.HasFour(s.cells, 1) && !Win.HasFour(s.cells, 2)
    requires forall k :: 0 <= k < |script| ==> script[k].response.NoMove?
    ensures Play(s, players, false, script).Unfinished? && Play(s, players, false, script).state.cells == s.cells
    decreases |script|
  {
    if script != [] {
      var t := s.(turn := Other(s.turn));
      assert Step(s, players, script[0].response) == Ok(t);
      NoMovesStall(t, players, script[1..]);
    }
  }

  /** From the empty board, a game without an operator in which every answer is None never ends. */
  lemma GameOfNoMovesStalls(players: seq<Player>, script: seq<Turn>)
    requires PlayersOk(players)
    requires forall k :: 0 <= k < |script| ==> script[k].response.NoMove?
    ensures Play(InitialState(), players, false, script).Unfinished?
  {
    var g := EmptyGrid();
    assert g[0][0] == Empty;
    forall p, r, c, dr, dc | 1 <= p <= 2
      ensures !Win.FourAt(g, p, r, c, dr, dc)
    {
      if 0 <= r < Rows && 0 <= c < Cols {
        assert g[r][c] == Empty;
      }
    }
    NoMovesStall(InitialState(), players, script);
  }

  /** The board value held by a 6 x 7 array. */
  function GridOf(a: array2<int>): (g: Grid)
    reads a
    requires a.Length0 == Rows && a.Length1 == Cols
    ensures Shaped(g) && forall r, c :: 0 <= r < Rows && 0 <= c < Cols ==> g[r][c] == a[r, c]
  {
    seq(Rows, r requires 0 <= r < Rows reads a => seq(Cols, c requires 0 <= c < Cols reads a => a[r, c]))
  }

  class Game {
    const players: seq<Player>
    const interactive: bool
    var currentTurn: int
    var board: array2<int>
    var gameOver: bool
    var winner: Option<string>
    var loser: Option<string>

    ghost function Snapshot(): State
      reads this, board
      requires board.Length0 == Rows && board.Length1 == Cols
    {
      State(GridOf(board), currentTurn, gameOver, winner, loser)
    }

    ghost predicate Valid()
      reads this, board
    {
      board.Length0 == Rows && board.Length1 == Cols && Consistent(Snapshot(), players)
    }

    /** `Game.__init__` up to the point where it starts the game loop. */
    constructor (player1: Player, player2: Player, interactive: bool)
      requires player1.number == 1 && player2.number == 2
      ensures Valid() && fresh(board)
      ensures players == [player1, player2] && this.interactive == interactive
      ensures Snapshot() == InitialState()
    {
      players := [player1, player2];
      this.interactive := interactive;
      currentTurn := 0;
      board := new int[Rows, Cols]((r, c) => Empty);
      gameOver := false;
      winner := None;
      loser := None;
      new;
      SameCells(GridOf(board), EmptyGrid());
    }

    /**
     * `update_board`: raise when the column is out of range or full; otherwise scan
     * rows 1..5 and write p into the first row that is empty and either rests on an
     * occupied cell or is the bottom row.
     */
    method UpdateBoard(move: int, p: int) returns (r: Outcome<Error>)
      requires Valid() && 1 <= p <= 2
      modifies board
      ensures Valid()
      ensures var u := Place(old(GridOf(board)), move, p);
              && (u.Ok? ==> r == Pass && GridOf(board) == u.value)
              && (u.Err? ==> r == Fail(u.error) && GridOf(board) == old(GridOf(board)))
    {
      if !(0 <= move < Cols) {
        return Fail(ColumnOutOfRange(move));
      }
      if !HasEmpty(GridOf(board), move) {
        return Fail(InvalidMove(p, move));
      }
      ghost var g := GridOf(board);
      HasEmptyIffLanding(g, move);
      ghost var d := DropRow(g, move);
      var row := 1;
      var updateRow := -1;
      while row < Rows
        invariant 1 <= row <= Rows
        invariant row < Rows ==> d == LandingFrom(g, move, row - 1)
        invariant row == Rows ==> d == Rows
        decreases Rows - row
      {
        updateRow := -1;
        if board[row, move] > 0 && board[row - 1, move] == 0 {
          updateRow := row - 1;
        } else if row == Rows - 1 && board[row, move] == 0 {
          updateRow := row;
        }
        if updateRow >= 0 {
          assert IsLanding(g, move, updateRow);
          break;
        }
        row := row + 1;
      }
      assert updateRow == d;
      DropWrites(g, move, p);
      board[updateRow, move] := p;
      SameCells(GridOf(board), Drop(g, move, p));
      r := Pass;
    }

    /** `game_tied`: no cell of the board is 0. */
    method GameTied() returns (tied: bool)
      requires Valid()
      ensures tied <==> forall r, c :: 0 <= r < Rows && 0 <= c < Cols ==> board[r, c] != Empty
      ensures tied <==> CountFilled(GridOf(board)) == Rows * Cols
    {
      tied := Tied(GridOf(board));
      TiedIff(GridOf(board));
      FullIffCount(GridOf(board));
    }

    /** `game_won(p)`: player p has four in a row somewhere on the board. */
    method GameWon(p: int) returns (won: bool)
      requires Valid() && 1 <= p <= 2
      ensures won <==> Win.HasFour(GridOf(board), p)
    {
      won := Win.Won(GridOf(board), p);
      Win.WonIff(GridOf(board), p);
    }

    /**
     * `make_move` given the current agent's answer: nothing once the game is over;
     * otherwise apply the move (unless the agent gave None), then decide win, tie,
     * or pass the turn, in that order.
     */
    method MakeMove(input: MoveInput) returns (r: Outcome<Error>)
      requires Valid()
      modifies this, board
      ensures Valid() && board == old(board)
      ensures var s := Step(old(Snapshot()), players, input);
              && (s.Ok? ==> r == Pass && Snapshot() == s.value)
              && (s.Err? ==> r == Fail(s.error) && Snapshot() == old(Snapshot()))
    {
      if !gameOver {
        ghost var s0 := Snapshot();
        assert s0.turn == currentTurn && PlayersOk(players);
        var mover := players[currentTurn];
        assert mover.number == currentTurn + 1;
        match input {
          case Fault =>
            return Fail(PlayerFault(mover.number));
          case NoMove =>
          case Move(c) =>
            var placed := UpdateBoard(c, mover.number);
            if placed.Fail? {
              return placed;
            }
        }
        assert Apply(s0, players, input) == Ok(GridOf(board));
        StepIsDecide(s0, players, input, GridOf(board));
        ghost var s1 := Snapshot();
        assert Decide(s1, players, GridOf(board)) == Decide(s0, players, GridOf(board));
        Settle();
      }
      r := Pass;
    }

    /** The end of `make_move`, on the board as the move left it: check for a win, then a tie, else pass the turn. */
    method Settle()
      requires Valid() && !gameOver
      modifies this
      ensures Valid() && board == old(board)
      ensures Snapshot() == Decide(old(Snapshot()), players, GridOf(board))
    {
      var mover := players[currentTurn];
      var won := GameWon(mover.number);
      var tied := false;
      if !won {
        tied := GameTied();
      }
      if won {
        winner := Some(mover.name);
        loser := Some(players[Other(currentTurn)].name);
        gameOver := true;
      } else if tied {
        gameOver := true;
      } else {
        currentTurn := Other(currentTurn);
      }
    }

    /**
     * One pass of the `while True` loop of `gameloop`: stop if the operator typed x,
     * otherwise make the move, and stop if it raised or ended the game.  Unless it
     * stops, the loop goes on with the rest of the turns.
     */
    method LoopPass(turn: Turn, ghost rest: seq<Turn>) returns (r: Outcome<Error>, stop: bool)
      requires Valid()
      modifies this, board
      ensures Valid() && board == old(board)
      ensures var e := Play(old(Snapshot()), players, interactive, [turn] + rest);
              && (stop ==> !e.Unfinished? && (e.Raised? ==> r == Fail(e.error)) && (e.Finished? ==> r == Pass && Snapshot() == e.state))
              && (!stop ==> r == Pass && e == Play(Snapshot(), players, interactive, rest))
    {
      assert ([turn] + rest)[0] == turn && ([turn] + rest)[1..] == rest;
      if interactive && turn.command == "x" {
        return Pass, true;
      }
      r := MakeMove(turn.response);
      stop := r.Fail? || gameOver;
    }

    /**
     * `gameloop`, fed one Turn per pass from `script`; `left` tells whether the loop
     * was left (or raised) before the script ran out.
     */
    method GameLoop(script: seq<Turn>) returns (r: Outcome<Error>, left: bool)
      requires Valid()
      modifies this, board
      ensures Valid() && board == old(board)
      ensures var e := Play(old(Snapshot()), players, interactive, script);
              && (left <==> !e.Unfinished?)
              && (e.Raised? ==> r == Fail(e.error))
              && (!e.Raised? ==> r == Pass && Snapshot() == e.state)
    {
      ghost var e := Play(Snapshot(), players, interactive, script);
      r, left := Pass, false;
      var i := 0;
      while i < |script|
        invariant 0 <= i <= |script|
        invariant Valid() && board == old(board) && r == Pass && !left
        invariant e == Play(Snapshot(), players, interactive, script[i..])
        decreases |script| - i
      {
        assert script[i..] == [script[i]] + script[i + 1..];
        var stop;
        r, stop := LoopPass(script[i], script[i + 1..]);
        if stop {
          left := true;
          break;
        }
        i := i + 1;
      }
      assert left || e == Unfinished(Snapshot());
    }
  }
}
