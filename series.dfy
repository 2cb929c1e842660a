/**
 * The experiment driver of ConnectFour.py: `main` builds the two player names,
 * refuses a run between two players of the same name, decides how many games to
 * play and whether the run is interactive, then plays the games with the two
 * players swapping seats after every game; `play_game` runs one game and adds its
 * outcome to the results table.
 *
 * The agents' answers and the operator's commands for game i are the i-th entry of
 * `games`; the per-move time limit and the printing of the table are not modelled.
 */
module Series {
  import opened Results
  import opened Engine

  /** One line of the results table: `{'wins': .., 'ties': .., 'losses': ..}`. */
  datatype Tally = Tally(wins: nat, ties: nat, losses: nat)

  /** The results table `stats`, keyed by player name. */
  type Stats = map<string, Tally>

  /** Why a run ends without a results table. */
  datatype RunError =
    | SameNames(name: string) // 'Error: players must be different or have different parameters!'
    | GameError(error: Error) // an exception raised by a turn, which ends the run when there is no Tk window
    | Stalled                 // a game still running when its turns ran out: the run never reaches its results

  /** The agent types the command line accepts. */
  const PlayerTypes: seq<string> := ["ab", "random", "human", "mcts", "expmax"]

  /** The part of a player's name after its type: the parameter string when it is truthy. */
  function Suffix(params: Option<string>): string
  {
    if Truthy(params) then params.value else ""
  }

  /** `p1name = player1; if params1: p1name += params1`. */
  function Name(kind: string, params: Option<string>): (r: string)
    ensures kind <= r
    ensures !Truthy(params) ==> r == kind
    ensures Truthy(params) ==> |r| > |kind|
  {
    kind + Suffix(params)
  }

  /** Players of two different types never share a name, whatever their parameter strings. */
  lemma DifferentTypesDifferentNames(kind1: string, params1: Option<string>, kind2: string, params2: Option<string>)
    requires kind1 in PlayerTypes && kind2 in PlayerTypes && kind1 != kind2
    ensures Name(kind1, params1) != Name(kind2, params2)
  {
    assert Name(kind1, params1)[0] == kind1[0];
    assert Name(kind2, params2)[0] == kind2[0];
  }

  /** Two players of the same type share a name exactly when their truthy parameter strings agree. */
  lemma SameTypeNames(kind: string, params1: Option<string>, params2: Option<string>)
    ensures Name(kind, params1) == Name(kind, params2) <==> Suffix(params1) == Suffix(params2)
  {
    if Name(kind, params1) == Name(kind, params2) {
      assert Suffix(params1) == Name(kind, params1)[|kind|..];
      assert Suffix(params2) == Name(kind, params2)[|kind|..];
    }
  }

  /** `N`: a single game when n is 1, otherwise 2n. */
  function GameCount(n: int): int
  {
    if n == 1 then 1 else 2 * n
  }

  /** The number of passes of `for i in range(N)`. */
  function Passes(n: int): (k: nat)
    ensures k == 0 <==> n <= 0
    ensures n == 1 ==> k == 1
    ensures n > 1 ==> k == 2 * n && k % 2 == 0
  {
    if GameCount(n) > 0 then GameCount(n) else 0
  }

  /** `n == 1 or 'human' in pnames`. */
  predicate IsInteractive(n: int, names: seq<string>)
  {
    n == 1 || "human" in names
  }

  /**
   * The test is on the names, not the types: the run is interactive exactly when n is
   * 1 or one of the players is a human player without a (truthy) parameter string.
   */
  lemma InteractiveIff(n: int, kind1: string, params1: Option<string>, kind2: string, params2: Option<string>)
    requires kind1 in PlayerTypes && kind2 in PlayerTypes
    ensures IsInteractive(n, [Name(kind1, params1), Name(kind2, params2)]) <==>
              n == 1 || (kind1 == "human" && !Truthy(params1)) || (kind2 == "human" && !Truthy(params2))
  {
    NameIsHuman(kind1, params1);
    NameIsHuman(kind2, params2);
  }

  /** A name is exactly "human" when it is built from the human type and no parameter string. */
  lemma NameIsHuman(kind: string, params: Option<string>)
    requires kind in PlayerTypes
    ensures Name(kind, params) == "human" <==> kind == "human" && !Truthy(params)
  {
    var name := Name(kind, params);
    if name == "human" {
      assert name[0] == kind[0] == 'h';
      assert kind == "human";
      assert |Suffix(params)| == 0;
    }
  }

  /** The seating `pnames` holds for game i: the first-named player is player 1. */
  function Seats(a: string, b: string, i: nat): (s: seq<string>)
    ensures |s| == 2 && {s[0], s[1]} == {a, b}
  {
    if i % 2 == 0 then [a, b] else [b, a]
  }

  /** `pnames.reverse()` takes the seating of one game to the seating of the next. */
  lemma SeatsSwap(a: string, b: string, i: nat)
    ensures Seats(a, b, i + 1) == [Seats(a, b, i)[1], Seats(a, b, i)[0]]
  {
    if i % 2 == 0 {
      assert (i + 1) % 2 == 1;
    } else {
      assert (i + 1) % 2 == 0;
    }
  }

  /** `make_player` for both seats: player numbers 1 and 2, named by the seats. */
  function Players(first: string, second: string): (ps: seq<Player>)
    ensures PlayersOk(ps) && ps[0].name == first && ps[1].name == second
  {
    [Player(1, first), Player(2, second)]
  }

  /** The update of the results table at the end of `play_game`. */
  function Record(stats: Stats, first: string, second: string, winner: Option<string>, loser: Option<string>): (r: Stats)
    requires first in stats && second in stats
    requires Truthy(winner) ==> winner.value in stats && loser.Some? && loser.value in stats
    ensures r.Keys == stats.Keys
  {
    if Truthy(winner) then
      var w := stats[winner.value := stats[winner.value].(wins := stats[winner.value].wins + 1)];
      w[loser.value := w[loser.value].(losses := w[loser.value].losses + 1)]
    else
      var t := stats[first := stats[first].(ties := stats[first].ties + 1)];
      t[second := t[second].(ties := t[second].ties + 1)]
  }

  /**
   * A game with a (truthy) winner gives the winner one more win and the loser one more
   * loss; any other game, including one the operator ended with x, gives each of the
   * two seated players one more tie.  No other entry changes.
   */
  lemma RecordDelta(stats: Stats, first: string, second: string, winner: Option<string>, loser: Option<string>)
    requires first in stats && second in stats && first != second
    requires Truthy(winner) ==> winner.value in stats && loser.Some? && loser.value in stats && winner.value != loser.value
    ensures var r := Record(stats, first, second, winner, loser);
            forall k :: k in stats ==>
              && r[k].wins == stats[k].wins + (if Truthy(winner) && k == winner.value then 1 else 0)
              && r[k].losses == stats[k].losses + (if Truthy(winner) && k == loser.value then 1 else 0)
              && r[k].ties == stats[k].ties + (if !Truthy(winner) && (k == first || k == second) then 1 else 0)
  {
  }

  /** Games a player has been through: wins, ties and losses together. */
  function Played(t: Tally): nat
  {
    t.wins + t.ties + t.losses
  }

  /**
   * The table of players a and b adds up: a's wins are b's losses and the other way
   * round, and both have the same number of ties.
   */
  ghost predicate Balanced(stats: Stats, a: string, b: string)
  {
    && stats.Keys == {a, b}
    && stats[a].wins == stats[b].losses
    && stats[b].wins == stats[a].losses
    && stats[a].ties == stats[b].ties
  }

  /** The outcome of one game between the seated players, as `play_game` reads it. */
  ghost function GameOutcome(first: string, second: string, interactive: bool, script: seq<Turn>): (r: Ending)
    ensures !r.Raised? ==> Consistent(r.state, Players(first, second))
  {
    Play(InitialState(), Players(first, second), interactive, script)
  }

  /** Every game that finishes ends in a state kept by the game invariant, under that game's seating. */
  ghost predicate Seated(outs: seq<Ending>, a: string, b: string)
  {
    forall j :: 0 <= j < |outs| && outs[j].Finished? ==> Consistent(outs[j].state, Players(Seats(a, b, j)[0], Seats(a, b, j)[1]))
  }

  /** What each game of the run comes to: game j is played with the seating Seats(a, b, j). */
  ghost function Outcomes(a: string, b: string, interactive: bool, games: seq<seq<Turn>>): (outs: seq<Ending>)
    ensures |outs| == |games| && Seated(outs, a, b)
  {
    seq(|games|, j requires 0 <= j < |games| => GameOutcome(Seats(a, b, j)[0], Seats(a, b, j)[1], interactive, games[j]))
  }

  /**
   * What `play_game` makes of one game's ending: the table with a finished game
   * recorded, the exception a turn raised, or a game left running.
   */
  function Recorded(stats: Stats, first: string, second: string, e: Ending): (r: Result<Stats, RunError>)
    requires first in stats && second in stats
    requires e.Finished? && Truthy(e.state.winner) ==>
               e.state.winner.value in stats && e.state.loser.Some? && e.state.loser.value in stats
    ensures r.Ok? <==> e.Finished?
    ensures e.Unfinished? ==> r == Err(Stalled)
    ensures r.Ok? ==> r.value.Keys == stats.Keys
  {
    match e
    case Raised(err) => Err(GameError(err))
    case Unfinished(_) => Err(Stalled)
    case Finished(t) => Ok(Record(stats, first, second, t.winner, t.loser))
  }

  /**
   * The table after outcomes i.. are recorded in turn, game j under the seating
   * Seats(a, b, j); the first exception, or the first game left running, ends the run.
   */
  ghost function Tallied(stats: Stats, a: string, b: string, outs: seq<Ending>, i: nat): Result<Stats, RunError>
    requires a in stats && b in stats && i <= |outs| && Seated(outs, a, b)
    decreases |outs| - i
  {
    if i == |outs| then Ok(stats)
    else
      var seats := Seats(a, b, i);
      match Recorded(stats, seats[0], seats[1], outs[i])
      case Err(e) => Err(e)
      case Ok(m) => Tallied(m, a, b, outs, i + 1)
  }

  /** The table a new run starts from. */
  function Fresh(a: string, b: string): (stats: Stats)
    ensures a != b ==> Balanced(stats, a, b) && Played(stats[a]) == 0 && Played(stats[b]) == 0
  {
    map[a := Tally(0, 0, 0), b := Tally(0, 0, 0)]
  }

  /** `main`, as a function of its arguments and of what happens in each game. */
  ghost function Experiment(kind1: string, kind2: string, n: int, params1: Option<string>, params2: Option<string>,
                            games: seq<seq<Turn>>): Result<Stats, RunError>
    requires |games| >= Passes(n)
  {
    var a, b := Name(kind1, params1), Name(kind2, params2);
    if a == b then Err(SameNames(a))
    else
      Tallied(Fresh(a, b), a, b, Outcomes(a, b, IsInteractive(n, [a, b]), games[..Passes(n)]), 0)
  }

  /**
   * Table r is table stats after k more games between a and b: it is balanced, each
   * of a and b has k more games, and there are k more outcomes (a win for a, a win
   * for b, or a tie).
   */
  ghost predicate Grows(stats: Stats, r: Stats, a: string, b: string, k: nat)
  {
    && a in stats && b in stats && Balanced(r, a, b)
    && Played(r[a]) == Played(stats[a]) + k
    && Played(r[b]) == Played(stats[b]) + k
    && r[a].wins + r[b].wins + r[a].ties == stats[a].wins + stats[b].wins + stats[a].ties + k
  }

  /** One recorded game keeps the table balanced and counts one more game for each of a and b. */
  lemma RecordBalanced(stats: Stats, a: string, b: string, i: nat, t: State)
    requires a != b && Balanced(stats, a, b)
    requires Consistent(t, Players(Seats(a, b, i)[0], Seats(a, b, i)[1]))
    ensures Grows(stats, Record(stats, Seats(a, b, i)[0], Seats(a, b, i)[1], t.winner, t.loser), a, b, 1)
  {
    var seats := Seats(a, b, i);
    RecordDelta(stats, seats[0], seats[1], t.winner, t.loser);
  }

  /** Growth by one game followed by growth by k games is growth by k + 1 games. */
  lemma GrowsTrans(stats: Stats, m: Stats, r: Stats, a: string, b: string, k: nat)
    requires Grows(stats, m, a, b, 1) && Grows(m, r, a, b, k)
    ensures Grows(stats, r, a, b, k + 1)
  {
  }

  /**
   * Outcomes i.. that all complete leave the table balanced, with one more game for
   * each of a and b per game played and exactly one outcome per game.
   */
  lemma {:induction false} TalliedTotals(stats: Stats, a: string, b: string, outs: seq<Ending>, i: nat)
    requires a != b && Balanced(stats, a, b) && i <= |outs| && Seated(outs, a, b)
    ensures Tallied(stats, a, b, outs, i).Ok? ==> Grows(stats, Tallied(stats, a, b, outs, i).value, a, b, |outs| - i)
    decreases |outs| - i
  {
    if i < |outs| && outs[i].Finished? {
      var seats := Seats(a, b, i);
      var m := Record(stats, seats[0], seats[1], outs[i].state.winner, outs[i].state.loser);
      RecordBalanced(stats, a, b, i, outs[i].state);
      TalliedTotals(m, a, b, outs, i + 1);
      if Tallied(m, a, b, outs, i + 1).Ok? {
        GrowsTrans(stats, m, Tallied(m, a, b, outs, i + 1).value, a, b, |outs| - (i + 1));
      }
    }
  }

  /**
   * A run that completes returns a table with exactly the two player names, each of
   * whom played every one of the N games, with a's wins equal to b's losses, b's wins
   * to a's losses, equal ties, and one outcome per game.
   */
  lemma ExperimentTotals(kind1: string, kind2: string, n: int, params1: Option<string>, params2: Option<string>,
                         games: seq<seq<Turn>>)
    requires |games| >= Passes(n)
    ensures var a, b := Name(kind1, params1), Name(kind2, params2);
            Experiment(kind1, kind2, n, params1, params2, games).Ok? ==>
              var r := Experiment(kind1, kind2, n, params1, params2, games).value;
              && a != b && Balanced(r, a, b)
              && Played(r[a]) == Passes(n) && Played(r[b]) == Passes(n)
              && r[a].wins + r[b].wins + r[a].ties == Passes(n)
  {
    var a, b := Name(kind1, params1), Name(kind2, params2);
    if a != b {
      TalliedTotals(Fresh(a, b), a, b, Outcomes(a, b, IsInteractive(n, [a, b]), games[..Passes(n)]), 0);
    }
  }

  /** A table is only produced when every game from i on has finished. */
  lemma {:induction false} TalliedAllFinished(stats: Stats, a: string, b: string, outs: seq<Ending>, i: nat)
    requires a in stats && b in stats && i <= |outs| && Seated(outs, a, b)
    ensures Tallied(stats, a, b, outs, i).Ok? ==> forall j :: i <= j < |outs| ==> outs[j].Finished?
    decreases |outs| - i
  {
    if i < |outs| && outs[i].Finished? {
      var seats := Seats(a, b, i);
      TalliedAllFinished(Record(stats, seats[0], seats[1], outs[i].state.winner, outs[i].state.loser), a, b, outs, i + 1);
    }
  }

  /**
   * Every game of a run that completes has finished; in a run without an operator
   * every one of them is over, won or tied, so none is recorded as a tie merely
   * because its turns ran out.
   */
  lemma ExperimentGamesFinished(kind1: string, kind2: string, n: int, params1: Option<string>, params2: Option<string>,
                                games: seq<seq<Turn>>)
    requires |games| >= Passes(n)
    ensures var a, b := Name(kind1, params1), Name(kind2, params2);
            var interactive := IsInteractive(n, [a, b]);
            var outs := Outcomes(a, b, interactive, games[..Passes(n)]);
            Experiment(kind1, kind2, n, params1, params2, games).Ok? ==>
              forall j :: 0 <= j < |outs| ==> outs[j].Finished? && (!interactive ==> outs[j].state.over)
  {
    var a, b := Name(kind1, params1), Name(kind2, params2);
    var interactive := IsInteractive(n, [a, b]);
    var run := games[..Passes(n)];
    var outs := Outcomes(a, b, interactive, run);
    if a != b {
      TalliedAllFinished(Fresh(a, b), a, b, outs, 0);
      forall j | 0 <= j < |outs|
        ensures !interactive && outs[j].Finished? ==> outs[j].state.over
      {
        FinishedOnlyWhenOver(InitialState(), Players(Seats(a, b, j)[0], Seats(a, b, j)[1]), run[j]);
      }
    }
  }

  /**
   * A run without an operator whose first game gets only None answers never reaches
   * its results.
   */
  lemma NoMovesStallRun(kind1: string, kind2: string, n: int, params1: Option<string>, params2: Option<string>,
                        games: seq<seq<Turn>>)
    requires |games| >= Passes(n) > 0
    requires Name(kind1, params1) != Name(kind2, params2) && !IsInteractive(n, [Name(kind1, params1), Name(kind2, params2)])
    requires forall k :: 0 <= k < |games[0]| ==> games[0][k].response.NoMove?
    ensures Experiment(kind1, kind2, n, params1, params2, games) == Err(Stalled)
  {
    var a, b := Name(kind1, params1), Name(kind2, params2);
    GameOfNoMovesStalls(Players(a, b), games[0]);
    assert Seats(a, b, 0) == [a, b];
    assert games[..Passes(n)][0] == games[0];
  }

  /** The games of a run end it only with an exception of a turn or with a game left running. */
  lemma {:induction false} TalliedErrors(stats: Stats, a: string, b: string, outs: seq<Ending>, i: nat)
    requires a in stats && b in stats && i <= |outs| && Seated(outs, a, b)
    ensures Tallied(stats, a, b, outs, i).Err? ==> Tallied(stats, a, b, outs, i).error.GameError? || Tallied(stats, a, b, outs, i).error.Stalled?
    decreases |outs| - i
  {
    if i < |outs| && outs[i].Finished? {
      var seats := Seats(a, b, i);
      TalliedErrors(Record(stats, seats[0], seats[1], outs[i].state.winner, outs[i].state.loser), a, b, outs, i + 1);
    }
  }

  /** Two players with the same name stop the run before any game is played. */
  lemma ExperimentSameNames(kind1: string, kind2: string, n: int, params1: Option<string>, params2: Option<string>,
                            games: seq<seq<Turn>>)
    requires |games| >= Passes(n)
    ensures (Experiment(kind1, kind2, n, params1, params2, games) == Err(SameNames(Name(kind1, params1))))
              <==> Name(kind1, params1) == Name(kind2, params2)
  {
    var a, b := Name(kind1, params1), Name(kind2, params2);
    if a != b {
      TalliedErrors(Fresh(a, b), a, b, Outcomes(a, b, IsInteractive(n, [a, b]), games[..Passes(n)]), 0);
    }
  }

  /** The number of games among the first k in which `name` has the first seat. */
  function FirstSeats(name: string, a: string, b: string, k: nat): nat
  {
    if k == 0 then 0 else FirstSeats(name, a, b, k - 1) + (if Seats(a, b, k - 1)[0] == name then 1 else 0)
  }

  /** Over 2n games each player has the first seat, and so moves first, exactly n times. */
  lemma {:induction false} EachMovesFirstHalf(a: string, b: string, n: nat)
    requires a != b
    ensures FirstSeats(a, a, b, 2 * n) == n && FirstSeats(b, a, b, 2 * n) == n
  {
    if n > 0 {
      EachMovesFirstHalf(a, b, n - 1);
      assert (2 * n - 2) % 2 == 0 && (2 * n - 1) % 2 == 1;
      assert Seats(a, b, 2 * n - 2) == [a, b] && Seats(a, b, 2 * n - 1) == [b, a];
    }
  }

  /** `play_game`: build the two players, play the game, add its outcome to the table. */
  method PlayGame(first: string, second: string, interactive: bool, script: seq<Turn>, stats: Stats)
    returns (r: Result<Stats, RunError>)
    requires first in stats && second in stats
    ensures r == Recorded(stats, first, second, GameOutcome(first, second, interactive, script))
  {
    var g := new Game(Player(1, first), Player(2, second), interactive);
    ghost var o := GameOutcome(first, second, interactive, script);
    assert g.players == Players(first, second) && g.Snapshot() == InitialState();
    var played, left := g.GameLoop(script);
    if played.Fail? {
      assert o.Raised? && o.error == played.error;
      r := Err(GameError(played.error));
    } else if !left {
      assert o.Unfinished?;
      r := Err(Stalled);
    } else {
      assert o.Finished? && g.Snapshot() == o.state;
      var table := UpdateStats(stats, first, second, g.winner, g.loser);
      r := Ok(table);
    }
  }

  /** The end of `play_game`: a win and a loss for a truthy winner, otherwise a tie for each seated player. */
  method UpdateStats(stats: Stats, first: string, second: string, winner: Option<string>, loser: Option<string>)
    returns (table: Stats)
    requires first in stats && second in stats
    requires Truthy(winner) ==> winner.value in stats && loser.Some? && loser.value in stats
    ensures table == Record(stats, first, second, winner, loser)
  {
    table := stats;
    if Truthy(winner) {
      var w, l := winner.value, loser.value;
      table := table[w := table[w].(wins := table[w].wins + 1)];
      table := table[l := table[l].(losses := table[l].losses + 1)];
    } else {
      table := table[first := table[first].(ties := table[first].ties + 1)];
      table := table[second := table[second].(ties := table[second].ties + 1)];
    }
  }

  /** `main`: set the run up, then play the N games, swapping the seats after each. */
  method RunExperiment(kind1: string, kind2: string, n: int, params1: Option<string>, params2: Option<string>,
                       games: seq<seq<Turn>>)
    returns (r: Result<Stats, RunError>)
    requires |games| >= Passes(n)
    ensures r == Experiment(kind1, kind2, n, params1, params2, games)
  {
    var p1name := kind1;
    if Truthy(params1) {
      p1name := p1name + params1.value;
    }
    var p2name := kind2;
    if Truthy(params2) {
      p2name := p2name + params2.value;
    }
    assert p1name == Name(kind1, params1) && p2name == Name(kind2, params2);
    if p1name == p2name {
      return Err(SameNames(p1name));
    }
    var interactive := false;
    if n == 1 || "human" in [p1name, p2name] {
      interactive := true;
    }
    var count := 2 * n;
    if n == 1 {
      count := 1;
    }
    assert Passes(n) == if count > 0 then count else 0;
    r := PlayGames(p1name, p2name, interactive, games[..Passes(n)]);
  }

  /**
   * The game loop of `main`: play game i with the seating in `pnames`, record it, then
   * reverse `pnames`; the first exception ends the run.
   */
  method PlayGames(a: string, b: string, interactive: bool, games: seq<seq<Turn>>) returns (r: Result<Stats, RunError>)
    requires a != b
    ensures r == Tallied(Fresh(a, b), a, b, Outcomes(a, b, interactive, games), 0)
  {
    var pnames := [a, b];
    var stats := map[a := Tally(0, 0, 0), b := Tally(0, 0, 0)];
    ghost var outs := Outcomes(a, b, interactive, games);
    ghost var whole := Tallied(stats, a, b, outs, 0);
    var i := 0;
    while i < |games|
      invariant 0 <= i <= |games|
      invariant pnames == Seats(a, b, i)
      invariant stats.Keys == {a, b}
      invariant whole == Tallied(stats, a, b, outs, i)
      decreases |games| - i
    {
      var outcome := PlayGame(pnames[0], pnames[1], interactive, games[i], stats);
      if outcome.Err? {
        return Err(outcome.error);
      }
      stats := outcome.value;
      pnames := [pnames[1], pnames[0]];
      SeatsSwap(a, b, i);
      i := i + 1;
    }
    r := Ok(stats);
  }
}
