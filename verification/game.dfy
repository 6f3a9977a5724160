/**
 The state shared by both Monty Hall variants (the base class JuegoMontyHall)
 and its transitions, as pure functions from one state to the next.

 The source draws the winning option with a random call; here every draw is a
 parameter, and the `requires` on it says which values the draw can produce.
 */
module MontyHall {
  import opened Sequences

  /** The user's choice: unset before the first selection. */
  datatype Option<T> = None | Some(value: T)

  /**
   One round of the game.
   - total:    how many options there are (doors or cards), numbered 1..total
   - winner:   the option holding the prize
   - choice:   the option the user currently holds, if any
   - revealed: the options shown to be losers, in the order they were revealed
   */
  datatype Game = Game(total: int, winner: int, choice: Option<int>, revealed: seq<int>)

  /** The winner is one of the options; construction and reset keep it so and nothing moves it. */
  predicate Wf(g: Game) {
    1 <= g.winner <= g.total
  }

  /** Every revealed option is a loser the user does not hold: the invariant behind the paradox. */
  predicate RevealSafe(g: Game) {
    forall d :: d in g.revealed ==> d != g.winner && Some(d) != g.choice
  }

  /** The values of s other than the one the user holds; with no choice every value is kept. */
  function ExcludingChoice(s: seq<int>, c: Option<int>): (r: seq<int>)
    ensures forall v :: v in r <==> v in s && Some(v) != c
    ensures Increasing(s) ==> Increasing(r)
    ensures Increasing(s) && c.Some? && c.value in s ==> |r| == |s| - 1
    ensures !(c.Some? && c.value in s) ==> r == s
  {
    match c
    case None => s
    case Some(v) => Excluding(s, v)
  }

  /** A new round over `total` options; `draw` is the random winner in 1..total. */
  function New(total: int, draw: int): (g: Game)
    requires 1 <= draw <= total
    ensures Wf(g) && RevealSafe(g)
    ensures g.total == total && g.winner == draw
    ensures g.choice == None && g.revealed == []
  {
    Game(total, draw, None, [])
  }

  /**
   The user picks option o. An option in 1..total is stored and the call
   reports success; any other value is refused and the state is left as it was.
   */
  function Select(g: Game, o: int): (r: (bool, Game))
    ensures r.0 <==> 1 <= o <= g.total
    ensures r.0 ==> r.1.choice == Some(o)
    ensures !r.0 ==> r.1 == g
    ensures r.1.total == g.total && r.1.winner == g.winner && r.1.revealed == g.revealed
    ensures Wf(g) ==> Wf(r.1)
  {
    if 1 <= o <= g.total then (true, g.(choice := Some(o))) else (false, g)
  }

  /** Every option except the winner, in ascending order. */
  function LosingOptions(g: Game): (r: seq<int>)
    ensures forall v :: v in r <==> 1 <= v <= g.total && v != g.winner
    ensures Increasing(r)
    ensures Wf(g) ==> |r| == g.total - 1
    ensures !Wf(g) ==> |r| == if g.total >= 1 then g.total else 0
  {
    Excluding(Range(1, g.total), g.winner)
  }

  /** The user wins when the option held is the winner; with no choice there is no win. */
  function Won(g: Game): (r: bool)
    ensures g.choice == None ==> !r
  {
    g.choice == Some(g.winner)
  }

  /**
   A fresh round over the same options: `draw` is the new random winner. The
   result is exactly what construction with that draw would give.
   */
  function Reset(g: Game, draw: int): (r: Game)
    requires 1 <= draw <= g.total
    ensures r == New(g.total, draw)
    ensures r.total == g.total && Wf(r) && r.choice == None && r.revealed == []
  {
    g.(winner := draw, choice := None, revealed := [])
  }

  /** A successful selection wins exactly when the selected option is the winner. */
  lemma SelectThenWon(g: Game, o: int)
    requires 1 <= o <= g.total
    ensures Select(g, o).0
    ensures Won(Select(g, o).1) <==> o == g.winner
  {
  }

  /** Selecting the same option twice is the same as selecting it once. */
  lemma SelectIdempotent(g: Game, o: int)
    ensures Select(Select(g, o).1, o) == Select(g, o)
  {
  }
}
