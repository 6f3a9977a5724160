/**
 The classic three-door variant (JuegoPuertas): the host opens one goat door
 the user did not pick, and switching moves the user to the door left closed.
 */
module Doors {
  import opened Sequences
  import opened MontyHall

  /** The number of doors. */
  const DOORS := 3

  /** What is behind the winning door, and behind every other door. */
  const CAR := "AUTO"
  const GOAT := "CABRA"

  /** A new three-door round; `draw` is the random winning door. */
  function NewDoorGame(draw: int): (g: Game)
    requires 1 <= draw <= DOORS
    ensures Wf(g) && g.total == DOORS && g.winner == draw
    ensures g.choice == None && g.revealed == []
  {
    New(DOORS, draw)
  }

  /**
   The doors the host may open: losing doors other than the one the user
   holds. There is one fewer than the losing doors exactly when the user
   holds a losing door.
   */
  function RevealCandidates(g: Game): (r: seq<int>)
    ensures forall d :: d in r <==> 1 <= d <= g.total && d != g.winner && Some(d) != g.choice
    ensures Increasing(r)
    ensures Wf(g) ==> |r| == if g.choice.Some? && 1 <= g.choice.value <= g.total && g.choice.value != g.winner
                            then g.total - 2 else g.total - 1
  {
    ExcludingChoice(LosingOptions(g), g.choice)
  }

  /**
   The host opens door `pick`, the random choice among the candidates, and
   records it as revealed. The opened door is a goat the user does not hold.
   */
  function RevealDoor(g: Game, pick: int): (r: (Game, int))
    requires pick in RevealCandidates(g)
    ensures r.1 == pick
    ensures 1 <= r.1 <= g.total && r.1 != g.winner && Some(r.1) != g.choice
    ensures r.0.revealed == g.revealed + [r.1]
    ensures r.0.total == g.total && r.0.winner == g.winner && r.0.choice == g.choice
    ensures RevealSafe(g) ==> RevealSafe(r.0)
  {
    (g.(revealed := g.revealed + [pick]), pick)
  }

  /** Door d is neither held by the user nor revealed. */
  predicate Closed(g: Game, d: int) {
    Some(d) != g.choice && d !in g.revealed
  }

  /** The first closed door among d..3, or -1 when there is none. */
  function FirstClosed(g: Game, d: int): (r: int)
    requires 1 <= d <= DOORS + 1
    ensures r == -1 <==> forall k :: d <= k <= DOORS ==> !Closed(g, k)
    ensures r != -1 ==> d <= r <= DOORS && Closed(g, r)
    ensures r != -1 ==> forall k :: d <= k < r ==> !Closed(g, k)
    decreases DOORS + 1 - d
  {
    if d > DOORS then -1
    else if Closed(g, d) then d
    else FirstClosed(g, d + 1)
  }

  /** The lowest door the user neither holds nor has seen opened, or -1 if every door is one of those. */
  function RemainingDoor(g: Game): (r: int)
    ensures r == -1 <==> forall k :: 1 <= k <= DOORS ==> !Closed(g, k)
    ensures r != -1 ==> 1 <= r <= DOORS && Closed(g, r)
    ensures r != -1 ==> forall k :: 1 <= k < r ==> !Closed(g, k)
  {
    FirstClosed(g, 1)
  }

  /** Switching: the user now holds the remaining door (the sentinel -1 is stored as is). */
  function SwitchDoor(g: Game): (r: Game)
    ensures r.choice == Some(RemainingDoor(g))
    ensures r.total == g.total && r.winner == g.winner && r.revealed == g.revealed
  {
    g.(choice := Some(RemainingDoor(g)))
  }

  /** What door p hides: the car behind the winning door, a goat behind any other value. */
  function DoorContent(g: Game, p: int): (r: string)
    ensures r == CAR <==> p == g.winner
    ensures r == GOAT <==> p != g.winner
  {
    if p == g.winner then CAR else GOAT
  }

  /**
   With one door held and a different door open, the remaining door is the
   third one: the only door that is neither.
   */
  lemma ThirdDoorRemains(g: Game, c: int, pick: int)
    requires 1 <= c <= DOORS && 1 <= pick <= DOORS && c != pick
    requires g.choice == Some(c) && g.revealed == [pick]
    ensures RemainingDoor(g) == 6 - c - pick
  {
    var third := 6 - c - pick;
    assert Closed(g, third);
    var r := RemainingDoor(g);
    assert r != -1;
  }

  /**
   The state after the user selects door c in a new round won by w and the
   host opens `pick`. A door in 1..3 that is neither c nor w is exactly a
   reveal candidate of that state (see RevealCandidates).
   */
  function Revealed(w: int, c: int, pick: int): (g: Game)
    requires 1 <= w <= DOORS && 1 <= c <= DOORS
    requires 1 <= pick <= DOORS && pick != c && pick != w
    ensures g.total == DOORS && g.winner == w && g.choice == Some(c) && g.revealed == [pick]
  {
    RevealDoor(Select(NewDoorGame(w), c).1, pick).0
  }

  /**
   After a selection and one reveal, a door remains closed. It differs from
   the held door and the opened door. It is the winner whenever the first
   pick lost, and a goat whenever the first pick won.
   */
  lemma RemainingAfterReveal(w: int, c: int, pick: int)
    requires 1 <= w <= DOORS && 1 <= c <= DOORS
    requires 1 <= pick <= DOORS && pick != c && pick != w
    ensures var g := Revealed(w, c, pick);
      && 1 <= RemainingDoor(g) <= DOORS
      && RemainingDoor(g) != c && RemainingDoor(g) != pick
      && (c != w ==> RemainingDoor(g) == w)
      && (c == w ==> RemainingDoor(g) != w)
  {
    ThirdDoorRemains(Revealed(w, c, pick), c, pick);
  }

  /** Switching after the reveal wins exactly when keeping the first pick loses. */
  lemma SwitchWinsIffFirstLost(w: int, c: int, pick: int)
    requires 1 <= w <= DOORS && 1 <= c <= DOORS
    requires 1 <= pick <= DOORS && pick != c && pick != w
    ensures Won(SwitchDoor(Revealed(w, c, pick))) <==> c != w
    ensures Won(Revealed(w, c, pick)) <==> c == w
  {
    RemainingAfterReveal(w, c, pick);
  }

  /** The whole round keeps the revealed door a goat the user does not hold, before and after switching. */
  lemma RoundKeepsRevealSafe(w: int, c: int, pick: int)
    requires 1 <= w <= DOORS && 1 <= c <= DOORS
    requires 1 <= pick <= DOORS && pick != c && pick != w
    ensures RevealSafe(Revealed(w, c, pick))
    ensures RevealSafe(SwitchDoor(Revealed(w, c, pick)))
  {
    RemainingAfterReveal(w, c, pick);
  }

  /** The door the user finally holds shows the car exactly when the user won. */
  lemma ContentShowsVictory(g: Game, c: int)
    requires g.choice == Some(c)
    ensures DoorContent(g, c) == CAR <==> Won(g)
  {
  }

  /**
   Worked round: the car is behind door 2 and the user picks door 1. The host
   can only open door 3, door 2 remains, and switching wins.
   */
  lemma ClassicRound()
    ensures RevealCandidates(Select(NewDoorGame(2), 1).1) == [3]
    ensures RemainingDoor(Revealed(2, 1, 3)) == 2
    ensures Won(SwitchDoor(Revealed(2, 1, 3)))
  {
    var g := Select(NewDoorGame(2), 1).1;
    var cands := RevealCandidates(g);
    assert |cands| == 1 && 3 in cands;
    assert cands == [cands[0]];
    RemainingAfterReveal(2, 1, 3);
  }
}
