# Monty Hall game model in Dafny

This project models the game logic of a Monty Hall simulator that has two variants:

- **Classic.** There are three doors. The host opens one goat door that the player did not pick. Switching moves the player to the door that is still closed.
- **Extended.** There are 52 cards. The host turns over 50 of the 51 cards the player did not pick. Switching takes the one card left hidden.

One immutable record, `MontyHall.Game`, holds the shared state:

- the number of options;
- the winning option;
- the player's choice, which is `None` until a selection is made;
- the list of revealed options.

Every operation is a pure function from one state to the next. The source takes its random draws from `random.randint` and `random.choice`. Here each draw is a parameter instead, and a `requires` clause limits it to the values the source's draw can produce.

Modules:

- `Sequences` has the two list comprehensions everything is built from. `Range(lo, hi)` is the ascending options. `Excluding(s, x)` is the same list with one value filtered out.
- `MontyHall` is the base class `JuegoMontyHall`. It has construction, selection, losing options, victory and reset.
- `Doors` is `JuegoPuertas`. It has the reveal candidates, the reveal, the remaining door, the switch and the door content.
- `Cards` is `JuegoCartas`. It has the card table, card lookup, colour, the 50-card reveal, the switch and reset with the table kept.

The lemmas prove the facts the paradox rests on:

- A revealed option is never the winner and never the option the player holds.
- The door that remains, or the card left hidden, is the winner whenever the first pick lost.
- So switching wins exactly when keeping the first pick loses.

Behaviour of the code worth noting:

- The revealed options are kept as a list, in the order they were revealed.
- The victory check with no choice made returns false.
- Revealing cards with no choice made turns over 51 cards, because comparing a position with an unset choice never excludes it. `Cards.RevealCards` therefore promises exactly 50 revealed cards only when a card in 1..52 is held.
- If no door remains, the door switch stores the sentinel -1 as the choice. The choice is therefore an `Option<int>` over all integers.

## Model

| member | source | states |
|---|---|---|
| `MontyHall.New` | modelos/juego_base.py:16-26 | A new round has its winner in 1..total. It has no choice and nothing revealed, and the reveal invariant holds trivially. |
| `MontyHall.Select` | modelos/juego_base.py:28-41 | Selection succeeds iff the option is in 1..total. On success only the choice changes, to that option. On failure the whole state is returned unchanged. |
| `MontyHall.SelectThenWon` | modelos/juego_base.py:53-60 | After a successful selection, the victory check holds exactly when the selected option is the winner. |
| `MontyHall.SelectIdempotent` | modelos/juego_base.py:38-41 | Selecting the same option again changes nothing further. |
| `MontyHall.LosingOptions` | modelos/juego_base.py:43-51 | The losing options are exactly 1..total without the winner, in ascending order. With a valid winner there are total - 1 of them. |
| `MontyHall.Won` | modelos/juego_base.py:53-60 | With no choice made, the victory check is false. |
| `MontyHall.Reset` | modelos/juego_base.py:62-66 | Reset gives exactly the state construction gives with the same option count and the new draw. The choice is cleared, the revealed list is emptied and the winner is valid. |
| `MontyHall.ExcludingChoice` | modelos/juego_puertas.py:22-23 | Filtering out the held option keeps exactly the values other than the choice. With no choice it keeps all of them. It keeps ascending order, and drops exactly one element when the choice occurs in an ascending list. |
| `Sequences.Range` | modelos/juego_base.py:50 | The range lo..hi has hi - lo + 1 elements, exactly the integers between the bounds, in ascending order. |
| `Sequences.Excluding` | modelos/juego_cartas.py:73 | The filtered list keeps exactly the elements different from the excluded value. It keeps ascending order and is unchanged when the value is absent. It loses exactly one element when the value is in an ascending list. |
| `Doors.NewDoorGame` | modelos/juego_puertas.py:10-12 | A door round has three options, the drawn winner, no choice and nothing revealed. |
| `Doors.RevealCandidates` | modelos/juego_puertas.py:21-23 | The candidates are exactly the doors that are neither the winner nor the held door. There are two when the player holds the winner or holds nothing, and one when the player holds a goat. |
| `Doors.RevealDoor` | modelos/juego_puertas.py:14-27 | The opened door is a goat the player does not hold. It is appended to the revealed list and nothing else changes. A state that satisfies the reveal invariant still does. |
| `Doors.RemainingDoor` | modelos/juego_puertas.py:29-39 | The result is the lowest door in 1..3 that is neither held nor revealed. It is -1 exactly when there is no such door. |
| `Doors.SwitchDoor` | modelos/juego_puertas.py:41-43 | The player now holds the remaining door. The total, the winner and the revealed list are unchanged. |
| `Doors.DoorContent` | modelos/juego_puertas.py:45-55 | A door shows "AUTO" iff it is the winner and "CABRA" iff it is not. |
| `Doors.Revealed` | modelos/juego_puertas.py:14-27 | Take a new round won by w, select door c, then open any door other than c and w. The player holds c, the winner is still w, and only the opened door is revealed. That the opened door is a goat other than c comes from `Doors.RevealDoor`'s contract. |
| `Doors.ThirdDoorRemains` | modelos/juego_puertas.py:36-39 | With one door held and a different door open, the remaining door is the third one. |
| `Doors.RemainingAfterReveal` | modelos/juego_puertas.py:14-39 | After a selection and a reveal, a door remains, unlike the held and opened doors. It is the winner iff the first pick lost. |
| `Doors.SwitchWinsIffFirstLost` | modelos/juego_puertas.py:41-43 | After a selection and a reveal, switching wins iff the first pick lost, and keeping wins iff it won. |
| `Doors.RoundKeepsRevealSafe` | modelos/juego_puertas.py:21-27 | The opened door is a goat the player does not hold, both before and after switching. |
| `Doors.ContentShowsVictory` | modelos/juego_puertas.py:55 | The held door shows the car exactly when the victory check holds. |
| `Doors.ClassicRound` | modelos/juego_puertas.py:14-43 | With the car behind door 2 and door 1 picked, only door 3 can be opened. Door 2 remains, and switching wins. |
| `Cards.SuitRow` | modelos/juego_cartas.py:28-29 | One suit's row is the thirteen ranks in order, each followed by the suit symbol. |
| `Cards.Rows` | modelos/juego_cartas.py:26-30 | The nested loops give 13 cards per suit. Position i holds the rank at i mod 13 and the suit at i div 13. |
| `Cards.BuildDeck` | modelos/juego_cartas.py:19-30 | The table has 52 cards, suit-major and rank-minor. |
| `Cards.NewCardGame` | modelos/juego_cartas.py:14-17 | A card round has 52 options, the drawn winner, no choice, nothing revealed and the full table. |
| `Cards.CardAt` | modelos/juego_cartas.py:32-42 | Position p in 1..52 of the built table holds rank (p-1) mod 13 of suit (p-1) div 13. Positions 0 and below read from the end, as a negative list index does. |
| `Cards.CardColor` | modelos/juego_cartas.py:44-55 | The colour is "red" or "black". On the built table a card is red exactly at positions 14..39, the hearts and diamonds. |
| `Cards.RedBySuit` | modelos/juego_cartas.py:54-55 | On the built table, the symbol test makes a card at position 1..52 red exactly at positions 14..39, the hearts and diamonds. |
| `Cards.RanksHaveNoSuitSymbol` | modelos/juego_cartas.py:11-12 | No rank contains a heart or diamond symbol, so the colour depends only on the suit. |
| `Cards.SuitsDistinct` | modelos/juego_cartas.py:11 | Each suit is one symbol and no two suits share it. |
| `Cards.RanksDistinct` | modelos/juego_cartas.py:12 | No two ranks are written the same way. |
| `Cards.CardsDistinct` | modelos/juego_cartas.py:26-30 | Different positions of the table hold different cards. |
| `Cards.EveryCardPresent` | modelos/juego_cartas.py:26-30 | Every rank of every suit appears in the table, at position 13 * suit + rank + 1. With `CardsDistinct`, this makes the table a bijection. |
| `Cards.NonChosen` | modelos/juego_cartas.py:65-66 | The unchosen cards are exactly 1..52 without the held card, in ascending order. There are 51 when a card is held and 52 otherwise. |
| `Cards.RevealCards` | modelos/juego_cartas.py:57-76 | The hidden card is never the held card. It is the winner when the player does not hold the winner, and the draw otherwise. The revealed list is ascending and contains exactly the other unchosen cards, never the winner. With a card held it has 50 entries. It replaces the stored list, and nothing else changes. |
| `Cards.SwitchCard` | modelos/juego_cartas.py:78-85 | The player now holds the given card, unchecked. Nothing else changes. |
| `Cards.ResetCards` | modelos/juego_base.py:62-66 | Reset keeps the card table. The game part is exactly a fresh construction with the new draw. |
| `Cards.CardsRevealed` | modelos/juego_cartas.py:57-76 | Take a new card round won by w, select card c, then reveal with the given draw. The result keeps the built table and the winner w, and the player holds c. The stored revealed list is the returned one. The hidden card is w when c lost and the draw when c won. |
| `Cards.SwitchWinsIffFirstLost` | modelos/juego_cartas.py:65-85 | In a full round 50 cards are revealed and the hidden card differs from the held one. The hidden card is the winner when the first pick lost. Switching to it wins iff the first pick lost, keeping wins iff it won, and the reveal invariant holds after the switch. |

## Left out

- The views and the entry point are not modelled: the main menu, the door view, the card view and `main.py`. They are tkinter widget construction, drawing, click binding, timers and window centring.
- The phase sequencing (`fase`) that stops out-of-order clicks exists only in the views. The model does not reject out-of-order calls, and neither does the game class. The round lemmas state the select, reveal, switch order as their own composition instead.
- The distribution of `random.randint` and `random.choice` is not modelled. Each draw is a caller-supplied value restricted to the values the call can return.
- The win-rate figures (about 2/3 for doors and 50/51 for cards) are probabilistic. Only the deterministic fact behind them is proved: switching wins exactly when the first pick lost.
- The Unicode rendering of the suit symbols is not modelled beyond each suit being one distinct character.
- Errors the interpreter would raise are preconditions rather than error values. These are a winner drawn from an empty range, an empty candidate list, and an out-of-range card index. None of them can happen through the game's own calls.
- Python's dynamic typing is not modelled, so `Select` takes only integers.
