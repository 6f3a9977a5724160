/**
 The 52-card variant (JuegoCartas): the user picks a card face down, the host
 turns over 50 of the other 51 and keeps one hidden, and switching takes the
 hidden card.
 */
module Cards {
  import opened Sequences
  import opened MontyHall

  /** The number of cards, numbered 1..52. */
  const CARDS := 52

  /** The suits in deck order: spades, hearts, diamonds, clubs. */
  const SUITS: seq<string> := ["♠", "♥", "♦", "♣"]

  /** The ranks in deck order within each suit. */
  const RANKS: seq<string> := ["A", "2", "3", "4", "5", "6", "7", "8", "9", "10", "J", "Q", "K"]

  /** The colour names a card is drawn with. */
  const RED := "red"
  const BLACK := "black"

  /** A card round: the shared game state plus the card table, which lives as long as the game. */
  datatype CardGame = CardGame(game: Game, deck: seq<string>)

  /** What revealing returns: the new state, the positions turned over, and the one kept hidden. */
  datatype CardReveal = CardReveal(state: CardGame, revealed: seq<int>, hidden: int)

  /** The thirteen cards of one suit, each written as its rank followed by the suit symbol. */
  function SuitRow(suit: string): (r: seq<string>)
    ensures |r| == |RANKS|
    ensures forall k :: 0 <= k < |RANKS| ==> r[k] == RANKS[k] + suit
  {
    seq(|RANKS|, k requires 0 <= k < |RANKS| => RANKS[k] + suit)
  }

  /** Division by 13 is determined by quotient and remainder. */
  lemma DivModUnique(n: int, q: int, m: int)
    requires n == 13 * q + m && 0 <= m < 13
    ensures n / 13 == q && n % 13 == m
  {
  }

  /** The rows of the given suits one after another: suit-major, rank-minor order. */
  function Rows(suits: seq<string>): (r: seq<string>)
    ensures |r| == 13 * |suits|
    ensures forall i :: 0 <= i < |r| ==> r[i] == RANKS[i % 13] + suits[i / 13]
  {
    if |suits| == 0 then []
    else
      var row := SuitRow(suits[0]);
      var rest := Rows(suits[1..]);
      assert forall i :: 0 <= i < |row + rest| ==> (row + rest)[i] == RANKS[i % 13] + suits[i / 13] by {
        forall i | 0 <= i < |row + rest|
          ensures (row + rest)[i] == RANKS[i % 13] + suits[i / 13]
        {
          if i < 13 {
            DivModUnique(i, 0, i);
          } else {
            var j := i - 13;
            DivModUnique(i, j / 13 + 1, j % 13);
            assert (row + rest)[i] == rest[j];
          }
        }
      }
      row + rest
  }

  /** The card table built at construction: every rank of every suit, 0-based. */
  function BuildDeck(): (r: seq<string>)
    ensures |r| == CARDS
    ensures forall i :: 0 <= i < CARDS ==> r[i] == RANKS[i % 13] + SUITS[i / 13]
  {
    Rows(SUITS)
  }

  /** A new card round; `draw` is the random winning position. */
  function NewCardGame(draw: int): (r: CardGame)
    requires 1 <= draw <= CARDS
    ensures Wf(r.game) && r.game.total == CARDS && r.game.winner == draw
    ensures r.game.choice == None && r.game.revealed == []
    ensures r.deck == BuildDeck()
  {
    CardGame(New(CARDS, draw), BuildDeck())
  }

  /**
   The card at position p (1-based). Positions 0 down to 1 - |deck| read the
   table from its end, as a negative list index does in the source.
   */
  function CardAt(cg: CardGame, p: int): (r: string)
    requires 1 - |cg.deck| <= p <= |cg.deck|
    ensures cg.deck == BuildDeck() && 1 <= p <= CARDS ==> r == RANKS[(p - 1) % 13] + SUITS[(p - 1) / 13]
    ensures 1 <= p ==> r == cg.deck[p - 1]
    ensures p <= 0 ==> r == cg.deck[|cg.deck| + p - 1]
  {
    var i := p - 1;
    if i < 0 then cg.deck[|cg.deck| + i] else cg.deck[i]
  }

  /** A card is red when it shows a heart or diamond symbol, black otherwise. */
  function ColorOf(card: string): string {
    if '♥' in card || '♦' in card then RED else BLACK
  }

  /** No rank contains a suit symbol, so a card's colour is decided by its suit alone. */
  lemma RanksHaveNoSuitSymbol(k: int)
    requires 0 <= k < |RANKS|
    ensures '♥' !in RANKS[k] && '♦' !in RANKS[k]
  {
  }

  /** On the built table, the card at a position in 1..52 is red exactly at the hearts and diamonds, 14..39. */
  lemma RedBySuit(cg: CardGame, p: int)
    requires 1 - |cg.deck| <= p <= |cg.deck|
    ensures cg.deck == BuildDeck() && 1 <= p <= CARDS ==> (ColorOf(CardAt(cg, p)) == RED <==> 14 <= p <= 39)
  {
    if cg.deck == BuildDeck() && 1 <= p <= CARDS {
      var card := CardAt(cg, p);
      RanksHaveNoSuitSymbol((p - 1) % 13);
      var suit := SUITS[(p - 1) / 13];
      assert card == RANKS[(p - 1) % 13] + suit;
      assert '♥' in card <==> '♥' in suit;
      assert '♦' in card <==> '♦' in suit;
    }
  }

  /** The colour of the card at position p: red exactly for the hearts and diamonds, positions 14..39. */
  function CardColor(cg: CardGame, p: int): (r: string)
    requires 1 - |cg.deck| <= p <= |cg.deck|
    ensures r == RED || r == BLACK
    ensures cg.deck == BuildDeck() && 1 <= p <= CARDS ==> (r == RED <==> 14 <= p <= 39)
  {
    RedBySuit(cg, p);
    ColorOf(CardAt(cg, p))
  }

  /** Two strings that end in equally long suffixes are equal only if prefixes and suffixes are. */
  lemma ConcatCancel(a: string, s: string, b: string, t: string)
    requires |s| == |t| && a + s == b + t
    ensures a == b && s == t
  {
    assert a == (a + s)[..|a|];
    assert b == (b + t)[..|b|];
    assert s == (a + s)[|a|..];
    assert t == (b + t)[|b|..];
  }

  /** Each suit is a single symbol, and no two suits share it. */
  lemma SuitsDistinct(i: int, j: int)
    requires 0 <= i < |SUITS| && 0 <= j < |SUITS|
    ensures |SUITS[i]| == 1
    ensures SUITS[i] == SUITS[j] ==> i == j
  {
  }

  /** No two ranks are written the same way. */
  lemma RanksDistinct(i: int, j: int)
    requires 0 <= i < |RANKS| && 0 <= j < |RANKS|
    ensures RANKS[i] == RANKS[j] ==> i == j
  {
  }

  /** The card table is a bijection: different positions hold different cards. */
  lemma CardsDistinct(cg: CardGame, p: int, q: int)
    requires cg.deck == BuildDeck()
    requires 1 <= p <= CARDS && 1 <= q <= CARDS && p != q
    ensures CardAt(cg, p) != CardAt(cg, q)
  {
    var vp, sp := (p - 1) % 13, (p - 1) / 13;
    var vq, sq := (q - 1) % 13, (q - 1) / 13;
    assert CardAt(cg, p) == RANKS[vp] + SUITS[sp];
    assert CardAt(cg, q) == RANKS[vq] + SUITS[sq];
    SuitsDistinct(sp, sq);
    SuitsDistinct(sq, sp);
    RanksDistinct(vp, vq);
    if CardAt(cg, p) == CardAt(cg, q) {
      ConcatCancel(RANKS[vp], SUITS[sp], RANKS[vq], SUITS[sq]);
    }
  }

  /** Every rank of every suit appears in the table, at position 13 * suit + rank + 1. */
  lemma EveryCardPresent(cg: CardGame, v: int, s: int)
    requires cg.deck == BuildDeck()
    requires 0 <= v < |RANKS| && 0 <= s < |SUITS|
    ensures CardAt(cg, 13 * s + v + 1) == RANKS[v] + SUITS[s]
  {
    DivModUnique(13 * s + v, s, v);
  }

  /** Every position except the one the user holds, in ascending order. */
  function NonChosen(g: Game): (r: seq<int>)
    ensures forall q :: q in r <==> 1 <= q <= CARDS && Some(q) != g.choice
    ensures Increasing(r)
    ensures |r| == if g.choice.Some? && 1 <= g.choice.value <= CARDS then CARDS - 1 else CARDS
  {
    ExcludingChoice(Range(1, CARDS), g.choice)
  }

  /**
   Turn over every unchosen card but one. The card kept hidden is the winner,
   unless the user already holds the winner; then it is `draw`, the random
   choice among the unchosen cards, so a position in 1..52 other than the
   held one. The revealed list replaces the old one.
   */
  function RevealCards(cg: CardGame, draw: int): (r: CardReveal)
    requires cg.game.choice == Some(cg.game.winner) ==> 1 <= draw <= CARDS && Some(draw) != cg.game.choice
    ensures Some(r.hidden) != cg.game.choice
    ensures cg.game.choice != Some(cg.game.winner) ==> r.hidden == cg.game.winner
    ensures cg.game.choice == Some(cg.game.winner) ==> r.hidden == draw
    ensures forall q :: q in r.revealed <==> 1 <= q <= CARDS && Some(q) != cg.game.choice && q != r.hidden
    ensures Increasing(r.revealed)
    ensures cg.game.winner !in r.revealed
    ensures Wf(cg.game) && cg.game.total == CARDS && cg.game.choice.Some? && 1 <= cg.game.choice.value <= CARDS
            ==> |r.revealed| == CARDS - 2 && 1 <= r.hidden <= CARDS
    ensures r.state.deck == cg.deck
    ensures r.state.game == cg.game.(revealed := r.revealed)
    ensures RevealSafe(r.state.game)
  {
    var nonChosen := NonChosen(cg.game);
    var hidden := if cg.game.choice == Some(cg.game.winner) then draw else cg.game.winner;
    var revealed := Excluding(nonChosen, hidden);
    CardReveal(cg.(game := cg.game.(revealed := revealed)), revealed, hidden)
  }

  /** Switching: the user now holds position n, taken as given. */
  function SwitchCard(cg: CardGame, n: int): (r: CardGame)
    ensures r.game.choice == Some(n)
    ensures r.game.total == cg.game.total && r.game.winner == cg.game.winner
    ensures r.game.revealed == cg.game.revealed && r.deck == cg.deck
  {
    cg.(game := cg.game.(choice := Some(n)))
  }

  /** A new round over the same card table: the table survives, the rest is as constructed. */
  function ResetCards(cg: CardGame, draw: int): (r: CardGame)
    requires 1 <= draw <= cg.game.total
    ensures r.deck == cg.deck
    ensures r.game == New(cg.game.total, draw)
  {
    cg.(game := Reset(cg.game, draw))
  }

  /** The reveal after the user selects card c in a new round won by w; `draw` is the random hidden card. */
  function CardsRevealed(w: int, c: int, draw: int): (r: CardReveal)
    requires 1 <= w <= CARDS && 1 <= c <= CARDS
    requires c == w ==> 1 <= draw <= CARDS && draw != c
    ensures r.state.deck == BuildDeck()
    ensures r.state.game.total == CARDS && r.state.game.winner == w && r.state.game.choice == Some(c)
    ensures r.state.game.revealed == r.revealed
    ensures c != w ==> r.hidden == w
    ensures c == w ==> r.hidden == draw
  {
    var initial := NewCardGame(w);
    var selected := initial.(game := Select(initial.game, c).1);
    RevealCards(selected, draw)
  }

  /**
   One full round: 50 cards are turned over, none of them the winner or the
   held card; the hidden card is the winner whenever the first pick lost; and
   switching to it wins exactly when keeping the first pick loses.
   */
  lemma SwitchWinsIffFirstLost(w: int, c: int, draw: int)
    requires 1 <= w <= CARDS && 1 <= c <= CARDS
    requires c == w ==> 1 <= draw <= CARDS && draw != c
    ensures var r := CardsRevealed(w, c, draw);
      && |r.revealed| == CARDS - 2
      && r.hidden != c
      && (c != w ==> r.hidden == w)
      && (Won(r.state.game) <==> c == w)
      && (Won(SwitchCard(r.state, r.hidden).game) <==> c != w)
      && RevealSafe(SwitchCard(r.state, r.hidden).game)
  {
    var r := CardsRevealed(w, c, draw);
    assert r.state.game.choice == Some(c) && r.state.game.winner == w;
    assert c !in r.revealed && r.hidden !in r.revealed;
  }
}
