# Patience Monte Carlo estimator — game engine

The program estimates how often a one-handed patience game is won. It does
this by playing many trials on freshly shuffled decks. It comes in two
versions that play the same game:

- **main.c** shuffles its deck in place with a Fisher–Yates swap loop, `shuffle_in_place`. It plays each trial in a fixed-size play array:
  - the value `deck_size` marks an empty slot;
  - a four-slot comparison window starts at `play_offset`.
- **main.py** deals from the end of a shuffled list into a growing hand list.

This project models both game engines and the win tallies around them. It
proves that they agree.

The modules are:

- `Cards`: shared vocabulary.
  - 32-bit unsigned values, card codes, suit and face of a card;
  - the ordered deck `0 .. n-1`;
  - sequence reversal.
- `FisherYates`: the swap loop of `shuffle_in_place`. The bytes it reads from `/dev/urandom` are an input, `randomArray`: one arbitrary 32-bit value per deck position.
- `HandGame`: main.py's trial, as pure functions over sequences.
  - `Refill` is the inner `while len(hand) < 4` loop.
  - `Compare` is the suit / face / deal decision.
  - `Play` is the `while len(deck)` loop.
  - `Trial` and `Won` are one trial and its win test.
- `WindowGame`: main.c's trial, as methods over a `Table`. The table holds:
  - the deck and the cursor `deck_ptr - deck`;
  - the play array;
  - `play_offset` and `discard_count`.

  `Packed` is the invariant of the table:
  - card conservation;
  - the filled slots form a prefix of the play array;
  - the window is full, or sits at the front while it is not yet full.

  `View` reads a table as main.py's game state, with the undealt cards reversed. Every step of the C loop is shown to be the matching step of main.py's game. So a whole C trial on deck `d` ends like main.py's trial on the reversed deck:
  - the discard count is the same;
  - the filled front of the play array is the Python hand.
- `MonteCarlo`: both win tallies.
  - main.c reshuffles the same deck for every trial, without resetting it.
  - Its tally equals main.py's tally over the reversed decks.

## Model

| member | source | states |
|---|---|---|
| `FisherYates.ShuffleInPlace` | main.c:42-59 | The swap loop leaves the deck `Shuffle` describes, and the result holds exactly the cards of the input (same multiset), whatever the random values are. |
| `FisherYates.SettledTailIsFinal` | main.c:44-57 | Every step swaps only inside the unsettled front `[0, deck_size - i)`, so a position of the settled tail keeps its card through all later steps. |
| `FisherYates.ShuffledPositionIsDrawn` | main.c:44-57 | Position `deck_size - 1 - i` of the shuffled deck holds the card step `i` picked at `random_array[i] % scratch_range` in the deck as it was before that step. |
| `Cards.PermutationOfIdentityHoldsCards` | main.c:160-161 | Any rearrangement of the ordered deck `0 .. deck_size-1` holds only codes below `deck_size`, so no card can be mistaken for the empty-slot sentinel. |
| `Cards.ReverseMultiset` | main.py:19 | Reading the deck back to front (main.py pops from the end) keeps the same cards. |
| `HandGame.RemoveAt` | main.py:27-28 | `list.pop(i)` drops item `i`, keeps the order of the items before it, and shifts the items after it down by one. |
| `HandGame.RemoveAtKeepsOthers` | main.py:27-28 | `list.pop(i)` removes exactly item `i`: the remaining items plus that one make up the original list. |
| `HandGame.Draw` | main.py:19 | A deal conserves pile + hand + discards, lowers the termination measure by exactly one, and only appends to the hand. It can be undone: putting the new last card of the hand back on the pile gives the old pile. |
| `HandGame.DrawKeepsCards` | main.py:19 | A deal neither creates nor loses a card: pile plus hand hold the same cards before and after. |
| `HandGame.Refill` | main.py:18-21 | The refill loop stops with at least four cards in hand or an empty pile. It only appends to the hand, leaves a full hand alone, conserves pile + hand + discards, and lowers the termination measure by one per card dealt. |
| `HandGame.RefillDeals` | main.py:18-21 | A short hand grows to exactly four cards, or to all the cards there are when fewer are left. The new cards are the end of the pile in `pop()` order: the pile left, followed by the new cards reversed, is the old pile. |
| `HandGame.PopOrderStep` | main.py:18-21 | Dealing one more card in front of a refill keeps the `pop()` order of the cards taken from the pile. |
| `HandGame.RefillDraws` | main.py:18-21 | A hand below four cards with cards left to deal takes the next card and goes on refilling. |
| `HandGame.RefillKeepsCards` | main.py:18-21 | Refilling only moves cards from the pile to the hand. |
| `HandGame.CollapseSuit` | main.py:26-29 | The suit collapse leaves two cards fewer. The cards before the compared `hand[-4]` keep their order, followed by `hand[-4]` and then `hand[-1]`. |
| `HandGame.CollapseSuitCards` | main.py:26-29 | The suit collapse removes exactly the old `hand[-3]` and `hand[-2]`. |
| `HandGame.CollapseFace` | main.py:30-33 | The face collapse removes the last four cards and keeps the rest in order. |
| `HandGame.CollapseFaceCards` | main.py:30-33 | The face collapse removes exactly the four compared cards. |
| `HandGame.Compare` | main.py:23-37 | A comparison stops only when the pile is empty, and it conserves cards. It discards 0, 2 or 4 cards. When the game continues, the termination measure `2*len(deck) + len(hand)` drops. |
| `HandGame.CompareOutcome` | main.py:26-37 | On a full hand, two cards go exactly on a suit match of `hand[-1]` and `hand[-4]`, and the result is the suit collapse. Four go exactly on a face match without a suit match, and the result is the face collapse. A round that discards nothing deals the next card or stops, and it stops exactly when nothing matches and the pile is empty. |
| `HandGame.PlayRound` | main.py:17-37 | One turn of the outer loop conserves cards, discards 0, 2 or 4, and either stops with an empty pile or decreases the measure. |
| `HandGame.DiscardStepKeepsParity` | main.py:26-33 | Discarding two or four cards never changes the parity of the discard count. |
| `HandGame.Play` | main.py:17-37 | The outer loop terminates with an empty pile, conserves cards, never lowers the discard count and keeps its parity. |
| `HandGame.PlayShortRefill` | main.py:18-24 | When the refill runs out of cards before the hand holds four, the game ends in the refilled state. |
| `HandGame.PlayTurn` | main.py:17-37 | A turn leaves the outcome of the rest of the game unchanged. A turn that stops ends the game with the state it stops in. |
| `HandGame.HandShrinks` | main.py:26-33 | Removing cards from the hand only shrinks the set of cards still in play. |
| `HandGame.CompareKeepsCards` | main.py:26-37 | A comparison never brings in a card that was not in the pile or the hand. |
| `HandGame.PlayKeepsCards` | main.py:17-37 | The cards left at the end of the game were all in the pile or the hand at its start. |
| `HandGame.TrialKeepsCards` | main.py:11-37 | The final hand of a trial holds cards of the dealt deck only. |
| `HandGame.Trial` | main.py:11-37 | A trial ends with an empty pile, an even discard count, and hand size plus discards equal to the deck size. |
| `HandGame.WonIffHandEmpty` | main.py:40-41 | A full-size trial is won exactly when its final hand is empty. |
| `HandGame.OddDeckNeverWins` | main.py:40-41 | With an odd number of cards no trial is ever won, because cards leave two or four at a time. |
| `HandGame.SuitTakesPrecedence` | main.py:26-33 | When the compared cards agree in both suit and face, the round makes the two-card suit collapse, not the four-card face collapse. |
| `WindowGame.PileDeal` | main.c:219 | Taking `*(deck_ptr++)` from the front of the deck is popping the last card of the reversed pile. |
| `WindowGame.PlaceCard` | main.c:219 | Writing a card into the first empty slot appends it to the filled front of the play array. |
| `WindowGame.Fresh` | main.c:199-204 | The table after the play area is reset, the cursor is set to the top and the counters are zeroed. It is packed with nothing in play, and it reads as main.py's start: the reversed deck, an empty hand, no discards. |
| `WindowGame.DealIntoWindow` | main.c:218-219 | Dealing into the first empty window slot keeps the table packed, with one more card in play. |
| `WindowGame.DealIntoDraws` | main.c:218-219 | Dealing into the window is main.py's `hand.append(deck.pop())`. |
| `WindowGame.SuitCollapse` | main.c:233-244 | The suit collapse keeps the table packed, with two cards fewer in play. |
| `WindowGame.SuitCollapseKeepsPacked` | main.c:235-244 | The slot writes, the discard count and the offset step of a suit collapse keep card conservation, the filled prefix and the window shape. |
| `WindowGame.SuitCollapseKeepsHand` | main.c:235-237 | After the three slot writes the filled front is the hand with its two middle window cards removed. |
| `WindowGame.SuitCollapseDiscards` | main.c:233-244 | After a suit collapse the table reads as main.py's state after `hand.pop(-3); hand.pop(-2)`, with two more discards. |
| `WindowGame.SuitCollapseSlots` | main.c:235-244 | Slot `+1` takes the card of slot `+3`, and slots `+2` and `+3` become empty. Every other slot is unchanged. The offset moves back by two, stopping at zero. |
| `WindowGame.FaceCollapse` | main.c:250-260 | The face collapse keeps the table packed, with four cards fewer in play. |
| `WindowGame.FaceCollapseDiscards` | main.c:250-260 | After a face collapse the table reads as main.py's state after four `hand.pop()`, with four more discards. |
| `WindowGame.FaceCollapseSlots` | main.c:252-260 | Exactly the four window slots become empty, and the offset moves back by four, stopping at zero. |
| `WindowGame.DealBeyondWindow` | main.c:271-272 | Dealing into slot `play_offset + 4` and moving the window on keeps the table packed. That slot is inside the play array. |
| `WindowGame.DealBeyondDraws` | main.c:271-272 | The deal past the window is main.py's `hand.append(deck.pop())`. |
| `WindowGame.DealSlot` | main.c:218-219 | One turn of the deal loop fills an empty window slot with the next card or leaves a filled one alone. Either way main.py's refill from the new state is the same, and the table stays packed. |
| `WindowGame.DealWindow` | main.c:216-223 | The deal loop has the same effect as main.py's refill loop. It jumps to STOP exactly when the deck runs out with fewer than four cards in play; otherwise the window ends up full. |
| `WindowGame.WindowEnds` | main.c:233 | On a full window, slots `+3` and `+0` hold main.py's `hand[-1]` and `hand[-4]`. |
| `WindowGame.SuitMatchAgrees` | main.c:233-244 | On a suit match main.c's collapse is main.py's comparison result. |
| `WindowGame.FaceMatchAgrees` | main.c:250-260 | On a face match that is not a suit match, main.c's collapse is main.py's comparison result. |
| `WindowGame.NoMatchStops` | main.c:266-269 | With no match and no card left, main.c's `break` is where main.py stops, in the same state. |
| `WindowGame.NoMatchDeals` | main.c:266-272 | With no match and cards left, main.c's deal past the window is main.py's comparison result. |
| `WindowGame.Resolve` | main.c:232-277 | The three-way branch plays main.py's comparison on the hand. It stops only with the deck exhausted, and otherwise deals a card or discards. |
| `WindowGame.DealOrStop` | main.c:266-272 | The no-match branch either breaks, with the deck exhausted and the table unchanged, or deals exactly one card. In that case nothing is discarded. |
| `WindowGame.ResolveRefilled` | main.c:232-277 | After the deal loop filled the window, the branch leaves main.py's outcome of the game unchanged. |
| `WindowGame.Turn` | main.c:207-278 | One pass of the `while(1)` loop keeps the table packed. Read as main.py's game, its outcome is unchanged. Every pass deals or discards, which makes the termination measure drop. |
| `WindowGame.PlayTrial` | main.c:199-278 | A C trial on deck `d` ends with main.py's discard count on the reversed deck. The filled front of its play array is main.py's final hand, and every later slot is empty. |
| `WindowGame.FinishedTable` | main.c:209-211 | Once the deck is exhausted, main.py's game is over and equals the table read as a game. |
| `MonteCarlo.TrialWon` | main.c:280-281 | A C trial is counted exactly when main.py's trial on the reversed deck is won. |
| `MonteCarlo.RunWindowTrials` | main.c:188-282 | main.c's tally equals main.py's tally over the decks of the trials, each reversed. Each trial reshuffles the deck left by the previous one. |
| `MonteCarlo.PlayNextTrial` | main.c:188-281 | One trial reshuffles the previous deck (still a rearrangement of the ordered deck), plays it, and adds one exactly for a won game. |
| `MonteCarlo.RunHandTrials` | main.py:10-41 | main.py's loop counts exactly the trials whose discard count reaches `suits * faces`. |
| `MonteCarlo.TallyStep` | main.c:280-281 | Each further trial adds one to the tally exactly when its game is won. |
| `MonteCarlo.CountNoneOrAll` | main.py:40-41 | A count is zero exactly when no item qualifies, and the full length exactly when every item does. |
| `MonteCarlo.HandWins` | main.py:40-41 | There are never more wins than trials. |
| `MonteCarlo.HandWinsNoneOrAll` | main.py:40-41 | The tally is zero exactly when no trial is won, and equals the number of trials exactly when every trial is won. |
| `MonteCarlo.HandWinsLast` | main.py:40-41 | The tally grows by one exactly for a won last trial. |

## Left out

- Reading `/dev/urandom` in `shuffle_in_place` (main.c:22-39) is OS input, not modelled. `randomArray` holds one arbitrary 32-bit value per position instead.
- `random.shuffle` (main.py:12) is a library call, not modelled. main.py's loop takes its shuffled piles as an input.
- `calloc`, `free` and the allocation asserts (main.c:31-32, 62, 158-159, 178-179, 290) are memory plumbing with no effect on the game.
- The shuffle's statistical quality is not modelled, because probabilistic claims cannot be stated about a deterministic model. This includes:
  - the modulo bias of `random_array[i] % scratch_range`;
  - the win-rate estimate.
- The final `printf` and its `double` percentage (main.c:285-286, main.py:44) are floating-point output formatting, not modelled.
- `print_deck`, `print_hand` and the `print_debug` branches (main.c:66-138, 226-230, 246-247, 262-263, 275-276) are debug output only, not modelled.
- The parameters are generalised:
  - The C constants `suit_count = 4`, `face_count = 13` and `monte_carlo_iterations = 1000000` are parameters here.
  - The number of trials is the number of random buffers.
  - The model requires `deck_size < 2^32`, which the constants meet.
  - With the tally never above the number of trials, the `uint32_t` counters cannot wrap.
- C arrays are modelled as values: the deck and the play array are `seq` values passed into each step and returned, not arrays updated in place. Nothing is lost, because neither array is aliased and `MonteCarlo.DeckAfter` passes the deck from one trial to the next.
- The odd-deck assertion (main.c:151) is not modelled as a check. Its condition `(deck_size % 2) + 1` is 1 or 2, never 0, so it never rejects a deck, and the model does not require an even deck. `HandGame.OddDeckNeverWins` proves what the assertion's message claims.

## Notes on the code

- main.c fills the deck with `0 .. deck_size-1` once, before the trials (main.c:160-161). Each trial then shuffles the deck the previous trial left behind (main.c:188-194), and resets only the play array to the empty marker (main.c:199-200). So every trial after the first starts from the last trial's shuffle, not from the ordered deck. `MonteCarlo.DeckAfter` chains the deck from trial to trial in the same way.
- The two offset clamps (`if(play_offset > 2) play_offset -= 2; else play_offset = 0;` at main.c:241-244, and the same with `4` at main.c:257-260) are saturating subtraction `max(0, offset - k)`, including at `play_offset == 2` and `== 4`. `WindowGame.SuitCollapseSlots` and `WindowGame.FaceCollapseSlots` state them in that form.
