/**
 One trial of the patience game as main.py plays it. The draw pile is a list
 dealt from its END (`deck.pop()`), the hand is a list that grows at its end,
 and every round compares the last card of the hand with the fourth card from
 the end. The shuffled pile is an input: `random.shuffle` is not modelled.
 */
module HandGame {
  import opened Cards

  /** The state of one trial: draw pile, hand, and number of discarded cards. */
  datatype Game = Game(deck: seq<nat>, hand: seq<nat>, discardCount: nat)

  /** Every card is either still in the pile, in the hand, or discarded. */
  function Size(g: Game): nat
  {
    |g.deck| + |g.hand| + g.discardCount
  }

  /** The cards not yet discarded. */
  function Live(g: Game): multiset<nat>
  {
    multiset(g.deck) + multiset(g.hand)
  }

  /** Termination measure of the round loop: a deal moves one card from the
      pile to the hand, a collapse removes two or four cards from the hand. */
  function Measure(g: Game): nat
  {
    2 * |g.deck| + |g.hand|
  }

  /** Python's `xs.pop(i)` for a non-negative index: the list without its `i`-th item. */
  function RemoveAt(xs: seq<nat>, i: nat): (r: seq<nat>)
    requires i < |xs|
    ensures |r| == |xs| - 1
    ensures forall k :: 0 <= k < i ==> r[k] == xs[k]
    ensures forall k :: i <= k < |r| ==> r[k] == xs[k + 1]
  {
    xs[..i] + xs[i + 1..]
  }

  /** Removing an item keeps every other item. */
  lemma RemoveAtKeepsOthers(xs: seq<nat>, i: nat)
    requires i < |xs|
    ensures multiset(RemoveAt(xs, i)) + multiset{xs[i]} == multiset(xs)
  {
    assert xs == xs[..i] + [xs[i]] + xs[i + 1..];
  }

  /** `hand.append(deck.pop())`: move the last card of the pile to the end of the hand. */
  function Draw(g: Game): (r: Game)
    requires |g.deck| > 0
    ensures Size(r) == Size(g) && Measure(r) + 1 == Measure(g)
    ensures |r.hand| == |g.hand| + 1 && r.hand[..|g.hand|] == g.hand
    // Undo: putting the new last card of the hand back on the pile gives the old pile.
    ensures r.deck + [r.hand[|g.hand|]] == g.deck
  {
    var d := g.deck;
    Game(d[..|d| - 1], g.hand + [d[|d| - 1]], g.discardCount)
  }

  /** The inner `while len(hand) < 4` loop: deal until the hand holds four
      cards or the pile runs out. Python enters it with a non-empty pile and
      breaks as soon as the pile is empty; checking the pile at the head of
      each turn is the same loop. */
  function Refill(g: Game): (r: Game)
    ensures |r.hand| >= 4 || |r.deck| == 0
    ensures |g.hand| >= 4 ==> r == g
    ensures |g.hand| <= |r.hand| && r.hand[..|g.hand|] == g.hand
    ensures r.discardCount == g.discardCount
    ensures Size(r) == Size(g)
    ensures Measure(r) + (|r.hand| - |g.hand|) == Measure(g)
    decreases |g.deck|
  {
    if |g.hand| >= 4 || |g.deck| == 0 then g
    else Refill(Draw(g))
  }

  /** What the refill deals: a short hand grows to four cards, or to all the
      cards there are, and the new cards are the end of the pile in `pop()`
      order. Stated apart from `Refill` so that the reversal stays out of the
      proofs that only need the refill's shape. */
  lemma {:induction false} RefillDeals(g: Game)
    ensures var r := Refill(g);
      |g.hand| < 4 ==> |r.hand| == if |g.hand| + |g.deck| < 4 then |g.hand| + |g.deck| else 4
    ensures var r := Refill(g);
      r.deck + Reverse(r.hand[|g.hand|..]) == g.deck
    decreases |g.deck|
  {
    var r := Refill(g);
    if |g.hand| >= 4 || |g.deck| == 0 {
      assert g.hand[|g.hand|..] == [];
    } else {
      var d := Draw(g);
      RefillDeals(d);
      PopOrderStep(g.deck, g.hand, d.deck, d.hand, r.deck, r.hand);
    }
  }

  /** One more `pop()` in front of a refill keeps the pop order: the card the
      first deal took goes back on top of what the rest of the refill left. */
  lemma PopOrderStep(pile: seq<nat>, hand: seq<nat>, pile1: seq<nat>, hand1: seq<nat>,
                     pile2: seq<nat>, hand2: seq<nat>)
    requires |hand1| == |hand| + 1 && hand1[..|hand|] == hand && pile1 + [hand1[|hand|]] == pile
    requires |hand1| <= |hand2| && hand2[..|hand1|] == hand1
    requires pile2 + Reverse(hand2[|hand1|..]) == pile1
    ensures |hand| <= |hand2| && hand2[..|hand|] == hand
    ensures pile2 + Reverse(hand2[|hand|..]) == pile
  {
    assert hand2[..|hand|] == hand1[..|hand|];
    var taken := hand2[|hand|..];
    assert taken[0] == hand1[|hand|];
    assert taken[1..] == hand2[|hand1|..];
    ReverseFront(taken);
  }

  /** A short hand with cards left to deal takes the next card first. */
  lemma RefillDraws(g: Game)
    requires |g.hand| < 4 && |g.deck| > 0
    ensures Refill(Draw(g)) == Refill(g)
  {
  }

  /** Suit collapse, `hand.pop(-3)` then `hand.pop(-2)`: the two cards
      between the compared ones leave the hand. */
  function CollapseSuit(hand: seq<nat>): (r: seq<nat>)
    requires |hand| >= 4
    ensures |r| == |hand| - 2
    ensures r[..|hand| - 3] == hand[..|hand| - 3]
    ensures r[|r| - 1] == hand[|hand| - 1]
  {
    var once := RemoveAt(hand, |hand| - 3);
    var r := RemoveAt(once, |once| - 2);
    assert r[..|hand| - 3] == hand[..|hand| - 3];
    r
  }

  /** A suit collapse removes exactly the two cards between the compared ones. */
  lemma CollapseSuitCards(hand: seq<nat>)
    requires |hand| >= 4
    ensures multiset(CollapseSuit(hand)) + multiset{hand[|hand| - 3], hand[|hand| - 2]} == multiset(hand)
    ensures multiset(CollapseSuit(hand)) <= multiset(hand)
  {
    var once := RemoveAt(hand, |hand| - 3);
    RemoveAtKeepsOthers(hand, |hand| - 3);
    RemoveAtKeepsOthers(once, |once| - 2);
  }

  /** Face collapse, four times `hand.pop()`: the four compared cards leave the hand. */
  function CollapseFace(hand: seq<nat>): (r: seq<nat>)
    requires |hand| >= 4
    ensures |r| == |hand| - 4
    ensures r + hand[|hand| - 4..] == hand
  {
    assert hand == hand[..|hand| - 4] + hand[|hand| - 4..];
    hand[..|hand| - 4]
  }

  /** A face collapse removes exactly the four compared cards. */
  lemma CollapseFaceCards(hand: seq<nat>)
    requires |hand| >= 4
    ensures multiset(CollapseFace(hand)) + multiset(hand[|hand| - 4..]) == multiset(hand)
    ensures multiset(CollapseFace(hand)) <= multiset(hand)
  {
    assert CollapseFace(hand) + hand[|hand| - 4..] == hand;
  }

  /** Outcome of one turn of the `while len(deck)` loop. */
  datatype Round = Continue(next: Game) | Stop(final: Game)
  {
    function After(): Game
    {
      match this
      case Continue(g) => g
      case Stop(g) => g
    }
  }

  /** `hand[-1]` and `hand[-4]` share a suit. */
  predicate SuitMatch(hand: seq<nat>, suits: nat)
    requires |hand| >= 4 && suits > 0
  {
    Suit(hand[|hand| - 1], suits) == Suit(hand[|hand| - 4], suits)
  }

  /** `hand[-1]` and `hand[-4]` share a face. */
  predicate FaceMatch(hand: seq<nat>, faces: nat)
    requires |hand| >= 4 && faces > 0
  {
    Face(hand[|hand| - 1], faces) == Face(hand[|hand| - 4], faces)
  }

  /** The rest of a turn of the outer loop once the hand is refilled:
      compare `hand[-1]` with `hand[-4]` and collapse two cards on a suit
      match, else four on a face match, else deal one more card, or stop when
      the refill ran out of cards or there is no card to deal. */
  function Compare(h: Game, suits: nat, faces: nat): (r: Round)
    requires |h.hand| >= 4 || |h.deck| == 0
    requires suits > 0 && faces > 0
    ensures Size(r.After()) == Size(h)
    ensures r.After().discardCount - h.discardCount in {0, 2, 4}
    ensures r.Stop? ==> r.final == h && |h.deck| == 0
    ensures r.Continue? ==> Measure(r.next) < Measure(h)
  {
    if |h.deck| == 0 && |h.hand| < 4 then Stop(h)
    else
      if SuitMatch(h.hand, suits) then
        var kept := CollapseSuit(h.hand);
        assert Size(Game(h.deck, kept, h.discardCount + 2)) == Size(h);
        Continue(Game(h.deck, kept, h.discardCount + 2))
      else if FaceMatch(h.hand, faces) then
        var kept := CollapseFace(h.hand);
        assert Size(Game(h.deck, kept, h.discardCount + 4)) == Size(h);
        Continue(Game(h.deck, kept, h.discardCount + 4))
      else if |h.deck| == 0 then Stop(h)
      else Continue(Draw(h))
  }

  /** What each comparison of a full hand does: two cards go exactly on a
      suit match, four exactly on a face match without a suit match; a round
      that discards nothing deals the next card, and the game stops exactly
      when nothing matches and the pile is empty. */
  lemma CompareOutcome(h: Game, suits: nat, faces: nat)
    requires |h.hand| >= 4
    requires suits > 0 && faces > 0
    ensures Compare(h, suits, faces).After().discardCount == h.discardCount + 2
      <==> SuitMatch(h.hand, suits)
    ensures Compare(h, suits, faces).After().discardCount == h.discardCount + 4
      <==> !SuitMatch(h.hand, suits) && FaceMatch(h.hand, faces)
    ensures SuitMatch(h.hand, suits) ==>
      Compare(h, suits, faces) == Continue(Game(h.deck, CollapseSuit(h.hand), h.discardCount + 2))
    ensures !SuitMatch(h.hand, suits) && FaceMatch(h.hand, faces) ==>
      Compare(h, suits, faces) == Continue(Game(h.deck, CollapseFace(h.hand), h.discardCount + 4))
    ensures Compare(h, suits, faces).Stop?
      <==> !SuitMatch(h.hand, suits) && !FaceMatch(h.hand, faces) && |h.deck| == 0
    ensures Compare(h, suits, faces).After().discardCount == h.discardCount
      ==> Compare(h, suits, faces).Stop? || Compare(h, suits, faces) == Continue(Draw(h))
  {
  }

  /** One turn of the outer loop of main.py: refill the hand, then compare. */
  function PlayRound(g: Game, suits: nat, faces: nat): (r: Round)
    requires |g.deck| > 0
    requires suits > 0 && faces > 0
    ensures Size(r.After()) == Size(g)
    ensures r.After().discardCount - g.discardCount in {0, 2, 4}
    ensures r.Stop? ==> |r.final.deck| == 0
    ensures r.Continue? ==> Measure(r.next) < Measure(g)
  {
    Compare(Refill(g), suits, faces)
  }

  /** Discarding two or four cards leaves the parity of the count unchanged. */
  lemma DiscardStepKeepsParity(before: nat, after: nat)
    requires after - before in {0, 2, 4}
    ensures after % 2 == before % 2
  {
  }

  /** The `while len(deck)` loop: play rounds until one stops it or the pile is empty. */
  function Play(g: Game, suits: nat, faces: nat): (r: Game)
    requires suits > 0 && faces > 0
    ensures |r.deck| == 0
    ensures Size(r) == Size(g)
    ensures r.discardCount >= g.discardCount
    ensures r.discardCount % 2 == g.discardCount % 2
    decreases Measure(g)
  {
    if |g.deck| == 0 then g
    else
      var round := PlayRound(g, suits, faces);
      DiscardStepKeepsParity(g.discardCount, round.After().discardCount);
      if round.Stop? then round.final else Play(round.next, suits, faces)
  }

  /** A refill that runs out of cards before the hand holds four ends the
      game in the refilled state. */
  lemma PlayShortRefill(g: Game, suits: nat, faces: nat)
    requires suits > 0 && faces > 0
    requires |g.deck| > 0 && |Refill(g).hand| < 4
    ensures Play(g, suits, faces) == Refill(g)
    ensures Play(Refill(g), suits, faces) == Refill(g)
  {
  }

  /** One turn of the outer loop leaves the outcome of the game unchanged:
      the game goes on from the state the turn leaves, and a turn that stops
      leaves an empty pile, which ends the game there. */
  lemma PlayTurn(g: Game, suits: nat, faces: nat)
    requires suits > 0 && faces > 0
    requires |g.deck| > 0
    ensures Play(g, suits, faces) == Play(Compare(Refill(g), suits, faces).After(), suits, faces)
    ensures Compare(Refill(g), suits, faces).Stop? ==> Play(g, suits, faces) == Compare(Refill(g), suits, faces).final
  {
  }

  /** Dealing a card moves it from the pile to the hand. */
  lemma DrawKeepsCards(g: Game)
    requires |g.deck| > 0
    ensures Live(Draw(g)) == Live(g)
  {
    var d := g.deck;
    assert d == d[..|d| - 1] + [d[|d| - 1]];
  }

  /** Refilling the hand only moves cards from the pile to the hand. */
  lemma {:induction false} RefillKeepsCards(g: Game)
    ensures Live(Refill(g)) == Live(g)
    decreases |g.deck|
  {
    if !(|g.hand| >= 4 || |g.deck| == 0) {
      DrawKeepsCards(g);
      RefillKeepsCards(Draw(g));
    }
  }

  /** Dropping cards from the hand keeps the rest of the live cards. */
  lemma HandShrinks(g: Game, kept: seq<nat>, discardCount: nat)
    requires multiset(kept) <= multiset(g.hand)
    ensures Live(Game(g.deck, kept, discardCount)) <= Live(g)
  {
  }

  /** A comparison keeps or removes cards, it never brings a new one in. */
  lemma CompareKeepsCards(h: Game, suits: nat, faces: nat)
    requires |h.hand| >= 4 || |h.deck| == 0
    requires suits > 0 && faces > 0
    ensures Live(Compare(h, suits, faces).After()) <= Live(h)
  {
    if !(|h.deck| == 0 && |h.hand| < 4) {
      if SuitMatch(h.hand, suits) {
        CollapseSuitCards(h.hand);
        HandShrinks(h, CollapseSuit(h.hand), h.discardCount + 2);
        assert Compare(h, suits, faces).After() == Game(h.deck, CollapseSuit(h.hand), h.discardCount + 2);
      } else if FaceMatch(h.hand, faces) {
        CollapseFaceCards(h.hand);
        HandShrinks(h, CollapseFace(h.hand), h.discardCount + 4);
        assert Compare(h, suits, faces).After() == Game(h.deck, CollapseFace(h.hand), h.discardCount + 4);
      } else if |h.deck| > 0 {
        DrawKeepsCards(h);
        assert Compare(h, suits, faces).After() == Draw(h);
      }
    }
  }

  /** Every card left at the end of the game was in the pile or the hand at
      the start: the game only moves and discards cards. */
  lemma {:induction false} PlayKeepsCards(g: Game, suits: nat, faces: nat)
    requires suits > 0 && faces > 0
    ensures Live(Play(g, suits, faces)) <= Live(g)
    decreases Measure(g)
  {
    if |g.deck| > 0 {
      RefillKeepsCards(g);
      CompareKeepsCards(Refill(g), suits, faces);
      var round := PlayRound(g, suits, faces);
      if round.Continue? {
        PlayKeepsCards(round.next, suits, faces);
      }
    }
  }

  /** The final hand of a trial holds cards of the dealt deck only. */
  lemma TrialKeepsCards(deck: seq<nat>, suits: nat, faces: nat)
    requires suits > 0 && faces > 0
    ensures multiset(Trial(deck, suits, faces).hand) <= multiset(deck)
  {
    PlayKeepsCards(Game(deck, [], 0), suits, faces);
    assert Live(Game(deck, [], 0)) == multiset(deck);
  }

  /** One trial: the shuffled pile `deck`, an empty hand, nothing discarded. */
  function Trial(deck: seq<nat>, suits: nat, faces: nat): (r: Game)
    requires suits > 0 && faces > 0
    ensures |r.deck| == 0
    ensures |r.hand| + r.discardCount == |deck|
    ensures r.discardCount <= |deck|
    ensures r.discardCount % 2 == 0
  {
    Play(Game(deck, [], 0), suits, faces)
  }

  /** The win test of main.py: every card of the `suits * faces` deck was discarded. */
  predicate Won(deck: seq<nat>, suits: nat, faces: nat)
    requires suits > 0 && faces > 0
  {
    Trial(deck, suits, faces).discardCount == suits * faces
  }

  /** A full-size trial is won exactly when it ends with an empty hand. */
  lemma WonIffHandEmpty(deck: seq<nat>, suits: nat, faces: nat)
    requires suits > 0 && faces > 0
    requires |deck| == suits * faces
    ensures Won(deck, suits, faces) <==> Trial(deck, suits, faces).hand == []
  {
  }

  /** Cards leave two or four at a time, so a deck with an odd number of
      cards is never cleared. */
  lemma OddDeckNeverWins(deck: seq<nat>, suits: nat, faces: nat)
    requires suits > 0 && faces > 0
    requires (suits * faces) % 2 == 1
    ensures !Won(deck, suits, faces)
  {
  }

  /** Suit is checked before face: when the compared cards agree on both, the
      round collapses two cards, not four. */
  lemma SuitTakesPrecedence(g: Game, suits: nat, faces: nat)
    requires suits > 0 && faces > 0
    requires |g.deck| > 0 && |g.hand| >= 4
    requires SuitMatch(g.hand, suits) && FaceMatch(g.hand, faces)
    ensures PlayRound(g, suits, faces) == Continue(Game(g.deck, CollapseSuit(g.hand), g.discardCount + 2))
  {
    assert Refill(g) == g;
  }
}
