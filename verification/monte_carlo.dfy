/**
 The win tallies of main.c and main.py: run a number of trials, count the
 trials whose discard count reaches the deck size. The random input of each
 trial is a parameter: for main.c the buffer of 32-bit values each call of
 `shuffle_in_place` reads, for main.py the list `random.shuffle` produced.
 */
module MonteCarlo {
  import opened Cards
  import FisherYates
  import HandGame
  import WindowGame

  /** Every random buffer holds one value per card. */
  predicate BuffersFit(deckSize: nat, buffers: seq<seq<U32>>)
  {
    forall j :: 0 <= j < |buffers| ==> |buffers[j]| == deckSize
  }

  /** The deck main.c holds after `shuffles` calls of `shuffle_in_place`:
      the deck is not reset between trials, so trial `k` plays the ordered
      deck shuffled with the buffers of trials `0` to `k` in turn. */
  function DeckAfter(deckSize: nat, buffers: seq<seq<U32>>, shuffles: nat): (deck: seq<nat>)
    requires shuffles <= |buffers| && BuffersFit(deckSize, buffers)
    ensures |deck| == deckSize
    decreases shuffles
  {
    if shuffles == 0 then Identity(deckSize)
    else FisherYates.Shuffle(DeckAfter(deckSize, buffers, shuffles - 1), buffers[shuffles - 1])
  }

  /** The decks of the first `trials` trials of main.c, each read back to
      front: the order in which main.py would deal it. */
  function TrialPiles(deckSize: nat, buffers: seq<seq<U32>>, trials: nat): (piles: seq<seq<nat>>)
    requires trials <= |buffers| && BuffersFit(deckSize, buffers)
    ensures |piles| == trials
    ensures forall j :: 0 <= j < trials ==> piles[j] == Reverse(DeckAfter(deckSize, buffers, j + 1))
  {
    seq(trials, j requires 0 <= j < trials => Reverse(DeckAfter(deckSize, buffers, j + 1)))
  }

  /** One trial of main.c and its win test: won exactly when main.py's game
      on the reversed deck is won. */
  method TrialWon(deck: seq<nat>, suitCount: nat, faceCount: nat) returns (won: bool)
    requires suitCount > 0 && faceCount > 0
    requires |deck| == suitCount * faceCount && CardCodes(deck)
    ensures won <==> HandGame.Won(Reverse(deck), suitCount, faceCount)
  {
    var discardCount, _ := WindowGame.PlayTrial(deck, suitCount, faceCount);
    won := discardCount == |deck|;
  }

  /** The Monte Carlo loop of main.c: one trial per random buffer, each
      reshuffling the deck left by the previous one, and `successes` counting
      the trials whose discard count equals the deck size. */
  method RunWindowTrials(suitCount: nat, faceCount: nat, buffers: seq<seq<U32>>) returns (successes: nat)
    requires suitCount > 0 && faceCount > 0
    requires suitCount * faceCount < U32_LIMIT
    requires BuffersFit(suitCount * faceCount, buffers)
    ensures successes == HandWins(TrialPiles(suitCount * faceCount, buffers, |buffers|), suitCount, faceCount)
  {
    var deckSize := suitCount * faceCount;
    var deck := Identity(deckSize);
    successes := 0;
    var i := 0;
    while i < |buffers|
      invariant i <= |buffers|
      invariant successes == HandWins(TrialPiles(deckSize, buffers, i), suitCount, faceCount)
      invariant deck == DeckAfter(deckSize, buffers, i)
      invariant multiset(deck) == multiset(Identity(deckSize))
    {
      deck, successes := PlayNextTrial(suitCount, faceCount, buffers, i, deck, successes);
      i := i + 1;
    }
  }

  /** Trial `i` of main.c: reshuffle the deck the previous trial left, play
      it, and count it when won. The tally grows exactly when main.py's game
      on the reversed deck is won. */
  method PlayNextTrial(suitCount: nat, faceCount: nat, buffers: seq<seq<U32>>, i: nat, deck: seq<nat>, successes: nat)
    returns (next: seq<nat>, tally: nat)
    requires suitCount > 0 && faceCount > 0
    requires suitCount * faceCount < U32_LIMIT
    requires i < |buffers| && BuffersFit(suitCount * faceCount, buffers)
    requires deck == DeckAfter(suitCount * faceCount, buffers, i)
    requires multiset(deck) == multiset(Identity(suitCount * faceCount))
    requires successes == HandWins(TrialPiles(suitCount * faceCount, buffers, i), suitCount, faceCount)
    ensures next == DeckAfter(suitCount * faceCount, buffers, i + 1)
    ensures multiset(next) == multiset(Identity(suitCount * faceCount))
    ensures tally == HandWins(TrialPiles(suitCount * faceCount, buffers, i + 1), suitCount, faceCount)
  {
    next := FisherYates.ShuffleInPlace(deck, buffers[i]);
    PermutationOfIdentityHoldsCards(next);
    var won := TrialWon(next, suitCount, faceCount);
    TallyStep(suitCount, faceCount, buffers, i);
    tally := if won then successes + 1 else successes;
  }

  /** The Monte Carlo loop of main.py over the piles `random.shuffle`
      produced, one per trial: `successes` counts the trials whose discard
      count reaches `suits * faces`. */
  method RunHandTrials(suitCount: nat, faceCount: nat, piles: seq<seq<nat>>) returns (successes: nat)
    requires suitCount > 0 && faceCount > 0
    ensures successes == HandWins(piles, suitCount, faceCount)
  {
    successes := 0;
    var i := 0;
    while i < |piles|
      invariant i <= |piles|
      invariant successes == HandWins(piles[..i], suitCount, faceCount)
    {
      var final := HandGame.Trial(piles[i], suitCount, faceCount);
      HandWinsLast(piles[..i + 1], suitCount, faceCount);
      assert piles[..i + 1][..i] == piles[..i];
      if final.discardCount == suitCount * faceCount {
        successes := successes + 1;
      }
      i := i + 1;
    }
    assert piles[..i] == piles;
  }

  /** Playing trial `i` adds one to the tally exactly when its deck is won. */
  lemma TallyStep(suitCount: nat, faceCount: nat, buffers: seq<seq<U32>>, i: nat)
    requires suitCount > 0 && faceCount > 0
    requires i < |buffers| && BuffersFit(suitCount * faceCount, buffers)
    ensures HandWins(TrialPiles(suitCount * faceCount, buffers, i + 1), suitCount, faceCount)
         == HandWins(TrialPiles(suitCount * faceCount, buffers, i), suitCount, faceCount)
          + if HandGame.Won(Reverse(DeckAfter(suitCount * faceCount, buffers, i + 1)), suitCount, faceCount) then 1 else 0
  {
    var piles := TrialPiles(suitCount * faceCount, buffers, i + 1);
    assert piles[..i] == TrialPiles(suitCount * faceCount, buffers, i);
    HandWinsLast(piles, suitCount, faceCount);
  }

  /** The number of items of `xs` that satisfy `p`. */
  function Count<T(!new)>(xs: seq<T>, p: T --> bool): (n: nat)
    requires forall x :: p.requires(x)
    ensures n <= |xs|
  {
    if |xs| == 0 then 0
    else Count(xs[..|xs| - 1], p) + (if p(xs[|xs| - 1]) then 1 else 0)
  }

  /** The count is zero exactly when no item satisfies `p`, and the full
      length exactly when every item does. */
  lemma {:induction false} CountNoneOrAll<T(!new)>(xs: seq<T>, p: T --> bool)
    requires forall x :: p.requires(x)
    ensures Count(xs, p) == 0 <==> forall j :: 0 <= j < |xs| ==> !p(xs[j])
    ensures Count(xs, p) == |xs| <==> forall j :: 0 <= j < |xs| ==> p(xs[j])
  {
    if |xs| > 0 {
      var earlier := xs[..|xs| - 1];
      CountNoneOrAll(earlier, p);
      assert forall j :: 0 <= j < |earlier| ==> earlier[j] == xs[j];
    }
  }

  /** The tally of main.py over the shuffled decks of its trials. */
  function HandWins(decks: seq<seq<nat>>, suits: nat, faces: nat): (wins: nat)
    requires suits > 0 && faces > 0
    ensures wins <= |decks|
  {
    Count(decks, d requires suits > 0 && faces > 0 => HandGame.Won(d, suits, faces))
  }

  /** The tally is zero exactly when no trial is won, and equals the number
      of trials exactly when every trial is won. */
  lemma HandWinsNoneOrAll(decks: seq<seq<nat>>, suits: nat, faces: nat)
    requires suits > 0 && faces > 0
    ensures HandWins(decks, suits, faces) == 0 <==> forall j :: 0 <= j < |decks| ==> !HandGame.Won(decks[j], suits, faces)
    ensures HandWins(decks, suits, faces) == |decks| <==> forall j :: 0 <= j < |decks| ==> HandGame.Won(decks[j], suits, faces)
  {
    CountNoneOrAll(decks, d requires suits > 0 && faces > 0 => HandGame.Won(d, suits, faces));
  }

  /** The tally grows by one exactly for a won last trial. */
  lemma HandWinsLast(decks: seq<seq<nat>>, suits: nat, faces: nat)
    requires suits > 0 && faces > 0
    requires |decks| > 0
    ensures HandWins(decks, suits, faces)
         == HandWins(decks[..|decks| - 1], suits, faces) + if HandGame.Won(decks[|decks| - 1], suits, faces) then 1 else 0
  {
  }
}
