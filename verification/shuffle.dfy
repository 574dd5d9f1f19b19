/**
 The Fisher-Yates shuffle of `shuffle_in_place` (main.c). The bytes the C
 function reads from `/dev/urandom` are a parameter here: `randomArray` holds
 one arbitrary 32-bit value per deck position, and with it fixed the shuffle is
 a deterministic rearrangement of the deck.
 */
module FisherYates {
  import opened Cards

  /** One turn of the swap loop: reduce the random value modulo the length of
      the not-yet-settled front part `[0, |deck| - i)` and exchange the card
      there with the last card of that part. */
  function Step(deck: seq<nat>, randomArray: seq<U32>, i: nat): (r: seq<nat>)
    requires i < |deck| == |randomArray|
    ensures |r| == |deck|
  {
    var scratchRange := |deck| - i;
    var randomIndex := randomArray[i] % scratchRange;
    var endIdx := scratchRange - 1;
    var endElement := deck[endIdx];
    deck[endIdx := deck[randomIndex]][randomIndex := endElement]
  }

  /** The deck after the first `steps` turns of the swap loop. */
  function Steps(deck: seq<nat>, randomArray: seq<U32>, steps: nat): (r: seq<nat>)
    requires steps <= |deck| == |randomArray|
    ensures |r| == |deck|
    decreases steps
  {
    if steps == 0 then deck
    else Step(Steps(deck, randomArray, steps - 1), randomArray, steps - 1)
  }

  /** The shuffled deck: all `|deck|` turns done. */
  function Shuffle(deck: seq<nat>, randomArray: seq<U32>): (r: seq<nat>)
    requires |deck| == |randomArray|
    ensures |r| == |deck|
  {
    Steps(deck, randomArray, |deck|)
  }

  /** Once turn `i` has placed a card at position `|deck| - 1 - i`, no later
      turn touches it: position `k` of the settled tail `[|deck| - i, |deck|)`
      keeps after `j` turns the card it held after `i`. */
  lemma {:induction false} SettledTailIsFinal(deck: seq<nat>, randomArray: seq<U32>, i: nat, j: nat, k: nat)
    requires i <= j <= |deck| == |randomArray|
    requires |deck| - i <= k < |deck|
    ensures Steps(deck, randomArray, j)[k] == Steps(deck, randomArray, i)[k]
    decreases j
  {
    if j > i {
      SettledTailIsFinal(deck, randomArray, i, j - 1, k);
    }
  }

  /** Position `|deck| - 1 - i` of the shuffled deck holds the card turn `i`
      drew from the unsettled part `[0, |deck| - i)`. */
  lemma ShuffledPositionIsDrawn(deck: seq<nat>, randomArray: seq<U32>, i: nat)
    requires i < |deck| == |randomArray|
    ensures Shuffle(deck, randomArray)[|deck| - 1 - i]
         == Steps(deck, randomArray, i)[randomArray[i] % (|deck| - i)]
  {
    SettledTailIsFinal(deck, randomArray, i + 1, |deck|, |deck| - 1 - i);
  }

  /** The shuffle of `shuffle_in_place`, as the loop of main.c runs it: the
      deck it leaves is `Shuffle`, and it holds the same cards. */
  method ShuffleInPlace(deck: seq<nat>, randomArray: seq<U32>) returns (shuffled: seq<nat>)
    requires |deck| == |randomArray|
    requires |deck| < U32_LIMIT
    ensures shuffled == Shuffle(deck, randomArray)
    ensures multiset(shuffled) == multiset(deck)
  {
    shuffled := deck;
    var i: nat := 0;
    while i < |deck|
      invariant i <= |deck|
      invariant shuffled == Steps(deck, randomArray, i)
      invariant multiset(shuffled) == multiset(deck)
    {
      var scratchRange := |deck| - i;
      var randomIndex := randomArray[i] % scratchRange;
      var endIdx := scratchRange - 1;
      var endElement := shuffled[endIdx];
      shuffled := shuffled[endIdx := shuffled[randomIndex]];
      shuffled := shuffled[randomIndex := endElement];
      i := i + 1;
    }
  }
}
