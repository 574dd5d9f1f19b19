/**
 One trial of the patience game as the loop inside `main` of main.c plays it.
 The dealt deck is read front to back through a cursor; the cards in hand live
 in a play array of `deck_size` slots, where the value `deck_size` marks an
 empty slot; the comparison window is the four slots starting at the play
 offset.

 The trial is shown to be the game of main.py played on the reversed deck: the
 C game deals `deck[0], deck[1], ...`, the Python game pops from the end of its
 list, and the filled front of the play array is the Python hand.
 */
module WindowGame {
  import opened Cards
  import HandGame

  /** The C trial state: the dealt deck, the cursor `deck_ptr - deck`, the
      play array, `play_offset` and `discard_count`. */
  datatype Table = Table(deck: seq<nat>, cursor: nat, play: seq<nat>, offset: nat, discardCount: nat)

  /** The well-formed tables, with `filled` cards in play:
      - the deck holds card codes, so no card equals the empty sentinel;
      - the play array has one slot per card of the deck;
      - the first `filled` slots hold cards and every later slot is empty;
      - the window is full (`filled == offset + 4`), or it sits at the front
        of the array and is not yet full;
      - every card is undealt, in play, or discarded. */
  predicate Packed(t: Table, filled: nat)
  {
    && CardCodes(t.deck)
    && |t.play| == |t.deck|
    && t.cursor <= |t.deck|
    && filled <= |t.play|
    && (forall k :: 0 <= k < filled ==> t.play[k] < |t.deck|)
    && (forall k :: filled <= k < |t.play| ==> t.play[k] == |t.deck|)
    && (filled == t.offset + 4 || (t.offset == 0 && filled < 4))
    && (|t.deck| - t.cursor) + filled + t.discardCount == |t.deck|
  }

  /** The undealt cards as main.py's pile: its last element is dealt next. */
  function Pile(t: Table): seq<nat>
    requires t.cursor <= |t.deck|
  {
    Reverse(t.deck[t.cursor..])
  }

  /** Dealing from the front of the deck is popping from the end of the pile. */
  lemma PileDeal(t: Table)
    requires t.cursor < |t.deck|
    ensures |Pile(t)| > 0
    ensures Pile(t)[..|Pile(t)| - 1] == Pile(t.(cursor := t.cursor + 1))
    ensures Pile(t)[|Pile(t)| - 1] == t.deck[t.cursor]
  {
    assert t.deck[t.cursor..][1..] == t.deck[t.cursor + 1..];
  }

  /** Writing a card into the first free slot appends it to the filled front. */
  lemma PlaceCard(play: seq<nat>, slot: nat, card: nat)
    requires slot < |play|
    ensures play[slot := card][..slot + 1] == play[..slot] + [card]
  {
  }

  /** The Python game state this table stands for. */
  function View(t: Table, filled: nat): HandGame.Game
    requires Packed(t, filled)
  {
    HandGame.Game(Pile(t), t.play[..filled], t.discardCount)
  }

  /** The first table of a trial: cursor at the top of the deck, every slot
      of the play area reset to empty, offset and discard count zero. */
  function Fresh(deck: seq<nat>): (t: Table)
    requires CardCodes(deck)
    ensures Packed(t, 0)
    ensures View(t, 0) == HandGame.Game(Reverse(deck), [], 0)
  {
    assert deck[0..] == deck;
    Table(deck, 0, seq(|deck|, _ => |deck|), 0, 0)
  }

  /** `play_array[slot] = *(deck_ptr++)` for the first empty slot of a window
      that is not yet full: the Python `hand.append(deck.pop())` of the refill loop. */
  function DealIntoWindow(t: Table, slot: nat): (r: Table)
    requires Packed(t, slot) && slot < t.offset + 4 && t.cursor < |t.deck|
    ensures Packed(r, slot + 1)
  {
    t.(play := t.play[slot := t.deck[t.cursor]], cursor := t.cursor + 1)
  }

  /** A deal into the window is main.py's `hand.append(deck.pop())`. */
  lemma DealIntoDraws(t: Table, slot: nat)
    requires Packed(t, slot) && slot < t.offset + 4 && t.cursor < |t.deck|
    ensures View(DealIntoWindow(t, slot), slot + 1) == HandGame.Draw(View(t, slot))
  {
    PileDeal(t);
    PlaceCard(t.play, slot, t.deck[t.cursor]);
  }

  /** Suit collapse: slot `+1` takes the card of slot `+3`, slots `+2` and
      `+3` are emptied, two cards are discarded and the window steps back two
      slots, stopping at the front. It removes the same two cards as the
      Python `hand.pop(-3); hand.pop(-2)`. */
  function SuitCollapse(t: Table): (r: Table)
    requires Packed(t, t.offset + 4)
    ensures Packed(r, t.offset + 2)
  {
    var o := t.offset;
    var empty := |t.deck|;
    var p := t.play[o + 1 := t.play[o + 3]][o + 2 := empty][o + 3 := empty];
    SuitCollapseKeepsPacked(t);
    t.(play := p, discardCount := t.discardCount + 2, offset := if o > 2 then o - 2 else 0)
  }

  /** After a suit collapse the filled front of the play array is main.py's
      hand after `hand.pop(-3); hand.pop(-2)`, and two more cards are discarded. */
  lemma SuitCollapseDiscards(t: Table)
    requires Packed(t, t.offset + 4)
    ensures View(SuitCollapse(t), t.offset + 2)
         == HandGame.Game(Pile(t), HandGame.CollapseSuit(t.play[..t.offset + 4]), t.discardCount + 2)
  {
    SuitCollapseKeepsHand(t.play, t.offset, |t.deck|);
  }

  /** The slot writes of a suit collapse keep the table packed, two cards
      fewer in play. */
  lemma SuitCollapseKeepsPacked(t: Table)
    requires Packed(t, t.offset + 4)
    ensures var o := t.offset;
      var p := t.play[o + 1 := t.play[o + 3]][o + 2 := |t.deck|][o + 3 := |t.deck|];
      Packed(t.(play := p, discardCount := t.discardCount + 2, offset := if o > 2 then o - 2 else 0), o + 2)
  {
  }

  /** The filled front after the slot writes of a suit collapse is the hand
      with its third- and second-to-last cards removed. */
  lemma SuitCollapseKeepsHand(play: seq<nat>, o: nat, empty: nat)
    requires o + 4 <= |play|
    ensures play[o + 1 := play[o + 3]][o + 2 := empty][o + 3 := empty][..o + 2]
         == HandGame.CollapseSuit(play[..o + 4])
  {
    var p := play[o + 1 := play[o + 3]][o + 2 := empty][o + 3 := empty];
    var hand := play[..o + 4];
    var kept := HandGame.CollapseSuit(hand);
    assert forall k :: 0 <= k < o + 1 ==> kept[k] == kept[..o + 1][k] == hand[k];
  }

  /** The slots a suit collapse writes: the card of slot `+3` moves to slot
      `+1`, slots `+2` and `+3` become empty, every other slot keeps its card,
      and the offset moves back by two without going below zero. */
  lemma SuitCollapseSlots(t: Table)
    requires Packed(t, t.offset + 4)
    ensures SuitCollapse(t).play[t.offset + 1] == t.play[t.offset + 3]
    ensures SuitCollapse(t).play[t.offset + 2] == |t.deck| && SuitCollapse(t).play[t.offset + 3] == |t.deck|
    ensures forall k :: 0 <= k < |t.play| && !(t.offset < k < t.offset + 4) ==> SuitCollapse(t).play[k] == t.play[k]
    ensures SuitCollapse(t).offset == (if t.offset >= 2 then t.offset - 2 else 0)
  {
  }

  /** Face collapse: the four window slots are emptied, four cards are
      discarded and the window steps back four slots, stopping at the front.
      It removes the same cards as the Python `hand.pop()` four times. */
  function FaceCollapse(t: Table): (r: Table)
    requires Packed(t, t.offset + 4)
    ensures Packed(r, t.offset)
  {
    var o := t.offset;
    var empty := |t.deck|;
    var p := t.play[o := empty][o + 1 := empty][o + 2 := empty][o + 3 := empty];
    t.(play := p, discardCount := t.discardCount + 4, offset := if o > 4 then o - 4 else 0)
  }

  /** After a face collapse the filled front of the play array is main.py's
      hand after four `hand.pop()`, and four more cards are discarded. */
  lemma FaceCollapseDiscards(t: Table)
    requires Packed(t, t.offset + 4)
    ensures View(FaceCollapse(t), t.offset)
         == HandGame.Game(Pile(t), HandGame.CollapseFace(t.play[..t.offset + 4]), t.discardCount + 4)
  {
    assert FaceCollapse(t).play[..t.offset] == HandGame.CollapseFace(t.play[..t.offset + 4]);
  }

  /** The slots a face collapse writes: exactly the four window slots become
      empty, and the offset moves back by four without going below zero. */
  lemma FaceCollapseSlots(t: Table)
    requires Packed(t, t.offset + 4)
    ensures forall k :: t.offset <= k < t.offset + 4 ==> FaceCollapse(t).play[k] == |t.deck|
    ensures forall k :: 0 <= k < |t.play| && !(t.offset <= k < t.offset + 4) ==> FaceCollapse(t).play[k] == t.play[k]
    ensures FaceCollapse(t).offset == (if t.offset >= 4 then t.offset - 4 else 0)
  {
  }

  /** No match with cards left: the next card goes into slot `+4` just past
      the window and the window moves one slot on; nothing is discarded. */
  function DealBeyondWindow(t: Table): (r: Table)
    requires Packed(t, t.offset + 4) && t.cursor < |t.deck|
    ensures Packed(r, t.offset + 5)
  {
    t.(play := t.play[t.offset + 4 := t.deck[t.cursor]], cursor := t.cursor + 1, offset := t.offset + 1)
  }

  /** The deal past the window is main.py's `hand.append(deck.pop())`: the
      card leaves the pile and lands at the end of the hand. */
  lemma DealBeyondDraws(t: Table)
    requires Packed(t, t.offset + 4) && t.cursor < |t.deck|
    ensures View(DealBeyondWindow(t), t.offset + 5) == HandGame.Draw(View(t, t.offset + 4))
  {
    PileDeal(t);
    PlaceCard(t.play, t.offset + 4, t.deck[t.cursor]);
  }

  /** One turn of main.c's deal loop on window slot `slot`: an empty slot
      takes the next card of the deck, a filled one is left alone. Either way
      main.py's refill from the resulting state is the same. */
  method DealSlot(t: Table, ghost filled: nat, slot: nat) returns (r: Table, ghost rFilled: nat)
    requires Packed(t, filled) && t.cursor < |t.deck|
    requires t.offset <= slot < t.offset + 4 && slot <= filled
    ensures Packed(r, rFilled)
    ensures r.deck == t.deck && r.offset == t.offset && r.discardCount == t.discardCount
    ensures slot < rFilled
    ensures r.cursor == t.cursor || (r.cursor == t.cursor + 1 && rFilled == slot + 1)
    ensures HandGame.Refill(View(r, rFilled)) == HandGame.Refill(View(t, filled))
  {
    if t.play[slot] == |t.deck| {
      r := DealIntoWindow(t, slot);
      rFilled := slot + 1;
      DealIntoDraws(t, slot);
      HandGame.RefillDraws(View(t, filled));
    } else {
      r, rFilled := t, filled;
    }
  }

  /** The deal loop of main.c: every empty slot of the window, in order,
      receives the next card of the deck; when the deck runs out before the
      fourth slot the trial jumps back to its STOP check. This is main.py's
      refill loop: the same cards reach the hand in the same order. */
  method DealWindow(t: Table, ghost filled: nat) returns (r: Table, ghost rFilled: nat, exhausted: bool)
    requires Packed(t, filled) && t.cursor < |t.deck|
    ensures Packed(r, rFilled)
    ensures r.deck == t.deck && r.offset == t.offset && r.discardCount == t.discardCount
    ensures r.cursor >= t.cursor
    ensures View(r, rFilled) == HandGame.Refill(View(t, filled))
    ensures exhausted <==> r.cursor == |r.deck| && rFilled < 4
    ensures !exhausted ==> rFilled == r.offset + 4
  {
    var deckSize := |t.deck|;
    r, rFilled := t, filled;
    var i := 0;
    exhausted := false;
    while i < 4 && !exhausted
      invariant 0 <= i <= 4
      invariant Packed(r, rFilled)
      invariant r.deck == t.deck && r.offset == t.offset && r.discardCount == t.discardCount
      invariant r.cursor >= t.cursor
      invariant HandGame.Refill(View(r, rFilled)) == HandGame.Refill(View(t, filled))
      invariant exhausted ==> r.cursor == deckSize && rFilled < 4
      invariant !exhausted && i < 4 ==> r.cursor < deckSize
      invariant !exhausted ==> r.offset + i <= rFilled
    {
      r, rFilled := DealSlot(r, rFilled, r.offset + i);
      if r.cursor == deckSize && i != 3 {
        exhausted := true;  // goto STOP
      }
      i := i + 1;
    }
  }

  /** On a full window the compared cards of main.py's hand, `hand[-1]` and
      `hand[-4]`, are the cards main.c compares, in slots `+3` and `+0`. */
  lemma WindowEnds(t: Table)
    requires Packed(t, t.offset + 4)
    ensures var h := View(t, t.offset + 4).hand;
      h[|h| - 1] == t.play[t.offset + 3] && h[|h| - 4] == t.play[t.offset]
  {
  }

  /** Same suit: main.c's suit collapse is main.py's comparison on the hand. */
  lemma SuitMatchAgrees(t: Table, suits: nat, faces: nat)
    requires Packed(t, t.offset + 4)
    requires suits > 0 && faces > 0
    requires Suit(t.play[t.offset], suits) == Suit(t.play[t.offset + 3], suits)
    ensures HandGame.Compare(View(t, t.offset + 4), suits, faces)
         == HandGame.Continue(View(SuitCollapse(t), t.offset + 2))
  {
    WindowEnds(t);
    SuitCollapseDiscards(t);
  }

  /** Different suit, same face: main.c's face collapse is main.py's
      comparison on the hand. */
  lemma FaceMatchAgrees(t: Table, suits: nat, faces: nat)
    requires Packed(t, t.offset + 4)
    requires suits > 0 && faces > 0
    requires Suit(t.play[t.offset], suits) != Suit(t.play[t.offset + 3], suits)
    requires Face(t.play[t.offset], faces) == Face(t.play[t.offset + 3], faces)
    ensures HandGame.Compare(View(t, t.offset + 4), suits, faces)
         == HandGame.Continue(View(FaceCollapse(t), t.offset))
  {
    WindowEnds(t);
    FaceCollapseDiscards(t);
  }

  /** No match and no card left: main.c breaks out of its loop where
      main.py's loop stops, in the same state. */
  lemma NoMatchStops(t: Table, suits: nat, faces: nat)
    requires Packed(t, t.offset + 4)
    requires suits > 0 && faces > 0
    requires Suit(t.play[t.offset], suits) != Suit(t.play[t.offset + 3], suits)
    requires Face(t.play[t.offset], faces) != Face(t.play[t.offset + 3], faces)
    requires t.cursor == |t.deck|
    ensures HandGame.Compare(View(t, t.offset + 4), suits, faces) == HandGame.Stop(View(t, t.offset + 4))
  {
    WindowEnds(t);
  }

  /** No match with cards left: main.c's deal past the window is main.py's
      `hand.append(deck.pop())`. */
  lemma NoMatchDeals(t: Table, suits: nat, faces: nat)
    requires Packed(t, t.offset + 4)
    requires suits > 0 && faces > 0
    requires Suit(t.play[t.offset], suits) != Suit(t.play[t.offset + 3], suits)
    requires Face(t.play[t.offset], faces) != Face(t.play[t.offset + 3], faces)
    requires t.cursor < |t.deck|
    ensures HandGame.Compare(View(t, t.offset + 4), suits, faces)
         == HandGame.Continue(View(DealBeyondWindow(t), t.offset + 5))
  {
    WindowEnds(t);
    DealBeyondDraws(t);
  }

  /** The comparison of main.c on a full window (main.c's same-suit,
      same-face and deal branches): a suit collapse, a face collapse, one more
      card, or `stop` when there is no card to deal. It plays main.py's
      comparison on the hand, and either deals or discards unless it stops. */
  method Resolve(t: Table, suitCount: nat, faceCount: nat)
    returns (r: Table, ghost rFilled: nat, stop: bool, ghost round: HandGame.Round)
    requires Packed(t, t.offset + 4)
    requires suitCount > 0 && faceCount > 0
    ensures Packed(r, rFilled) && r.deck == t.deck
    ensures round == HandGame.Compare(View(t, t.offset + 4), suitCount, faceCount)
    ensures View(r, rFilled) == round.After() && (stop <==> round.Stop?)
    ensures stop ==> r.cursor == |r.deck|
    ensures r.cursor >= t.cursor && r.discardCount >= t.discardCount
    ensures stop || r.cursor > t.cursor || r.discardCount > t.discardCount
  {
    var deckSize := |t.deck|;
    var o := t.offset;
    stop := false;
    if Suit(t.play[o], suitCount) == Suit(t.play[o + 3], suitCount) {
      r := SuitCollapse(t);
      rFilled := o + 2;
      SuitMatchAgrees(t, suitCount, faceCount);
      round := HandGame.Continue(View(r, rFilled));
    } else if Face(t.play[o], faceCount) == Face(t.play[o + 3], faceCount) {
      r := FaceCollapse(t);
      rFilled := o;
      FaceMatchAgrees(t, suitCount, faceCount);
      round := HandGame.Continue(View(r, rFilled));
    } else {
      r, rFilled, stop, round := DealOrStop(t, suitCount, faceCount);
    }
  }

  /** main.c's last branch, when the compared cards match in neither suit
      nor face: deal the next card past the window, or `break` when the deck
      is exhausted. */
  method DealOrStop(t: Table, suitCount: nat, faceCount: nat)
    returns (r: Table, ghost rFilled: nat, stop: bool, ghost round: HandGame.Round)
    requires Packed(t, t.offset + 4)
    requires suitCount > 0 && faceCount > 0
    requires Suit(t.play[t.offset], suitCount) != Suit(t.play[t.offset + 3], suitCount)
    requires Face(t.play[t.offset], faceCount) != Face(t.play[t.offset + 3], faceCount)
    ensures Packed(r, rFilled) && r.deck == t.deck
    ensures round == HandGame.Compare(View(t, t.offset + 4), suitCount, faceCount)
    ensures View(r, rFilled) == round.After() && (stop <==> round.Stop?)
    ensures stop ==> r.cursor == |r.deck| && r == t
    ensures !stop ==> r.cursor == t.cursor + 1 && r.discardCount == t.discardCount
  {
    if t.cursor == |t.deck| {
      r, rFilled := t, t.offset + 4;
      stop := true;  // break
      NoMatchStops(t, suitCount, faceCount);
      round := HandGame.Stop(View(r, rFilled));
    } else {
      r := DealBeyondWindow(t);
      rFilled := t.offset + 5;
      stop := false;
      NoMatchDeals(t, suitCount, faceCount);
      round := HandGame.Continue(View(r, rFilled));
    }
  }

  /** The comparison on a window filled by the deal loop from the game `g`:
      main.py's game from `g` and from the state it leaves have the same
      outcome. */
  method ResolveRefilled(t: Table, ghost g: HandGame.Game, suitCount: nat, faceCount: nat)
    returns (r: Table, ghost rFilled: nat, stop: bool)
    requires Packed(t, t.offset + 4)
    requires suitCount > 0 && faceCount > 0
    requires |g.deck| > 0 && HandGame.Refill(g) == View(t, t.offset + 4)
    ensures Packed(r, rFilled) && r.deck == t.deck
    ensures HandGame.Play(View(r, rFilled), suitCount, faceCount) == HandGame.Play(g, suitCount, faceCount)
    ensures stop ==> r.cursor == |r.deck|
    ensures r.cursor >= t.cursor && r.discardCount >= t.discardCount
    ensures stop || r.cursor > t.cursor || r.discardCount > t.discardCount
  {
    ghost var round;
    r, rFilled, stop, round := Resolve(t, suitCount, faceCount);
    HandGame.PlayTurn(g, suitCount, faceCount);
  }

  /** One pass of the `while(1)` loop of main.c after its STOP check: deal
      into the window, then resolve the comparison. When the deal loop runs
      out of cards the pass returns to the STOP check, which ends the trial.
      Every pass either deals or discards, and the rest of the game, read as
      main.py's game, is unchanged by it. */
  method Turn(t: Table, ghost filled: nat, suitCount: nat, faceCount: nat)
    returns (r: Table, ghost rFilled: nat, stop: bool)
    requires Packed(t, filled) && t.cursor < |t.deck|
    requires suitCount > 0 && faceCount > 0
    ensures Packed(r, rFilled) && r.deck == t.deck
    ensures HandGame.Play(View(r, rFilled), suitCount, faceCount) == HandGame.Play(View(t, filled), suitCount, faceCount)
    ensures stop ==> r.cursor == |r.deck|
    ensures r.cursor >= t.cursor && r.discardCount >= t.discardCount
    ensures r.cursor > t.cursor || r.discardCount > t.discardCount
  {
    var dealt, exhausted;
    ghost var dealtFilled;
    ghost var g := View(t, filled);
    dealt, dealtFilled, exhausted := DealWindow(t, filled);
    if exhausted {
      r, rFilled, stop := dealt, dealtFilled, false;  // goto STOP
      assert View(r, rFilled) == HandGame.Refill(g);
      HandGame.PlayShortRefill(g, suitCount, faceCount);
      assert r.cursor > t.cursor;
    } else {
      r, rFilled, stop := ResolveRefilled(dealt, g, suitCount, faceCount);
    }
  }

  /** One trial of main.c: from a fresh table, passes of the loop until the
      STOP check or the no-match branch finds the deck exhausted. Returns
      `discard_count` and the final play array. Both agree with main.py's game
      on the reversed deck: the same discard count, and the filled front of
      the play array is the Python hand, every later slot being empty. */
  method PlayTrial(deck: seq<nat>, suitCount: nat, faceCount: nat) returns (discardCount: nat, play: seq<nat>)
    requires suitCount > 0 && faceCount > 0
    requires CardCodes(deck)
    ensures discardCount == HandGame.Trial(Reverse(deck), suitCount, faceCount).discardCount
    ensures |play| == |deck|
    ensures |HandGame.Trial(Reverse(deck), suitCount, faceCount).hand| <= |play|
    ensures play[..|HandGame.Trial(Reverse(deck), suitCount, faceCount).hand|]
         == HandGame.Trial(Reverse(deck), suitCount, faceCount).hand
    ensures forall k :: |HandGame.Trial(Reverse(deck), suitCount, faceCount).hand| <= k < |play| ==> play[k] == |deck|
  {
    var deckSize := |deck|;
    var t := Fresh(deck);
    ghost var filled: nat := 0;
    ghost var goal := HandGame.Trial(Reverse(deck), suitCount, faceCount);
    while true
      invariant Packed(t, filled) && t.deck == deck
      invariant HandGame.Play(View(t, filled), suitCount, faceCount) == goal
      decreases (deckSize - t.cursor) + (deckSize - t.discardCount)
    {
      // STOP:
      if t.cursor == deckSize {
        break;
      }
      var stop;
      t, filled, stop := Turn(t, filled, suitCount, faceCount);
      if stop {
        break;
      }
    }
    FinishedTable(t, filled, goal, suitCount, faceCount);
    discardCount := t.discardCount;
    play := t.play;
  }

  /** Once the deck is exhausted main.py's game is over: the outcome it
      reaches is the table read as a game, its hand the filled front of the
      play array. */
  lemma FinishedTable(t: Table, filled: nat, goal: HandGame.Game, suitCount: nat, faceCount: nat)
    requires suitCount > 0 && faceCount > 0
    requires Packed(t, filled) && t.cursor == |t.deck|
    requires HandGame.Play(View(t, filled), suitCount, faceCount) == goal
    ensures goal.discardCount == t.discardCount
    ensures |goal.hand| == filled && t.play[..filled] == goal.hand
    ensures forall k :: filled <= k < |t.play| ==> t.play[k] == |t.deck|
  {
    assert |View(t, filled).deck| == 0;
  }
}
