/**
 Shared vocabulary of the patience estimator: the 32-bit unsigned integers the
 C program computes with, card codes, the freshly ordered deck and sequence
 reversal (the Python game deals from the end of its list, the C game from the
 front of its array).
 */
module Cards {

  /** One past the largest `uint32_t` value. */
  const U32_LIMIT: nat := 0x1_0000_0000

  /** A C `uint32_t`; the entropy buffer holds values of this type. */
  type U32 = x: nat | x < U32_LIMIT

  /** The suit of a card code: its remainder modulo the suit count. */
  function Suit(card: nat, suitCount: nat): nat
    requires suitCount > 0
  {
    card % suitCount
  }

  /** The face of a card code: its remainder modulo the face count. */
  function Face(card: nat, faceCount: nat): nat
    requires faceCount > 0
  {
    card % faceCount
  }

  /** True when every entry of `deck` is a card code below the deck size, so
      none of them can be mistaken for the empty-slot sentinel. */
  predicate CardCodes(deck: seq<nat>)
  {
    forall k :: 0 <= k < |deck| ==> deck[k] < |deck|
  }

  /** The deck in its initial order `0, 1, ..., n-1`. */
  function Identity(n: nat): (r: seq<nat>)
    ensures |r| == n
    ensures forall i :: 0 <= i < n ==> r[i] == i
  {
    seq(n, i => i)
  }

  /** Every permutation of the initial deck consists of card codes only. */
  lemma PermutationOfIdentityHoldsCards(deck: seq<nat>)
    requires multiset(deck) == multiset(Identity(|deck|))
    ensures CardCodes(deck)
  {
    var id := Identity(|deck|);
    forall k | 0 <= k < |deck|
      ensures deck[k] < |deck|
    {
      assert deck[k] in multiset(deck);
      assert deck[k] in multiset(id);
      var j :| 0 <= j < |id| && id[j] == deck[k];
    }
  }

  /** `s` read back to front. */
  function Reverse(s: seq<nat>): (r: seq<nat>)
    ensures |r| == |s|
    ensures forall k :: 0 <= k < |s| ==> r[k] == s[|s| - 1 - k]
  {
    if |s| == 0 then [] else Reverse(s[1..]) + [s[0]]
  }

  /** Reversal moves the first item to the back. */
  lemma ReverseFront(s: seq<nat>)
    requires |s| > 0
    ensures Reverse(s) == Reverse(s[1..]) + [s[0]]
  {
  }

  lemma {:induction false} ReverseMultiset(s: seq<nat>)
    ensures multiset(Reverse(s)) == multiset(s)
  {
    if |s| > 0 {
      ReverseMultiset(s[1..]);
      assert s == [s[0]] + s[1..];
    }
  }
}
