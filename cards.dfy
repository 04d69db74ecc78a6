/** A playing card, an immutable integer rank with object identity, and the
    card counts a game is sized by. */
module Cards {

  /** The largest number of cards a hand may be given by addCardToHand, and
      the number of cards each player is dealt at setup. */
  const HandLimit := 4

  /** Every pack holds this many cards per player: one hand and one deck. */
  const CardsPerPlayer := 2 * HandLimit

  /** A card object. Equality is reference equality, as for a Java object
      without an equals override: two cards of the same value are two cards. */
  class Card {
    /** The card's value; fixed at construction and never written again. */
    const value: int

    /** Any int is accepted, negatives included. */
    constructor (value: int)
      ensures this.value == value
    {
      this.value := value;
    }
  }

  /** The values of a sequence of cards, in order. */
  function Values(cs: seq<Card>): (vs: seq<int>)
    ensures |vs| == |cs|
    ensures forall i :: 0 <= i < |cs| ==> vs[i] == cs[i].value
  {
    if cs == [] then [] else [cs[0].value] + Values(cs[1..])
  }
}
