/** A deck: an unbounded first-in first-out queue of cards with an id. */
module Decks {
  import opened Cards

  class Deck {
    /** The deck's id, as given at construction (not checked for sign). */
    const id: int
    /** The queue, head first. */
    var cards: seq<Card>

    constructor (id: int)
      ensures this.id == id && cards == []
    {
      this.id := id;
      cards := [];
    }

    /** Appends a card at the tail. */
    method AddCard(card: Card)
      modifies this
      ensures cards == old(cards) + [card]
    {
      cards := cards + [card];
    }

    /** Removes and returns the head. The source blocks until the deck is
        non-empty; here the caller must guarantee that it already is. */
    method RemoveCard() returns (card: Card)
      requires |cards| > 0
      modifies this
      ensures card == old(cards)[0] && cards == old(cards)[1..]
    {
      card := cards[0];
      cards := cards[1..];
    }

    /** An order-preserving copy of the contents; the deck is not changed. */
    method GetCards() returns (snapshot: seq<Card>)
      ensures snapshot == cards
    {
      snapshot := cards;
    }
  }

  /** Adding cards one by one and then draining the deck returns its old
      contents followed by the added cards in insertion order: the queue is
      first-in first-out. */
  method PassThrough(deck: Deck, incoming: seq<Card>) returns (outgoing: seq<Card>)
    modifies deck
    ensures outgoing == old(deck.cards) + incoming
    ensures deck.cards == []
  {
    var i := 0;
    while i < |incoming|
      invariant 0 <= i <= |incoming|
      invariant deck.cards == old(deck.cards) + incoming[..i]
    {
      deck.AddCard(incoming[i]);
      assert incoming[..i + 1] == incoming[..i] + [incoming[i]];
      i := i + 1;
    }
    assert incoming[..i] == incoming;
    outgoing := [];
    ghost var all := deck.cards;
    while |deck.cards| > 0
      invariant outgoing + deck.cards == all
      decreases |deck.cards|
    {
      var c := deck.RemoveCard();
      outgoing := outgoing + [c];
    }
  }
}
