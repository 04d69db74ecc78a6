/** What a player's hand means: counts of values, the four-of-a-kind test,
    the discard policy, removal of a card by reference, and one turn's effect
    on the hand. The Player class in module Game is proved against these. */
module Hands {
  import opened Cards

  /** How many cards of one value make a winning hand. */
  const WinCount := 4

  /** How many cards of `h` have value `v`. */
  function Count(h: seq<Card>, v: int): (k: nat)
  {
    if h == [] then 0
    else Count(h[..|h| - 1], v) + (if h[|h| - 1].value == v then 1 else 0)
  }

  /** A hand wins when some value occurs at least WinCount times in it. */
  predicate Won(h: seq<Card>)
  {
    exists i :: 0 <= i < |h| && Count(h, h[i].value) >= WinCount
  }

  lemma {:induction false} CountPrefix(h: seq<Card>, i: nat, v: int)
    requires i <= |h|
    ensures Count(h[..i], v) <= Count(h, v)
    decreases |h| - i
  {
    if i < |h| {
      CountPrefix(h, i + 1, v);
      assert h[..i + 1][..i] == h[..i];
    } else {
      assert h[..i] == h;
    }
  }

  lemma CountStep(h: seq<Card>, i: nat, v: int)
    requires i < |h|
    ensures Count(h[..i + 1], v) == Count(h[..i], v) + (if h[i].value == v then 1 else 0)
  {
    assert h[..i + 1][..i] == h[..i];
  }

  /** For a hand of exactly four cards, winning means all four values agree. */
  lemma FourOfAKind(h: seq<Card>)
    requires |h| == 4
    ensures Won(h) <==> (h[0].value == h[1].value == h[2].value == h[3].value)
  {
    forall v: int
      ensures Count(h, v) == (if h[0].value == v then 1 else 0) + (if h[1].value == v then 1 else 0)
                           + (if h[2].value == v then 1 else 0) + (if h[3].value == v then 1 else 0)
    {
      assert h[..0] == [];
      CountStep(h, 0, v);
      CountStep(h, 1, v);
      CountStep(h, 2, v);
      CountStep(h, 3, v);
      assert h[..4] == h;
    }
    if h[0].value == h[1].value == h[2].value == h[3].value {
      assert Count(h, h[0].value) == 4;
    }
  }

  /** The first index at or after `from` whose card value differs from `id`,
      or |h| when there is none. */
  function FirstOther(h: seq<Card>, id: int, from: nat): (k: nat)
    requires from <= |h|
    ensures from <= k <= |h|
    ensures forall j :: from <= j < k ==> h[j].value == id
    ensures k < |h| ==> h[k].value != id
    decreases |h| - from
  {
    if from == |h| then from
    else if h[from].value != id then from
    else FirstOther(h, id, from + 1)
  }

  /** The index of the card a player with this id discards: the first card
      whose value is not the id, or else the first card. */
  function DiscardIndex(h: seq<Card>, id: int): (k: nat)
    requires |h| > 0
    ensures k < |h|
    ensures forall j :: 0 <= j < k ==> h[j].value == id
    ensures h[k].value != id <==> exists j :: 0 <= j < |h| && h[j].value != id
    ensures h[k].value == id ==> k == 0
  {
    var k := FirstOther(h, id, 0);
    if k < |h| then k else 0
  }

  /** A hand whose values include one other than the id discards the first
      such card; a hand made only of the id discards its first card. */
  lemma DiscardChoice(h: seq<Card>, id: int, k: nat)
    requires k < |h|
    requires forall j :: 0 <= j < k ==> h[j].value == id
    requires h[k].value != id || (k == 0 && forall j :: 0 <= j < |h| ==> h[j].value == id)
    ensures DiscardIndex(h, id) == k
  {
  }

  /** Removal of the first occurrence of `c` by reference, as a Java list's
      remove(Object) does for a class without an equals override. */
  function RemoveFirst(h: seq<Card>, c: Card): (r: seq<Card>)
  {
    if h == [] then []
    else if h[0] == c then h[1..]
    else [h[0]] + RemoveFirst(h[1..], c)
  }

  /** Removal takes out one copy of a card that is held and leaves a hand
      without the card as it is. */
  lemma {:induction false} RemoveFirstRemoves(h: seq<Card>, c: Card)
    ensures c in h ==> |RemoveFirst(h, c)| == |h| - 1
    ensures c in h ==> multiset(RemoveFirst(h, c)) == multiset(h) - multiset{c}
    ensures c !in h ==> RemoveFirst(h, c) == h
  {
    if h != [] {
      assert h == [h[0]] + h[1..];
      if h[0] != c {
        RemoveFirstRemoves(h[1..], c);
      }
    }
  }

  lemma {:induction false} RemoveFirstAt(h: seq<Card>, k: nat)
    requires k < |h|
    requires forall j :: 0 <= j < k ==> h[j] != h[k]
    ensures RemoveFirst(h, h[k]) == h[..k] + h[k + 1..]
  {
    if k == 0 {
      assert h[..0] + h[1..] == h[1..];
    } else {
      var t := h[1..];
      forall j | 0 <= j < k - 1
        ensures t[j] != t[k - 1]
      {
        assert t[j] == h[j + 1] && t[k - 1] == h[k];
      }
      RemoveFirstAt(t, k - 1);
      calc {
        RemoveFirst(h, h[k]);
        { assert h[0] != h[k]; }
        [h[0]] + RemoveFirst(t, t[k - 1]);
        [h[0]] + (t[..k - 1] + t[k..]);
        { assert t[..k - 1] == h[1..k] && t[k..] == h[k + 1..]; }
        [h[0]] + (h[1..k] + h[k + 1..]);
        { assert [h[0]] + h[1..k] == h[..k]; }
        h[..k] + h[k + 1..];
      }
    }
  }

  /** Removing the chosen discard by reference removes exactly the card at
      DiscardIndex, even if the same card object appears twice in the hand. */
  lemma RemoveDiscard(h: seq<Card>, id: int)
    requires |h| > 0
    ensures RemoveFirst(h, h[DiscardIndex(h, id)]) == h[..DiscardIndex(h, id)] + h[DiscardIndex(h, id) + 1..]
  {
    var k := DiscardIndex(h, id);
    forall j | 0 <= j < k ensures h[j] != h[k] {
      assert h[j].value == id && h[k].value != id;
    }
    RemoveFirstAt(h, k);
  }

  /** The hand after a turn and the card passed on. */
  datatype TurnResult = TurnResult(hand: seq<Card>, discard: Card)

  /** One turn on the hand: the drawn card joins the hand at the end, the
      discard is chosen from the enlarged hand and removed from it. */
  function Turn(h: seq<Card>, drawn: Card, id: int): (t: TurnResult)
    ensures t.discard in h + [drawn]
    ensures multiset(t.hand) + multiset{t.discard} == multiset(h) + multiset{drawn}
  {
    var full := h + [drawn];
    var d := full[DiscardIndex(full, id)];
    RemoveFirstRemoves(full, d);
    TurnResult(RemoveFirst(full, d), d)
  }

  /** A turn keeps the hand size, and the new hand is the enlarged hand with
      the discard's position taken out, order otherwise kept. */
  lemma TurnShape(h: seq<Card>, drawn: Card, id: int)
    ensures |Turn(h, drawn, id).hand| == |h|
    ensures var full := h + [drawn]; var k := DiscardIndex(full, id);
            Turn(h, drawn, id) == TurnResult(full[..k] + full[k + 1..], full[k])
  {
    RemoveDiscard(h + [drawn], id);
  }

  /** A turn drawing the head of a deck moves cards and never creates or
      loses one: the rest of the deck, the new hand and the discard hold
      exactly the deck and the old hand. */
  lemma TurnMoves(h: seq<Card>, deck: seq<Card>, id: int)
    requires |deck| > 0
    ensures var t := Turn(h, deck[0], id);
            multiset(deck[1..]) + multiset(t.hand) + multiset{t.discard} == multiset(deck) + multiset(h)
  {
    var t := Turn(h, deck[0], id);
    assert multiset(t.hand) + multiset{t.discard} == multiset(h) + multiset{deck[0]};
    assert deck == [deck[0]] + deck[1..];
    assert multiset(deck) == multiset{deck[0]} + multiset(deck[1..]);
    calc {
      multiset(deck[1..]) + multiset(t.hand) + multiset{t.discard};
      multiset(deck[1..]) + (multiset(t.hand) + multiset{t.discard});
      multiset(deck[1..]) + (multiset(h) + multiset{deck[0]});
      multiset(deck) + multiset(h);
    }
  }

  /** The drawn card is itself discarded when every card already held has
      the player's id as value and the drawn one does not. */
  lemma DrawnMayBeDiscarded(h: seq<Card>, drawn: Card, id: int)
    requires forall j :: 0 <= j < |h| ==> h[j].value == id
    requires drawn.value != id
    ensures Turn(h, drawn, id).discard == drawn
    ensures Turn(h, drawn, id).hand == h
  {
    DiscardChoice(h + [drawn], id, |h|);
    TurnShape(h, drawn, id);
    assert (h + [drawn])[..|h|] == h;
  }

  /** Player 1 holding 1, 2, 3, 4 who draws a 5 passes on the 2 and keeps
      1, 3, 4, 5 in that order; no card of value 2 is left in the hand. */
  lemma PlayerOneExample(h: seq<Card>, drawn: Card)
    requires |h| == 4 && h[0].value == 1 && h[1].value == 2 && h[2].value == 3 && h[3].value == 4
    requires drawn.value == 5
    ensures Turn(h, drawn, 1) == TurnResult([h[0], h[2], h[3], drawn], h[1])
    ensures forall c :: c in Turn(h, drawn, 1).hand ==> c.value != 2
  {
    var full := h + [drawn];
    DiscardChoice(full, 1, 1);
    TurnShape(h, drawn, 1);
    assert full[..1] + full[2..] == [h[0], h[2], h[3], drawn];
    assert Turn(h, drawn, 1) == TurnResult([h[0], h[2], h[3], drawn], h[1]);
  }
}
