/** The players and the game that owns them. A player reads from the deck on
    its left and writes to the deck on its right; the game wires players and
    decks into a ring, deals the pack, and records the one winner. Threads,
    locks and the round barrier are not modelled: each operation below is
    the sequential effect of one call. */
module Game {
  import opened Cards
  import opened Decks
  import opened Hands
  import opened Dealing

  /** Why addCardToHand refuses a card. */
  datatype HandError =
    | NullCard   // IllegalArgumentException: no card given
    | HandFull   // IllegalStateException: the hand already holds four cards

  datatype Outcome = Pass | Fail(error: HandError)

  class Player {
    const id: int
    var hand: seq<Card>
    const deckLeft: Deck
    const deckRight: Deck
    const game: CardGame

    constructor (id: int, deckLeft: Deck, deckRight: Deck, game: CardGame)
      ensures this.id == id && this.deckLeft == deckLeft && this.deckRight == deckRight
      ensures this.game == game && hand == []
    {
      this.id := id;
      this.deckLeft := deckLeft;
      this.deckRight := deckRight;
      this.game := game;
      hand := [];
    }

    /** An order-preserving copy of the hand; nothing changes. */
    method GetHand() returns (snapshot: seq<Card>)
      ensures snapshot == hand
    {
      snapshot := hand;
    }

    /** Adds a card at the end of the hand unless there is no card or the
        hand already holds HandLimit cards; a refused card leaves the hand
        as it was. */
    method AddCardToHand(card: Card?) returns (outcome: Outcome)
      modifies this
      ensures card == null ==> outcome == Fail(NullCard)
      ensures card != null && |old(hand)| >= HandLimit ==> outcome == Fail(HandFull)
      ensures card != null && |old(hand)| < HandLimit ==> outcome == Pass
      ensures outcome == Pass ==> card != null && hand == old(hand) + [card]
      ensures outcome != Pass ==> hand == old(hand)
    {
      if card == null {
        return Fail(NullCard);
      }
      if |hand| < HandLimit {
        hand := hand + [card];
        outcome := Pass;
      } else {
        outcome := Fail(HandFull);
      }
    }

    /** Tallies the values of the hand in a map and reports whether some
        value reaches WinCount. */
    method HasWon() returns (won: bool)
      ensures won == Won(hand)
    {
      var counts: map<int, nat> := map[];
      var i := 0;
      while i < |hand|
        invariant 0 <= i <= |hand|
        invariant forall v :: v in counts ==> counts[v] == Count(hand[..i], v)
        invariant forall v :: v !in counts ==> Count(hand[..i], v) == 0
        invariant forall v :: Count(hand[..i], v) < WinCount
      {
        var value := hand[i].value;
        var c := (if value in counts then counts[value] else 0) + 1;
        counts := counts[value := c];
        forall v { CountStep(hand, i, v); }
        if c == WinCount {
          CountPrefix(hand, i + 1, value);
          return true;
        }
        i := i + 1;
      }
      assert hand[..i] == hand;
      return false;
    }

    /** The card chosen for discard: the first whose value is not the
        player's id, or the first card when every value is the id. */
    method FindCardToDiscard() returns (card: Card)
      requires |hand| > 0
      ensures card == hand[DiscardIndex(hand, id)]
    {
      var i := 0;
      while i < |hand|
        invariant 0 <= i <= |hand|
        invariant forall j :: 0 <= j < i ==> hand[j].value == id
      {
        if hand[i].value != id {
          DiscardChoice(hand, id, i);
          return hand[i];
        }
        i := i + 1;
      }
      DiscardChoice(hand, id, 0);
      return hand[0];
    }

    /** One turn. Nothing happens once the game has ended. Otherwise the head
        of the left deck joins the hand, the discard is chosen from the
        enlarged hand, removed from it, and put at the tail of the right
        deck. The source waits for the left deck to be non-empty; here the
        caller guarantees it. */
    method PlayTurn()
      requires !game.ended ==> |deckLeft.cards| > 0
      modifies this, deckLeft, deckRight
      ensures old(game.ended) ==>
        hand == old(hand) && deckLeft.cards == old(deckLeft.cards) && deckRight.cards == old(deckRight.cards)
      ensures !old(game.ended) ==>
        var t := Turn(old(hand), old(deckLeft.cards)[0], id);
        && hand == t.hand
        && (deckLeft != deckRight ==>
              deckLeft.cards == old(deckLeft.cards)[1..] && deckRight.cards == old(deckRight.cards) + [t.discard])
        && (deckLeft == deckRight ==> deckLeft.cards == old(deckLeft.cards)[1..] + [t.discard])
      ensures |hand| == |old(hand)|
      ensures deckLeft != deckRight ==>
        multiset(deckLeft.cards) + multiset(hand) + multiset(deckRight.cards)
          == old(multiset(deckLeft.cards) + multiset(hand) + multiset(deckRight.cards))
      ensures deckLeft == deckRight ==>
        multiset(deckLeft.cards) + multiset(hand) == old(multiset(deckLeft.cards) + multiset(hand))
    {
      if game.ended {
        return;
      }
      ghost var left := deckLeft.cards;
      ghost var t := Turn(hand, left[0], id);
      TurnShape(hand, left[0], id);
      ghost var right := deckRight.cards;
      TurnMoves(hand, left, id);
      var picked := deckLeft.RemoveCard();
      hand := hand + [picked];
      var discarded := FindCardToDiscard();
      assert discarded == t.discard;
      hand := RemoveFirst(hand, discarded);
      assert hand == t.hand;
      deckRight.AddCard(discarded);
      if deckLeft != deckRight {
        assert multiset(deckRight.cards) == multiset(right) + multiset{t.discard};
      } else {
        assert multiset(deckLeft.cards) == multiset(left[1..]) + multiset{t.discard};
      }
    }

    /** Claims victory: the first claim while the game is running makes this
        player the winner; a later claim changes nothing. */
    method HandleWin()
      modifies game`ended, game`winner
      ensures !old(game.ended) ==> game.ended && game.winner == this
      ensures old(game.ended) ==> game.ended && game.winner == old(game.winner)
    {
      if !game.ended {
        game.DeclareWinner(this);
      }
    }

    /** A player whose hand already wins claims victory at once. */
    method CheckImmediateWin() returns (won: bool)
      modifies game`ended, game`winner
      ensures won == Won(hand)
      ensures won && !old(game.ended) ==> game.ended && game.winner == this
      ensures !won || old(game.ended) ==> game.ended == old(game.ended) && game.winner == old(game.winner)
    {
      won := HasWon();
      if won {
        HandleWin();
      }
    }
  }

  class CardGame {
    var players: seq<Player>
    var decks: seq<Deck>
    var ended: bool
    var playersRemaining: int
    var winner: Player?

    /** A winner is recorded exactly when the game has ended. */
    ghost predicate WinnerRecorded()
      reads this
    {
      ended <==> winner != null
    }

    constructor ()
      ensures players == [] && decks == [] && playersRemaining == 0
      ensures !ended && winner == null && WinnerRecorded()
    {
      players := [];
      decks := [];
      ended := false;
      playersRemaining := 0;
      winner := null;
    }

    /** Sets up a game of n players: decks 1..n, players 1..n wired into a
        ring, the first 4n cards of the pack dealt round-robin into the
        hands, the rest dealt round-robin into the decks from the back of
        the pack. Returns what is left of the pack, which is nothing. */
    method InitializeGame(n: int, pack: seq<Card>) returns (rest: seq<Card>)
      requires n >= 1 && |pack| >= HandLimit * n
      requires players == [] && decks == []
      modifies this
      ensures |decks| == n && |players| == n
      ensures forall i :: 0 <= i < n ==> fresh(decks[i]) && decks[i].id == i + 1
      ensures forall i, j :: 0 <= i < j < n ==> decks[i] != decks[j]
      ensures forall j :: 0 <= j < n ==>
        && fresh(players[j])
        && players[j].id == j + 1
        && players[j].deckLeft == decks[j % n]
        && players[j].deckRight == decks[(j + 1) % n]
        && players[j].game == this
      ensures forall i, j :: 0 <= i < j < n ==> players[i] != players[j]
      ensures forall j :: 0 <= j < n ==> players[j].hand == Stride(pack[..HandLimit * n], n, j)
      ensures forall d :: 0 <= d < n ==> decks[d].cards == Stride(Reversed(pack[HandLimit * n..]), n, d)
      ensures rest == []
      ensures ended == old(ended) && winner == old(winner) && playersRemaining == old(playersRemaining)
    {
      CreateDecks(n);
      CreatePlayers(n);
      rest := DealCardsToPlayers(n, pack);
      if rest == [] {
        assert forall d :: 0 <= d < n ==> Stride(Reversed(rest), n, d) == [];
      }
      rest := DistributeCardsToDecks(n, rest);
    }

    /** The hands of the first n players, in seat order. */
    ghost function HandsOf(n: nat): (hs: seq<seq<Card>>)
      requires n <= |players|
      reads this, players
      ensures |hs| == n
    {
      seq(n, j requires 0 <= j < n && n <= |players| reads this, players => players[j].hand)
    }

    /** The contents of the first n decks, in deck order. */
    ghost function DecksOf(n: nat): (ds: seq<seq<Card>>)
      requires n <= |decks|
      reads this, decks
      ensures |ds| == n
    {
      seq(n, d requires 0 <= d < n && n <= |decks| reads this, decks => decks[d].cards)
    }

    /** In the state InitializeGame leaves behind, the hands and decks hold,
        together, exactly the cards of the pack: none lost, none duplicated. */
    lemma SetupHoldsPack(n: nat, pack: seq<Card>)
      requires n >= 1 && |pack| >= HandLimit * n && |players| == n && |decks| == n
      requires forall j :: 0 <= j < n ==> players[j].hand == Stride(pack[..HandLimit * n], n, j)
      requires forall d :: 0 <= d < n ==> decks[d].cards == Stride(Reversed(pack[HandLimit * n..]), n, d)
      ensures Pool(HandsOf(n)) + Pool(DecksOf(n)) == multiset(pack)
    {
      assert HandsOf(n) == Deal(pack[..HandLimit * n], n);
      assert DecksOf(n) == Deal(Reversed(pack[HandLimit * n..]), n);
      SetupConserves(pack, HandLimit * n, n);
    }

    /** Appends decks with ids 1..n. */
    method CreateDecks(n: int)
      modifies this`decks
      ensures |decks| == |old(decks)| + (if n > 0 then n else 0)
      ensures decks[..|old(decks)|] == old(decks)
      ensures forall k :: |old(decks)| <= k < |decks| ==>
        fresh(decks[k]) && decks[k].id == k - |old(decks)| + 1 && decks[k].cards == []
      ensures forall k, l :: |old(decks)| <= k < l < |decks| ==> decks[k] != decks[l]
    {
      var i := 1;
      while i <= n
        invariant 1 <= i <= (if n >= 1 then n + 1 else 1)
        invariant |decks| == |old(decks)| + i - 1
        invariant decks[..|old(decks)|] == old(decks)
        invariant forall k :: |old(decks)| <= k < |decks| ==>
          fresh(decks[k]) && decks[k].id == k - |old(decks)| + 1 && decks[k].cards == []
        invariant forall k, l :: |old(decks)| <= k < l < |decks| ==> decks[k] != decks[l]
      {
        var deck := new Deck(i);
        decks := decks + [deck];
        i := i + 1;
      }
    }

    /** Appends players with ids 1..n; player i reads deck (i - 1) % n and
        writes deck i % n of the deck list (ids i and i % n + 1). */
    method CreatePlayers(n: int)
      requires n >= 1 ==> n <= |decks|
      modifies this`players
      ensures |players| == |old(players)| + (if n > 0 then n else 0)
      ensures players[..|old(players)|] == old(players)
      ensures forall k :: |old(players)| <= k < |players| ==>
        var j := k - |old(players)|;
        && fresh(players[k]) && players[k].id == j + 1 && players[k].hand == [] && players[k].game == this
        && players[k].deckLeft == decks[j % n] && players[k].deckRight == decks[(j + 1) % n]
      ensures forall k, l :: |old(players)| <= k < l < |players| ==> players[k] != players[l]
    {
      var i := 1;
      while i <= n
        invariant 1 <= i <= (if n >= 1 then n + 1 else 1)
        invariant |players| == |old(players)| + i - 1
        invariant players[..|old(players)|] == old(players)
        invariant forall k :: |old(players)| <= k < |players| ==>
          var j := k - |old(players)|;
          && fresh(players[k]) && players[k].id == j + 1 && players[k].hand == [] && players[k].game == this
          && players[k].deckLeft == decks[j % n] && players[k].deckRight == decks[(j + 1) % n]
        invariant forall k, l :: |old(players)| <= k < l < |players| ==> players[k] != players[l]
      {
        var player := new Player(i, decks[(i - 1) % n], decks[i % n], this);
        players := players + [player];
        i := i + 1;
      }
    }

    /** Deals the first HandLimit * n cards of the pack, taking each from the
        front: card k goes to player k % n. Returns the rest of the pack. */
    method DealCardsToPlayers(n: int, pack: seq<Card>) returns (rest: seq<Card>)
      requires n >= 1 && |pack| >= HandLimit * n && n <= |players|
      requires forall j :: 0 <= j < n ==> players[j].hand == []
      requires forall i, j :: 0 <= i < j < n ==> players[i] != players[j]
      modifies set j | 0 <= j < n :: players[j]
      ensures rest == pack[HandLimit * n..]
      ensures forall j :: 0 <= j < n ==> players[j].hand == Stride(pack[..HandLimit * n], n, j)
      ensures forall d :: 0 <= d < |decks| ==> decks[d].cards == old(decks[d].cards)
    {
      ghost var dealt := pack[..HandLimit * n];
      rest := pack;
      var playerIndex := 0;
      var i := 0;
      while i < HandLimit * n
        invariant 0 <= i <= HandLimit * n
        invariant playerIndex == i % n
        invariant rest == pack[i..]
        invariant forall j :: 0 <= j < n ==> players[j].hand == Stride(dealt[..i], n, j)
      {
        var card := rest[0];
        rest := rest[1..];
        DealNext(dealt, i, n);
        HandBound(dealt, i, n);
        var outcome := players[playerIndex].AddCardToHand(card);
        assert outcome == Pass;
        ModNext(i, n);
        playerIndex := (playerIndex + 1) % n;
        i := i + 1;
      }
      assert dealt[..i] == dealt;
    }

    /** Moves every remaining card of the pack to the decks, taking each from
        the back: the k-th card taken goes to deck k % n. */
    method DistributeCardsToDecks(n: int, pack: seq<Card>) returns (rest: seq<Card>)
      requires |pack| > 0 ==> 1 <= n <= |decks|
      requires forall i, j :: 0 <= i < |decks| && 0 <= j < |decks| && i != j ==> decks[i] != decks[j]
      modifies set d | 0 <= d < |decks| && d < n :: decks[d]
      ensures rest == []
      ensures |pack| > 0 ==>
        forall d :: 0 <= d < n ==> decks[d].cards == old(decks[d].cards) + Stride(Reversed(pack), n, d)
      ensures |pack| == 0 ==> forall d :: 0 <= d < |decks| ==> decks[d].cards == old(decks[d].cards)
      ensures forall j :: 0 <= j < |players| ==> players[j].hand == old(players[j].hand)
    {
      rest := pack;
      var deckIndex := 0;
      ghost var taken := 0;
      ghost var order := Reversed(pack);
      while |rest| > 0
        invariant 0 <= taken <= |pack| && rest == pack[..|pack| - taken]
        invariant |pack| > 0 ==> deckIndex == taken % n
        invariant |pack| == 0 ==> forall d :: 0 <= d < |decks| ==> decks[d].cards == old(decks[d].cards)
        invariant |pack| > 0 ==>
          forall d :: 0 <= d < n ==> decks[d].cards == old(decks[d].cards) + Stride(order[..taken], n, d)
      {
        var card := rest[|rest| - 1];
        rest := rest[..|rest| - 1];
        assert card == order[taken];
        DealNext(order, taken, n);
        label before:
        decks[deckIndex].AddCard(card);
        forall d | 0 <= d < |decks| && d != deckIndex
          ensures decks[d].cards == old@before(decks[d].cards)
        {
          assert decks[d] != decks[deckIndex];
        }
        ModNext(taken, n);
        deckIndex := (deckIndex + 1) % n;
        taken := taken + 1;
      }
      assert order[..taken] == order;
    }

    method HasGameEnded() returns (hasEnded: bool)
      ensures hasEnded == ended
    {
      hasEnded := ended;
    }

    method GetWinner() returns (w: Player?)
      ensures w == winner
    {
      w := winner;
    }

    /** Records the winner. Only the first call has an effect: it ends the
        game and records the player; once ended, the game stays ended with
        the same winner. */
    method DeclareWinner(player: Player)
      modifies this`ended, this`winner
      ensures !old(ended) ==> ended && winner == player
      ensures old(ended) ==> ended && winner == old(winner)
      ensures old(WinnerRecorded()) ==> WinnerRecorded()
    {
      if !ended {
        ended := true;
        winner := player;
      }
    }

    /** A player's thread has finished: one fewer player remains. */
    method PlayerFinished()
      modifies this`playersRemaining
      ensures playersRemaining == old(playersRemaining) - 1
    {
      playersRemaining := playersRemaining - 1;
    }
  }
}
