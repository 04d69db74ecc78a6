# Card game core, modelled in Dafny

The system is a card game for n players sitting in a ring, with n decks
between them. Each player holds up to four cards. Player i takes cards
from deck i on the left and puts cards on deck i % n + 1 on the right.
A player wins with four cards of one value. Each turn, a player draws the
head of the left deck and then discards a card to the tail of the right
deck. The discard is the first card whose value is not the player's own
id, or the first card if every card has that value. At setup the first
4n cards of the pack are dealt one at a time, round-robin, into the
hands. The remaining cards are taken from the back of the pack and dealt
round-robin into the decks. A pack file is accepted when every line is
blank or a non-negative integer and there are exactly 8n values.

This model covers the sequential effect of each operation. Threads,
locks, the round barrier and file output are outside it.

Modules, each in one file:

- `Cards` (`cards.dfy`): the `Card` class. It has an immutable `value`,
  and its identity is the object reference. The module also holds the two
  sizes the game is built on: `HandLimit` (4 cards in a hand) and
  `CardsPerPlayer` (8 cards in the pack per player).
- `Decks` (`decks.dfy`): the `Deck` class. It is a FIFO queue held as a
  `seq<Card>`, with its id.
- `Hands` (`hands.dfy`): pure functions that specify a player's hand:
  - `Count` and `Won`, the four-of-a-kind test;
  - `DiscardIndex`, the discard policy;
  - `RemoveFirst`, Java's `List.remove(Object)` on cards compared by reference;
  - `Turn`, one turn's effect on the hand.
- `Dealing` (`dealing.dfy`): round-robin dealing as a pure specification:
  - `Stride(s, n, j)` holds the cards at j, j + n, j + 2n, and so on;
  - `Deal` gives every seat its stride;
  - `Pool` is the multiset of cards held by a list of containers.
- `PackFile` (`packfile.dfy`): the validation rules of `loadPack`. They
  work on lines already read and classified as blank, integer or malformed.
- `Game` (`game.dfy`): the `Player` and `CardGame` classes. Their methods
  keep the source's loops and mutable fields. Each method is proved
  against the functions above.

The pack is a `seq<Card>` that the dealing methods return after
consuming it; in the source they mutate the caller's list instead.
`addCardToHand` throws in the source; here it returns an `Outcome`
(`Pass`, `Fail(NullCard)` or `Fail(HandFull)`). The pure `Turn` gives
the hand after a turn and the discarded card as a `TurnResult`.

The source's test for `findCardToDiscard` asks whether the hand
`contains(new Card(2))`. Cards have no `equals`, so a freshly built card is
never in any hand and the assertion cannot fail.
`Hands.PlayerOneExample` states the evident intent: no card of value 2
is left in the hand.

## Model

| member | source | states |
|---|---|---|
| Cards.Card.constructor | Gradle/app/src/main/java/gradle/Card.java:17-19 | The card's value is exactly the int given, negatives included. `value` is a `const`, so `getValue` always returns it and nothing can change it. |
| Decks.Deck.constructor | Gradle/app/src/main/java/gradle/Deck.java:34-36 | The deck's id is the id given, with no sign check, and the queue starts empty. `getDeckId` is the `const` field. |
| Decks.Deck.AddCard | Gradle/app/src/main/java/gradle/Deck.java:53-56 | The contents become the old contents with the card appended at the tail. |
| Decks.Deck.RemoveCard | Gradle/app/src/main/java/gradle/Deck.java:65-70 | On a non-empty deck, returns the head and leaves exactly the tail. |
| Decks.Deck.GetCards | Gradle/app/src/main/java/gradle/Deck.java:78-80 | Returns the contents in queue order and changes nothing. |
| Decks.PassThrough | Gradle/app/src/main/java/gradle/Deck.java:53-70 | Adding cards one by one and then draining the deck yields the old contents and then the added cards, in insertion order. The deck ends empty. A single card added to an empty deck comes straight back (DeckTest.java:20-26). |
| Hands.FourOfAKind | Gradle/app/src/main/java/gradle/Player.java:89-101 | A four-card hand wins if and only if all four values are equal. |
| Game.Player.HasWon | Gradle/app/src/main/java/gradle/Player.java:89-101 | The counting-map loop returns true exactly when some value occurs at least four times in the hand (`Won`). It changes nothing. |
| Hands.DiscardIndex | Gradle/app/src/main/java/gradle/Player.java:126-135 | The chosen index is in the hand and every earlier card has the player's id as value. The chosen card differs from the id if and only if some card does. Otherwise the chosen index is 0. |
| Hands.DiscardChoice | Gradle/app/src/main/java/gradle/Player.java:126-135 | Any index k that is the first card differing from the id, or 0 when every card equals the id, is the discard index. This is the converse of DiscardIndex's contract. |
| Game.Player.FindCardToDiscard | Gradle/app/src/main/java/gradle/Player.java:126-135 | On a non-empty hand, the scan returns `hand[DiscardIndex(hand, id)]` and changes nothing. |
| Hands.RemoveFirstRemoves | Gradle/app/src/main/java/gradle/Player.java:157 | Removing a held card by reference shortens the hand by one and takes exactly one copy of that object out of the multiset. Removing a card that is not held leaves the hand as it is. |
| Hands.RemoveFirstAt | Gradle/app/src/main/java/gradle/Player.java:157 | Removing the object at position k, when no earlier position holds the same object, removes exactly position k and keeps the order of the rest. |
| Hands.RemoveDiscard | Gradle/app/src/main/java/gradle/Player.java:155-157 | Removing the chosen discard by reference removes exactly the card at DiscardIndex, even if that object occurs again later in the hand. |
| Hands.Turn | Gradle/app/src/main/java/gradle/Player.java:154-157 | The discard is a card of the enlarged hand. The new hand plus the discard is the old hand plus the drawn card, as multisets. |
| Hands.TurnShape | Gradle/app/src/main/java/gradle/Player.java:154-157 | A turn keeps the hand size. The new hand is the old hand with the drawn card appended and the DiscardIndex position taken out, in order. |
| Hands.TurnMoves | Gradle/app/src/main/java/gradle/Player.java:154-158 | Drawing the head of a deck: the deck's tail, the new hand and the discard together hold exactly the old deck and the old hand. |
| Hands.DrawnMayBeDiscarded | Gradle/app/src/main/java/gradle/Player.java:154-156 | The drawn card joins the hand before the choice. If every held card has the id as value and the drawn card does not, the drawn card is discarded and the hand is unchanged. |
| Hands.PlayerOneExample | Gradle/app/src/test/java/gradle/PlayerTest.java:77-91 | Player 1 holding 1, 2, 3, 4 who draws 5 discards the 2 and keeps 1, 3, 4, 5 in that order. No card of value 2 stays in the hand. |
| Game.Player.constructor | Gradle/app/src/main/java/gradle/Player.java:36-42 | Stores the id, both decks and the game. The hand starts empty. |
| Game.Player.GetHand | Gradle/app/src/main/java/gradle/Player.java:60-64 | Returns the hand in order and changes nothing. |
| Game.Player.AddCardToHand | Gradle/app/src/main/java/gradle/Player.java:71-81 | A null card fails with NullCard. A full hand of four cards fails with HandFull. Otherwise the card is appended. On failure the hand is unchanged. |
| Game.Player.PlayTurn | Gradle/app/src/main/java/gradle/Player.java:143-163 | If the game has ended, the hand and both decks are unchanged. Otherwise the hand becomes `Turn(hand, head of left deck, id).hand`, the left deck loses its head and the discard goes to the right deck's tail; this also holds when left and right are the same deck. The hand size is kept and cards are conserved across hand and decks. |
| Game.Player.HandleWin | Gradle/app/src/main/java/gradle/Player.java:279-287 | While the game is running, the claim ends it with this player as winner. After the end, nothing changes. |
| Game.Player.CheckImmediateWin | Gradle/app/src/main/java/gradle/Player.java:251-257 | Returns whether the hand already wins. If it does and the game is running, this player is the declared winner and the game has ended; otherwise the game state is unchanged. |
| Game.CardGame.constructor | Gradle/app/src/main/java/gradle/CardGame.java:23-27 | No players or decks, not ended, no winner, counter at 0. |
| Game.CardGame.InitializeGame | Gradle/app/src/main/java/gradle/CardGame.java:35-41 | Creates n fresh, distinct decks with ids 1..n and n fresh, distinct players with ids 1..n. Player j (0-based) reads deck j and writes deck (j + 1) % n. Player j's hand is `Stride(pack[..4n], n, j)`. Deck d holds `Stride(Reversed(pack[4n..]), n, d)`. The pack is left empty and the end-of-game state is untouched. |
| Game.CardGame.CreateDecks | Gradle/app/src/main/java/gradle/CardGame.java:50-54 | Appends fresh, distinct, empty decks with ids 1..n and keeps the existing ones. |
| Game.CardGame.CreatePlayers | Gradle/app/src/main/java/gradle/CardGame.java:72-79 | Appends fresh, distinct players with ids 1..n and empty hands. Player i gets left deck `decks[(i - 1) % n]` and right deck `decks[i % n]`. |
| Game.CardGame.DealCardsToPlayers | Gradle/app/src/main/java/gradle/CardGame.java:87-93 | Consumes the first 4n cards of the pack. Pack card k goes to player k % n, so every hand ends as its stride of `pack[..4n]`. No capacity error occurs, the rest of the pack is returned and no deck changes. |
| Game.CardGame.DistributeCardsToDecks | Gradle/app/src/main/java/gradle/CardGame.java:108-114 | Drains the pack from the back. The k-th card taken goes to deck k % n, so deck d gains its stride of the reversed pack. An empty pack changes no deck, which covers the second call in CardGameTest.java:56-77. Hands are untouched. |
| Game.CardGame.HasGameEnded | Gradle/app/src/main/java/gradle/CardGame.java:129-131 | Returns the ended flag and changes nothing. |
| Game.CardGame.GetWinner | Gradle/app/src/main/java/gradle/CardGame.java:269-271 | Returns the recorded winner and changes nothing. |
| Game.CardGame.DeclareWinner | Gradle/app/src/main/java/gradle/CardGame.java:278-290 | The first call ends the game and records the player. Later calls keep the game ended with the same winner. "Ended exactly when a winner is recorded" is preserved. |
| Game.CardGame.PlayerFinished | Gradle/app/src/main/java/gradle/CardGame.java:137-138 | The remaining-players counter drops by exactly one. |
| Dealing.ModNext | Gradle/app/src/main/java/gradle/CardGame.java:88-91 | `(i + 1) % n == (i % n + 1) % n`. The source's `playerIndex = (playerIndex + 1) % n` therefore always equals `i % n`. |
| Dealing.StrideSnoc | Gradle/app/src/main/java/gradle/CardGame.java:87-93 | Dealing one more card at the end adds it to seat `|t| % n` and to no other seat. |
| Dealing.DealNext | Gradle/app/src/main/java/gradle/CardGame.java:89-90 | Card i of the deal goes to seat i % n and leaves every other seat's share as it was. |
| Dealing.HandBound | Gradle/app/src/main/java/gradle/CardGame.java:88-90 | In a four-round deal, the seat about to receive a card holds fewer than four, so `addCardToHand` never refuses it (Player.java:76-80). |
| Dealing.StridePrefix | Gradle/app/src/main/java/gradle/CardGame.java:88-90 | A seat's share of part of the deal is no larger than its share of the whole deal. |
| Dealing.FourRounds | Gradle/app/src/main/java/gradle/CardGame.java:88-92 | Dealing 4n cards gives every seat exactly four: the cards at j, j + n, j + 2n and j + 3n. |
| Dealing.DealConserves | Gradle/app/src/main/java/gradle/CardGame.java:87-114 | All seats of a round-robin deal together hold exactly the dealt cards, as a multiset. |
| Dealing.ReversedMultiset | Gradle/app/src/main/java/gradle/CardGame.java:110-111 | Taking cards from the back keeps the same multiset of cards. |
| Dealing.SetupConserves | Gradle/app/src/main/java/gradle/CardGame.java:35-41 | Dealing `pack[..k]` round-robin (`Deal`) and the reversed rest round-robin gives seats that together hold exactly the pack's cards: none lost, none duplicated. |
| Game.CardGame.SetupHoldsPack | Gradle/app/src/main/java/gradle/CardGame.java:35-41 | In the state `InitializeGame` leaves behind, the players' hands and the decks hold, together, exactly the pack's cards, as a multiset. |
| Dealing.FullPackSetup | Gradle/app/src/main/java/gradle/CardGame.java:87-114 | With a pack of 8n cards, every hand and every deck starts with four cards (CardGameTest.java:46-77). |
| Dealing.SixteenCardSetup | Gradle/app/src/test/java/gradle/CardGameTest.java:56-77 | Pack 1..16 with two players gives hands 1, 3, 5, 7 and 2, 4, 6, 8, deck 1 = 16, 14, 12, 10 and deck 2 = 15, 13, 11, 9. |
| PackFile.Scan | Gradle/app/src/main/java/gradle/CardGame.java:189-209 | Succeeds if and only if every line is blank or a non-negative integer. On success it returns the integers in file order. On failure, the error names the first bad line by its 1-based line number: InvalidValue for a malformed line, NegativeValue for a negative one. |
| PackFile.LoadPack | Gradle/app/src/main/java/gradle/CardGame.java:189-216 | Succeeds if and only if every line is acceptable and there are exactly 8n values. On success the values come in file order and are all non-negative. A size error reports 8n and the number found. Any other error names the first bad line. |
| PackFile.NumbersNonNegative | Gradle/app/src/main/java/gradle/CardGame.java:200-202 | If every line passed the check, every loaded value is non-negative. |
| PackFile.BlankLineSkipped | Gradle/app/src/main/java/gradle/CardGame.java:194-196 | Inserting a blank line anywhere changes neither acceptance nor the values loaded. |
| PackFile.NumbersAppend | Gradle/app/src/main/java/gradle/CardGame.java:189-205 | The values of two stretches of lines read one after the other are the values of the first followed by those of the second. |
| PackFile.LoadPackValid | Gradle/app/src/test/java/gradle/CardGameTest.java:164-180 | The sixteen lines 1..16 for two players load as 1..16. |
| PackFile.LoadPackNegative | Gradle/app/src/test/java/gradle/CardGameTest.java:191-207 | The same pack with -3 on line 3 is rejected as a negative value at line 3. |
| PackFile.LoadPackWrongSize | Gradle/app/src/test/java/gradle/CardGameTest.java:210-226 | Ten values for two players are rejected because 16 were expected and 10 were found. |
| PackFile.NewPack | Gradle/app/src/main/java/gradle/CardGame.java:203 | One new card per value, in order. The cards are fresh and pairwise distinct objects, even when values repeat. |

## Left out

- Threads, `synchronized` blocks, `wait`/`notifyAll` in `Deck`, the `CyclicBarrier`, `Thread.sleep`, `run`, `playRound` and `startGame`: these are concurrency. Each modelled operation is one call's sequential effect.
- Deck.RemoveCard: the source waits until the deck is non-empty; the model requires a non-empty deck instead.
- All file output: `logInitialHand`, `logAction`, `logWin`, `logLoss`, `notifyOtherPlayers`, `handToString`, `writeDeckContentsToFile`, `writeDeckOutputs`. These are observational I/O. The "final output" trigger in `playerFinished` is left out for the same reason.
- Reading the pack file is left out: the empty-path check, `File`/`Scanner`, file-not-found, `trim` and `Integer.parseInt`. The model starts from lines already classified as blank, integer or malformed.
- `main`'s console loop and the console messages in `declareWinner`.
- The interrupt loop in `declareWinner`: it interrupts threads that were never started and has no effect on state.
- `Player.getId`, `Deck.getDeckId` and `Card.getValue` are `const` fields, not methods. `getPlayers` and `getDecks` are the `players` and `decks` fields; the unmodifiable-view wrapper is not modelled.
- The `hasWon` field of `Player` is never read or written by the source, so it is not modelled.
- The barrier parameter of `Player`'s constructor is not modelled, and neither is `createBarrier`.
- Game.CardGame.PlayerFinished: Java's 32-bit `AtomicInteger` wrap-around is not modelled; the counter is an unbounded `int`.
- `4 * n` and `8 * n` are unbounded `int`s; Java's overflow for huge `n` is not modelled.
- Game.CardGame.InitializeGame: requires a fresh game (no players, no decks), `n >= 1` and at least 4n cards. With fewer cards the source throws from `pack.remove(0)`. On a second call it appends decks and players but wires and deals to the first ones. Neither path is modelled.
- Game.CardGame.DealCardsToPlayers: requires the first n players to have empty hands and be distinct objects. The source would throw `IllegalStateException` from `addCardToHand` on a full hand.
- Game.CardGame.DistributeCardsToDecks: requires the decks to be distinct objects, which `createDecks` guarantees.
- Game.CardGame.CreatePlayers: requires at least n decks. The source throws `IndexOutOfBoundsException` otherwise.
- Game.Player.FindCardToDiscard: requires a non-empty hand. The source calls it only right after adding a card, and `hand.get(0)` would throw on an empty hand.
- Game.Player.PlayTurn: requires a non-empty left deck while the game runs, in place of the source's blocking `removeCard`.
- Decks.Deck.constructor: Deck.java:34-36 accepts any id, negatives included, and so does the model.
