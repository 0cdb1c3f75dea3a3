# Pasjans: a verified model of a console Klondike solitaire

Pasjans is a Klondike solitaire played in the console. The table has three parts:

- seven columns ("kolumny");
- a face-down deck ("talia"), whose front card can be revealed while earlier revealed cards go face down onto a spent pile;
- four foundation piles ("stosy końcowe"), one per suit, built up from the Ace.

This project models the game's core in Dafny:

- the cards;
- the columns;
- the deal;
- the Fisher–Yates shuffle;
- the two legality tests (`ValidMovement`);
- the branches of the turn loop (`Game.Interact`) that change the table;
- the consistency check `Program.Validate`.

Modules:

- `Cards`: the card value, its colour, text and equality (Card.cs).
- `Columns`: the `Column` class (Column.cs).
- `Rules`: the two `ValidMovement` overloads.
- `Shuffling`: the shuffle with its random draws passed in as a list of choices. It is proved to permute its input and to reach every permutation.
- `Boards`: the whole table as a value, with one function per branch of `Interact`.
- `Games`: the `Game` class, whose fields are updated in place. Each method is proved to leave `Board()` exactly as the matching function of `Boards` says.
- `Moves`: what each move does to each pile.
- `Conservation`: no move creates or loses a card, except the recycle as written.
- `Dealing`: the shape of the opening position, and that it holds each of the 52 cards once.
- `Soundness`: the invariant a Klondike table keeps. It holds after the deal, after every draw from a non-empty deck (the recycle as written breaks it), after every run move that starts at a face-up card, after the single-card moves and after the intended recycle, and it implies that `Validate` succeeds.
- `Validation`: `Program.Validate` as a method with its two nested loops.

Modelling conventions:

- A rank is its position in `Game.RANKS` (0 is "K", 12 is "A"). A suit is an enumeration in the order of `Game.SUITS`.
- `Cards.RankIndexOfName` shows that `Array.IndexOf(RANKS, name)` of a card's rank name is that position. So the rules, which compare positions, say what the source's string tests say.
- Cards are values. Where the source flips `Covered` on a card object held in a list, the model replaces the list element.
- `null` for the revealed card is `None`.
- `Environment.NewLine` in the column text is `"\n"`.

Where the code departs from standard Klondike, the model follows the code:

- Standard Klondike ends when all four foundations are complete and lets a card move from a foundation back to a column. The code has neither: its "K" choice at Game.cs:332-336 is an empty stub. The model has neither.
- In standard Klondike an empty deck is refilled from the spent pile. The code loses those cards instead (see Findings).

## Model

| member | source | states |
|---|---|---|
| Cards.NewCard | Pasjans/Card.cs:23-55 | a new card has the given rank and suit and is face down; it is Black exactly for clubs and spades |
| Cards.Card.ToString | Pasjans/Card.cs:57-62 | the text is always three characters, and it is "---" exactly when the card is face down |
| Cards.FaceUpText | Pasjans/Card.cs:60-61 | a face-up card prints as "10" and its icon for a Ten, otherwise as its rank name, a space and its icon |
| Cards.ParseCardInverse | Pasjans/Card.cs:57-62 | the text of a face-up card determines its rank and suit: a string reads back as (rank, suit) exactly when it is that card's text |
| Cards.ParseCardOfText | Pasjans/Card.cs:57-62 | reading a face-up card's text gives back its rank and suit |
| Cards.TextOfParsedCard | Pasjans/Card.cs:57-62 | a string that reads as (rank, suit) is the text of that face-up card |
| Cards.Card.Equals | Pasjans/Card.cs:64-67 | Equal cards have the same rank and suit (and so the same colour) |
| Cards.Contains | Pasjans/Program.cs:21 | List.Contains with Card.Equals: some element has the card's rank and suit, whatever its face-down flag |
| Cards.EqualsIsSameKey | Pasjans/Card.cs:64-67 | two cards are Equal exactly when rank and suit agree; the face-down flag plays no part |
| Cards.SuitOfIcon | Pasjans/Card.cs:28-54 | each suit has its own icon, so an icon names at most one suit |
| Cards.RankIndexOfName | Pasjans/Game.cs:20 | Array.IndexOf(RANKS, name of rank r) is r |
| Cards.RankNamesDistinct | Pasjans/Game.cs:20 | no two ranks share a name |
| Cards.FirstIndex | Pasjans/Game.cs:110 | the first position holding the element, or -1 exactly when it is absent |
| Cards.IndexOfCard | Pasjans/Game.cs:252 | the first position of a card Equal to the given one, or -1 exactly when there is none |
| Cards.RemoveFirst | Pasjans/Game.cs:260 | List.Remove: the first Equal card is dropped and the rest keep their order; a list without one is unchanged |
| Columns.Column.constructor | Pasjans/Column.cs:13-16 | a new column is empty |
| Columns.Column.Get | Pasjans/Column.cs:20 | the indexer returns the card at that position |
| Columns.Column.Set | Pasjans/Column.cs:21 | the indexer stores the card at that position and leaves every other position and the length unchanged |
| Columns.Column.ToString | Pasjans/Column.cs:24-33 | the text is each card's text followed by two line breaks, bottom card first; five characters per card |
| Columns.ColumnTextConcat | Pasjans/Column.cs:24-33 | the text of a column is the text of its lower part followed by that of its upper part |
| Columns.ColumnTextLength | Pasjans/Column.cs:24-33 | a column's text is five characters per card |
| Columns.ColumnTextSingle | Pasjans/Column.cs:27-31 | the text of a single card is its ToString and two line breaks |
| Rules.TableauAccepts | Pasjans/Game.cs:99-111 | a card accepted onto a non-empty column continues its run (other colour, one lower); an Ace is never accepted; a King only onto an empty column |
| Rules.FoundationAccepts | Pasjans/Game.cs:118-125 | an accepted card is an Ace exactly when the pile is empty; a King goes only onto a Queen |
| Rules.TableauAcceptsByName | Pasjans/Game.cs:99-111 | the column rule is exactly the source's test on rank names: "K" onto an empty column, nothing onto a "2", otherwise other colour and next position in RANKS |
| Rules.TableauBoundaries | Pasjans/Game.cs:99-111 | only a King goes onto an empty column and a King onto nothing else; a column topped by a 2 or an Ace takes nothing; an Ace never goes onto a column; an accepted card continues the run |
| Rules.FoundationAcceptsByName | Pasjans/Game.cs:118-125 | the foundation rule is exactly the source's test on rank names: "A" onto an empty pile, otherwise the position before the top's in RANKS |
| Rules.FoundationAcceptsExtends | Pasjans/Game.cs:118-125 | a pile of one suit ascending from the Ace stays so when it accepts a card of that suit, and never exceeds thirteen cards |
| Rules.BuiltPileAscends | Pasjans/Game.cs:118-125 | a pile built one accepted card at a time is Ace, 2, 3, ... in order |
| Shuffling.Swap | Pasjans/Game.cs:74 | positions i and j exchange their elements and every other position keeps its own |
| Shuffling.Shuffle | Pasjans/Game.cs:68-76 | the shuffle keeps the deck's length |
| Shuffling.SwapPermutes | Pasjans/Game.cs:74 | the tuple swap only rearranges the deck |
| Shuffling.ShufflePermutes | Pasjans/Game.cs:68-76 | the shuffle keeps the deck's length and rearranges its cards, whatever the random draws |
| Shuffling.ShuffleStepsPermutes | Pasjans/Game.cs:71-75 | the loop's iterations at indices below m rearrange the deck |
| Shuffling.ShuffleStepsPrefix | Pasjans/Game.cs:71-75 | the loop's iterations at indices below m touch only the first m cards |
| Shuffling.ShuffleReachesEveryPermutation | Pasjans/Game.cs:68-76 | every ordering of the deck is the outcome of some sequence of draws with random.Next(i + 1) in 0..i |
| Boards.FullDeck | Pasjans/Game.cs:26-33 | the new deck has 52 cards, all face down |
| Boards.Deal | Pasjans/Game.cs:44-61 | seven columns, column i of i + 1 cards with a face-up top; 24 cards stay in the deck; nothing revealed or spent |
| Boards.InitialBoard | Pasjans/Game.cs:23-62 | the table after construction: seven columns, 24 cards in the deck, nothing revealed or spent |
| Games.NewDeck | Pasjans/Game.cs:26-33 | the deck is the 52 cards, face down, suit by suit in SUITS order and rank by rank in RANKS order |
| Games.NewStacks | Pasjans/Game.cs:37-41 | one empty foundation pile for every suit |
| Games.Game.ShuffleDeck | Pasjans/Game.cs:68-76 | the deck becomes the Fisher–Yates shuffle of the old deck under the given draws; nothing else changes |
| Games.Game.DealColumns | Pasjans/Game.cs:48-61 | seven distinct columns; column i holds the next i + 1 cards of the deck, the last turned face up; the deck loses its first 28 cards |
| Games.Game.DealInto | Pasjans/Game.cs:51-60 | one column of the deal: a new column gets the deck's first i + 1 cards, the last face up, and the deck loses them |
| Games.Game.constructor | Pasjans/Game.cs:23-62 | a new game's table is exactly the initial board of its shuffle |
| Boards.DrawNext | Pasjans/Game.cs:81-91 | the deck loses one card and a face-up card is revealed; the spent pile grows by one exactly when a card was revealed before; columns and foundations are unchanged |
| Boards.Recycle | Pasjans/Game.cs:317-325 | after the recycle as written no further draw is possible: the deck is empty and nothing is revealed; columns and foundations are unchanged |
| Boards.RecycleIntended | Pasjans/Game.cs:317-325 | what the recycle evidently means to do: the deck becomes the spent pile and the revealed card, one card more than the spent pile held; nothing is revealed or spent afterwards; columns and foundations are unchanged |
| Boards.DrawStep | Pasjans/Game.cs:315-331 | the "N" choice never touches columns or foundations, and leaves a card revealed exactly when the deck was not empty |
| Games.Game.NextDeckCard | Pasjans/Game.cs:81-91 | the table becomes DrawNext of the old table |
| Games.Game.Draw | Pasjans/Game.cs:315-331 | the table becomes DrawStep of the old table, either the draw or the recycle as written |
| Boards.MoveRun | Pasjans/Game.cs:235-247 | the run move touches only the columns; when accepted between two columns the source keeps k cards and the destination gains the rest |
| Boards.UncoverTop | Pasjans/Game.cs:242 | `Last().Covered = false` on a column that still has cards: the length and every card below the top stay, and the top is the same card, now face up |
| Boards.IsTopCard | Pasjans/Game.cs:252 | the top test passes only for the last card, and always for it when no Equal card lies below |
| Boards.ColumnToFoundation | Pasjans/Game.cs:249-266 | deck, reveal slot and spent pile are unchanged; a move that changes anything takes one card out of the source column |
| Boards.FoundationMoveCrashes | Pasjans/Game.cs:259-261 | the inputs on which the foundation move calls Last() on a column it has just emptied; `Moves.FoundationMoveCrashesExactly` proves these are the accepted plays of a one-card column's only card |
| Boards.RevealedToFoundation | Pasjans/Game.cs:274-292 | columns, deck and spent pile are unchanged; a move that changes anything empties the reveal slot |
| Boards.RevealedToColumn | Pasjans/Game.cs:293-308 | foundations, deck and spent pile are unchanged; a move that changes anything empties the reveal slot and adds one card to the chosen column |
| Games.Game.MoveRun | Pasjans/Game.cs:229-247 | the table becomes the run move of the old table; the outcome is Moved exactly when the column rule accepts the chosen card |
| Games.Game.MoveColumnToFoundation | Pasjans/Game.cs:249-266 | the table becomes the column-to-foundation move of the old table; a card that is not the top is reported as such, and otherwise the outcome follows the foundation rule |
| Games.Game.MoveRevealedToFoundation | Pasjans/Game.cs:274-292 | the table becomes the revealed-to-foundation move; nothing revealed is reported, otherwise the outcome follows the foundation rule |
| Games.Game.MoveRevealedToColumn | Pasjans/Game.cs:293-308 | the table becomes the revealed-to-column move; nothing revealed is reported, otherwise the outcome follows the column rule |
| Moves.MoveRunEffect | Pasjans/Game.cs:235-247 | a refused run move changes nothing; an accepted one leaves the source column with the cards below the chosen one and its new top face up; the destination gains the run in order; no other pile changes |
| Moves.IsTopCardMeans | Pasjans/Game.cs:252-256 | the top test passes exactly for the top card when no Equal card lies below it |
| Moves.ColumnToFoundationEffect | Pasjans/Game.cs:249-266 | a card that is not the top, or that its pile refuses, changes nothing; an accepted one leaves its column, whose new top turns face up, and lands on its suit's pile; no other pile changes |
| Moves.FoundationMoveCrashesExactly | Pasjans/Game.cs:257-262 | the source's foundation move fails exactly when it plays the only card of a column |
| Moves.RevealedToFoundationEffect | Pasjans/Game.cs:274-292 | without a revealed card, or with one its pile refuses, nothing changes; an accepted card lands on its suit's pile and the reveal slot empties |
| Moves.RevealedToColumnEffect | Pasjans/Game.cs:293-308 | without a revealed card, or with one the column refuses, nothing changes; an accepted card becomes the column's top and the reveal slot empties |
| Moves.DrawNextEffect | Pasjans/Game.cs:81-91 | the deck loses its front card, which becomes the revealed card face up; the previously revealed card goes face down on top of the spent pile |
| Conservation.DrawNextConserves | Pasjans/Game.cs:81-91 | a draw neither creates nor loses a card |
| Conservation.MoveRunConserves | Pasjans/Game.cs:235-247 | the run move neither creates nor loses a card |
| Conservation.MoveRunColumnKeys | Pasjans/Game.cs:237-242 | the run move keeps the same cards across the columns |
| Conservation.ColumnToFoundationConserves | Pasjans/Game.cs:249-266 | the column-to-foundation move neither creates nor loses a card |
| Conservation.TopCardLeavesColumns | Pasjans/Game.cs:259-261 | an accepted foundation move takes exactly the chosen card out of the columns |
| Conservation.TopCardIsLast | Pasjans/Game.cs:252-260 | a card passing the top test is the last one, and List.Remove drops exactly it |
| Conservation.RevealedToFoundationConserves | Pasjans/Game.cs:280-292 | the revealed-to-foundation move neither creates nor loses a card |
| Conservation.RevealedToColumnConserves | Pasjans/Game.cs:293-308 | the revealed-to-column move neither creates nor loses a card and leaves the foundations alone |
| Conservation.RecycleLosesCards | Pasjans/Game.cs:317-325 | the recycle as written loses the whole spent pile and the revealed card |
| Conservation.RecycleIntendedConserves | Pasjans/Game.cs:317-325 | the intended recycle neither creates nor loses a card |
| Conservation.ShuffleKeys | Pasjans/Game.cs:68-76 | shuffling keeps the same cards |
| Dealing.InitialDealShape | Pasjans/Game.cs:23-62 | column i holds i + 1 cards with only the last face up; 24 face-down cards stay in the deck; the foundations and the spent pile are empty; nothing is revealed |
| Dealing.InitialBoardHoldsEachCardOnce | Pasjans/Game.cs:23-62 | the opening table holds each of the 52 cards exactly once |
| Dealing.DealKeys | Pasjans/Game.cs:48-61 | dealing moves the deck's cards onto the table in order, losing and adding none |
| Dealing.FullDeckHasKey | Pasjans/Game.cs:26-33 | the new deck holds each (rank, suit) pair exactly once |
| Soundness.InitialBoardSound | Pasjans/Game.cs:23-62 | the opening table is sound: each card once, face-down cards under a face-up run in every column, empty foundations |
| Soundness.DrawNextPreservesSound | Pasjans/Game.cs:81-91 | a draw keeps the table sound |
| Soundness.MoveRunPreservesSound | Pasjans/Game.cs:235-247 | an accepted run move of a face-up card keeps the table sound |
| Soundness.SelfMoveRejected | Pasjans/Game.cs:235 | on a sound table a run starting at a face-up card is never accepted onto its own column |
| Soundness.ColumnToFoundationPreservesSound | Pasjans/Game.cs:249-266 | the column-to-foundation move keeps the table sound |
| Soundness.RevealedToFoundationPreservesSound | Pasjans/Game.cs:280-292 | the revealed-to-foundation move keeps the table sound |
| Soundness.RevealedToColumnPreservesSound | Pasjans/Game.cs:293-308 | the revealed-to-column move keeps the table sound |
| Soundness.RecycleIntendedPreservesSound | Pasjans/Game.cs:317-325 | the intended recycle keeps the table sound |
| Soundness.RecycleBreaksSoundness | Pasjans/Game.cs:322-323 | after the recycle as written the revealed card is gone from the table, which is no longer sound |
| Soundness.LoneAceToFoundationCrashes | Pasjans/Game.cs:261 | an Ace alone in its column, played onto its empty pile, reaches the failing Last() call |
| Soundness.SoundPassesValidation | Pasjans/Program.cs:10-32 | every sound table passes the validation |
| Validation.PairRejected | Pasjans/Program.cs:21 | a face-up pair out of order is rejected, and a pair passes only when the upper card does not repeat one below it in its column |
| Validation.Passes | Pasjans/Program.cs:14-28 | the first card of a column is never tested, so columns of at most one card pass |
| Validation.RejectsPair | Pasjans/Program.cs:21 | the source's test on a pair, with ranks compared by name through Array.IndexOf, is the model's rejection test |
| Validation.Validate | Pasjans/Program.cs:10-32 | succeeds exactly when no pair is rejected; otherwise it reports the first rejected pair in scan order |
| Validation.CoveredPairsOnlyRepeat | Pasjans/Program.cs:21 | a pair with a face-down card is rejected only for a repeated card |
| Validation.FaceUpPairs | Pasjans/Program.cs:21 | a face-up pair out of order is rejected; one in order is rejected only for a repeated card |
| Validation.RepeatAcrossColumns | Pasjans/Program.cs:12-27 | the list of seen cards runs across columns, so a card Equal to one in an earlier column is rejected, unless it is the first card of its column |

## Left out

- Console input and output, the menu text, `Display` and `Main` are not modelled. The player's choices (column, card and destination numbers) are parameters of the move methods instead.
- `System.Random` is not modelled. Each call `random.Next(i + 1)` is an entry `choices[i]` in `0..i`, passed in by the caller.
- The "K" choice at Game.cs:332-336 is an empty stub and changes nothing.
- `Card.GetHashCode` is not modelled. It returns the object's default hash, which no modelled operation uses.
- Cards are values, not shared objects. The model cannot express one card object being held by two lists.
- The recycle first assigns the spent list to `Deck` and then clears it (Game.cs:322-323), so both names end up holding one empty list. The model sets both piles to empty. After that the deck is empty and nothing is revealed, so nothing can observe the aliasing (the contract of `Boards.Recycle`).
- Crash paths are preconditions rather than modelled exceptions:
  - an out-of-range column number for the chosen column (Game.cs:215) or the destination column (Game.cs:233);
  - an out-of-range card index (Game.cs:225);
  - emptying a column in the foundation move (Game.cs:261; see Findings);
  - a column number outside 1..7 (Game.cs:298-299);
  - a recycle with nothing revealed (Game.cs:319).
- Games.Game.MoveRun: like the source, it checks neither that the chosen card is face up nor that the source and destination columns differ. `Soundness.MoveRunPreservesSound` therefore assumes a face-up card.
- The column text (`Column.ToString`, which calls `AppendLine`) uses `"\n"` for `Environment.NewLine`.
- Game.cs:252 and 218 treat a `Column` as a card collection (`ToArray()`, `foreach`), and Game.cs:105, 242 and 261 call `Last()` on it. The model reads them as its card list.

## Findings

| source | as written | input that shows it | evidently intended | confidence | as-written member | corrected member |
|---|---|---|---|---|---|---|
| Pasjans/Game.cs:261 | after moving a column's top card to its foundation, `Last()` is called on the column even when it is now empty, which throws | an Ace alone in its column, played onto its empty foundation | turn the new top face up only when a card remains, as line 242 does | not executed | Soundness.LoneAceToFoundationCrashes | Soundness.ColumnToFoundationPreservesSound |
| Pasjans/Game.cs:322-323 | `Deck = SpentDeck; SpentDeck.Clear();` makes both names refer to one list and then empties it, so the recycle discards the spent pile and the revealed card | deck empty, one card revealed, any non-empty spent pile: after "N" the table holds fewer than 52 cards | copy the spent pile (with the revealed card) into the deck, then clear the spent pile and shuffle | not executed | Conservation.RecycleLosesCards | Conservation.RecycleIntendedConserves |
