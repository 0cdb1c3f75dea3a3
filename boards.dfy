/*
 * The state of one game of Game.cs as a value, and what each turn of
 * Game.Interact does to it.  The class in games.dfy keeps this state in
 * fields and is proved to change it exactly as these functions say.
 */
module Boards {
  import opened Cards
  import opened Rules
  import opened Shuffling

  /** Game's fields: Columns (their card lists), Deck, FinalStacks,
      RevealedCard (None for null) and SpentDeck. */
  datatype Board = Board(
    columns: seq<seq<Card>>,
    deck: seq<Card>,
    stacks: map<Suit, seq<Card>>,
    revealed: Option<Card>,
    spent: seq<Card>)

  /** Seven columns and one foundation pile for every suit. */
  predicate WellShaped(b: Board)
  {
    |b.columns| == 7 && forall s: Suit :: s in b.stacks
  }

  /** How an attempted move ends; the source prints a message for each failure. */
  datatype Outcome = Moved | NotAllowed | NotSingleCard | NothingRevealed

  // ---------------------------------------------------------------- the deal

  /** The 52 cards in the order the constructor adds them: suit by suit in
      SUITS order, each suit in RANKS order, all face down. */
  function FullDeck(): (d: seq<Card>)
    ensures |d| == 52
    ensures forall k :: 0 <= k < 52 ==> d[k].covered
  {
    seq(52, k requires 0 <= k < 52 => NewCard(k % 13, SUITS[k / 13]))
  }

  /** Cards dealt to the first n columns: 1 + 2 + ... + n. */
  function Triangle(n: nat): nat
    requires n <= 7
  {
    [0, 1, 3, 6, 10, 15, 21, 28][n]
  }

  /** Column i of the deal: the next i + 1 cards of the deck, the last one turned face up. */
  function DealtColumn(s: seq<Card>, i: nat): seq<Card>
    requires i < 7 && |s| >= 28
  {
    TriangleBound(i + 1);
    var start := Triangle(i);
    s[start .. start + i] + [s[start + i].(covered := false)]
  }

  lemma TriangleBound(n: nat)
    requires n <= 7
    ensures Triangle(n) <= 28 && (n > 0 ==> Triangle(n) == Triangle(n - 1) + n)
  {
    assert n == 0 || n == 1 || n == 2 || n == 3 || n == 4 || n == 5 || n == 6 || n == 7;
  }

  function EmptyStacks(): map<Suit, seq<Card>>
  {
    map[Spades := [], Hearts := [], Diamonds := [], Clubs := []]
  }

  /** The board the constructor leaves from a shuffled deck of 52. */
  function Deal(s: seq<Card>): (b: Board)
    requires |s| == 52
    ensures |b.columns| == 7 && |b.deck| == 24 && b.revealed == None && b.spent == []
    ensures forall i :: 0 <= i < 7 ==> |b.columns[i]| == i + 1 && !b.columns[i][i].covered
  {
    Board(seq(7, i requires 0 <= i < 7 => DealtColumn(s, i)), s[28..], EmptyStacks(), None, [])
  }

  /** The board right after `new Game()`, for the shuffle's choices. */
  function InitialBoard(choices: seq<nat>): (b: Board)
    requires ValidChoices(choices, 52)
    ensures |b.columns| == 7 && |b.deck| == 24 && b.revealed == None && b.spent == []
  {
    ShufflePermutes(FullDeck(), choices);
    Deal(Shuffle(FullDeck(), choices))
  }

  // ---------------------------------------------------------------- drawing

  /** NextDeckCard: the revealed card (if any) goes face down onto the spent
      pile and the deck's front card becomes the revealed card, face up. */
  function DrawNext(b: Board): (b': Board)
    requires |b.deck| > 0
    ensures |b'.deck| + 1 == |b.deck| && b'.revealed.Some? && !b'.revealed.value.covered
    ensures |b'.spent| == |b.spent| + (if b.revealed.Some? then 1 else 0)
    ensures b'.columns == b.columns && b'.stacks == b.stacks
  {
    var spent := if b.revealed.Some? then b.spent + [b.revealed.value.(covered := true)] else b.spent;
    b.(spent := spent, revealed := Some(b.deck[0].(covered := false)), deck := b.deck[1..])
  }

  /** The draw branch with an empty deck, as written: the revealed card is
      pushed face down onto the spent pile, Deck is made the same list as
      SpentDeck, and that list is cleared, so both piles end empty. */
  function Recycle(b: Board): (b': Board)
    requires |b.deck| == 0 && b.revealed.Some?
    ensures !(|b'.deck| > 0 || b'.revealed.Some?)
    ensures b'.columns == b.columns && b'.stacks == b.stacks
  {
    b.(revealed := None, deck := [], spent := [])
  }

  /** The "N" choice of Interact.  With an empty deck the source dereferences
      RevealedCard, so a revealed card is required. */
  function DrawStep(b: Board): (b': Board)
    requires |b.deck| > 0 || b.revealed.Some?
    ensures b'.columns == b.columns && b'.stacks == b.stacks
    ensures |b.deck| > 0 <==> b'.revealed.Some?
  {
    if |b.deck| == 0 then Recycle(b) else DrawNext(b)
  }

  /** What the empty-deck branch evidently means to do: the spent pile and the
      revealed card, face down, are shuffled into a new deck. */
  function RecycleIntended(b: Board, choices: seq<nat>): (b': Board)
    requires |b.deck| == 0 && b.revealed.Some?
    requires ValidChoices(choices, |b.spent| + 1)
    ensures |b'.deck| == |b.spent| + 1 && b'.revealed == None && b'.spent == []
    ensures b'.columns == b.columns && b'.stacks == b.stacks
  {
    b.(revealed := None, deck := Shuffle(b.spent + [b.revealed.value.(covered := true)], choices), spent := [])
  }

  // ---------------------------------------------------------------- moves

  /** `Last().Covered = false` on a column that still has cards. */
  function UncoverTop(col: seq<Card>): (r: seq<Card>)
    ensures |r| == |col| && (col != [] ==> !r[|col| - 1].covered && r[|col| - 1].Key() == col[|col| - 1].Key())
    ensures forall i :: 0 <= i < |col| - 1 ==> r[i] == col[i]
  {
    if col == [] then col else col[|col| - 1 := col[|col| - 1].(covered := false)]
  }

  /** The test of the run move: the chosen card on the destination column. */
  predicate RunAccepted(b: Board, src: nat, k: nat, dst: nat)
    requires src < |b.columns| && dst < |b.columns| && k < |b.columns[src]|
  {
    TableauAccepts(b.columns[src][k], b.columns[dst])
  }

  /** The run move: the cards from position k of column src up to its top go,
      in order, onto column dst, and the new top of src is turned face up.
      The source neither checks that the chosen card is face up nor that
      src and dst differ. */
  function MoveRun(b: Board, src: nat, k: nat, dst: nat): (b': Board)
    requires src < |b.columns| && dst < |b.columns| && k < |b.columns[src]|
    ensures b'.deck == b.deck && b'.stacks == b.stacks && b'.revealed == b.revealed && b'.spent == b.spent
    ensures |b'.columns| == |b.columns|
    ensures RunAccepted(b, src, k, dst) && src != dst ==> |b'.columns[src]| == k && |b'.columns[dst]| == |b.columns[dst]| + |b.columns[src]| - k
  {
    if !RunAccepted(b, src, k, dst) then b
    else
      var col := b.columns[src];
      var cols1 := b.columns[src := col[..k]];
      var cols2 := cols1[dst := cols1[dst] + col[k..]];
      b.(columns := cols2[src := UncoverTop(cols2[src])])
  }

  /** The test `Array.IndexOf(targetCol, chosenCard) == Count - 1`: the first
      card equal to the chosen one is the column's top. */
  predicate IsTopCard(col: seq<Card>, k: nat): (r: bool)
    requires k < |col|
    ensures r ==> k == |col| - 1
    ensures k == |col| - 1 && (forall i :: 0 <= i < k ==> !col[i].Equals(col[k])) ==> r
  {
    IndexOfCard(col, col[k]) == |col| - 1
  }

  /** Moving a column card to the foundation of its suit.  A card that is not
      the top is refused; an accepted card is added to the pile, removed from
      the column with List.Remove, and the new top is turned face up.  When the
      column becomes empty the source crashes instead (see
      FoundationMoveCrashes); this function leaves the empty column alone, as
      the guard of the run move does. */
  function ColumnToFoundation(b: Board, src: nat, k: nat): (b': Board)
    requires WellShaped(b) && src < 7 && k < |b.columns[src]|
    ensures WellShaped(b') && b'.deck == b.deck && b'.revealed == b.revealed && b'.spent == b.spent
    ensures b' != b ==> |b'.columns[src]| + 1 == |b.columns[src]|
  {
    var col := b.columns[src];
    var chosen := col[k];
    var dest := b.stacks[chosen.suit];
    if !IsTopCard(col, k) || !FoundationAccepts(chosen, dest) then b
    else
      b.(stacks := b.stacks[chosen.suit := dest + [chosen]],
         columns := b.columns[src := UncoverTop(RemoveFirst(col, chosen))])
  }

  /** The inputs on which the source's foundation move calls Last() on a
      column it has just emptied. */
  predicate FoundationMoveCrashes(b: Board, src: nat, k: nat)
    requires WellShaped(b) && src < 7 && k < |b.columns[src]|
  {
    var col := b.columns[src];
    IsTopCard(col, k) && FoundationAccepts(col[k], b.stacks[col[k].suit])
    && RemoveFirst(col, col[k]) == []
  }

  /** The revealed card onto the foundation of its suit. */
  function RevealedToFoundation(b: Board): (b': Board)
    requires WellShaped(b)
    ensures WellShaped(b') && b'.columns == b.columns && b'.deck == b.deck && b'.spent == b.spent
    ensures b' != b ==> b.revealed.Some? && b'.revealed == None
  {
    match b.revealed
    case None => b
    case Some(c) =>
      if FoundationAccepts(c, b.stacks[c.suit])
      then b.(stacks := b.stacks[c.suit := b.stacks[c.suit] + [c]], revealed := None)
      else b
  }

  /** The revealed card onto column colNum (counted from 1).  The source
      prints a message for a number outside 1..7 but goes on to index the
      column list anyway, so the number must be in range. */
  function RevealedToColumn(b: Board, colNum: int): (b': Board)
    requires |b.columns| == 7 && (b.revealed.Some? ==> 1 <= colNum <= 7)
    ensures |b'.columns| == 7 && b'.stacks == b.stacks && b'.deck == b.deck && b'.spent == b.spent
    ensures b' != b ==> b.revealed.Some? && b'.revealed == None && |b'.columns[colNum - 1]| == |b.columns[colNum - 1]| + 1
  {
    match b.revealed
    case None => b
    case Some(c) =>
      var col := b.columns[colNum - 1];
      if TableauAccepts(c, col)
      then b.(columns := b.columns[colNum - 1 := col + [c]], revealed := None)
      else b
  }

  // ---------------------------------------------------------------- counting cards

  function KeySeq(s: seq<Card>): (r: seq<CardKey>)
    ensures |r| == |s| && forall i :: 0 <= i < |s| ==> r[i] == s[i].Key()
  {
    seq(|s|, i requires 0 <= i < |s| => s[i].Key())
  }

  /** The (rank, suit) identities in a pile, with multiplicity. */
  function Keys(s: seq<Card>): multiset<CardKey>
  {
    multiset(KeySeq(s))
  }

  /** All cards of the columns, column after column, bottom to top. */
  function Flatten(cols: seq<seq<Card>>): seq<Card>
  {
    if cols == [] then [] else Flatten(cols[..|cols| - 1]) + cols[|cols| - 1]
  }

  function StackOf(stacks: map<Suit, seq<Card>>, s: Suit): seq<Card>
  {
    if s in stacks then stacks[s] else []
  }

  function StackCards(stacks: map<Suit, seq<Card>>): seq<Card>
  {
    StackOf(stacks, Spades) + StackOf(stacks, Hearts) + StackOf(stacks, Diamonds) + StackOf(stacks, Clubs)
  }

  function RevealedCards(r: Option<Card>): seq<Card>
  {
    if r.Some? then [r.value] else []
  }

  /** Every card the game holds, wherever it is. */
  function AllCards(b: Board): seq<Card>
  {
    Flatten(b.columns) + b.deck + StackCards(b.stacks) + RevealedCards(b.revealed) + b.spent
  }

  function AllKeys(b: Board): multiset<CardKey>
  {
    Keys(AllCards(b))
  }
}
