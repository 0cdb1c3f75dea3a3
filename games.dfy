/*
 * Game.cs as a class: the constructor that builds, shuffles and deals the
 * deck, ShuffleDeck, NextDeckCard, and the branches of Interact that change
 * the table, each taking the player's choices as parameters.  Every method is
 * proved to leave the board exactly as the matching function of Boards says.
 */
module Games {
  import opened Cards
  import opened Rules
  import opened Shuffling
  import opened Columns
  import opened Boards

  /** The deck-building loops of the constructor: for each suit of SUITS,
      for each rank of RANKS, a new face-down card. */
  method NewDeck() returns (cards: seq<Card>)
    ensures cards == FullDeck()
  {
    cards := [];
    var si := 0;
    while si < 4
      invariant 0 <= si <= 4
      invariant cards == FullDeck()[..13 * si]
    {
      var ri := 0;
      while ri < 13
        invariant 0 <= ri <= 13
        invariant cards == FullDeck()[..13 * si + ri]
      {
        assert FullDeck()[..13 * si + ri + 1] == FullDeck()[..13 * si + ri] + [NewCard(ri, SUITS[si])];
        cards := cards + [NewCard(ri, SUITS[si])];
        ri := ri + 1;
      }
      si := si + 1;
    }
  }

  /** The constructor's loop adding an empty foundation pile for each suit. */
  method NewStacks() returns (stacks: map<Suit, seq<Card>>)
    ensures stacks == EmptyStacks()
    ensures forall t: Suit :: t in stacks && stacks[t] == []
  {
    stacks := map[];
    var k := 0;
    while k < 4
      invariant 0 <= k <= 4
      invariant forall t :: t in stacks <==> t in SUITS[..k]
      invariant forall t :: t in stacks ==> stacks[t] == []
    {
      stacks := stacks[SUITS[k] := []];
      k := k + 1;
    }
    assert SUITS[..4] == SUITS;
    forall t: Suit
      ensures t in stacks
    {
      assert t == SUITS[0] || t == SUITS[1] || t == SUITS[2] || t == SUITS[3];
    }
  }

  /** Column i of the deal, read from the part of the deck left when its turn comes. */
  lemma DealtColumnOfRest(s: seq<Card>, i: nat)
    requires i < 7 && |s| >= 28
    ensures Triangle(i) + i < |s|
    ensures DealtColumn(s, i) == s[Triangle(i)..][..i] + [s[Triangle(i)..][i].(covered := false)]
    ensures Triangle(i + 1) <= 28 && s[Triangle(i)..][i + 1..] == s[Triangle(i + 1)..]
  {
    TriangleBound(i + 1);
    assert s[Triangle(i)..][..i] == s[Triangle(i)..Triangle(i) + i];
  }

  class Game {
    var columns: seq<Column>
    var deck: seq<Card>
    /** FinalStacks: one foundation pile per suit. */
    var stacks: map<Suit, seq<Card>>
    /** RevealedCard; None stands for null. */
    var revealed: Option<Card>
    /** SpentDeck: revealed cards passed over, face down. */
    var spent: seq<Card>

    /** Seven distinct column objects and a pile for every suit. */
    predicate Valid()
      reads this, columns
    {
      |columns| == 7
      && (forall i, j :: 0 <= i < j < |columns| ==> columns[i] != columns[j])
      && (forall s: Suit :: s in stacks)
    }

    function ColumnCards(): (cols: seq<seq<Card>>)
      reads this, columns
      ensures |cols| == |columns|
      ensures forall i :: 0 <= i < |columns| ==> cols[i] == columns[i].cards
    {
      seq(|columns|, i reads this, columns requires 0 <= i < |columns| => columns[i].cards)
    }

    /** The game's state as a value. */
    function Board(): Board
      reads this, columns
    {
      Boards.Board(ColumnCards(), deck, stacks, revealed, spent)
    }

    /** `new Game()`: the 52 cards are created suit by suit, shuffled with the
        given choices, the foundations are made empty and column i receives
        the next i + 1 cards from the front of the deck, the last face up. */
    constructor (choices: seq<nat>)
      requires ValidChoices(choices, 52)
      ensures Valid()
      ensures Board() == InitialBoard(choices)
    {
      var cards := NewDeck();
      deck := cards;
      new;
      ShuffleDeck(choices);
      ShufflePermutes(FullDeck(), choices);
      stacks := NewStacks();
      revealed := None;
      spent := [];
      DealColumns();
    }

    /** The dealing loops of the constructor: seven distinct columns, column i
        taking i + 1 cards from the front of the deck, the last turned face up. */
    method DealColumns()
      requires |deck| == 52 && forall s: Suit :: s in stacks
      modifies this
      ensures Valid()
      ensures ColumnCards() == Deal(old(deck)).columns
      ensures deck == old(deck)[28..]
      ensures stacks == old(stacks) && revealed == old(revealed) && spent == old(spent)
    {
      ghost var shuffled := deck;
      columns := [];
      var i := 0;
      while i < 7
        invariant 0 <= i <= 7
        invariant DealtUpTo(shuffled, i)
        invariant stacks == old(stacks) && revealed == old(revealed) && spent == old(spent)
      {
        AddDealtColumn(shuffled, i);
        i := i + 1;
      }
      assert forall a :: 0 <= a < 7 ==> ColumnCards()[a] == Deal(shuffled).columns[a];
    }

    /** The state after dealing the first i columns from the shuffled deck. */
    ghost predicate DealtUpTo(shuffled: seq<Card>, i: nat)
      reads this, columns
    {
      |shuffled| == 52 && i <= 7 && |columns| == i
      && (forall a, b :: 0 <= a < b < i ==> columns[a] != columns[b])
      && (forall a :: 0 <= a < i ==> columns[a].cards == DealtColumn(shuffled, a))
      && Triangle(i) <= 28 && deck == shuffled[Triangle(i)..]
    }

    /** One round of the outer dealing loop: a new column holding the next i + 1 cards. */
    method AddDealtColumn(ghost shuffled: seq<Card>, i: nat)
      requires i < 7 && DealtUpTo(shuffled, i)
      modifies this
      ensures DealtUpTo(shuffled, i + 1)
      ensures stacks == old(stacks) && revealed == old(revealed) && spent == old(spent)
    {
      DealtColumnOfRest(shuffled, i);
      var col := DealInto(i);
      columns := columns + [col];
    }

    /** The inner dealing loop: the next i + 1 cards of the deck go onto a
        new column, the last of them turned face up. */
    method DealInto(i: nat) returns (col: Column)
      requires i < |deck|
      modifies this
      ensures fresh(col)
      ensures col.cards == old(deck)[..i] + [old(deck)[i].(covered := false)]
      ensures deck == old(deck)[i + 1..]
      ensures columns == old(columns) && stacks == old(stacks)
      ensures revealed == old(revealed) && spent == old(spent)
    {
      col := new Column();
      var j := 0;
      while j <= i
        invariant fresh(col)
        invariant 0 <= j <= i + 1
        invariant deck == old(deck)[j..]
        invariant col.cards == if j <= i then old(deck)[..j] else old(deck)[..i] + [old(deck)[i].(covered := false)]
        invariant columns == old(columns) && stacks == old(stacks)
        invariant revealed == old(revealed) && spent == old(spent)
      {
        var card := deck[0];
        deck := deck[1..];
        if j == i {
          card := card.(covered := false);
        }
        col.cards := col.cards + [card];
        j := j + 1;
      }
    }

    /** ShuffleDeck: for i from the last index down to 1, swap Deck[i] with
        Deck[choices[i]], where choices[i] stands for random.Next(i + 1). */
    method ShuffleDeck(choices: seq<nat>)
      requires ValidChoices(choices, |deck|)
      modifies this
      ensures deck == Shuffle(old(deck), choices)
      ensures columns == old(columns) && stacks == old(stacks)
      ensures revealed == old(revealed) && spent == old(spent)
    {
      var i := |deck| - 1;
      while i > 0
        invariant -1 <= i < |deck|
        invariant |deck| == |old(deck)|
        invariant ShuffleSteps(deck, choices, i + 1) == Shuffle(old(deck), choices)
        invariant columns == old(columns) && stacks == old(stacks)
        invariant revealed == old(revealed) && spent == old(spent)
      {
        var j := choices[i];
        deck := Swap(deck, i, j);
        i := i - 1;
      }
    }

    /** NextDeckCard (callers must make sure the deck is not empty). */
    method NextDeckCard()
      requires Valid() && |deck| > 0
      modifies this
      ensures Valid()
      ensures Board() == DrawNext(old(Board()))
    {
      if revealed.Some? {
        var r := revealed.value.(covered := true);
        spent := spent + [r];
      }
      revealed := Some(deck[0].(covered := false));
      deck := deck[1..];
    }

    /** The "N" choice of Interact.  An empty deck is "reshuffled" as the
        source does it: Deck is made the very list SpentDeck names and that
        list is cleared, so both end empty; the shuffle then has no card to move. */
    method Draw()
      requires Valid() && (|deck| > 0 || revealed.Some?)
      modifies this
      ensures Valid()
      ensures Board() == DrawStep(old(Board()))
    {
      if |deck| == 0 {
        var r := revealed.value.(covered := true);
        spent := spent + [r];
        revealed := None;
        deck := spent;
        spent := [];
        deck := spent;
        ShuffleDeck([]);
      } else {
        NextDeckCard();
      }
    }

    /** The run move of Interact ("S" then "S"): column src, card index k in
        it (from 0), destination column dst (both from 0). */
    method MoveRun(src: nat, k: nat, dst: nat) returns (outcome: Outcome)
      requires Valid() && src < 7 && dst < 7 && k < |columns[src].cards|
      modifies columns[src], columns[dst]
      ensures Valid()
      ensures Board() == Boards.MoveRun(old(Board()), src, k, dst)
      ensures outcome == if RunAccepted(old(Board()), src, k, dst) then Moved else NotAllowed
    {
      var targetCol := columns[src];
      var chosen := targetCol.cards[k];
      var destCol := columns[dst];
      ghost var before := Board();
      if TableauAccepts(chosen, destCol.cards) {
        var countToMove := |targetCol.cards| - k;
        var cardsToMove := targetCol.cards[k .. k + countToMove];
        targetCol.cards := targetCol.cards[..k];
        ghost var cols1 := before.columns[src := before.columns[src][..k]];
        assert ColumnCards() == cols1;
        assert destCol.cards == cols1[dst];
        destCol.cards := destCol.cards + cardsToMove;
        ghost var cols2 := cols1[dst := cols1[dst] + before.columns[src][k..]];
        assert cardsToMove == before.columns[src][k..];
        assert ColumnCards() == cols2;
        if |targetCol.cards| > 0 {
          var n := |targetCol.cards| - 1;
          targetCol.cards := targetCol.cards[n := targetCol.cards[n].(covered := false)];
        }
        assert ColumnCards() == cols2[src := UncoverTop(cols2[src])];
        outcome := Moved;
      } else {
        outcome := NotAllowed;
      }
    }

    /** A column card onto the foundation of its suit ("S" then "K").  The
        source calls Last() on the column after removing the card, which
        throws when the card was the column's only one; callers must avoid that. */
    method MoveColumnToFoundation(src: nat, k: nat) returns (outcome: Outcome)
      requires Valid() && src < 7 && k < |columns[src].cards|
      requires !FoundationMoveCrashes(Board(), src, k)
      modifies this, columns[src]
      ensures Valid()
      ensures Board() == ColumnToFoundation(old(Board()), src, k)
      ensures !IsTopCard(old(columns[src].cards), k) ==> outcome == NotSingleCard
      ensures IsTopCard(old(columns[src].cards), k) ==>
                outcome == if FoundationAccepts(old(columns[src].cards[k]), old(stacks[columns[src].cards[k].suit]))
                           then Moved else NotAllowed
    {
      var targetCol := columns[src];
      var chosen := targetCol.cards[k];
      var dest := stacks[chosen.suit];
      if IndexOfCard(targetCol.cards, chosen) != |targetCol.cards| - 1 {
        outcome := NotSingleCard;
        return;
      }
      if FoundationAccepts(chosen, dest) {
        stacks := stacks[chosen.suit := dest + [chosen]];
        targetCol.cards := RemoveFirst(targetCol.cards, chosen);
        var n := |targetCol.cards| - 1;
        targetCol.cards := targetCol.cards[n := targetCol.cards[n].(covered := false)];
        outcome := Moved;
      } else {
        outcome := NotAllowed;
      }
    }

    /** The revealed card onto the foundation of its suit ("T" then "K"). */
    method MoveRevealedToFoundation() returns (outcome: Outcome)
      requires Valid()
      modifies this
      ensures Valid()
      ensures Board() == RevealedToFoundation(old(Board()))
      ensures old(revealed).None? ==> outcome == NothingRevealed
      ensures old(revealed).Some? ==>
                outcome == if FoundationAccepts(old(revealed).value, old(stacks)[old(revealed).value.suit])
                           then Moved else NotAllowed
    {
      if revealed.None? {
        outcome := NothingRevealed;
        return;
      }
      var card := revealed.value;
      var dest := stacks[card.suit];
      if FoundationAccepts(card, dest) {
        stacks := stacks[card.suit := dest + [card]];
        revealed := None;
        outcome := Moved;
      } else {
        outcome := NotAllowed;
      }
    }

    /** The revealed card onto column colNum, counted from 1 ("T" then "S").
        The source reports a number outside 1..7 and then indexes the column
        list with it anyway, which throws; callers must pass a valid number. */
    method MoveRevealedToColumn(colNum: int) returns (outcome: Outcome)
      requires Valid() && (revealed.Some? ==> 1 <= colNum <= 7)
      modifies this, if 1 <= colNum <= 7 then {columns[colNum - 1]} else {}
      ensures Valid()
      ensures Board() == RevealedToColumn(old(Board()), colNum)
      ensures old(revealed).None? ==> outcome == NothingRevealed
      ensures old(revealed).Some? ==>
                outcome == if TableauAccepts(old(revealed).value, old(columns[colNum - 1].cards))
                           then Moved else NotAllowed
    {
      if revealed.None? {
        outcome := NothingRevealed;
        return;
      }
      var card := revealed.value;
      var col := columns[colNum - 1];
      if TableauAccepts(card, col.cards) {
        col.cards := col.cards + [card];
        revealed := None;
        outcome := Moved;
      } else {
        outcome := NotAllowed;
      }
    }
  }
}
