/*
 * What each move branch of Game.Interact does to the table, stated pile by
 * pile: which pile loses which cards, which pile gains them, and that a
 * refused move changes nothing.
 */
module Moves {
  import opened Cards
  import opened Rules
  import opened Boards
  import opened Conservation

  /** The run move: when accepted, the source column keeps the cards below
      position k with its new top face up, the destination gains the cards
      from k up, in order, and no other pile changes; when refused nothing
      changes.  Moving a run onto its own column puts it back where it was. */
  lemma MoveRunEffect(b: Board, src: nat, k: nat, dst: nat)
    requires src < |b.columns| && dst < |b.columns| && k < |b.columns[src]|
    ensures var b' := MoveRun(b, src, k, dst);
            b'.deck == b.deck && b'.stacks == b.stacks && b'.revealed == b.revealed && b'.spent == b.spent
            && |b'.columns| == |b.columns|
            && (forall c :: 0 <= c < |b.columns| && c != src && c != dst ==> b'.columns[c] == b.columns[c])
    ensures !RunAccepted(b, src, k, dst) ==> MoveRun(b, src, k, dst) == b
    ensures RunAccepted(b, src, k, dst) && src != dst ==>
              MoveRun(b, src, k, dst).columns[src] == UncoverTop(b.columns[src][..k])
              && MoveRun(b, src, k, dst).columns[dst] == b.columns[dst] + b.columns[src][k..]
    ensures RunAccepted(b, src, k, dst) && src == dst ==>
              MoveRun(b, src, k, dst).columns[src] == UncoverTop(b.columns[src])
  {
    if RunAccepted(b, src, k, dst) && src == dst {
      var col := b.columns[src];
      assert col[..k] + col[k..] == col;
    }
  }

  /** The foundation test of the column move: the chosen card counts as the
      column's top exactly when it is the top and no card Equal to it lies
      below; so a card that is not the top is always refused. */
  lemma IsTopCardMeans(col: seq<Card>, k: nat)
    requires k < |col|
    ensures IsTopCard(col, k) <==>
              k == |col| - 1 && forall i :: 0 <= i < |col| - 1 ==> !col[i].Equals(col[k])
  {
    if k < |col| - 1 {
      assert col[k].Equals(col[k]);
    }
  }

  /** The column-to-foundation move: a card that is not the top, or that its
      pile refuses, changes nothing; an accepted card leaves the top of its
      column, whose new top is turned face up, and lands on the pile of its
      suit; no other pile changes. */
  lemma ColumnToFoundationEffect(b: Board, src: nat, k: nat)
    requires WellShaped(b) && src < 7 && k < |b.columns[src]|
    ensures var b', chosen := ColumnToFoundation(b, src, k), b.columns[src][k];
            (!IsTopCard(b.columns[src], k) || !FoundationAccepts(chosen, b.stacks[chosen.suit]) ==> b' == b)
            && (IsTopCard(b.columns[src], k) && FoundationAccepts(chosen, b.stacks[chosen.suit]) ==>
                  k == |b.columns[src]| - 1
                  && b'.columns == b.columns[src := UncoverTop(b.columns[src][..k])]
                  && b'.stacks[chosen.suit] == b.stacks[chosen.suit] + [chosen]
                  && (forall s: Suit :: s != chosen.suit ==> b'.stacks[s] == b.stacks[s])
                  && b'.deck == b.deck && b'.revealed == b.revealed && b'.spent == b.spent)
  {
    var col := b.columns[src];
    if IsTopCard(col, k) {
      TopCardIsLast(col, k);
    }
  }

  /** The source's foundation move crashes exactly when it plays the only
      card of a column. */
  lemma FoundationMoveCrashesExactly(b: Board, src: nat, k: nat)
    requires WellShaped(b) && src < 7 && k < |b.columns[src]|
    ensures FoundationMoveCrashes(b, src, k) <==>
              IsTopCard(b.columns[src], k)
              && FoundationAccepts(b.columns[src][k], b.stacks[b.columns[src][k].suit])
              && |b.columns[src]| == 1
  {
    var col := b.columns[src];
    if IsTopCard(col, k) {
      TopCardIsLast(col, k);
    }
  }

  /** The revealed card to its foundation: nothing revealed, or a card its
      pile refuses, changes nothing; an accepted card leaves the reveal slot
      empty and lands on the pile of its suit, and no other pile changes. */
  lemma RevealedToFoundationEffect(b: Board)
    requires WellShaped(b)
    ensures var b' := RevealedToFoundation(b);
            (b.revealed.None? || !FoundationAccepts(b.revealed.value, b.stacks[b.revealed.value.suit]) ==> b' == b)
            && (b.revealed.Some? && FoundationAccepts(b.revealed.value, b.stacks[b.revealed.value.suit]) ==>
                  b'.revealed == None
                  && b'.stacks[b.revealed.value.suit] == b.stacks[b.revealed.value.suit] + [b.revealed.value]
                  && (forall s: Suit :: s != b.revealed.value.suit ==> b'.stacks[s] == b.stacks[s])
                  && b'.columns == b.columns && b'.deck == b.deck && b'.spent == b.spent)
  {
  }

  /** The revealed card to column colNum: nothing revealed, or a card the
      column refuses, changes nothing; an accepted card leaves the reveal slot
      empty and becomes the column's new top, and no other pile changes. */
  lemma RevealedToColumnEffect(b: Board, colNum: int)
    requires |b.columns| == 7 && (b.revealed.Some? ==> 1 <= colNum <= 7)
    ensures var b' := RevealedToColumn(b, colNum);
            (b.revealed.None? || !TableauAccepts(b.revealed.value, b.columns[colNum - 1]) ==> b' == b)
            && (b.revealed.Some? && TableauAccepts(b.revealed.value, b.columns[colNum - 1]) ==>
                  b'.revealed == None
                  && b'.columns[colNum - 1] == b.columns[colNum - 1] + [b.revealed.value]
                  && (forall c :: 0 <= c < 7 && c != colNum - 1 ==> b'.columns[c] == b.columns[c])
                  && |b'.columns| == 7
                  && b'.stacks == b.stacks && b'.deck == b.deck && b'.spent == b.spent)
  {
  }

  /** A draw from a non-empty deck: the deck loses exactly its front card,
      which is now the revealed card, face up; the card revealed before, if
      any, is now the spent pile's top, face down. */
  lemma DrawNextEffect(b: Board)
    requires |b.deck| > 0
    ensures var b' := DrawNext(b);
            [b.deck[0]] + b'.deck == b.deck
            && b'.revealed.Some? && b'.revealed.value.Key() == b.deck[0].Key() && !b'.revealed.value.covered
            && (b.revealed.None? ==> b'.spent == b.spent)
            && (b.revealed.Some? ==> |b'.spent| == |b.spent| + 1 && b'.spent[..|b.spent|] == b.spent
                                     && b'.spent[|b.spent|].Key() == b.revealed.value.Key()
                                     && b'.spent[|b.spent|].covered)
            && b'.columns == b.columns && b'.stacks == b.stacks
  {
    var b' := DrawNext(b);
    assert [b.deck[0]] + b.deck[1..] == b.deck;
    if b.revealed.Some? {
      assert b'.spent[..|b.spent|] == b.spent;
    }
  }
}
