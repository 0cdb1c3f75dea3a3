/*
 * One tableau column (Column.cs): a mutable list of cards, bottom first.
 */
module Columns {
  import opened Cards

  /** What Column.ToString produces for a list of cards: each card's text
      followed by a line break, then an empty line. */
  function ColumnText(cards: seq<Card>): (text: string)
  {
    if cards == [] then ""
    else ColumnText(cards[..|cards| - 1]) + cards[|cards| - 1].ToString() + "\n" + "\n"
  }

  /** Every card takes five characters of the column's text. */
  lemma {:induction false} ColumnTextLength(cards: seq<Card>)
    ensures |ColumnText(cards)| == 5 * |cards|
  {
    if cards != [] {
      ColumnTextLength(cards[..|cards| - 1]);
    }
  }

  /** The text of a column is the text of its lower part followed by that of its upper part. */
  lemma {:induction false} ColumnTextConcat(lower: seq<Card>, upper: seq<Card>)
    ensures ColumnText(lower + upper) == ColumnText(lower) + ColumnText(upper)
    decreases |upper|
  {
    if upper != [] {
      var init := upper[..|upper| - 1];
      var top := upper[|upper| - 1];
      assert (lower + upper)[..|lower + upper| - 1] == lower + init;
      ColumnTextConcat(lower, init);
    } else {
      assert lower + upper == lower;
    }
  }

  /** A column of one card shows that card and an empty line. */
  lemma ColumnTextSingle(card: Card)
    ensures ColumnText([card]) == card.ToString() + "\n" + "\n"
  {
    var text := card.ToString();
    assert [card][..0] == [];
    assert ColumnText([card]) == "" + text + "\n" + "\n";
    assert "" + text == text;
  }

  class Column {
    /** The column's cards, bottom (index 0) to top (last). */
    var cards: seq<Card>

    /** A new column is empty. */
    constructor ()
      ensures cards == []
    {
      cards := [];
    }

    /** The indexer's getter: the card at position i (out of range throws). */
    function Get(i: int): (c: Card)
      reads this
      requires 0 <= i < |cards|
      ensures c in cards
      ensures c == cards[i]
    {
      cards[i]
    }

    /** The indexer's setter: replaces the card at position i and nothing else. */
    method Set(i: int, c: Card)
      requires 0 <= i < |cards|
      modifies this
      ensures |cards| == |old(cards)|
      ensures Get(i) == c
      ensures forall k :: 0 <= k < |cards| && k != i ==> cards[k] == old(cards)[k]
    {
      cards := cards[i := c];
    }

    /** Column.ToString: appends each card's text and two line breaks, bottom to top. */
    method ToString() returns (text: string)
      ensures text == ColumnText(cards)
      ensures |text| == 5 * |cards|
    {
      text := "";
      var i := 0;
      while i < |cards|
        invariant 0 <= i <= |cards|
        invariant text == ColumnText(cards[..i])
      {
        assert cards[..i + 1][..i] == cards[..i];
        text := text + cards[i].ToString() + "\n";
        text := text + "\n";
        i := i + 1;
      }
      assert cards[..i] == cards;
      ColumnTextLength(cards);
    }
  }
}
