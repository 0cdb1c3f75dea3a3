/*
 * Program.Validate: the consistency check run after every turn.  It scans
 * the columns in order, each from bottom to top, remembering every card it
 * has passed, and stops at the first pair of neighbours it rejects.
 */
module Validation {
  import opened Cards
  import opened Rules
  import opened Columns
  import opened Boards
  import opened Games

  /** Passed: the success message; Failed(c, j): the exception raised for the
      pair (column c, cards j - 1 and j), all counted from 0. */
  datatype Verdict = Passed | Failed(column: nat, index: nat)

  /** The cards the scan has added to `seen` when it reaches card j of column c. */
  function Seen(cols: seq<seq<Card>>, c: nat, j: nat): seq<Card>
    requires c < |cols| && j <= |cols[c]|
  {
    Flatten(cols[..c]) + cols[c][..j]
  }

  /** The test of Program.cs line 21 on card j of column c and the card below
      it: both face up and card j not continuing the run, or a card Equal to
      card j already seen.  The && clauses bind tighter than the ||. */
  predicate PairRejected(cols: seq<seq<Card>>, c: nat, j: nat): (r: bool)
    requires c < |cols| && 1 <= j < |cols[c]|
    ensures !cols[c][j].covered && !cols[c][j - 1].covered && !Follows(cols[c][j - 1], cols[c][j]) ==> r
    ensures !r ==> !Contains(cols[c][..j], cols[c][j])
  {
    var previous, card := cols[c][j - 1], cols[c][j];
    (!Follows(previous, card) && !card.covered && !previous.covered) || Contains(Seen(cols, c, j), card)
  }

  /** No pair of the columns is rejected; the first card of a column is never
      the second card of a pair, so it is checked neither for order nor for repetition. */
  predicate Passes(cols: seq<seq<Card>>): (r: bool)
    ensures (forall c :: 0 <= c < |cols| ==> |cols[c]| <= 1) ==> r
  {
    forall c, j :: 0 <= c < |cols| && 1 <= j < |cols[c]| ==> !PairRejected(cols, c, j)
  }

  /** (c, j) comes before (c', j') in the order of the scan. */
  predicate ScannedBefore(c: nat, j: nat, c': nat, j': nat)
  {
    c < c' || (c == c' && j < j')
  }

  /** The condition of Program.cs line 21, with ranks compared through
      Array.IndexOf on their names as the source does. */
  method RejectsPair(previous: Card, card: Card, seen: seq<Card>) returns (r: bool)
    ensures r == ((!Follows(previous, card) && !card.covered && !previous.covered) || Contains(seen, card))
  {
    RankIndexOfName(previous.rank);
    RankIndexOfName(card.rank);
    r := (!(card.Color() != previous.Color()
            && RankIndex(RANKS[previous.rank]) + 1 == RankIndex(RANKS[card.rank]))
          && !card.covered && !previous.covered)
         || Contains(seen, card);
  }

  /** Program.Validate.  It succeeds exactly when no pair is rejected, and
      otherwise reports the first rejected pair in scan order. */
  method Validate(game: Game) returns (v: Verdict)
    ensures v == Passed <==> Passes(game.ColumnCards())
    ensures v.Failed? ==>
              var cols := game.ColumnCards();
              v.column < |cols| && 1 <= v.index < |cols[v.column]|
              && PairRejected(cols, v.column, v.index)
              && forall c, j :: 0 <= c < |cols| && 1 <= j < |cols[c]| && ScannedBefore(c, j, v.column, v.index)
                                ==> !PairRejected(cols, c, j)
  {
    ghost var cols := game.ColumnCards();
    var seen: seq<Card> := [];
    var colIndex := 0;
    while colIndex < |game.columns|
      invariant 0 <= colIndex <= |cols|
      invariant seen == Flatten(cols[..colIndex])
      invariant forall c, j :: 0 <= c < colIndex && 1 <= j < |cols[c]| ==> !PairRejected(cols, c, j)
    {
      var column := game.columns[colIndex];
      var previousCard: Option<Card> := None;
      var j := 0;
      while j < |column.cards|
        invariant 0 <= j <= |cols[colIndex]|
        invariant seen == Seen(cols, colIndex, j)
        invariant previousCard == if j == 0 then None else Some(cols[colIndex][j - 1])
        invariant forall i :: 1 <= i < j ==> !PairRejected(cols, colIndex, i)
      {
        var card := column.cards[j];
        if previousCard.Some? {
          var rejected := RejectsPair(previousCard.value, card, seen);
          if rejected {
            assert PairRejected(cols, colIndex, j);
            assert game.ColumnCards() == cols;
            return Failed(colIndex, j);
          }
        }
        previousCard := Some(card);
        assert cols[colIndex][..j + 1] == cols[colIndex][..j] + [card];
        seen := seen + [card];
        j := j + 1;
      }
      assert cols[..colIndex + 1][..colIndex] == cols[..colIndex];
      assert cols[colIndex][..j] == cols[colIndex];
      colIndex := colIndex + 1;
    }
    assert cols[..colIndex] == cols;
    return Passed;
  }

  /** A pair in which either card is face down is rejected only for a repeated card. */
  lemma CoveredPairsOnlyRepeat(cols: seq<seq<Card>>, c: nat, j: nat)
    requires c < |cols| && 1 <= j < |cols[c]|
    requires cols[c][j].covered || cols[c][j - 1].covered
    ensures PairRejected(cols, c, j) <==> Contains(Seen(cols, c, j), cols[c][j])
  {
  }

  /** A face-up pair is rejected for order exactly when the upper card does not
      continue the run; two face-up neighbours that do are rejected only for repetition. */
  lemma FaceUpPairs(cols: seq<seq<Card>>, c: nat, j: nat)
    requires c < |cols| && 1 <= j < |cols[c]|
    requires !cols[c][j].covered && !cols[c][j - 1].covered
    ensures !Follows(cols[c][j - 1], cols[c][j]) ==> PairRejected(cols, c, j)
    ensures Follows(cols[c][j - 1], cols[c][j]) ==>
              (PairRejected(cols, c, j) <==> Contains(Seen(cols, c, j), cols[c][j]))
  {
  }

  /** `seen` runs across columns: a card repeating one from an earlier column
      is rejected, unless it lies at the bottom of its own column. */
  lemma RepeatAcrossColumns(cols: seq<seq<Card>>, c: nat, j: nat, c0: nat, j0: nat)
    requires c < |cols| && 1 <= j < |cols[c]|
    requires c0 < c && j0 < |cols[c0]| && cols[c0][j0].Equals(cols[c][j])
    ensures PairRejected(cols, c, j)
  {
    FlattenHolds(cols[..c], c0, j0);
    var seen := Seen(cols, c, j);
    var at := FlattenIndex(cols[..c], c0, j0);
    assert seen[at] == cols[c0][j0];
  }

  /** Where card j of column c sits in Flatten(cols). */
  function FlattenIndex(cols: seq<seq<Card>>, c: nat, j: nat): nat
    requires c < |cols| && j < |cols[c]|
  {
    |Flatten(cols[..c])| + j
  }

  lemma {:induction false} FlattenHolds(cols: seq<seq<Card>>, c: nat, j: nat)
    requires c < |cols| && j < |cols[c]|
    ensures FlattenIndex(cols, c, j) < |Flatten(cols)|
    ensures Flatten(cols)[FlattenIndex(cols, c, j)] == cols[c][j]
    decreases |cols|
  {
    var n := |cols| - 1;
    assert Flatten(cols) == Flatten(cols[..n]) + cols[n];
    if c == n {
    } else {
      assert cols[..n][..c] == cols[..c];
      FlattenHolds(cols[..n], c, j);
    }
  }
}
