/*
 * The two ValidMovement overloads of Game.cs: may a card be put on a
 * tableau column, and may it be put on a foundation pile.
 */
module Rules {
  import opened Cards

  /** `lower` continues a face-up run ending in `upper`: opposite colour and
      the next position in RANKS (one face value lower). */
  predicate Follows(upper: Card, lower: Card)
  {
    lower.Color() != upper.Color() && upper.rank + 1 == lower.rank
  }

  /** ValidMovement(Card, Column), on the column's card list: an empty column
      takes only a King; a column whose top is a "2" takes nothing; otherwise
      the card must be of the other colour and come right after the top in RANKS. */
  predicate TableauAccepts(target: Card, dest: seq<Card>): (r: bool)
    ensures r && dest != [] ==> Follows(dest[|dest| - 1], target)
    ensures r ==> target.rank != Ace
    ensures r && target.rank == King ==> dest == []
  {
    if |dest| == 0 then target.rank == King
    else
      var last := dest[|dest| - 1];
      if last.rank == Two then false
      else target.Color() != last.Color() && last.rank + 1 == target.rank
  }

  /** TableauAccepts read on rank names, as ValidMovement(Card, Column) tests
      them: "K" for an empty column, "2" for a closed one, and positions
      found with Array.IndexOf(RANKS, ...). */
  lemma TableauAcceptsByName(target: Card, dest: seq<Card>)
    ensures TableauAccepts(target, dest) <==>
              if |dest| == 0 then RANKS[target.rank] == "K"
              else
                var last := dest[|dest| - 1];
                if RANKS[last.rank] == "2" then false
                else target.Color() != last.Color()
                     && RankIndex(RANKS[last.rank]) + 1 == RankIndex(RANKS[target.rank])
  {
    if |dest| == 0 {
      if target.rank != King {
        RankNamesDistinct(target.rank, King);
      }
    } else {
      var last := dest[|dest| - 1];
      if last.rank != Two {
        RankNamesDistinct(last.rank, Two);
      }
      RankIndexOfName(last.rank);
      RankIndexOfName(target.rank);
    }
  }

  /** What TableauAccepts promises about the boundaries of the rank order. */
  lemma TableauBoundaries(target: Card, dest: seq<Card>)
    ensures dest == [] ==> (TableauAccepts(target, dest) <==> target.rank == King)
    ensures TableauAccepts(target, dest) && target.rank == King ==> dest == []
    ensures dest != [] && (dest[|dest| - 1].rank == Two || dest[|dest| - 1].rank == Ace)
            ==> !TableauAccepts(target, dest)
    ensures TableauAccepts(target, dest) ==> target.rank != Ace
    ensures TableauAccepts(target, dest) && dest != [] ==> Follows(dest[|dest| - 1], target)
  {
  }

  /** ValidMovement(Card, List<Card>) for a foundation pile: an empty pile
      takes only an Ace; otherwise the card must come right before the pile's
      top in RANKS (one face value higher).  The suit is not looked at: the
      caller picks the pile by the card's suit. */
  predicate FoundationAccepts(target: Card, dest: seq<Card>): (r: bool)
    ensures r ==> (dest == [] <==> target.rank == Ace)
    ensures r && target.rank == King ==> dest[|dest| - 1].rank == King + 1
  {
    if |dest| == 0 then target.rank == Ace
    else dest[|dest| - 1].rank - 1 == target.rank
  }

  /** FoundationAccepts read on rank names, as ValidMovement(Card, List<Card>)
      tests them: "A" for an empty pile, otherwise the position before the
      top's in RANKS. */
  lemma FoundationAcceptsByName(target: Card, dest: seq<Card>)
    ensures FoundationAccepts(target, dest) <==>
              if |dest| == 0 then RANKS[target.rank] == "A"
              else RankIndex(RANKS[dest[|dest| - 1].rank]) - 1 == RankIndex(RANKS[target.rank])
  {
    if |dest| == 0 {
      if target.rank != Ace {
        RankNamesDistinct(target.rank, Ace);
      }
    } else {
      RankIndexOfName(dest[|dest| - 1].rank);
      RankIndexOfName(target.rank);
    }
  }

  /** A foundation pile of suit s in the intended shape: Ace, 2, 3, ... of s. */
  predicate FoundationSound(pile: seq<Card>, s: Suit)
  {
    forall k :: 0 <= k < |pile| ==> pile[k].suit == s && pile[k].rank == Ace - k
  }

  /** Accepting a card of the pile's suit keeps the pile ascending from the Ace;
      so a pile never holds more than thirteen cards. */
  lemma FoundationAcceptsExtends(pile: seq<Card>, s: Suit, c: Card)
    requires FoundationSound(pile, s)
    requires FoundationAccepts(c, pile) && c.suit == s
    ensures FoundationSound(pile + [c], s)
    ensures |pile + [c]| <= 13
  {
    var p := pile + [c];
    forall k | 0 <= k < |p|
      ensures p[k].suit == s && p[k].rank == Ace - k
    {
      if k < |pile| {
        assert p[k] == pile[k];
      }
    }
    assert p[|p| - 1].rank == Ace - (|p| - 1);
  }

  /** The foundation rule read as a chain: a pile built only through
      FoundationAccepts, one card at a time, is exactly Ace, 2, 3, ... */
  predicate BuiltByFoundationRule(pile: seq<Card>)
  {
    forall k :: 0 <= k < |pile| ==> FoundationAccepts(pile[k], pile[..k])
  }

  lemma {:induction false} BuiltPileAscends(pile: seq<Card>)
    requires BuiltByFoundationRule(pile)
    ensures forall k :: 0 <= k < |pile| ==> pile[k].rank == Ace - k
  {
    if pile != [] {
      var init := pile[..|pile| - 1];
      forall k | 0 <= k < |init|
        ensures FoundationAccepts(init[k], init[..k])
      {
        assert init[k] == pile[k] && init[..k] == pile[..k];
      }
      BuiltPileAscends(init);
      var n := |pile| - 1;
      assert FoundationAccepts(pile[n], pile[..n]);
      if n > 0 {
        assert pile[..n][n - 1] == init[n - 1];
      }
    }
  }
}
