/*
 * Playing cards of the Pasjans solitaire (Card.cs).
 *
 * The source keeps a card's rank and suit as strings taken from the tables
 * Game.RANKS and Game.SUITS.  Here a suit is a closed enumeration and a rank
 * is its position in RANKS, which is exactly what Array.IndexOf(RANKS, rank)
 * yields for every card the game creates (see RankIndexOfName).
 */
module Cards {

  datatype Option<T> = None | Some(value: T)

  datatype Suit = Spades | Hearts | Diamonds | Clubs

  /** The suits in the order of Game.SUITS; the full deck is built in this order. */
  const SUITS: seq<Suit> := [Spades, Hearts, Diamonds, Clubs]

  datatype Color = Red | Black

  /** The rank names in the order of Game.RANKS: descending from King to Ace. */
  const RANKS: seq<string> := ["K", "Q", "J", "10", "9", "8", "7", "6", "5", "4", "3", "2", "A"]

  /** A rank is a position in RANKS. */
  type Rank = r: int | 0 <= r < 13

  const King: Rank := 0
  const Ten: Rank := 3
  const Two: Rank := 11
  const Ace: Rank := 12

  /** The identity of a card: what Card.Equals compares. */
  type CardKey = (Rank, Suit)

  /** Array.IndexOf for a sequence whose elements are compared with ==:
      the first position holding x, or -1. */
  function FirstIndex<T(==)>(s: seq<T>, x: T): (r: int)
    ensures -1 <= r < |s|
    ensures r == -1 <==> x !in s
    ensures 0 <= r ==> s[r] == x && forall i :: 0 <= i < r ==> s[i] != x
  {
    if s == [] then -1
    else if s[0] == x then 0
    else
      var r := FirstIndex(s[1..], x);
      if r == -1 then -1 else r + 1
  }

  /** Array.IndexOf(RANKS, name). */
  function RankIndex(name: string): int
  {
    FirstIndex(RANKS, name)
  }

  /** Every rank name is one character long except "10", which is two. */
  lemma RankNameShape(r: Rank)
    ensures r == Ten ==> RANKS[r] == "10"
    ensures r != Ten ==> |RANKS[r]| == 1 && RANKS[r][0] != '1'
    ensures RANKS[r][0] != '-'
  {
    if r == Ten {
    } else if r < Ten {
      assert r == 0 || r == 1 || r == 2;
    } else {
      assert 4 <= r <= 12;
    }
  }

  /** No two ranks share a name. */
  lemma RankNamesDistinct(i: Rank, j: Rank)
    requires i != j
    ensures RANKS[i] != RANKS[j]
  {
    RankNameShape(i);
    RankNameShape(j);
    if i != Ten && j != Ten {
      var a, b := RANKS[i][0], RANKS[j][0];
      assert a == "KQJ_98765432A"[i] by {
        assert i < 3 || 4 <= i;
      }
      assert b == "KQJ_98765432A"[j] by {
        assert j < 3 || 4 <= j;
      }
    }
  }

  /** The source's Array.IndexOf(RANKS, card.Rank) is the card's rank. */
  lemma RankIndexOfName(r: Rank)
    ensures RankIndex(RANKS[r]) == r
  {
    var k := RankIndex(RANKS[r]);
    assert RANKS[r] in RANKS;
    if k != r {
      RankNamesDistinct(k, r);
    }
  }

  /** The colour the Card constructor assigns to a suit (Card.cs, switch on suit). */
  function SuitColor(s: Suit): Color
  {
    match s
    case Clubs => Black
    case Spades => Black
    case Hearts => Red
    case Diamonds => Red
  }

  /** The glyph the Card constructor assigns to a suit. */
  function SuitIcon(s: Suit): char
  {
    match s
    case Clubs => '♣'
    case Spades => '♠'
    case Hearts => '♥'
    case Diamonds => '♦'
  }

  datatype Card = Card(rank: Rank, suit: Suit, covered: bool)
  {
    function Color(): Color
    {
      SuitColor(suit)
    }

    function Key(): CardKey
    {
      (rank, suit)
    }

    /** Card.ToString: a covered card shows "---"; a face-up "10" shows "10"
        and its icon; any other face-up card shows its rank, a blank and its icon. */
    function ToString(): (s: string)
      ensures |s| == 3
      ensures covered <==> s == "---"
    {
      RankNameShape(rank);
      if covered then "---"
      else if RANKS[rank] == "10" then
        var text := "10" + [SuitIcon(suit)];
        assert text[0] == '1';
        text
      else
        var text := RANKS[rank] + " " + [SuitIcon(suit)];
        assert text[0] == RANKS[rank][0];
        text
    }

    /** Card.Equals: same suit and same rank; the covered flag is not compared. */
    predicate Equals(other: Card): (r: bool)
      ensures r <==> Key() == other.Key()
      ensures r ==> Color() == other.Color()
    {
      other.suit == suit && other.rank == rank
    }
  }

  /** `new Card(rank, suit)`: a fresh card starts face down. */
  function NewCard(rank: Rank, suit: Suit): (c: Card)
    ensures c.covered && c.rank == rank && c.suit == suit
    ensures c.Color() == Black <==> suit == Clubs || suit == Spades
  {
    Card(rank, suit, true)
  }

  lemma EqualsIsSameKey(a: Card, b: Card)
    ensures a.Equals(b) <==> a.Key() == b.Key()
    ensures a.Equals(b) <==> a.(covered := !a.covered).Equals(b)
  {
  }

  /** The suit whose icon is ch, if any. */
  function SuitOfIcon(ch: char): (r: Option<Suit>)
    ensures r.Some? ==> SuitIcon(r.value) == ch
    ensures forall s :: SuitIcon(s) == ch ==> r == Some(s)
  {
    if ch == '♣' then Some(Clubs)
    else if ch == '♠' then Some(Spades)
    else if ch == '♥' then Some(Hearts)
    else if ch == '♦' then Some(Diamonds)
    else None
  }

  /** Reads back the text of a face-up card; the inverse of Card.ToString. */
  function ParseCard(s: string): Option<CardKey>
  {
    if |s| != 3 then None
    else
      var name := if s[1] == ' ' then s[..1] else s[..2];
      var r := RankIndex(name);
      match SuitOfIcon(s[2])
      case None => None
      case Some(suit) => if r < 0 then None else Some((r as Rank, suit))
  }

  /** Every face-up card is rendered as text that reads back as that card,
      and only such texts read back: distinct face-up cards never look alike. */
  lemma ParseCardInverse(s: string, key: CardKey)
    ensures ParseCard(s) == Some(key) <==> s == Card(key.0, key.1, false).ToString()
  {
    if s == Card(key.0, key.1, false).ToString() {
      ParseCardOfText(key);
    }
    if ParseCard(s) == Some(key) {
      TextOfParsedCard(s, key);
    }
  }

  lemma ParseCardOfText(key: CardKey)
    ensures ParseCard(Card(key.0, key.1, false).ToString()) == Some(key)
  {
    var c := Card(key.0, key.1, false);
    var s := c.ToString();
    FaceUpText(c);
    RankIndexOfName(key.0);
    assert SuitOfIcon(s[2]) == Some(key.1);
    if key.0 == Ten {
      assert s[1] != ' ' && s[..2] == RANKS[key.0];
    } else {
      assert s[1] == ' ' && s[..1] == RANKS[key.0];
    }
  }

  lemma TextOfParsedCard(s: string, key: CardKey)
    requires ParseCard(s) == Some(key)
    ensures s == Card(key.0, key.1, false).ToString()
  {
    var name := if s[1] == ' ' then s[..1] else s[..2];
    assert SuitOfIcon(s[2]) == Some(key.1) && RankIndex(name) == key.0;
    assert RANKS[key.0] == name;
    RankNameShape(key.0);
    FaceUpText(Card(key.0, key.1, false));
    if s[1] == ' ' {
      assert s == name + " " + [s[2]];
    } else {
      assert |name| == 2;
      assert s == name + [s[2]];
    }
  }

  /** The text of a face-up card, written out without the test on the rank name. */
  lemma FaceUpText(c: Card)
    requires !c.covered
    ensures c.ToString() == (if c.rank == Ten then "10" else RANKS[c.rank] + " ") + [SuitIcon(c.suit)]
  {
    RankNameShape(c.rank);
  }


  /** List<Card>.Contains: some element Equals c. */
  predicate Contains(s: seq<Card>, c: Card): (r: bool)
    ensures r <==> exists i :: 0 <= i < |s| && s[i].Key() == c.Key()
    ensures c in s || c.(covered := !c.covered) in s ==> r
  {
    exists i :: 0 <= i < |s| && s[i].Equals(c)
  }

  /** Array.IndexOf / List.IndexOf over cards, which compare with Card.Equals:
      the first position of a card equal to c, or -1. */
  function IndexOfCard(s: seq<Card>, c: Card): (r: int)
    ensures -1 <= r < |s|
    ensures r == -1 <==> !Contains(s, c)
    ensures 0 <= r ==> s[r].Equals(c) && forall i :: 0 <= i < r ==> !s[i].Equals(c)
  {
    if s == [] then -1
    else if s[0].Equals(c) then 0
    else
      var r := IndexOfCard(s[1..], c);
      assert forall i :: 1 <= i < |s| ==> s[i] == s[1..][i - 1];
      if r == -1 then -1 else r + 1
  }

  /** List<Card>.Remove: drops the first card equal to c, if there is one. */
  function RemoveFirst(s: seq<Card>, c: Card): (r: seq<Card>)
    ensures var i := IndexOfCard(s, c);
            if i < 0 then r == s else r == s[..i] + s[i + 1..]
  {
    if s == [] then []
    else if s[0].Equals(c) then s[1..]
    else
      var rest := RemoveFirst(s[1..], c);
      var i := IndexOfCard(s[1..], c);
      if i < 0 then
        [s[0]] + rest
      else
        DropAfterHead(s, i);
        [s[0]] + rest
  }

  /** Dropping position i of s[1..] is dropping position i + 1 of s. */
  lemma DropAfterHead(s: seq<Card>, i: nat)
    requires i + 1 < |s|
    ensures [s[0]] + (s[1..][..i] + s[1..][i + 1..]) == s[..i + 1] + s[i + 2..]
  {
    assert [s[0]] + s[1..][..i] == s[..i + 1];
    assert s[1..][i + 1..] == s[i + 2..];
  }
}
