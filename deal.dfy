/*
 * What `new Game()` leaves on the table, for every outcome of the shuffle.
 */
module Dealing {
  import opened Cards
  import opened Shuffling
  import opened Boards
  import opened Conservation

  /** The shape of the opening position: column i holds i + 1 cards of which
      only the last is face up, the 24 cards left stay face down in the deck,
      the four foundations are empty, nothing is revealed or spent. */
  lemma InitialDealShape(choices: seq<nat>)
    requires ValidChoices(choices, 52)
    ensures WellShaped(InitialBoard(choices))
    ensures forall i :: 0 <= i < 7 ==> |InitialBoard(choices).columns[i]| == i + 1
    ensures forall i, j :: 0 <= i < 7 && 0 <= j <= i ==>
              (InitialBoard(choices).columns[i][j].covered <==> j < i)
    ensures |InitialBoard(choices).deck| == 24
    ensures forall k :: 0 <= k < 24 ==> InitialBoard(choices).deck[k].covered
    ensures forall s: Suit :: InitialBoard(choices).stacks[s] == []
    ensures InitialBoard(choices).revealed == None && InitialBoard(choices).spent == []
  {
    var s := Shuffle(FullDeck(), choices);
    ShuffledFaceDown(choices);
    assert InitialBoard(choices) == Deal(s);
    DealShape(s);
  }

  /** Dealing 52 face-down cards gives the opening shape. */
  lemma DealShape(s: seq<Card>)
    requires |s| == 52 && forall k :: 0 <= k < 52 ==> s[k].covered
    ensures WellShaped(Deal(s))
    ensures forall i, j :: 0 <= i < 7 && 0 <= j <= i ==> (Deal(s).columns[i][j].covered <==> j < i)
    ensures forall k :: 0 <= k < 24 ==> Deal(s).deck[k].covered
    ensures forall t: Suit :: Deal(s).stacks[t] == []
  {
    var b := Deal(s);
    forall t: Suit
      ensures t in b.stacks && b.stacks[t] == []
    {
      assert t == Spades || t == Hearts || t == Diamonds || t == Clubs;
    }
    forall i, j | 0 <= i < 7 && 0 <= j <= i
      ensures b.columns[i][j].covered <==> j < i
    {
      TriangleBound(i + 1);
      assert b.columns[i] == DealtColumn(s, i);
      if j < i {
        assert b.columns[i][j] == s[Triangle(i) + j];
      }
    }
    forall k | 0 <= k < 24
      ensures b.deck[k].covered
    {
      assert b.deck[k] == s[28 + k];
    }
  }

  /** Every card of the shuffled deck is still face down. */
  lemma ShuffledFaceDown(choices: seq<nat>)
    requires ValidChoices(choices, 52)
    ensures |Shuffle(FullDeck(), choices)| == 52
    ensures forall k :: 0 <= k < 52 ==> Shuffle(FullDeck(), choices)[k].covered
  {
    var s := Shuffle(FullDeck(), choices);
    ShufflePermutes(FullDeck(), choices);
    forall k | 0 <= k < 52
      ensures s[k].covered
    {
      assert s[k] in multiset(s);
      assert s[k] in multiset(FullDeck());
    }
  }

  /** The opening position holds each of the 52 (rank, suit) pairs exactly once. */
  lemma InitialBoardHoldsEachCardOnce(choices: seq<nat>)
    requires ValidChoices(choices, 52)
    ensures forall key: CardKey :: AllKeys(InitialBoard(choices))[key] == 1
    ensures |AllCards(InitialBoard(choices))| == 52
  {
    var s := Shuffle(FullDeck(), choices);
    ShufflePermutes(FullDeck(), choices);
    DealKeys(s);
    ShuffleKeys(FullDeck(), choices);
    forall key: CardKey
      ensures Keys(FullDeck())[key] == 1
    {
      FullDeckHasKey(key);
    }
  }

  /** Dealing moves the cards of the deck onto the table without losing,
      adding or reordering any. */
  lemma DealKeys(s: seq<Card>)
    requires |s| == 52
    ensures KeySeq(AllCards(Deal(s))) == KeySeq(s)
    ensures |AllCards(Deal(s))| == 52
  {
    var b := Deal(s);
    DealPrefix(s, 7);
    assert b.columns[..7] == b.columns;
    assert StackCards(b.stacks) == [];
    assert AllCards(b) == Flatten(b.columns) + s[28..];
    KeySeqConcat(Flatten(b.columns), s[28..]);
    assert s == s[..28] + s[28..];
    KeySeqConcat(s[..28], s[28..]);
  }

  /** The first n columns of the deal hold the deck's first Triangle(n) cards, in order. */
  lemma {:induction false} DealPrefix(s: seq<Card>, n: nat)
    requires |s| == 52 && n <= 7
    ensures Triangle(n) <= 28 && KeySeq(Flatten(Deal(s).columns[..n])) == KeySeq(s[..Triangle(n)])
  {
    TriangleBound(n);
    var cols := Deal(s).columns;
    if n == 0 {
      assert cols[..0] == [];
    } else {
      TriangleBound(n - 1);
      DealPrefix(s, n - 1);
      var lo, hi := Triangle(n - 1), Triangle(n);
      var pre, col := Flatten(cols[..n - 1]), cols[n - 1];
      assert Flatten(cols[..n]) == pre + col by {
        assert cols[..n][..n - 1] == cols[..n - 1];
      }
      assert KeySeq(pre + col) == KeySeq(s[..lo]) + KeySeq(s[lo..hi]) by {
        KeySeqConcat(pre, col);
        DealtColumnKeys(s, n - 1);
      }
      assert KeySeq(s[..hi]) == KeySeq(s[..lo]) + KeySeq(s[lo..hi]) by {
        assert s[..hi] == s[..lo] + s[lo..hi];
        KeySeqConcat(s[..lo], s[lo..hi]);
      }
    }
  }

  /** Turning the last dealt card face up changes no identity: column i holds
      the keys of the deck's cards Triangle(i) to Triangle(i + 1), in order. */
  lemma DealtColumnKeys(s: seq<Card>, i: nat)
    requires |s| >= 28 && i < 7
    ensures Triangle(i + 1) <= 28 && KeySeq(DealtColumn(s, i)) == KeySeq(s[Triangle(i)..Triangle(i + 1)])
  {
    TriangleBound(i + 1);
    var lo := Triangle(i);
    var col := DealtColumn(s, i);
    forall k | 0 <= k < i + 1
      ensures col[k].Key() == s[lo..lo + i + 1][k].Key()
    {
    }
  }

  /** The position of a suit in SUITS. */
  function SuitIndex(s: Suit): (i: nat)
    ensures i < 4 && SUITS[i] == s
  {
    match s
    case Spades => 0
    case Hearts => 1
    case Diamonds => 2
    case Clubs => 3
  }

  /** The full deck holds each key exactly once. */
  lemma FullDeckHasKey(key: CardKey)
    ensures Keys(FullDeck())[key] == 1
  {
    var ks := KeySeq(FullDeck());
    var at := 13 * SuitIndex(key.1) + key.0;
    assert ks[at] == key;
    forall i, j | 0 <= i < j < |ks|
      ensures ks[i] != ks[j]
    {
      if i / 13 == j / 13 {
        assert i % 13 != j % 13;
      } else {
        assert SUITS[i / 13] != SUITS[j / 13] by {
          var a, c := i / 13, j / 13;
          assert a < 4 && c < 4;
        }
      }
    }
    CountOfDistinct(ks, at);
  }

  /** In a sequence without repetitions every element occurs once. */
  lemma {:induction false} CountOfDistinct<T>(s: seq<T>, at: nat)
    requires at < |s|
    requires forall i, j :: 0 <= i < j < |s| ==> s[i] != s[j]
    ensures multiset(s)[s[at]] == 1
  {
    var n := |s| - 1;
    var init := s[..n];
    assert s == init + [s[n]];
    if at == n {
      assert s[at] !in init;
    } else {
      assert init[at] == s[at];
      CountOfDistinct(init, at);
    }
  }
}
