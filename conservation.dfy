/*
 * Card conservation: no move of Game.Interact creates, loses or duplicates a
 * card, with the single exception of the empty-deck recycle; and the deal
 * holds each of the 52 (rank, suit) pairs exactly once.
 */
module Conservation {
  import opened Cards
  import opened Rules
  import opened Shuffling
  import opened Boards

  // ---------------------------------------------------------------- sequences of keys

  lemma KeySeqConcat(a: seq<Card>, b: seq<Card>)
    ensures KeySeq(a + b) == KeySeq(a) + KeySeq(b)
  {
  }

  lemma KeysConcat(a: seq<Card>, b: seq<Card>)
    ensures Keys(a + b) == Keys(a) + Keys(b)
  {
    KeySeqConcat(a, b);
  }

  /** Turning the top card face up changes no card's identity. */
  lemma UncoverKeys(col: seq<Card>)
    ensures |UncoverTop(col)| == |col|
    ensures KeySeq(UncoverTop(col)) == KeySeq(col)
  {
  }

  /** A multiset of keys counts exactly the cards it was taken from. */
  lemma KeysSize(s: seq<Card>)
    ensures |Keys(s)| == |s|
  {
  }

  lemma {:induction false} FlattenConcat(a: seq<seq<Card>>, b: seq<seq<Card>>)
    ensures Flatten(a + b) == Flatten(a) + Flatten(b)
    decreases |b|
  {
    if b == [] {
      assert a + b == a;
    } else {
      var init := b[..|b| - 1];
      assert (a + b)[..|a + b| - 1] == a + init;
      FlattenConcat(a, init);
    }
  }

  /** Replacing column i by x trades that column's cards for x's. */
  lemma FlattenUpdate(cols: seq<seq<Card>>, i: nat, x: seq<Card>)
    requires i < |cols|
    ensures Keys(Flatten(cols[i := x])) + Keys(cols[i]) == Keys(Flatten(cols)) + Keys(x)
    ensures |Flatten(cols[i := x])| + |cols[i]| == |Flatten(cols)| + |x|
  {
    var pre, post := cols[..i], cols[i + 1..];
    assert cols == pre + [cols[i]] + post;
    assert cols[i := x] == pre + [x] + post;
    FlattenConcat(pre + [cols[i]], post);
    FlattenConcat(pre, [cols[i]]);
    FlattenConcat(pre + [x], post);
    FlattenConcat(pre, [x]);
    assert Flatten([cols[i]]) == cols[i] by {
      assert [cols[i]][..0] == [];
    }
    assert Flatten([x]) == x by {
      assert [x][..0] == [];
    }
    var fp, fq := Flatten(pre), Flatten(post);
    KeysConcat(fp + cols[i], fq);
    KeysConcat(fp, cols[i]);
    KeysConcat(fp + x, fq);
    KeysConcat(fp, x);
  }

  lemma StackCardsKeys(stacks: map<Suit, seq<Card>>)
    ensures Keys(StackCards(stacks)) == Keys(StackOf(stacks, Spades)) + Keys(StackOf(stacks, Hearts))
                                        + Keys(StackOf(stacks, Diamonds)) + Keys(StackOf(stacks, Clubs))
  {
    var a, b, c, d := StackOf(stacks, Spades), StackOf(stacks, Hearts), StackOf(stacks, Diamonds), StackOf(stacks, Clubs);
    KeysConcat(a + b + c, d);
    KeysConcat(a + b, c);
    KeysConcat(a, b);
  }

  /** Replacing the pile of suit s by x trades that pile's cards for x's. */
  lemma StackUpdate(stacks: map<Suit, seq<Card>>, s: Suit, x: seq<Card>)
    ensures Keys(StackCards(stacks[s := x])) + Keys(StackOf(stacks, s)) == Keys(StackCards(stacks)) + Keys(x)
    ensures |StackCards(stacks[s := x])| + |StackOf(stacks, s)| == |StackCards(stacks)| + |x|
  {
    var st := stacks[s := x];
    StackCardsKeys(stacks);
    StackCardsKeys(st);
    var a, b, c, d := StackOf(stacks, Spades), StackOf(stacks, Hearts), StackOf(stacks, Diamonds), StackOf(stacks, Clubs);
    assert StackOf(st, Spades) == if s == Spades then x else a;
    assert StackOf(st, Hearts) == if s == Hearts then x else b;
    assert StackOf(st, Diamonds) == if s == Diamonds then x else c;
    assert StackOf(st, Clubs) == if s == Clubs then x else d;
    SwapSummand(Keys(a), Keys(b), Keys(c), Keys(d), Keys(x), s);
    assert |x| == |Keys(x)| && |a| == |Keys(a)| && |b| == |Keys(b)| && |c| == |Keys(c)| && |d| == |Keys(d)| by {
      KeysSize(x); KeysSize(a); KeysSize(b); KeysSize(c); KeysSize(d);
    }
    KeysSize(StackCards(st));
    KeysSize(StackCards(stacks));
  }

  /** The pile of suit s, among the four, traded for x. */
  lemma SwapSummand(a: multiset<CardKey>, b: multiset<CardKey>, c: multiset<CardKey>, d: multiset<CardKey>,
                    x: multiset<CardKey>, s: Suit)
    ensures (if s == Spades then x else a) + (if s == Hearts then x else b)
            + (if s == Diamonds then x else c) + (if s == Clubs then x else d)
            + (match s case Spades => a case Hearts => b case Diamonds => c case Clubs => d)
            == a + b + c + d + x
  {
  }

  /** The multiset of all keys, pile by pile. */
  lemma AllKeysSplit(b: Board)
    ensures AllKeys(b) == Keys(Flatten(b.columns)) + Keys(b.deck) + Keys(StackCards(b.stacks))
                          + Keys(RevealedCards(b.revealed)) + Keys(b.spent)
    ensures |AllCards(b)| == |Flatten(b.columns)| + |b.deck| + |StackCards(b.stacks)|
                             + |RevealedCards(b.revealed)| + |b.spent|
  {
    var f, st, r := Flatten(b.columns), StackCards(b.stacks), RevealedCards(b.revealed);
    KeysConcat(f + b.deck + st + r, b.spent);
    KeysConcat(f + b.deck + st, r);
    KeysConcat(f + b.deck, st);
    KeysConcat(f, b.deck);
  }

  // ---------------------------------------------------------------- one lemma per move

  /** NextDeckCard moves one card from the deck to the reveal slot and the
      previous revealed card to the spent pile: all cards are kept. */
  lemma DrawNextConserves(b: Board)
    requires |b.deck| > 0
    ensures AllKeys(DrawNext(b)) == AllKeys(b)
    ensures |AllCards(DrawNext(b))| == |AllCards(b)|
  {
    var b' := DrawNext(b);
    DrawNextBefore(b);
    DrawNextAfter(b);
    var f, d, st, t := Keys(Flatten(b.columns)), Keys(b'.deck), Keys(StackCards(b.stacks)), multiset{b.deck[0].Key()};
    var p, r := Keys(b.spent), Keys(RevealedCards(b.revealed));
    assert f + (t + d) + st + r + p == f + d + st + t + (p + r);
    SameKeysSameCount(b, b');
  }

  lemma DrawNextBefore(b: Board)
    requires |b.deck| > 0
    ensures AllKeys(b) == Keys(Flatten(b.columns)) + (multiset{b.deck[0].Key()} + Keys(b.deck[1..]))
                          + Keys(StackCards(b.stacks)) + Keys(RevealedCards(b.revealed)) + Keys(b.spent)
  {
    AllKeysSplit(b);
    assert Keys(b.deck) == multiset{b.deck[0].Key()} + Keys(b.deck[1..]) by {
      assert b.deck == [b.deck[0]] + b.deck[1..];
      KeysConcat([b.deck[0]], b.deck[1..]);
    }
  }

  lemma DrawNextAfter(b: Board)
    requires |b.deck| > 0
    ensures AllKeys(DrawNext(b)) == Keys(Flatten(b.columns)) + Keys(b.deck[1..]) + Keys(StackCards(b.stacks))
                                    + multiset{b.deck[0].Key()} + (Keys(b.spent) + Keys(RevealedCards(b.revealed)))
  {
    var b' := DrawNext(b);
    AllKeysSplit(b');
    assert b'.columns == b.columns && b'.deck == b.deck[1..] && b'.stacks == b.stacks;
    assert Keys(RevealedCards(b'.revealed)) == multiset{b.deck[0].Key()};
    assert Keys(b'.spent) == Keys(b.spent) + Keys(RevealedCards(b.revealed)) by {
      if b.revealed.Some? {
        KeysConcat(b.spent, [b.revealed.value.(covered := true)]);
      }
    }
  }

  /** Boards holding the same keys hold the same number of cards. */
  lemma SameKeysSameCount(b: Board, b': Board)
    requires AllKeys(b) == AllKeys(b')
    ensures |AllCards(b)| == |AllCards(b')|
  {
    KeysSize(AllCards(b));
    KeysSize(AllCards(b'));
  }

  /** Two boards that differ at most in their columns, whose columns hold
      the same keys, hold the same keys. */
  lemma SameColumnKeys(b: Board, b': Board)
    requires b'.deck == b.deck && b'.stacks == b.stacks && b'.revealed == b.revealed && b'.spent == b.spent
    requires Keys(Flatten(b'.columns)) == Keys(Flatten(b.columns))
    ensures AllKeys(b') == AllKeys(b)
  {
    AllKeysSplit(b);
    AllKeysSplit(b');
  }

  /** The run move moves cards between columns only. */
  lemma MoveRunConserves(b: Board, src: nat, k: nat, dst: nat)
    requires src < |b.columns| && dst < |b.columns| && k < |b.columns[src]|
    ensures AllKeys(MoveRun(b, src, k, dst)) == AllKeys(b)
    ensures |AllCards(MoveRun(b, src, k, dst))| == |AllCards(b)|
    ensures |MoveRun(b, src, k, dst).columns| == |b.columns|
  {
    var b' := MoveRun(b, src, k, dst);
    if RunAccepted(b, src, k, dst) {
      MoveRunColumnKeys(b, src, k, dst);
      SameColumnKeys(b, b');
      SameKeysSameCount(b, b');
    }
  }

  lemma MoveRunColumnKeys(b: Board, src: nat, k: nat, dst: nat)
    requires src < |b.columns| && dst < |b.columns| && k < |b.columns[src]|
    requires RunAccepted(b, src, k, dst)
    ensures Keys(Flatten(MoveRun(b, src, k, dst).columns)) == Keys(Flatten(b.columns))
  {
    var cols, col := b.columns, b.columns[src];
    var cols1 := cols[src := col[..k]];
    var cols2 := cols1[dst := cols1[dst] + col[k..]];
    var cols3 := cols2[src := UncoverTop(cols2[src])];
    assert MoveRun(b, src, k, dst).columns == cols3;
    var k0, k1, k2, k3 := Keys(Flatten(cols)), Keys(Flatten(cols1)), Keys(Flatten(cols2)), Keys(Flatten(cols3));
    var kpre, ksuf, kd, kc := Keys(col[..k]), Keys(col[k..]), Keys(cols1[dst]), Keys(cols2[src]);
    assert k1 + (kpre + ksuf) == k0 + kpre by {
      assert col == col[..k] + col[k..];
      KeysConcat(col[..k], col[k..]);
      FlattenUpdate(cols, src, col[..k]);
    }
    assert k2 + kd == k1 + (kd + ksuf) by {
      KeysConcat(cols1[dst], col[k..]);
      FlattenUpdate(cols1, dst, cols1[dst] + col[k..]);
    }
    assert k3 + kc == k2 + kc by {
      FlattenUpdate(cols2, src, UncoverTop(cols2[src]));
      UncoverKeys(cols2[src]);
    }
    MoveAlgebra(k0, k1, k2, k3, kpre, ksuf, kd, kc);
  }

  /** Multiset algebra for the run move: what src loses, dst gains. */
  lemma MoveAlgebra(k0: multiset<CardKey>, k1: multiset<CardKey>, k2: multiset<CardKey>, k3: multiset<CardKey>,
                    kpre: multiset<CardKey>, ksuf: multiset<CardKey>, kd: multiset<CardKey>, kc: multiset<CardKey>)
    requires k1 + (kpre + ksuf) == k0 + kpre
    requires k2 + kd == k1 + (kd + ksuf)
    requires k3 + kc == k2 + kc
    ensures k3 == k0
  {
    assert forall x :: k3[x] == k0[x] by {
      forall x ensures k3[x] == k0[x] {
        assert (k1 + (kpre + ksuf))[x] == (k0 + kpre)[x];
        assert (k2 + kd)[x] == (k1 + (kd + ksuf))[x];
        assert (k3 + kc)[x] == (k2 + kc)[x];
      }
    }
  }

  /** Multiset algebra: a pile that traded d for d + c gained exactly c. */
  lemma Gained(x: multiset<CardKey>, y: multiset<CardKey>, d: multiset<CardKey>, c: multiset<CardKey>)
    requires x + d == y + (d + c)
    ensures x == y + c
  {
    assert forall e :: x[e] == (y + c)[e] by {
      forall e ensures x[e] == (y + c)[e] {
        assert (x + d)[e] == (y + (d + c))[e];
      }
    }
  }

  lemma SingleKeys(card: Card)
    ensures Keys([card]) == multiset{card.Key()}
  {
    assert KeySeq([card]) == [card.Key()];
  }

  /** The card the foundation test accepts is the column's top card. */
  lemma TopCardIsLast(col: seq<Card>, k: nat)
    requires k < |col| && IsTopCard(col, k)
    ensures k == |col| - 1
    ensures RemoveFirst(col, col[k]) == col[..|col| - 1]
  {
  }

  /** A column card played to its foundation leaves the column for the pile. */
  lemma ColumnToFoundationConserves(b: Board, src: nat, k: nat)
    requires WellShaped(b) && src < 7 && k < |b.columns[src]|
    ensures WellShaped(ColumnToFoundation(b, src, k))
    ensures AllKeys(ColumnToFoundation(b, src, k)) == AllKeys(b)
    ensures |AllCards(ColumnToFoundation(b, src, k))| == |AllCards(b)|
  {
    var b' := ColumnToFoundation(b, src, k);
    var chosen := b.columns[src][k];
    if IsTopCard(b.columns[src], k) && FoundationAccepts(chosen, b.stacks[chosen.suit]) {
      var c := multiset{chosen.Key()};
      var f' := Keys(Flatten(b'.columns));
      var st := Keys(StackCards(b.stacks));
      TopCardLeavesColumns(b, src, k);
      FoundationGains(b.stacks, chosen);
      assert b'.stacks == b.stacks[chosen.suit := b.stacks[chosen.suit] + [chosen]];
      AllKeysSplit(b);
      AllKeysSplit(b');
      var d, r, p := Keys(b.deck), Keys(RevealedCards(b.revealed)), Keys(b.spent);
      CardToPile(f', d, st, r, p, c);
      SameKeysSameCount(b, b');
    }
  }

  /** Card c leaves the columns (f) for the foundations (st); the deck (d),
      the reveal slot (r) and the spent pile (p) keep their cards. */
  lemma CardToPile(f: multiset<CardKey>, d: multiset<CardKey>, st: multiset<CardKey>, r: multiset<CardKey>,
                   p: multiset<CardKey>, c: multiset<CardKey>)
    ensures (f + c) + d + st + r + p == f + d + (st + c) + r + p
  {
  }

  /** The columns after the foundation move hold all keys of the columns before but the moved card's. */
  lemma TopCardLeavesColumns(b: Board, src: nat, k: nat)
    requires WellShaped(b) && src < 7 && k < |b.columns[src]|
    requires IsTopCard(b.columns[src], k)
    requires FoundationAccepts(b.columns[src][k], b.stacks[b.columns[src][k].suit])
    ensures Keys(Flatten(b.columns)) == Keys(Flatten(ColumnToFoundation(b, src, k).columns)) + multiset{b.columns[src][k].Key()}
  {
    var col := b.columns[src];
    var chosen := col[k];
    var rest := col[..|col| - 1];
    TopCardIsLast(col, k);
    assert ColumnToFoundation(b, src, k).columns == b.columns[src := UncoverTop(rest)];
    assert col == rest + [chosen];
    KeysConcat(rest, [chosen]);
    SingleKeys(chosen);
    FlattenUpdate(b.columns, src, UncoverTop(rest));
    UncoverKeys(rest);
    Gained(Keys(Flatten(b.columns)), Keys(Flatten(b.columns[src := UncoverTop(rest)])), Keys(rest), multiset{chosen.Key()});
  }

  /** Putting a card on the pile of its suit adds exactly that card to the foundations. */
  lemma FoundationGains(stacks: map<Suit, seq<Card>>, card: Card)
    requires card.suit in stacks
    ensures Keys(StackCards(stacks[card.suit := stacks[card.suit] + [card]])) == Keys(StackCards(stacks)) + multiset{card.Key()}
  {
    var dest := stacks[card.suit];
    KeysConcat(dest, [card]);
    SingleKeys(card);
    StackUpdate(stacks, card.suit, dest + [card]);
    assert StackOf(stacks, card.suit) == dest;
    Gained(Keys(StackCards(stacks[card.suit := dest + [card]])), Keys(StackCards(stacks)), Keys(dest), multiset{card.Key()});
  }

  /** The revealed card played to its foundation leaves the reveal slot for the pile. */
  lemma RevealedToFoundationConserves(b: Board)
    requires WellShaped(b)
    ensures WellShaped(RevealedToFoundation(b))
    ensures AllKeys(RevealedToFoundation(b)) == AllKeys(b)
    ensures |AllCards(RevealedToFoundation(b))| == |AllCards(b)|
  {
    var b' := RevealedToFoundation(b);
    if b.revealed.Some? && FoundationAccepts(b.revealed.value, b.stacks[b.revealed.value.suit]) {
      var card := b.revealed.value;
      var c := multiset{card.Key()};
      var st := Keys(StackCards(b.stacks));
      FoundationGains(b.stacks, card);
      assert b'.stacks == b.stacks[card.suit := b.stacks[card.suit] + [card]];
      assert Keys(RevealedCards(b.revealed)) == c;
      assert Keys(RevealedCards(b'.revealed)) == multiset{};
      AllKeysSplit(b);
      AllKeysSplit(b');
      var f, d, p := Keys(Flatten(b.columns)), Keys(b.deck), Keys(b.spent);
      assert f + d + st + c + p == f + d + (st + c) + multiset{} + p;
      SameKeysSameCount(b, b');
    }
  }

  /** The revealed card played to a column leaves the reveal slot for that column. */
  lemma RevealedToColumnConserves(b: Board, colNum: int)
    requires |b.columns| == 7 && (b.revealed.Some? ==> 1 <= colNum <= 7)
    ensures |RevealedToColumn(b, colNum).columns| == 7
    ensures RevealedToColumn(b, colNum).stacks == b.stacks
    ensures AllKeys(RevealedToColumn(b, colNum)) == AllKeys(b)
    ensures |AllCards(RevealedToColumn(b, colNum))| == |AllCards(b)|
  {
    var b' := RevealedToColumn(b, colNum);
    if b.revealed.Some? && TableauAccepts(b.revealed.value, b.columns[colNum - 1]) {
      var card := b.revealed.value;
      var col := b.columns[colNum - 1];
      var c := multiset{card.Key()};
      var f := Keys(Flatten(b.columns));
      assert Keys(Flatten(b'.columns)) == f + c by {
        KeysConcat(col, [card]);
        SingleKeys(card);
        FlattenUpdate(b.columns, colNum - 1, col + [card]);
        Gained(Keys(Flatten(b'.columns)), f, Keys(col), c);
      }
      assert Keys(RevealedCards(b.revealed)) == c;
      assert Keys(RevealedCards(b'.revealed)) == multiset{};
      AllKeysSplit(b);
      AllKeysSplit(b');
      var d, st, p := Keys(b.deck), Keys(StackCards(b.stacks)), Keys(b.spent);
      assert f + d + st + c + p == (f + c) + d + st + multiset{} + p;
      SameKeysSameCount(b, b');
    }
  }

  /** The recycle as written: the spent pile and the revealed card vanish,
      so the game holds |spent| + 1 cards fewer than before. */
  lemma RecycleLosesCards(b: Board)
    requires |b.deck| == 0 && b.revealed.Some?
    ensures AllKeys(b) == AllKeys(Recycle(b)) + Keys(b.spent) + multiset{b.revealed.value.Key()}
    ensures |AllCards(Recycle(b))| == |AllCards(b)| - |b.spent| - 1
  {
    var b' := Recycle(b);
    AllKeysSplit(b);
    AllKeysSplit(b');
    assert Keys(RevealedCards(b.revealed)) == multiset{b.revealed.value.Key()};
  }

  /** The intended recycle keeps every card: the spent pile and the revealed
      card become the new deck. */
  lemma RecycleIntendedConserves(b: Board, choices: seq<nat>)
    requires |b.deck| == 0 && b.revealed.Some?
    requires ValidChoices(choices, |b.spent| + 1)
    ensures AllKeys(RecycleIntended(b, choices)) == AllKeys(b)
    ensures |AllCards(RecycleIntended(b, choices))| == |AllCards(b)|
  {
    var b' := RecycleIntended(b, choices);
    var r := b.revealed.value;
    var c := multiset{r.Key()};
    var p := Keys(b.spent);
    assert Keys(b'.deck) == p + c by {
      var pile := b.spent + [r.(covered := true)];
      ShuffleKeys(pile, choices);
      KeysConcat(b.spent, [r.(covered := true)]);
    }
    assert Keys(RevealedCards(b.revealed)) == c;
    assert Keys(b.deck) == Keys(b'.spent) == Keys(RevealedCards(b'.revealed)) == multiset{};
    AllKeysSplit(b);
    AllKeysSplit(b');
    SpentToDeck(Keys(Flatten(b.columns)), Keys(StackCards(b.stacks)), c, p);
    SameKeysSameCount(b, b');
  }

  /** The spent pile (p) and the revealed card (c) become the deck; the
      columns (f) and the foundations (st) keep their cards. */
  lemma SpentToDeck(f: multiset<CardKey>, st: multiset<CardKey>, c: multiset<CardKey>, p: multiset<CardKey>)
    ensures f + multiset{} + st + c + p == f + (p + c) + st + multiset{} + multiset{}
  {
  }

  // ---------------------------------------------------------------- shuffling keeps keys

  lemma KeySeqSwap(s: seq<Card>, i: nat, j: nat)
    requires i < |s| && j < |s|
    ensures KeySeq(Swap(s, i, j)) == Swap(KeySeq(s), i, j)
  {
  }

  /** Taking keys commutes with the shuffle's steps. */
  lemma {:induction false} KeySeqShuffleSteps(s: seq<Card>, choices: seq<nat>, m: nat)
    requires m <= |s| && m <= |choices|
    requires forall i :: 0 <= i < m ==> choices[i] <= i
    ensures KeySeq(ShuffleSteps(s, choices, m)) == ShuffleSteps(KeySeq(s), choices, m)
    decreases m
  {
    if m > 1 {
      KeySeqSwap(s, m - 1, choices[m - 1]);
      KeySeqShuffleSteps(Swap(s, m - 1, choices[m - 1]), choices, m - 1);
    }
  }

  lemma ShuffleKeys(s: seq<Card>, choices: seq<nat>)
    requires ValidChoices(choices, |s|)
    ensures Keys(Shuffle(s, choices)) == Keys(s)
  {
    KeySeqShuffleSteps(s, choices, |s|);
    ShufflePermutes(KeySeq(s), choices);
  }
}
