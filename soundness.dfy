/*
 * The invariant a game of Klondike is meant to keep, proved to hold after the
 * deal and after every move of Game.Interact that the rules accept, and shown
 * to imply that Program.Validate succeeds.  The recycle as written breaks it.
 */
module Soundness {
  import opened Cards
  import opened Rules
  import opened Shuffling
  import opened Boards
  import opened Conservation
  import opened Dealing
  import opened Validation

  /** A column is face-down cards under a face-up run: above a face-up card
      there is only a face-up card continuing the run, and the top is face up. */
  predicate ColumnSound(col: seq<Card>)
  {
    (forall j :: 1 <= j < |col| && !col[j - 1].covered ==> !col[j].covered && Follows(col[j - 1], col[j]))
    && (col != [] ==> !col[|col| - 1].covered)
  }

  predicate AllCovered(s: seq<Card>)
  {
    forall k :: 0 <= k < |s| ==> s[k].covered
  }

  /** Every card once, sound columns and foundations, deck and spent pile face
      down, the revealed card face up. */
  ghost predicate Sound(b: Board)
  {
    WellShaped(b)
    && (forall key: CardKey :: AllKeys(b)[key] == 1)
    && (forall c :: 0 <= c < 7 ==> ColumnSound(b.columns[c]))
    && (forall s: Suit :: FoundationSound(b.stacks[s], s))
    && AllCovered(b.deck) && AllCovered(b.spent)
    && (b.revealed.Some? ==> !b.revealed.value.covered)
  }

  // ---------------------------------------------------------------- the deal

  lemma InitialBoardSound(choices: seq<nat>)
    requires ValidChoices(choices, 52)
    ensures Sound(InitialBoard(choices))
  {
    InitialDealShape(choices);
    InitialBoardHoldsEachCardOnce(choices);
    var b := InitialBoard(choices);
    forall c | 0 <= c < 7
      ensures ColumnSound(b.columns[c])
    {
      OpeningColumnSound(b.columns[c], c);
    }
    forall s: Suit
      ensures FoundationSound(b.stacks[s], s)
    {
    }
    assert AllCovered(b.deck) && AllCovered(b.spent);
  }

  /** A column of the deal: face-down cards under a single face-up top. */
  lemma OpeningColumnSound(col: seq<Card>, c: nat)
    requires |col| == c + 1
    requires forall j :: 0 <= j <= c ==> (col[j].covered <==> j < c)
    ensures ColumnSound(col)
  {
    forall j | 0 <= j < c
      ensures col[j].covered
    {
    }
  }

  // ---------------------------------------------------------------- columns

  lemma ColumnSoundSuffix(col: seq<Card>, k: nat)
    requires ColumnSound(col) && k < |col|
    ensures ColumnSound(col[k..])
  {
    var run := col[k..];
    forall j | 1 <= j < |run| && !run[j - 1].covered
      ensures !run[j].covered && Follows(run[j - 1], run[j])
    {
      assert run[j - 1] == col[k + j - 1] && run[j] == col[k + j];
    }
  }

  /** Cutting a sound column at k and turning the new top face up leaves it sound. */
  lemma ColumnSoundPrefix(col: seq<Card>, k: nat)
    requires ColumnSound(col) && k <= |col|
    ensures ColumnSound(UncoverTop(col[..k]))
  {
    var u := UncoverTop(col[..k]);
    forall j | 1 <= j < |u| && !u[j - 1].covered
      ensures !u[j].covered && Follows(u[j - 1], u[j])
    {
      assert u[j - 1] == col[j - 1];
      assert u[j].Key() == col[j].Key() && u[j].Color() == col[j].Color();
    }
  }

  /** Putting a face-up run on a sound column keeps it sound when the run's
      first card continues the column's top. */
  lemma ColumnSoundAppend(dest: seq<Card>, run: seq<Card>)
    requires ColumnSound(dest) && ColumnSound(run) && run != [] && !run[0].covered
    requires dest != [] ==> Follows(dest[|dest| - 1], run[0])
    ensures ColumnSound(dest + run)
  {
    var r := dest + run;
    forall j | 1 <= j < |r| && !r[j - 1].covered
      ensures !r[j].covered && Follows(r[j - 1], r[j])
    {
      if j < |dest| {
        assert r[j - 1] == dest[j - 1] && r[j] == dest[j];
      } else if j == |dest| {
        assert r[j] == run[0];
      } else {
        assert r[j - 1] == run[j - |dest| - 1] && r[j] == run[j - |dest|];
      }
    }
  }

  /** Above a face-up card of a sound column every card is face up and one
      rank lower than the one below it. */
  lemma {:induction false} RunDescends(col: seq<Card>, k: nat, m: nat)
    requires ColumnSound(col) && k <= m < |col| && !col[k].covered
    ensures !col[m].covered && col[m].rank == col[k].rank + (m - k)
    decreases m - k
  {
    if m > k {
      RunDescends(col, k, m - 1);
    }
  }

  /** On a sound board a face-up card can never be moved onto its own column. */
  lemma SelfMoveRejected(b: Board, src: nat, k: nat)
    requires Sound(b) && src < 7 && k < |b.columns[src]| && !b.columns[src][k].covered
    ensures !RunAccepted(b, src, k, src)
  {
    var col := b.columns[src];
    RunDescends(col, k, |col| - 1);
  }

  // ---------------------------------------------------------------- moves keep the invariant

  lemma DrawNextPreservesSound(b: Board)
    requires Sound(b) && |b.deck| > 0
    ensures Sound(DrawNext(b))
  {
    DrawNextConserves(b);
    var b' := DrawNext(b);
    assert forall k :: 0 <= k < |b'.deck| ==> b'.deck[k] == b.deck[k + 1];
  }

  /** A legal run move of a face-up card keeps the board sound.  The source
      does not check that the chosen card is face up; this lemma needs it. */
  lemma MoveRunPreservesSound(b: Board, src: nat, k: nat, dst: nat)
    requires Sound(b) && src < 7 && dst < 7 && k < |b.columns[src]|
    requires !b.columns[src][k].covered
    ensures Sound(MoveRun(b, src, k, dst))
  {
    var b' := MoveRun(b, src, k, dst);
    if RunAccepted(b, src, k, dst) {
      if src == dst {
        SelfMoveRejected(b, src, k);
      }
      MoveRunConserves(b, src, k, dst);
      var col, dest := b.columns[src], b.columns[dst];
      assert b'.columns[src] == UncoverTop(col[..k]);
      assert b'.columns[dst] == dest + col[k..];
      ColumnSoundPrefix(col, k);
      ColumnSoundSuffix(col, k);
      TableauBoundaries(col[k], dest);
      ColumnSoundAppend(dest, col[k..]);
      assert forall c :: 0 <= c < 7 && c != src && c != dst ==> b'.columns[c] == b.columns[c];
    }
  }

  lemma ColumnToFoundationPreservesSound(b: Board, src: nat, k: nat)
    requires Sound(b) && src < 7 && k < |b.columns[src]|
    ensures Sound(ColumnToFoundation(b, src, k))
  {
    var b' := ColumnToFoundation(b, src, k);
    var col := b.columns[src];
    var chosen := col[k];
    if IsTopCard(col, k) && FoundationAccepts(chosen, b.stacks[chosen.suit]) {
      ColumnToFoundationConserves(b, src, k);
      TopCardIsLast(col, k);
      ColumnSoundPrefix(col, |col| - 1);
      FoundationAcceptsExtends(b.stacks[chosen.suit], chosen.suit, chosen);
      assert b'.columns == b.columns[src := UncoverTop(col[..|col| - 1])];
      forall c | 0 <= c < 7
        ensures ColumnSound(b'.columns[c])
      {
      }
      forall s: Suit
        ensures FoundationSound(b'.stacks[s], s)
      {
      }
    }
  }

  lemma RevealedToFoundationPreservesSound(b: Board)
    requires Sound(b)
    ensures Sound(RevealedToFoundation(b))
  {
    RevealedToFoundationConserves(b);
    if b.revealed.Some? {
      var c := b.revealed.value;
      if FoundationAccepts(c, b.stacks[c.suit]) {
        FoundationAcceptsExtends(b.stacks[c.suit], c.suit, c);
        var b' := RevealedToFoundation(b);
        assert forall s: Suit :: s != c.suit ==> b'.stacks[s] == b.stacks[s];
      }
    }
  }

  lemma RevealedToColumnPreservesSound(b: Board, colNum: int)
    requires Sound(b) && (b.revealed.Some? ==> 1 <= colNum <= 7)
    ensures Sound(RevealedToColumn(b, colNum))
  {
    RevealedToColumnConserves(b, colNum);
    if b.revealed.Some? {
      var c := b.revealed.value;
      var col := b.columns[colNum - 1];
      if TableauAccepts(c, col) {
        TableauBoundaries(c, col);
        ColumnSoundAppend(col, [c]);
        var b' := RevealedToColumn(b, colNum);
        assert forall i :: 0 <= i < 7 && i != colNum - 1 ==> b'.columns[i] == b.columns[i];
      }
    }
  }

  /** The intended recycle keeps the board sound: the new deck is face down. */
  lemma RecycleIntendedPreservesSound(b: Board, choices: seq<nat>)
    requires Sound(b) && |b.deck| == 0 && b.revealed.Some?
    requires ValidChoices(choices, |b.spent| + 1)
    ensures Sound(RecycleIntended(b, choices))
  {
    RecycleIntendedConserves(b, choices);
    var pile := b.spent + [b.revealed.value.(covered := true)];
    var d := Shuffle(pile, choices);
    ShufflePermutes(pile, choices);
    forall k | 0 <= k < |d|
      ensures d[k].covered
    {
      assert d[k] in multiset(d);
      assert d[k] in multiset(pile);
      var i :| 0 <= i < |pile| && pile[i] == d[k];
    }
  }

  /** The recycle as written: from any sound board with an empty deck the
      revealed card vanishes from the game, so the board is no longer sound. */
  lemma RecycleBreaksSoundness(b: Board)
    requires Sound(b) && |b.deck| == 0 && b.revealed.Some?
    ensures AllKeys(Recycle(b))[b.revealed.value.Key()] == 0
    ensures !Sound(Recycle(b))
  {
    RecycleLosesCards(b);
    var key := b.revealed.value.Key();
    assert AllKeys(b)[key] == 1;
  }

  /** The crash at Game.cs line 261: a column holding a single Ace, played to its
      empty foundation, is emptied and then asked for its last card. */
  lemma LoneAceToFoundationCrashes(b: Board, src: nat)
    requires WellShaped(b) && src < 7
    requires |b.columns[src]| == 1 && b.columns[src][0].rank == Ace
    requires b.stacks[b.columns[src][0].suit] == []
    ensures FoundationMoveCrashes(b, src, 0)
  {
  }

  // ---------------------------------------------------------------- validation

  /** On a sound board Program.Validate succeeds. */
  lemma SoundPassesValidation(b: Board)
    requires Sound(b)
    ensures Passes(b.columns)
  {
    var cols := b.columns;
    var f := Flatten(cols);
    forall c, j | 0 <= c < |cols| && 1 <= j < |cols[c]|
      ensures !PairRejected(cols, c, j)
    {
      var seen, card := Seen(cols, c, j), cols[c][j];
      assert ColumnSound(cols[c]);
      SeenIsPrefix(cols, c, j);
      var at := FlattenIndex(cols, c, j);
      AllKeysSplit(b);
      assert AllKeys(b)[card.Key()] == 1;
      assert Keys(f)[f[at].Key()] <= 1;
      UniqueKey(f, at);
      forall i | 0 <= i < |seen|
        ensures !seen[i].Equals(card)
      {
        assert seen[i] == f[i];
      }
    }
  }

  /** A key counted once in s occurs at no other place of s. */
  lemma UniqueKey(s: seq<Card>, at: nat)
    requires at < |s| && Keys(s)[s[at].Key()] <= 1
    ensures forall i :: 0 <= i < |s| && i != at ==> s[i].Key() != s[at].Key()
  {
    forall i | 0 <= i < |s| && i != at
      ensures s[i].Key() != s[at].Key()
    {
      if s[i].Key() == s[at].Key() {
        if i < at {
          RepeatedKey(s, i, at);
        } else {
          RepeatedKey(s, at, i);
        }
        assert false;
      }
    }
  }

  /** Seen(cols, c, j) is the part of Flatten(cols) before card j of column c. */
  lemma SeenIsPrefix(cols: seq<seq<Card>>, c: nat, j: nat)
    requires c < |cols| && j < |cols[c]|
    ensures FlattenIndex(cols, c, j) == |Seen(cols, c, j)| < |Flatten(cols)|
    ensures forall i :: 0 <= i < |Seen(cols, c, j)| ==> Flatten(cols)[i] == Seen(cols, c, j)[i]
    ensures Flatten(cols)[FlattenIndex(cols, c, j)] == cols[c][j]
  {
    FlattenHolds(cols, c, j);
    assert cols == cols[..c + 1] + cols[c + 1..];
    FlattenConcat(cols[..c + 1], cols[c + 1..]);
    assert cols[..c + 1][..c] == cols[..c];
    assert Flatten(cols[..c + 1]) == Flatten(cols[..c]) + cols[c];
  }

  /** Two places holding the same key make its count at least two. */
  lemma RepeatedKey(s: seq<Card>, i: nat, j: nat)
    requires i < j < |s| && s[i].Key() == s[j].Key()
    ensures Keys(s)[s[j].Key()] >= 2
  {
    assert s == s[..j] + s[j..];
    KeysConcat(s[..j], s[j..]);
    assert KeySeq(s[..j])[i] == s[j].Key();
    assert KeySeq(s[j..])[0] == s[j].Key();
  }
}
