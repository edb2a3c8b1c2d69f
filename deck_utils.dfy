/**
 * Building the 52-card deck and shuffling it with a backward Fisher–Yates
 * pass. The random parts are inputs: `suffixes[i]` is the random tail of the
 * i-th generated card's id, and `draws[i]` is the index the shuffle picks at
 * the step for position i.
 */
module DeckUtils {
  import opened Js
  import opened Cards

  /** A card id: `rank-suit-suffix`. */
  function CardId(r: Rank, s: Suit, suffix: string): string {
    RankName(r) + "-" + (SuitName(s) + "-" + suffix)
  }

  /** The card `generateDeck` pushes for a suit and a rank. */
  function NewCard(s: Suit, r: Rank, suffix: string): Card {
    Card(CardId(r, s, suffix), s, r, CardValue(r), true)
  }

  /** The card `generateDeck` pushes i-th: suit `SUITS[i / 13]`, rank `RANKS[i % 13]`. */
  function CardAt(suffixes: seq<string>, i: int): Card
    requires |suffixes| == 52 && 0 <= i < 52
  {
    NewCard(SUITS[i / 13], RANKS[i % 13], suffixes[i])
  }

  /** The deck `generateDeck` builds: suits in the outer loop, ranks in the inner one. */
  function FullDeck(suffixes: seq<string>): (d: seq<Card>)
    requires |suffixes| == 52
    ensures |d| == 52
  {
    seq(52, i requires 0 <= i < 52 => CardAt(suffixes, i))
  }

  lemma Position(si: int, ri: int)
    requires 0 <= si < 4 && 0 <= ri < 13
    ensures (13 * si + ri) / 13 == si && (13 * si + ri) % 13 == ri
  {
  }

  /** Pushing the card for `SUITS[si]`, `RANKS[ri]` extends a correct prefix of the deck by one. */
  lemma AppendCardAt(suffixes: seq<string>, deck: seq<Card>, si: int, ri: int)
    requires |suffixes| == 52 && 0 <= si < 4 && 0 <= ri < 13 && |deck| == 13 * si + ri
    requires forall i :: 0 <= i < |deck| ==> deck[i] == CardAt(suffixes, i)
    ensures forall i :: 0 <= i <= |deck| ==>
      (deck + [NewCard(SUITS[si], RANKS[ri], suffixes[|deck|])])[i] == CardAt(suffixes, i)
  {
    Position(si, ri);
  }

  /** `generateDeck` (deckUtils.ts:3-17). */
  method GenerateDeck(suffixes: seq<string>) returns (deck: seq<Card>)
    requires |suffixes| == 52
    ensures deck == FullDeck(suffixes)
  {
    deck := [];
    for si := 0 to |SUITS|
      invariant |deck| == 13 * si
      invariant forall i :: 0 <= i < |deck| ==> deck[i] == CardAt(suffixes, i)
    {
      var suit := SUITS[si];
      for ri := 0 to |RANKS|
        invariant |deck| == 13 * si + ri
        invariant forall i :: 0 <= i < |deck| ==> deck[i] == CardAt(suffixes, i)
      {
        var rank := RANKS[ri];
        AppendCardAt(suffixes, deck, si, ri);
        deck := deck + [NewCard(suit, rank, suffixes[|deck|])];
      }
    }
    assert forall i :: 0 <= i < 52 ==> deck[i] == FullDeck(suffixes)[i];
  }

  /** Index 13·s + r of the generated deck holds suit `SUITS[s]` and rank `RANKS[r]`. */
  lemma FullDeckAt(suffixes: seq<string>, si: int, ri: int)
    requires |suffixes| == 52 && 0 <= si < 4 && 0 <= ri < 13
    ensures var c := FullDeck(suffixes)[13 * si + ri];
      c.suit == SUITS[si] && c.rank == RANKS[ri] && c.value == CardValue(RANKS[ri]) && c.hidden
  {
    Position(si, ri);
  }

  /** The position of a suit in `SUITS`. */
  function SuitIndex(s: Suit): (k: int)
    ensures 0 <= k < 4 && SUITS[k] == s
  {
    match s
    case Hearts => 0
    case Diamonds => 1
    case Clubs => 2
    case Spades => 3
  }

  /** Where `generateDeck` puts a (suit, rank) pair. */
  function PairIndex(s: Suit, r: Rank): int {
    13 * SuitIndex(s) + (CardValue(r) - 2)
  }

  /** Every (suit, rank) pair occurs in the generated deck, and at exactly one index. */
  lemma FullDeckCoversPairs(suffixes: seq<string>)
    requires |suffixes| == 52
    ensures forall s: Suit, r: Rank :: (0 <= PairIndex(s, r) < 52
      && FullDeck(suffixes)[PairIndex(s, r)].suit == s && FullDeck(suffixes)[PairIndex(s, r)].rank == r)
    ensures forall i, j :: 0 <= i < j < 52 ==>
      FullDeck(suffixes)[i].suit != FullDeck(suffixes)[j].suit ||
      FullDeck(suffixes)[i].rank != FullDeck(suffixes)[j].rank
  {
    var d := FullDeck(suffixes);
    forall s: Suit, r: Rank
      ensures 0 <= PairIndex(s, r) < 52 && d[PairIndex(s, r)].suit == s && d[PairIndex(s, r)].rank == r
    {
      ValueAlongRanks();
      RanksTable();
      var ri := CardValue(r) - 2;
      assert RANKS[ri] == r by {
        ValueInjective(RANKS[ri], r);
      }
      FullDeckAt(suffixes, SuitIndex(s), ri);
    }
    forall i, j | 0 <= i < j < 52 ensures d[i].suit != d[j].suit || d[i].rank != d[j].rank {
      if d[i].suit == d[j].suit && d[i].rank == d[j].rank {
        SamePairSameIndex(suffixes, i, j);
      }
    }
  }

  lemma SamePairSameIndex(suffixes: seq<string>, i: int, j: int)
    requires |suffixes| == 52 && 0 <= i < 52 && 0 <= j < 52
    requires FullDeck(suffixes)[i].suit == FullDeck(suffixes)[j].suit
    requires FullDeck(suffixes)[i].rank == FullDeck(suffixes)[j].rank
    ensures i == j
  {
    SuitsTable();
    RanksTable();
    assert SUITS[i / 13] == SUITS[j / 13];
    assert RANKS[i % 13] == RANKS[j % 13];
    assert i / 13 == j / 13 && i % 13 == j % 13;
  }

  /** Every generated card is hidden and carries its rank's value. */
  lemma FullDeckCards(suffixes: seq<string>)
    requires |suffixes| == 52
    ensures forall c :: c in FullDeck(suffixes) ==> c.hidden && c.value == CardValue(c.rank)
  {
  }

  /**
   * Generated ids are pairwise distinct whatever the random suffixes are,
   * because each starts with its card's own `rank-suit-` prefix.
   */
  lemma FullDeckIdsDistinct(suffixes: seq<string>)
    requires |suffixes| == 52
    ensures forall i, j :: 0 <= i < j < 52 ==> FullDeck(suffixes)[i].id != FullDeck(suffixes)[j].id
  {
    var d := FullDeck(suffixes);
    forall i, j | 0 <= i < j < 52 ensures d[i].id != d[j].id {
      if d[i].id == d[j].id {
        var ri, si, rj, sj := RANKS[i % 13], SUITS[i / 13], RANKS[j % 13], SUITS[j / 13];
        NamesWithoutDash(ri, si);
        NamesWithoutDash(rj, sj);
        SeparatedPrefix(RankName(ri), SuitName(si) + "-" + suffixes[i],
                        RankName(rj), SuitName(sj) + "-" + suffixes[j], '-');
        SeparatedPrefix(SuitName(si), suffixes[i], SuitName(sj), suffixes[j], '-');
        NamesInjective(ri, rj, si, sj);
        SamePairSameIndex(suffixes, i, j);
      }
    }
  }

  /** No two of the cards share an id. */
  ghost predicate IdsDistinct(cards: seq<Card>) {
    forall i, j :: 0 <= i < j < |cards| ==> cards[i].id != cards[j].id
  }

  /** The random draws are in range: the step for position i picks some j with 0 <= j <= i. */
  predicate ValidDraws(draws: seq<int>) {
    forall i :: 0 < i < |draws| ==> 0 <= draws[i] <= i
  }

  function Swap(s: seq<Card>, i: int, j: int): (r: seq<Card>)
    requires 0 <= i < |s| && 0 <= j < |s|
    ensures |r| == |s|
  {
    s[i := s[j]][j := s[i]]
  }

  /** The state of the copy after the steps for positions i, i-1, ..., 1 of the backward pass. */
  function FisherYates(s: seq<Card>, draws: seq<int>, i: int): (r: seq<Card>)
    requires i < |s| && |draws| == |s| && ValidDraws(draws)
    ensures |r| == |s|
    decreases i
  {
    if i <= 0 then s else FisherYates(Swap(s, i, draws[i]), draws, i - 1)
  }

  /** The pass only swaps, so it returns a permutation of its input. */
  lemma {:induction false} FisherYatesPermutes(s: seq<Card>, draws: seq<int>, i: int)
    requires i < |s| && |draws| == |s| && ValidDraws(draws)
    ensures |FisherYates(s, draws, i)| == |s|
    ensures multiset(FisherYates(s, draws, i)) == multiset(s)
    decreases i
  {
    if i > 0 {
      var t := Swap(s, i, draws[i]);
      assert multiset(t) == multiset(s);
      FisherYatesPermutes(t, draws, i - 1);
    }
  }

  lemma SwapKeepsIdsDistinct(s: seq<Card>, i: int, j: int)
    requires 0 <= i < |s| && 0 <= j < |s| && IdsDistinct(s)
    ensures IdsDistinct(Swap(s, i, j))
  {
    var r := Swap(s, i, j);
    forall x, y | 0 <= x < y < |r| ensures r[x].id != r[y].id {
      var sx := if x == i then j else if x == j then i else x;
      var sy := if y == i then j else if y == j then i else y;
      assert r[x] == s[sx] && r[y] == s[sy] && sx != sy;
    }
  }

  /** The shuffle moves cards, so it keeps their ids apart. */
  lemma {:induction false} FisherYatesKeepsIdsDistinct(s: seq<Card>, draws: seq<int>, i: int)
    requires i < |s| && |draws| == |s| && ValidDraws(draws) && IdsDistinct(s)
    ensures IdsDistinct(FisherYates(s, draws, i))
    decreases i
  {
    if i > 0 {
      SwapKeepsIdsDistinct(s, i, draws[i]);
      FisherYatesKeepsIdsDistinct(Swap(s, i, draws[i]), draws, i - 1);
    }
  }

  /** The steps for positions i and below never touch a position above i. */
  lemma {:induction false} FisherYatesKeepsAbove(s: seq<Card>, draws: seq<int>, i: int, k: int)
    requires i < |s| && |draws| == |s| && ValidDraws(draws)
    requires 0 <= i < k < |s|
    ensures FisherYates(s, draws, i)[k] == s[k]
    decreases i
  {
    if i > 0 {
      FisherYatesKeepsAbove(Swap(s, i, draws[i]), draws, i - 1, k);
    }
  }

  /**
   * After the step for position i, that position already holds its final
   * card: the one the step swapped in from `draws[i]`.
   */
  lemma {:induction false} FisherYatesSettles(s: seq<Card>, draws: seq<int>, i: int)
    requires 0 < i < |s| && |draws| == |s| && ValidDraws(draws)
    ensures FisherYates(s, draws, i)[i] == s[draws[i]]
  {
    FisherYatesKeepsAbove(Swap(s, i, draws[i]), draws, i - 1, i);
  }

  /** `shuffleDeck` (deckUtils.ts:20-27): the backward pass on a fresh copy of the deck. */
  method ShuffleDeck(deck: seq<Card>, draws: seq<int>) returns (shuffled: seq<Card>)
    requires |draws| == |deck| && ValidDraws(draws)
    ensures shuffled == FisherYates(deck, draws, |deck| - 1)
    ensures |shuffled| == |deck| && multiset(shuffled) == multiset(deck)
    ensures |deck| <= 1 ==> shuffled == deck
  {
    var newDeck := new Card[|deck|](k requires 0 <= k < |deck| => deck[k]);
    assert newDeck[..] == deck;
    var i := |deck| - 1;
    while i > 0
      invariant i < |deck| && (|deck| > 0 ==> 0 <= i)
      invariant FisherYates(newDeck[..], draws, i) == FisherYates(deck, draws, |deck| - 1)
      decreases i
    {
      var j := draws[i];
      var temp := newDeck[i];
      newDeck[i] := newDeck[j];
      newDeck[j] := temp;
      i := i - 1;
    }
    shuffled := newDeck[..];
    FisherYatesPermutes(deck, draws, |deck| - 1);
  }
}
