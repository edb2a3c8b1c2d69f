/**
 * Cards: the suit and rank tables, the rank-to-value mapping used for the
 * higher/lower and in/out comparisons, and the colour of a suit.
 */
module Cards {

  datatype Suit = Hearts | Diamonds | Clubs | Spades

  datatype Rank = Two | Three | Four | Five | Six | Seven | Eight | Nine | Ten
                | Jack | Queen | King | Ace

  datatype Color = Red | Black

  /** A card; `hidden` is the only part that ever changes (at a pyramid reveal). */
  datatype Card = Card(id: string, suit: Suit, rank: Rank, value: int, hidden: bool)

  /** `SUITS`, in table order. */
  const SUITS: seq<Suit> := [Hearts, Diamonds, Clubs, Spades]

  /** `RANKS`, in table order. */
  const RANKS: seq<Rank> := [Two, Three, Four, Five, Six, Seven, Eight, Nine, Ten,
                             Jack, Queen, King, Ace]

  /** The string the TypeScript `Suit` type uses for a suit. */
  function SuitName(s: Suit): string {
    match s
    case Hearts => "hearts"
    case Diamonds => "diamonds"
    case Clubs => "clubs"
    case Spades => "spades"
  }

  /** The string the TypeScript `Rank` type uses for a rank. */
  function RankName(r: Rank): string {
    match r
    case Two => "2"
    case Three => "3"
    case Four => "4"
    case Five => "5"
    case Six => "6"
    case Seven => "7"
    case Eight => "8"
    case Nine => "9"
    case Ten => "10"
    case Jack => "J"
    case Queen => "Q"
    case King => "K"
    case Ace => "A"
  }

  function ColorName(c: Color): string {
    match c
    case Red => "red"
    case Black => "black"
  }

  /** `getCardValue`: the lookup table from rank to comparison value. */
  function CardValue(r: Rank): (v: int)
    ensures 2 <= v <= 14
  {
    match r
    case Two => 2
    case Three => 3
    case Four => 4
    case Five => 5
    case Six => 6
    case Seven => 7
    case Eight => 8
    case Nine => 9
    case Ten => 10
    case Jack => 11
    case Queen => 12
    case King => 13
    case Ace => 14
  }

  /** `getColor`. */
  function GetColor(s: Suit): Color {
    if s == Hearts || s == Diamonds then Red else Black
  }

  /** The numeric ranks: those whose name is a numeral. */
  predicate IsNumeric(r: Rank) {
    r != Jack && r != Queen && r != King && r != Ace
  }

  /** The number a string of decimal digits denotes; an independent reading of a rank's name. */
  function DecimalValue(s: string): int {
    if |s| == 0 then 0
    else DecimalValue(s[..|s| - 1]) * 10 + ((s[|s| - 1] as int) - ('0' as int))
  }

  /** The rank with a given value: the inverse of `CardValue`. */
  function RankOf(v: int): (r: Rank)
    requires 2 <= v <= 14
    ensures CardValue(r) == v
  {
    RANKS[v - 2]
  }

  /** `SUITS` lists the four suits, each once. */
  lemma SuitsTable()
    ensures |SUITS| == 4
    ensures forall i, j :: 0 <= i < j < |SUITS| ==> SUITS[i] != SUITS[j]
    ensures forall s: Suit :: s in SUITS
  {
    forall s: Suit ensures s in SUITS {
      match s
      case Hearts => assert SUITS[0] == s;
      case Diamonds => assert SUITS[1] == s;
      case Clubs => assert SUITS[2] == s;
      case Spades => assert SUITS[3] == s;
    }
  }

  /** `RANKS` lists the thirteen ranks, each once. */
  lemma RanksTable()
    ensures |RANKS| == 13
    ensures forall i, j :: 0 <= i < j < |RANKS| ==> RANKS[i] != RANKS[j]
    ensures forall r: Rank :: r in RANKS
  {
    forall r: Rank ensures r in RANKS {
      assert RANKS[CardValue(r) - 2] == r;
    }
  }

  /** Along the `RANKS` table the value is the position plus two. */
  lemma ValueAlongRanks()
    ensures forall i :: 0 <= i < |RANKS| ==> CardValue(RANKS[i]) == i + 2
  {
  }

  /** Numeric ranks are worth their numeral; J, Q, K and A are worth 11 to 14. */
  lemma ValueOfEachRank()
    ensures forall r :: IsNumeric(r) ==> CardValue(r) == DecimalValue(RankName(r))
    ensures CardValue(Jack) == 11 && CardValue(Queen) == 12
    ensures CardValue(King) == 13 && CardValue(Ace) == 14
  {
    assert DecimalValue("10") == 10 by {
      assert "10"[..1] == "1";
      assert DecimalValue("1") == 1 by { assert "1"[..0] == ""; }
    }
    forall r | IsNumeric(r) && r != Ten
      ensures CardValue(r) == DecimalValue(RankName(r))
    {
      assert RankName(r)[..0] == "";
    }
  }

  /** The value strictly increases along the `RANKS` order. */
  lemma ValueStrictlyIncreasing()
    ensures forall i, j :: 0 <= i < j < |RANKS| ==> CardValue(RANKS[i]) < CardValue(RANKS[j])
  {
    ValueAlongRanks();
  }

  /** Hence the value determines the rank... */
  lemma ValueInjective(r1: Rank, r2: Rank)
    requires CardValue(r1) == CardValue(r2)
    ensures r1 == r2
  {
  }

  /** ...and the values are exactly 2 to 14: a bijection, with `RankOf` its inverse. */
  lemma ValueBijection()
    ensures forall r :: 2 <= CardValue(r) <= 14 && RankOf(CardValue(r)) == r
    ensures forall v :: 2 <= v <= 14 ==> CardValue(RankOf(v)) == v
  {
    forall r ensures 2 <= CardValue(r) <= 14 && RankOf(CardValue(r)) == r {
      ValueInjective(RankOf(CardValue(r)), r);
    }
  }

  /** A suit is red exactly when it is hearts or diamonds, and so two of the four are red. */
  lemma RedSuits()
    ensures forall s :: GetColor(s) == Red <==> s == Hearts || s == Diamonds
    ensures (set i | 0 <= i < |SUITS| && GetColor(SUITS[i]) == Red) == {0, 1}
  {
  }

  /** No rank or suit name contains a dash, the separator of card ids and exact-card guesses. */
  lemma NamesWithoutDash(r: Rank, s: Suit)
    ensures '-' !in RankName(r) && '-' !in SuitName(s)
  {
  }

  /** The names tell ranks, and suits, apart. */
  lemma NamesInjective(r1: Rank, r2: Rank, s1: Suit, s2: Suit)
    ensures RankName(r1) == RankName(r2) ==> r1 == r2
    ensures SuitName(s1) == SuitName(s2) ==> s1 == s2
  {
  }
}
