/**
 * The pure rule computations of the store: the Phase 1 answer verdict, the
 * Phase 2 sip cap by pyramid row and the sum of the sips a player has already
 * committed, and the truthfulness check of a challenge.
 */
module Rules {
  import opened Js
  import opened Cards
  import opened GameModel

  /**
   * The verdict for `answer` to question `q` about `card`, given the hand of
   * the player answering. The hand's first card is read for question 1 without
   * a check, so that question needs a non-empty hand. Index 4 occurs twice in
   * the `switch`; the first label falls through to the exact-card check.
   */
  function AnswerCorrect(card: Card, q: int, hand: seq<Card>, answer: string): bool
    requires q == 1 ==> |hand| >= 1
  {
    var v := card.value;
    if q == 0 then
      answer == (if card.suit == Hearts || card.suit == Diamonds then "red" else "black")
    else if q == 1 then
      if answer == "more" then v > hand[0].value
      else if answer == "less" then v < hand[0].value
      else false
    else if q == 2 then
      if |hand| >= 2 then
        var lo := if hand[0].value <= hand[1].value then hand[0].value else hand[1].value;
        var hi := if hand[0].value <= hand[1].value then hand[1].value else hand[0].value;
        if answer == "in" then lo < v < hi
        else if answer == "out" then v < lo || v > hi
        else false
      else false
    else if q == 3 then
      answer == SuitName(card.suit)
    else if q == 4 then
      var parts := Split(answer, '-');
      |parts| == 2 && parts[0] == RankName(card.rank) && parts[1] == SuitName(card.suit)
    else false
  }

  /** Question 0: the colour, as `getColor` names it. */
  lemma ColourVerdict(card: Card, hand: seq<Card>, answer: string)
    ensures AnswerCorrect(card, 0, hand, answer) <==> answer == ColorName(GetColor(card.suit))
  {
  }

  /**
   * Question 1: strictly higher or strictly lower than the first card held;
   * any other answer, 'equal' among them, is wrong.
   */
  lemma HigherLowerVerdict(card: Card, hand: seq<Card>, answer: string)
    requires |hand| >= 1
    ensures AnswerCorrect(card, 1, hand, answer) <==>
      (answer == "more" && card.value > hand[0].value) || (answer == "less" && card.value < hand[0].value)
    ensures !AnswerCorrect(card, 1, hand, "equal")
  {
  }

  /**
   * Question 2: strictly between, or strictly outside, the values of the
   * first two cards held, in whichever order they came; wrong with fewer than
   * two cards.
   */
  lemma InOutVerdict(card: Card, hand: seq<Card>, answer: string)
    ensures |hand| < 2 ==> !AnswerCorrect(card, 2, hand, answer)
    ensures |hand| >= 2 ==>
      var a, b, v := hand[0].value, hand[1].value, card.value;
      (AnswerCorrect(card, 2, hand, answer) <==>
        (answer == "in" && ((a < v < b) || (b < v < a))) ||
        (answer == "out" && ((v < a && v < b) || (v > a && v > b))))
  {
  }

  /** Question 3: the suit's name. */
  lemma SuitVerdict(card: Card, hand: seq<Card>, answer: string)
    ensures AnswerCorrect(card, 3, hand, answer) <==> answer == SuitName(card.suit)
  {
  }

  /** Question 4: exactly the string `RANK-SUIT` of the card, and no other. */
  lemma ExactCardVerdict(card: Card, hand: seq<Card>, answer: string)
    ensures AnswerCorrect(card, 4, hand, answer) <==> answer == RankName(card.rank) + "-" + SuitName(card.suit)
  {
    var rn, sn := RankName(card.rank), SuitName(card.suit);
    NamesWithoutDash(card.rank, card.suit);
    if answer == rn + "-" + sn {
      SplitAtFirstSeparator(rn, sn, '-');
      SplitWithoutSeparator(sn, '-');
    }
    if AnswerCorrect(card, 4, hand, answer) {
      var parts := Split(answer, '-');
      JoinSplit(answer, '-');
      assert parts[1..] == [sn];
      assert Join(parts, '-') == rn + "-" + sn;
    }
  }

  /** Any question index outside 0..4 gets no correct answer. */
  lemma OtherQuestionVerdict(card: Card, q: int, hand: seq<Card>, answer: string)
    requires q < 0 || q > 4
    ensures !AnswerCorrect(card, q, hand, answer)
  {
  }

  /**
   * The sips per matching card for the card at `pyramidIndex`: the
   * successive `>=` tests, the last one that holds winning; -1 (not found)
   * gets 1.
   */
  function RowMultiplier(pyramidIndex: int): (m: int)
    ensures 1 <= m <= 5
  {
    if pyramidIndex >= 14 then 5
    else if pyramidIndex >= 12 then 4
    else if pyramidIndex >= 9 then 3
    else if pyramidIndex >= 5 then 2
    else 1
  }

  /**
   * Index i of the flattened pyramid lies in row r (5 the base, 1 the apex):
   * rows r+1..5 hold (r+1) + ... + 5 cards before it.
   */
  predicate InRow(i: int, r: int) {
    1 <= r <= 5 && 15 - r * (r + 1) / 2 <= i < 15 - r * (r - 1) / 2
  }

  /** Row r of the pyramid is worth 6 - r sips per card: 1 on the base, 5 at the apex. */
  lemma MultiplierByRow(i: int, r: int)
    requires 0 <= i < 15 && InRow(i, r)
    ensures RowMultiplier(i) == 6 - r
  {
    assert r == 1 || r == 2 || r == 3 || r == 4 || r == 5;
  }

  /** Each of the 15 places lies in exactly one row. */
  lemma RowsPartition(i: int)
    requires 0 <= i < 15
    ensures exists r :: InRow(i, r)
    ensures forall r1, r2 :: InRow(i, r1) && InRow(i, r2) ==> r1 == r2
  {
    var r := if i < 5 then 5 else if i < 9 then 4 else if i < 12 then 3 else if i < 14 then 2 else 1;
    assert InRow(i, r);
    forall r1, r2 | InRow(i, r1) && InRow(i, r2) ensures r1 == r2 {
      MultiplierByRow(i, r1);
      MultiplierByRow(i, r2);
    }
  }

  /** `pyramid.findIndex(c => c.id === card.id)`. */
  function PlaceOf(pyramid: seq<Card>, card: Card): int {
    FindIndex(pyramid, (c: Card) => c.id == card.id)
  }

  /**
   * The most a player may commit while `card` is the revealed card: three
   * matching cards' worth, at the rate of the row the card lies in.
   */
  function SipCap(pyramid: seq<Card>, card: Card): (cap: int)
    ensures 3 <= cap <= 15
  {
    3 * RowMultiplier(PlaceOf(pyramid, card))
  }

  /**
   * For the first card of a pyramid with a given id, the cap is three times
   * the sips its row is worth; for a card the pyramid does not hold it is 3.
   */
  lemma SipCapByRow(pyramid: seq<Card>, card: Card, i: int, r: int)
    ensures (forall j :: 0 <= j < |pyramid| ==> pyramid[j].id != card.id) ==> SipCap(pyramid, card) == 3
    ensures 0 <= i < |pyramid| && i < 15 && pyramid[i].id == card.id && InRow(i, r) &&
            (forall j :: 0 <= j < i ==> pyramid[j].id != card.id) ==>
            SipCap(pyramid, card) == 3 * (6 - r)
  {
    var k := PlaceOf(pyramid, card);
    if 0 <= i < |pyramid| && i < 15 && pyramid[i].id == card.id && InRow(i, r) &&
       (forall j :: 0 <= j < i ==> pyramid[j].id != card.id) {
      assert ((c: Card) => c.id == card.id)(pyramid[i]);
      assert k == i;
      MultiplierByRow(i, r);
    }
  }

  /** What one allocation adds to the total of `giver`. */
  function Share(a: SipAllocation, giver: PlayerId): int {
    if a.fromPlayerId == giver then a.amount else 0
  }

  ghost function PickKey(m: map<string, SipAllocation>): (k: string)
    requires m != map[]
    ensures k in m
  {
    var k :| k in m; k
  }

  /**
   * The sips `giver` has committed across the pending allocations: the sum
   * of their amounts over the allocations whose giver it is.
   */
  ghost function Committed(m: map<string, SipAllocation>, giver: PlayerId): int
    decreases |m|
  {
    if m == map[] then 0
    else
      var k := PickKey(m);
      assert |m - {k}| < |m| by { assert m.Keys == (m - {k}).Keys + {k}; }
      Share(m[k], giver) + Committed(m - {k}, giver)
  }

  /** The sum may be taken out at any key, whichever key the definition picked. */
  lemma CommittedRemove(m: map<string, SipAllocation>, giver: PlayerId, k: string)
    requires k in m
    ensures Committed(m, giver) == Share(m[k], giver) + Committed(m - {k}, giver)
    decreases |m|
  {
    var p := PickKey(m);
    if p != k {
      assert |m - {p}| < |m| by { assert m.Keys == (m - {p}).Keys + {p}; }
      assert |m - {k}| < |m| by { assert m.Keys == (m - {k}).Keys + {k}; }
      CommittedRemove(m - {p}, giver, k);
      CommittedRemove(m - {k}, giver, p);
      assert m - {p} - {k} == m - {k} - {p};
    }
  }

  /** A new allocation under a fresh key adds its share to the sum. */
  lemma CommittedAdd(m: map<string, SipAllocation>, giver: PlayerId, k: string, a: SipAllocation)
    requires k !in m
    ensures Committed(m[k := a], giver) == Share(a, giver) + Committed(m, giver)
  {
    CommittedRemove(m[k := a], giver, k);
    assert m[k := a] - {k} == m;
  }

  /**
   * Recording an allocation under a key that may already be taken: the entry
   * it overwrites leaves the sum and the new one enters it.
   */
  lemma CommittedPut(m: map<string, SipAllocation>, giver: PlayerId, k: string, a: SipAllocation)
    ensures Committed(m[k := a], giver) ==
      Committed(m, giver) - (if k in m then Share(m[k], giver) else 0) + Share(a, giver)
  {
    CommittedRemove(m[k := a], giver, k);
    assert m[k := a] - {k} == m - {k};
    if k in m {
      CommittedRemove(m, giver, k);
    } else {
      assert m - {k} == m;
    }
  }

  /** Taking out an allocation of a positive amount never raises anyone's sum. */
  lemma CommittedDelete(m: map<string, SipAllocation>, giver: PlayerId, k: string)
    requires k in m && m[k].amount > 0
    ensures Committed(m - {k}, giver) <= Committed(m, giver)
    ensures m[k].fromPlayerId == giver ==> Committed(m - {k}, giver) == Committed(m, giver) - m[k].amount
    ensures m[k].fromPlayerId != giver ==> Committed(m - {k}, giver) == Committed(m, giver)
  {
    CommittedRemove(m, giver, k);
  }

  /** `hand.find(c => c.rank === rank)` found a card. */
  predicate HasMatch(hand: seq<Card>, rank: Rank) {
    FindIndex(hand, (c: Card) => c.rank == rank) >= 0
  }

  /** The giver holds a match exactly when some card in the hand has the rank. */
  lemma HasMatchMeans(hand: seq<Card>, rank: Rank)
    ensures HasMatch(hand, rank) <==> exists c :: c in hand && c.rank == rank
  {
    var i := FindIndex(hand, (c: Card) => c.rank == rank);
    if i >= 0 {
      assert hand[i] in hand;
    } else {
      forall c | c in hand ensures c.rank != rank {
        var j :| 0 <= j < |hand| && hand[j] == c;
        assert !((c: Card) => c.rank == rank)(hand[j]);
      }
    }
  }
}
