/**
 * Phase 1, the distribution round: whose turn it is, how many cards each
 * player holds, how many are left in the deck, and that no card is lost or
 * duplicated on the way to the pyramid.
 */
module Phase1 {
  import opened Wrappers
  import opened Js
  import opened Cards
  import opened DeckUtils
  import opened GameModel
  import opened Rules
  import opened GameStore

  /** The position of the turn player in key order. */
  function TurnIndex(s: GameState): int
    requires s.currentTurnPlayerId.Some?
  {
    IndexOf(s.playerIds, s.currentTurnPlayerId.value)
  }

  /** Players before position k in key order hold q + 1 cards, the others q. */
  ghost predicate HandSizes(s: GameState, q: int, k: int)
    requires forall id :: id in s.playerIds ==> id in s.players
  {
    forall j :: 0 <= j < |s.playerIds| ==> |s.players[s.playerIds[j]].hand| == q + (if j < k then 1 else 0)
  }

  /**
   * After `done` turns of the round: each turn used one of the 51 cards left
   * after the first was drawn, so the deck holds 51 - done cards while a card
   * is active, and is empty once 52 turns have used every card.
   */
  ghost predicate DeckBudget(s: GameState, done: int) {
    && done <= 52
    && (s.activeCard.Some? <==> done < 52)
    && |s.deck| == (if done < 52 then 51 - done else 0)
  }

  /** Turns played so far: q full passes over the n players plus k. */
  function TurnsDone(q: int, n: int, k: int): int {
    q * n + k
  }

  /**
   * The invariant of the distribution round, at question q with player k (in
   * key order) to answer.
   */
  ghost predicate RoundInvariant(s: GameState) {
    && WellFormed(s)
    && s.currentPhase == Phase1Distribution
    && s.currentTurnPlayerId.Some? && s.currentTurnPlayerId.value in s.players
    && 0 <= s.currentQuestionIndex < 5
    && HandSizes(s, s.currentQuestionIndex, TurnIndex(s))
    && DeckBudget(s, TurnsDone(s.currentQuestionIndex, |s.playerIds|, TurnIndex(s)))
    && AllHidden(s.deck) && IdsDistinct(s.deck)
    && s.pyramid == []
  }

  /** The turn player sits at `TurnIndex` in key order, and nobody else does. */
  lemma TurnPosition(s: GameState)
    requires WellFormed(s) && s.currentTurnPlayerId.Some? && s.currentTurnPlayerId.value in s.players
    ensures 0 <= TurnIndex(s) < |s.playerIds| && s.playerIds[TurnIndex(s)] == s.currentTurnPlayerId.value
    ensures forall j :: 0 <= j < |s.playerIds| ==> (s.playerIds[j] == s.currentTurnPlayerId.value <==> j == TurnIndex(s))
  {
    var t := s.currentTurnPlayerId.value;
    var i :| 0 <= i < |s.playerIds| && s.playerIds[i] == t;
    IndexOfDistinct(s.playerIds, i);
  }

  lemma {:induction false} HandsEmpty(players: map<PlayerId, Player>, ids: seq<PlayerId>)
    requires forall id :: id in players ==> players[id].hand == []
    ensures Hands(players, ids) == multiset{}
  {
    if ids != [] {
      HandsEmpty(players, ids[1..]);
    }
  }

  /**
   * The shuffled fresh deck is face down, its ids are distinct, and it holds
   * the generated cards, the last one included.
   */
  lemma {:induction false} ShuffledFullDeck(suffixes: seq<string>, draws: seq<int>)
    requires |suffixes| == 52 && |draws| == 52 && ValidDraws(draws)
    ensures var d := FisherYates(FullDeck(suffixes), draws, |suffixes| - 1);
      && AllHidden(d[..51]) && IdsDistinct(d[..51])
      && multiset(d[..51]) + multiset{d[51]} == multiset(FullDeck(suffixes))
  {
    var full := FullDeck(suffixes);
    var d := FisherYates(full, draws, |suffixes| - 1);
    FisherYatesPermutes(full, draws, |suffixes| - 1);
    FullDeckCards(suffixes);
    FullDeckIdsDistinct(suffixes);
    FisherYatesKeepsIdsDistinct(full, draws, |suffixes| - 1);
    assert d == d[..51] + [d[51]];
    forall i | 0 <= i < 51 ensures d[..51][i].hidden {
      assert d[i] in multiset(full);
    }
  }

  /**
   * From the lobby (hands and pyramid empty), `startGame` opens the round with
   * the first player at question 0, and the 52 generated cards are all in
   * play, each exactly as often as in the generated deck.
   */
  lemma StartDealsRound(s: GameState, suffixes: seq<string>, draws: seq<int>, s': GameState)
    requires |suffixes| == 52 && |draws| == 52 && ValidDraws(draws)
    requires WellFormed(s) && |s.playerIds| >= 1 && s.pyramid == []
    requires forall id :: id in s.players ==> s.players[id].hand == []
    requires Started(s, suffixes, draws, s')
    ensures RoundInvariant(s')
    ensures InPlay(s') == multiset(FullDeck(suffixes))
  {
    ShuffledFullDeck(suffixes, draws);
    OpensRound(s, FisherYates(FullDeck(suffixes), draws, |suffixes| - 1), s');
  }

  /** Drawing the top of any face-down 52-card deck with distinct ids from the lobby opens the round. */
  lemma OpensRound(s: GameState, d: seq<Card>, s': GameState)
    requires |d| == 52 && AllHidden(d[..51]) && IdsDistinct(d[..51])
    requires WellFormed(s) && |s.playerIds| >= 1 && s.pyramid == []
    requires forall id :: id in s.players ==> s.players[id].hand == []
    requires s' == s.(currentPhase := Phase1Distribution, deck := d[..51],
                      currentTurnPlayerId := Some(s.playerIds[0]), currentQuestionIndex := 0,
                      activeCard := Some(d[51]), lastEvent := Some(GameStart))
    ensures RoundInvariant(s')
    ensures InPlay(s') == multiset(d[..51]) + multiset{d[51]}
  {
    IndexOfDistinct(s.playerIds, 0);
    assert TurnIndex(s') == 0;
    assert TurnsDone(0, |s'.playerIds|, 0) == 0;
    HandsEmpty(s'.players, s'.playerIds);
  }

  /** One turn of the round gives the turn player one more card and moves the hand-size pattern one seat on. */
  lemma TurnKeepsHands(s: GameState, correct: bool, s': GameState)
    requires RoundInvariant(s) && TurnResolved(s, correct, s') && s.activeCard.Some?
    requires s'.currentPhase == Phase1Distribution
    ensures WellFormed(s') && s'.currentTurnPlayerId.Some? && s'.currentTurnPlayerId.value in s'.players
    ensures TurnIndex(s') == NextSeat(TurnIndex(s), |s.playerIds|)
    ensures s'.currentQuestionIndex == s.currentQuestionIndex + Wraps(TurnIndex(s), |s.playerIds|)
    ensures HandSizes(s', s'.currentQuestionIndex, TurnIndex(s'))
  {
    var ids, n, q, k := s.playerIds, |s.playerIds|, s.currentQuestionIndex, TurnIndex(s);
    var t := s.currentTurnPlayerId.value;
    TurnPosition(s);
    var k' := NextSeat(k, n);
    IndexOfDistinct(ids, k');
    var q' := s'.currentQuestionIndex;
    forall j | 0 <= j < n
      ensures |s'.players[ids[j]].hand| == q' + (if j < k' then 1 else 0)
    {
      if j == k {
        assert s'.players[ids[j]].hand == s.players[t].hand + [s.activeCard.value];
      } else {
        assert s'.players[ids[j]] == s.players[ids[j]];
      }
    }
  }

  /** Passing the turn on, with a new question after the last seat, counts one more turn. */
  lemma TurnsDoneStep(q: int, n: int, k: int)
    requires 0 <= k < n
    ensures TurnsDone(q + Wraps(k, n), n, NextSeat(k, n)) == TurnsDone(q, n, k) + 1
  {
    if k + 1 == n {
      assert (q + 1) * n == q * n + n;
    }
  }

  /** One turn of the round uses one more turn of the deck budget. */
  lemma TurnKeepsBudget(s: GameState, correct: bool, s': GameState)
    requires RoundInvariant(s) && TurnResolved(s, correct, s') && s.activeCard.Some?
    requires s'.currentPhase == Phase1Distribution
    requires TurnIndex(s') == NextSeat(TurnIndex(s), |s.playerIds|)
    ensures DeckBudget(s', TurnsDone(s'.currentQuestionIndex, |s'.playerIds|, TurnIndex(s')))
    ensures AllHidden(s'.deck) && IdsDistinct(s'.deck)
  {
    var n, q, k := |s.playerIds|, s.currentQuestionIndex, TurnIndex(s);
    TurnPosition(s);
    TurnsDoneStep(q, n, k);
    PoppedCards(s.deck, s'.deck, s'.activeCard);
  }

  /** A turn that keeps the game in Phase 1 keeps the round invariant. */
  lemma TurnKeepsRound(s: GameState, correct: bool, s': GameState)
    requires RoundInvariant(s) && TurnResolved(s, correct, s')
    requires s'.currentPhase == Phase1Distribution
    ensures RoundInvariant(s')
  {
    if s.activeCard.Some? {
      TurnKeepsHands(s, correct, s');
      TurnKeepsBudget(s, correct, s');
    }
  }

  /**
   * A turn at the last question of the last player deals the pyramid: every
   * player holds five cards, the first player in key order is left as the
   * turn player, no card is active, and the pyramid gets the 52 - 5·n cards
   * left when there are fewer than 15, so all 15 only with at most 7 players.
   */
  lemma LastTurnDealsPyramid(s: GameState, correct: bool, s': GameState)
    requires RoundInvariant(s) && TurnResolved(s, correct, s')
    requires s'.currentPhase != Phase1Distribution
    ensures s'.currentPhase == Phase2Pyramid
    ensures forall id :: id in s'.players ==> |s'.players[id].hand| == 5
    ensures s'.currentTurnPlayerId == Some(s.playerIds[0]) && s'.activeCard == None
    ensures |s'.pyramid| == Min(15, 52 - 5 * |s.playerIds|)
    ensures |s'.pyramid| == 15 <==> |s.playerIds| <= 7
    ensures AllHidden(s'.pyramid) && IdsDistinct(s'.pyramid) && s'.revealedPyramidCards == []
  {
    var ids, n, q, k := s.playerIds, |s.playerIds|, s.currentQuestionIndex, TurnIndex(s);
    var t := s.currentTurnPlayerId.value;
    TurnPosition(s);
    assert Wraps(k, n) == 1;
    assert k == n - 1 && q == 4;
    assert q * n + k == 5 * n - 1;
    forall id | id in s'.players ensures |s'.players[id].hand| == 5 {
      var j :| 0 <= j < n && ids[j] == id;
      if j == k {
        assert s'.players[id].hand == s.players[t].hand + [s.activeCard.value];
      }
    }
  }

  /** Conservation across one turn: every card stays in play exactly once. */
  lemma TurnConservesCards(s: GameState, correct: bool, s': GameState)
    requires WellFormed(s) && AllHidden(s.deck) && s.pyramid == []
    requires s.currentTurnPlayerId.Some? && s.activeCard.Some? ==> s.currentTurnPlayerId.value in s.players
    requires TurnResolved(s, correct, s')
    ensures InPlay(s') == InPlay(s)
  {
    if s.currentTurnPlayerId.Some? && s.activeCard.Some? {
      var t, card := s.currentTurnPlayerId.value, s.activeCard.value;
      HandsReceive(s.players, s.playerIds, t, s'.players[t], card);
      if s'.currentPhase != s.currentPhase {
        PyramidDealtCards(s.deck, s'.deck, s'.pyramid);
      } else {
        PoppedCards(s.deck, s'.deck, s'.activeCard);
      }
    }
  }

  /** Within the round `drawCard` never does anything: either a card is active or the deck is spent. */
  lemma DrawCardIdleInRound(s: GameState)
    requires RoundInvariant(s)
    ensures s.activeCard.Some? || s.deck == []
  {
  }

  /**
   * The hand reads of questions 1 and 2 are defined within the round: the
   * turn player holds exactly as many cards as the question index.
   */
  lemma RoundMakesHandReadsDefined(s: GameState)
    requires RoundInvariant(s)
    ensures |s.players[s.currentTurnPlayerId.value].hand| == s.currentQuestionIndex
  {
    TurnPosition(s);
  }

  lemma AtMostFourPasses(q: int, n: int)
    requires 0 <= q < 5 && n >= 0
    ensures q * n <= 4 * n
  {
  }

  /** The round runs out of cards, leaving no active card and stalling every turn, only with 11 or more players. */
  lemma DeckRunsDryOnlyWithElevenPlayers(s: GameState)
    requires RoundInvariant(s) && s.activeCard.None?
    ensures |s.playerIds| >= 11
  {
    var n, q, k := |s.playerIds|, s.currentQuestionIndex, TurnIndex(s);
    TurnPosition(s);
    assert TurnsDone(q, n, k) == 52;
    AtMostFourPasses(q, n);
  }

  /** With 11 or more players no turn ever reaches the pyramid. */
  lemma ElevenPlayersNeverReachPyramid(s: GameState, correct: bool, s': GameState)
    requires RoundInvariant(s) && TurnResolved(s, correct, s') && |s.playerIds| >= 11
    ensures s'.currentPhase == Phase1Distribution
  {
    TurnPosition(s);
    TurnPhase(s, correct, s');
    TurnsStayUnderFive(s.currentQuestionIndex, |s.playerIds|, TurnIndex(s));
  }

  /** With n >= 11 the 52-turn budget ends before the last pass: question 4 is never wrapped past. */
  lemma TurnsStayUnderFive(q: int, n: int, k: int)
    requires 0 <= q < 5 && n >= 11 && 0 <= k < n && TurnsDone(q, n, k) <= 52
    ensures q + Wraps(k, n) < 5
  {
    assert q == 4 ==> TurnsDone(q, n, k) == 4 * n + k;
  }

  /** Within the round, a turn leaves Phase 1 exactly when the question index reaches 5. */
  lemma TurnPhase(s: GameState, correct: bool, s': GameState)
    requires WellFormed(s) && s.currentPhase == Phase1Distribution
    requires s.currentTurnPlayerId.Some? && s.currentTurnPlayerId.value in s.players
    requires 0 <= TurnIndex(s) < |s.playerIds|
    requires TurnResolved(s, correct, s')
    ensures s.activeCard.None? ==> s' == s
    ensures s.activeCard.Some? ==>
      s'.currentPhase == (if s.currentQuestionIndex + Wraps(TurnIndex(s), |s.playerIds|) >= 5
                          then Phase2Pyramid else Phase1Distribution)
  {
  }
}
