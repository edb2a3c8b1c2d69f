/**
 * The store actions. Each reads the whole state, builds the partial update
 * the action publishes, and returns the state after that update has been
 * merged back (`updateGameState` followed by `syncState`). Beside each
 * action, a predicate states the transition it makes; the lemmas about
 * rounds, caps and conservation are stated over those predicates.
 * `Date.now()` ids and the shuffle's random choices are parameters.
 */
module GameStore {
  import opened Wrappers
  import opened Js
  import opened Cards
  import opened DeckUtils
  import opened GameModel
  import opened Rules

  function Min(a: int, b: int): int {
    if a <= b then a else b
  }

  /** The deck after `pop()`: its last card taken off into `card`, or nothing taken from an empty deck. */
  ghost predicate Popped(deck: seq<Card>, deck': seq<Card>, card: Option<Card>) {
    if deck == [] then deck' == [] && card == None
    else deck' == deck[..|deck| - 1] && card == Some(deck[|deck| - 1])
  }

  /**
   * The pyramid dealt from `deck`: min(15, |deck|) cards popped off its end,
   * placed in pop order (the last card of the deck at index 0), face down.
   */
  ghost predicate PyramidDealt(deck: seq<Card>, deck': seq<Card>, pyramid: seq<Card>) {
    var m := Min(15, |deck|);
    && deck' == deck[..|deck| - m]
    && |pyramid| == m
    && forall i :: 0 <= i < m ==> pyramid[i] == deck[|deck| - 1 - i].(hidden := true)
  }

  /** The cards a pop leaves in the deck and the card it takes out are the cards of the deck. */
  lemma PoppedCards(deck: seq<Card>, deck': seq<Card>, card: Option<Card>)
    requires Popped(deck, deck', card)
    ensures multiset(deck') + OptionCards(card) == multiset(deck)
    ensures AllHidden(deck) ==> AllHidden(deck')
    ensures IdsDistinct(deck) ==> IdsDistinct(deck')
  {
    if deck != [] {
      assert deck == deck' + [card.value];
    }
  }

  /**
   * Dealing `m` cards off the end of a face-down deck into the pyramid moves
   * those cards and no others.
   */
  lemma {:induction false} DealtCards(deck: seq<Card>, pyramid: seq<Card>, m: int)
    requires 0 <= m <= |deck| && |pyramid| == m && AllHidden(deck)
    requires forall i :: 0 <= i < m ==> pyramid[i] == deck[|deck| - 1 - i].(hidden := true)
    ensures multiset(deck[..|deck| - m]) + multiset(pyramid) == multiset(deck)
    decreases m
  {
    if m == 0 {
      assert deck[..|deck|] == deck;
    } else {
      var p := pyramid[..m - 1];
      DealtCards(deck, p, m - 1);
      assert pyramid == p + [deck[|deck| - m]];
      assert deck[..|deck| - m + 1] == deck[..|deck| - m] + [deck[|deck| - m]];
    }
  }

  /** Every card of a dealt pyramid is one that was in the deck; the deck keeps the others. */
  lemma PyramidDealtCards(deck: seq<Card>, deck': seq<Card>, pyramid: seq<Card>)
    requires PyramidDealt(deck, deck', pyramid) && AllHidden(deck)
    ensures multiset(deck') + multiset(pyramid) == multiset(deck)
  {
    DealtCards(deck, pyramid, Min(15, |deck|));
  }

  // ---------------------------------------------------------------- startGame

  /**
   * `startGame`: nothing without players; otherwise the shuffled fresh deck's
   * last card becomes the active card, the other 51 the deck, and the first
   * player (in key order) answers question 0. Hands and the pyramid are not
   * touched.
   */
  ghost predicate Started(s: GameState, suffixes: seq<string>, draws: seq<int>, s': GameState)
    requires |suffixes| == 52 && |draws| == 52 && ValidDraws(draws)
  {
    if s.playerIds == [] then s' == s
    else
      var d := FisherYates(FullDeck(suffixes), draws, |suffixes| - 1);
      s' == s.(currentPhase := Phase1Distribution, deck := d[..51],
               currentTurnPlayerId := Some(s.playerIds[0]), currentQuestionIndex := 0,
               activeCard := Some(d[51]), lastEvent := Some(GameStart))
  }

  method StartGame(s: GameState, suffixes: seq<string>, draws: seq<int>) returns (s': GameState)
    requires |suffixes| == 52 && |draws| == 52 && ValidDraws(draws)
    ensures Started(s, suffixes, draws, s')
  {
    var playerIds := s.playerIds;
    if |playerIds| == 0 {
      return s;
    }
    var generated := GenerateDeck(suffixes);
    var deck := ShuffleDeck(generated, draws);
    var firstCard := deck[|deck| - 1];
    deck := deck[..|deck| - 1];
    var updates := NoChange.(
      currentPhase := Some(Phase1Distribution),
      deck := Some(deck),
      currentTurnPlayerId := Some(Some(playerIds[0])),
      currentQuestionIndex := Some(0),
      activeCard := Some(Some(firstCard)),
      lastEvent := Some(Some(GameStart)));
    s' := Merge(s, updates);
  }

  // ----------------------------------------------------------------- drawCard

  /**
   * `drawCard`: nothing while a card is active or when the deck is empty;
   * otherwise the deck's last card becomes the active card. Either way no
   * card appears or disappears.
   */
  method DrawCard(s: GameState) returns (s': GameState)
    ensures s.activeCard.Some? || s.deck == [] ==> s' == s
    ensures s.activeCard.None? && s.deck != [] ==>
      Popped(s.deck, s'.deck, s'.activeCard) &&
      s' == s.(deck := s'.deck, activeCard := s'.activeCard, lastEvent := Some(CardDrawn))
    ensures InPlay(s') == InPlay(s)
    ensures AllHidden(s.deck) ==> AllHidden(s'.deck)
  {
    if s.activeCard.Some? {
      return s;
    }
    var newDeck := s.deck;
    if |newDeck| == 0 {
      return s;
    }
    var card := newDeck[|newDeck| - 1];
    newDeck := newDeck[..|newDeck| - 1];
    PoppedCards(s.deck, newDeck, Some(card));
    s' := Merge(s, NoChange.(deck := Some(newDeck), activeCard := Some(Some(card)), lastEvent := Some(Some(CardDrawn))));
  }

  // -------------------------------------------------------------- resolveTurn

  /**
   * `resolveTurn(correct)`: nothing without a turn player or an active card.
   * Otherwise the active card goes to the end of the turn player's hand,
   * exactly one of its counters goes up by one and no other player changes;
   * the turn passes to the next player in key order, cyclically, and the
   * question index goes up when the turn wraps around. When that makes the
   * index reach 5 and the phase was not already PHASE_2_PYRAMID, the phase
   * becomes PHASE_2_PYRAMID and the pyramid is dealt from the untouched deck;
   * otherwise the next card is popped, if there is one.
   */
  ghost predicate TurnResolved(s: GameState, correct: bool, s': GameState)
    requires WellFormed(s)
    requires s.currentTurnPlayerId.Some? && s.activeCard.Some? ==> s.currentTurnPlayerId.value in s.players
  {
    if s.currentTurnPlayerId.None? || s.activeCard.None? then s' == s
    else
      var t, card := s.currentTurnPlayerId.value, s.activeCard.value;
      var p := s.players[t];
      var ids := s.playerIds;
      var k := IndexOf(ids, t);
      var q' := s.currentQuestionIndex + Wraps(k, |ids|);
      var phase' := if q' >= 5 then Phase2Pyramid else s.currentPhase;
      && s'.players == s.players[t := p.(hand := p.hand + [card],
                                         sipsGiven := p.sipsGiven + (if correct then 1 else 0),
                                         sipsTaken := p.sipsTaken + (if correct then 0 else 1))]
      && s'.currentTurnPlayerId == Some(ids[NextSeat(k, |ids|)])
      && s'.currentQuestionIndex == q'
      && s'.currentPhase == phase'
      && (if phase' != s.currentPhase then
            && s'.activeCard == None
            && PyramidDealt(s.deck, s'.deck, s'.pyramid)
            && s'.currentPyramidRow == 5 && s'.revealedPyramidCards == []
            && s'.lastEvent == Some(PhaseChange)
          else
            && Popped(s.deck, s'.deck, s'.activeCard)
            && s'.pyramid == s.pyramid
            && s'.currentPyramidRow == s.currentPyramidRow
            && s'.revealedPyramidCards == s.revealedPyramidCards
            && s'.lastEvent == Some(if correct then SipDistribute else SipTake))
      && s'.roomId == s.roomId && s'.playerIds == s.playerIds
      && s'.pendingAllocations == s.pendingAllocations
      && s'.confirmedTurnPlayers == s.confirmedTurnPlayers
      && s'.activeChallenge == s.activeChallenge
  }

  /** The seat after seat k among n, going round: the successor of k modulo n. */
  function NextSeat(k: int, n: int): (r: int)
    requires n > 0 && -1 <= k < n
    ensures 0 <= r < n && r == (k + 1) % n
  {
    if k + 1 < n then k + 1 else 0
  }

  /** Whether the turn passes from seat k back to seat 0, starting a new question: (k + 1) div n. */
  function Wraps(k: int, n: int): (r: int)
    requires n > 0 && -1 <= k < n
    ensures r == (k + 1) / n && (r == 1 <==> k == n - 1) && (r == 0 <==> k < n - 1)
  {
    if k + 1 < n then 0 else 1
  }

  /** The player after their turn: the card appended to the hand, one counter bumped. */
  method CreditTurn(player: Player, card: Card, correct: bool) returns (updated: Player, event: EventType)
    ensures updated == player.(hand := player.hand + [card],
                               sipsGiven := player.sipsGiven + (if correct then 1 else 0),
                               sipsTaken := player.sipsTaken + (if correct then 0 else 1))
    ensures event == (if correct then SipDistribute else SipTake)
  {
    updated := player.(hand := player.hand + [card]);
    if correct {
      updated := updated.(sipsGiven := updated.sipsGiven + 1);
      event := SipDistribute;
    } else {
      updated := updated.(sipsTaken := updated.sipsTaken + 1);
      event := SipTake;
    }
  }

  /**
   * The rotation of `resolveTurn`: the next index, reset to 0 past the last
   * player, and the question index, bumped on that reset.
   */
  method Rotate(n: int, currentIndex: int, questionIndex: int) returns (nextIndex: int, nextQuestionIndex: int)
    requires n > 0 && -1 <= currentIndex < n
    ensures nextIndex == NextSeat(currentIndex, n)
    ensures nextQuestionIndex == questionIndex + Wraps(currentIndex, n)
  {
    nextIndex := currentIndex + 1;
    nextQuestionIndex := questionIndex;
    if nextIndex >= n {
      nextIndex := 0;
      nextQuestionIndex := nextQuestionIndex + 1;
    }
  }

  /** `[...deck].pop()`: the copy without its last card, and that card if there was one. */
  method Pop(deck: seq<Card>) returns (rest: seq<Card>, card: Option<Card>)
    ensures Popped(deck, rest, card)
  {
    rest := deck;
    card := None;
    if |rest| > 0 {
      card := Some(rest[|rest| - 1]);
      rest := rest[..|rest| - 1];
    }
  }

  method ResolveTurn(s: GameState, correct: bool) returns (s': GameState)
    requires WellFormed(s)
    requires s.currentTurnPlayerId.Some? && s.activeCard.Some? ==> s.currentTurnPlayerId.value in s.players
    ensures TurnResolved(s, correct, s')
  {
    if s.currentTurnPlayerId.None? || s.activeCard.None? {
      return s;
    }
    var turn, activeCard := s.currentTurnPlayerId.value, s.activeCard.value;
    var player := s.players[turn];
    var updatedPlayer, event := CreditTurn(player, activeCard, correct);

    var playerIds := s.playerIds;
    assert turn in playerIds;
    var nextIndex, nextQuestionIndex := Rotate(|playerIds|, IndexOf(playerIds, turn), s.currentQuestionIndex);

    var nextPhase := s.currentPhase;
    if nextQuestionIndex >= 5 {
      nextPhase := Phase2Pyramid;
    }
    var phaseChanged := nextPhase != s.currentPhase;

    var nextActiveCard: Option<Card> := None;
    var newDeck := s.deck;
    if !phaseChanged {
      newDeck, nextActiveCard := Pop(s.deck);
    }

    var updates := NoChange.(
      players := Some(s.players[player.id := updatedPlayer]),
      activeCard := Some(nextActiveCard),
      deck := Some(if phaseChanged then s.deck else newDeck),
      currentTurnPlayerId := Some(Some(playerIds[nextIndex])),
      currentQuestionIndex := Some(nextQuestionIndex),
      currentPhase := Some(nextPhase),
      lastEvent := Some(Some(event)));
    s' := Merge(s, updates);

    if phaseChanged && nextPhase == Phase2Pyramid {
      s' := InitializePyramid(s');
    }
  }

  // ------------------------------------------------------------- submitAnswer

  /**
   * `submitAnswer(answer)`: nothing without an active card or a turn player;
   * otherwise the turn is resolved with the verdict on the answer.
   */
  method SubmitAnswer(s: GameState, answer: string) returns (s': GameState)
    requires WellFormed(s)
    requires s.activeCard.Some? && s.currentTurnPlayerId.Some? ==>
      s.currentTurnPlayerId.value in s.players &&
      (s.currentQuestionIndex == 1 ==> |s.players[s.currentTurnPlayerId.value].hand| >= 1)
    ensures s.activeCard.None? || s.currentTurnPlayerId.None? ==> s' == s
    ensures s.activeCard.Some? && s.currentTurnPlayerId.Some? ==>
      TurnResolved(s, AnswerCorrect(s.activeCard.value, s.currentQuestionIndex,
                                    s.players[s.currentTurnPlayerId.value].hand, answer), s')
  {
    if s.activeCard.None? || s.currentTurnPlayerId.None? {
      return s;
    }
    var player := s.players[s.currentTurnPlayerId.value];
    var correct := AnswerCorrect(s.activeCard.value, s.currentQuestionIndex, player.hand, answer);
    s' := ResolveTurn(s, correct);
  }

  // -------------------------------------------------------- initializePyramid

  /**
   * `initializePyramid`: fifteen pops from a copy of the deck, each card that
   * came off put face down at the end of the pyramid; row 5, nothing revealed.
   */
  method InitializePyramid(s: GameState) returns (s': GameState)
    ensures PyramidDealt(s.deck, s'.deck, s'.pyramid)
    ensures s' == s.(deck := s'.deck, pyramid := s'.pyramid, currentPyramidRow := 5,
                     revealedPyramidCards := [], lastEvent := Some(PhaseChange))
    ensures AllHidden(s.deck) && s.pyramid == [] ==> InPlay(s') == InPlay(s)
  {
    var newDeck := s.deck;
    var pyramidCards: seq<Card> := [];
    for i := 0 to 15
      invariant |pyramidCards| == Min(i, |s.deck|)
      invariant newDeck == s.deck[..|s.deck| - |pyramidCards|]
      invariant forall j :: 0 <= j < |pyramidCards| ==>
        pyramidCards[j] == s.deck[|s.deck| - 1 - j].(hidden := true)
    {
      if |newDeck| > 0 {
        var card := newDeck[|newDeck| - 1];
        newDeck := newDeck[..|newDeck| - 1];
        pyramidCards := pyramidCards + [card.(hidden := true)];
      }
    }
    s' := Merge(s, NoChange.(deck := Some(newDeck), pyramid := Some(pyramidCards),
                             currentPyramidRow := Some(5), revealedPyramidCards := Some([]),
                             lastEvent := Some(Some(PhaseChange))));
    if AllHidden(s.deck) {
      PyramidDealtCards(s.deck, s'.deck, s'.pyramid);
    }
  }

  // -------------------------------------------------------- revealPyramidCard

  /** Index i holds the first face-down card of the pyramid. */
  ghost predicate LowestHidden(pyramid: seq<Card>, i: int) {
    0 <= i < |pyramid| && pyramid[i].hidden && forall j :: 0 <= j < i ==> !pyramid[j].hidden
  }

  /**
   * The state after turning up the card at index i: it becomes the active
   * card and its id is logged; the allocation round starts afresh.
   */
  ghost function RevealedAt(s: GameState, i: int): GameState
    requires 0 <= i < |s.pyramid|
  {
    var card := s.pyramid[i].(hidden := false);
    s.(pyramid := s.pyramid[i := card],
       revealedPyramidCards := s.revealedPyramidCards + [card.id],
       activeCard := Some(card),
       currentPhase := Phase2Allocate,
       pendingAllocations := map[],
       confirmedTurnPlayers := [],
       activeChallenge := None,
       lastEvent := Some(PhaseChange))
  }

  /** `revealPyramidCard`: nothing when every card is face up, else the first face-down one is turned. */
  ghost predicate Revealed(s: GameState, s': GameState) {
    && ((forall j :: 0 <= j < |s.pyramid| ==> !s.pyramid[j].hidden) ==> s' == s)
    && (forall i :: LowestHidden(s.pyramid, i) ==> s' == RevealedAt(s, i))
  }

  method RevealPyramidCard(s: GameState) returns (s': GameState)
    ensures Revealed(s, s')
  {
    var pyramid := s.pyramid;
    var unrevealedIndex := FindIndex(pyramid, (c: Card) => c.hidden);
    if unrevealedIndex == -1 {
      return s;
    }
    var newPyramid := pyramid[unrevealedIndex := pyramid[unrevealedIndex].(hidden := false)];
    var card := newPyramid[unrevealedIndex];
    s' := Merge(s, NoChange.(
      pyramid := Some(newPyramid),
      revealedPyramidCards := Some(s.revealedPyramidCards + [card.id]),
      activeCard := Some(Some(card)),
      currentPhase := Some(Phase2Allocate),
      pendingAllocations := Some(map[]),
      confirmedTurnPlayers := Some([]),
      activeChallenge := Some(None),
      lastEvent := Some(Some(PhaseChange))));
    forall i | LowestHidden(s.pyramid, i) ensures i == unrevealedIndex {
      assert ((c: Card) => c.hidden)(pyramid[i]);
    }
  }

  // ------------------------------------------------------------- allocateSips

  /** The allocation `allocateSips` records. */
  function NewAllocation(from: PlayerId, to: PlayerId, amount: int): SipAllocation {
    SipAllocation(from, to, amount, "unknown", Pending)
  }

  /**
   * `allocateSips(target, amount)` by the local player: nothing without a
   * local player or an active card, nothing when what the player has already
   * committed plus `amount` exceeds the cap; otherwise one pending allocation
   * is recorded under `allocationId` and nothing else changes.
   */
  ghost predicate Allocated(s: GameState, localPlayerId: Option<PlayerId>, targetPlayerId: PlayerId,
                            amount: int, allocationId: string, s': GameState)
  {
    if localPlayerId.None? || s.activeCard.None? then s' == s
    else if Committed(s.pendingAllocations, localPlayerId.value) + amount > SipCap(s.pyramid, s.activeCard.value) then s' == s
    else s' == s.(pendingAllocations := s.pendingAllocations[allocationId :=
                    NewAllocation(localPlayerId.value, targetPlayerId, amount)])
  }

  method AllocateSips(s: GameState, localPlayerId: Option<PlayerId>, targetPlayerId: PlayerId,
                      amount: int, allocationId: string) returns (s': GameState)
    ensures Allocated(s, localPlayerId, targetPlayerId, amount, allocationId, s')
  {
    if localPlayerId.None? || s.activeCard.None? {
      return s;
    }
    var local := localPlayerId.value;
    var maxSips := SipCap(s.pyramid, s.activeCard.value);

    // The filter/reduce pass over the pending allocations.
    var currentGiven := 0;
    var rest := s.pendingAllocations;
    while rest != map[]
      invariant currentGiven + Committed(rest, local) == Committed(s.pendingAllocations, local)
      decreases |rest|
    {
      var key :| key in rest;
      CommittedRemove(rest, local, key);
      currentGiven := currentGiven + Share(rest[key], local);
      assert rest.Keys == (rest - {key}).Keys + {key};
      rest := rest - {key};
    }

    if currentGiven + amount > maxSips {
      return s;
    }
    var allocation := NewAllocation(local, targetPlayerId, amount);
    s' := Merge(s, NoChange.(pendingAllocations := Some(s.pendingAllocations[allocationId := allocation])));
  }

  // -------------------------------------------------------- confirmPhase2Turn

  /**
   * `confirmPhase2Turn` by the local player: nothing without a local player,
   * outside PHASE_2_ALLOCATE, or when the player has already confirmed;
   * otherwise the player is appended to the confirmed list, and the phase
   * moves to PHASE_2_RESOLVE exactly when every player id is now on it.
   */
  ghost predicate Confirmed(s: GameState, localPlayerId: Option<PlayerId>, s': GameState) {
    if localPlayerId.None? || s.currentPhase != Phase2Allocate || localPlayerId.value in s.confirmedTurnPlayers then
      s' == s
    else
      && s'.confirmedTurnPlayers == s.confirmedTurnPlayers + [localPlayerId.value]
      && (s'.currentPhase == Phase2Resolve <==> forall pid :: pid in s.playerIds ==> pid in s'.confirmedTurnPlayers)
      && (s'.currentPhase != Phase2Resolve ==> s' == s.(confirmedTurnPlayers := s'.confirmedTurnPlayers))
      && (s'.currentPhase == Phase2Resolve ==>
            s' == s.(confirmedTurnPlayers := s'.confirmedTurnPlayers, currentPhase := Phase2Resolve,
                     lastEvent := Some(PhaseChange)))
  }

  method ConfirmPhase2Turn(s: GameState, localPlayerId: Option<PlayerId>) returns (s': GameState)
    ensures Confirmed(s, localPlayerId, s')
  {
    if localPlayerId.None? || s.currentPhase != Phase2Allocate {
      return s;
    }
    var local := localPlayerId.value;
    if local in s.confirmedTurnPlayers {
      return s;
    }
    var newConfirmed := s.confirmedTurnPlayers + [local];
    var allConfirmed := forall pid :: pid in s.playerIds ==> pid in newConfirmed;
    var updates := NoChange.(confirmedTurnPlayers := Some(newConfirmed));
    if allConfirmed {
      updates := updates.(currentPhase := Some(Phase2Resolve), lastEvent := Some(Some(PhaseChange)));
    }
    s' := Merge(s, updates);
  }

  // ------------------------------------------------------ respondToAllocation

  /** The recipient's answer to an allocation: 'ACCEPT' or 'CHALLENGE'. */
  datatype Response = AcceptSips | CallLiar

  /**
   * `respondToAllocation(id, action)`: nothing for an unknown id. Accepting
   * adds the amount to the recipient's sips taken and deletes just that
   * allocation; challenging leaves the allocations alone and opens a
   * challenge of the recipient against the giver.
   */
  ghost predicate Responded(s: GameState, allocationId: string, action: Response, s': GameState)
    requires allocationId in s.pendingAllocations ==> s.pendingAllocations[allocationId].toPlayerId in s.players
  {
    if allocationId !in s.pendingAllocations then s' == s
    else
      var a := s.pendingAllocations[allocationId];
      match action
      case AcceptSips =>
        var target := s.players[a.toPlayerId];
        s' == s.(players := s.players[a.toPlayerId := target.(sipsTaken := target.sipsTaken + a.amount)],
                 pendingAllocations := s.pendingAllocations - {allocationId},
                 lastEvent := Some(SipTake))
      case CallLiar =>
        s' == s.(activeChallenge := Some(Challenge(a.toPlayerId, a.fromPlayerId, allocationId, Active)),
                 lastEvent := Some(PhaseChange))
  }

  method RespondToAllocation(s: GameState, allocationId: string, action: Response) returns (s': GameState)
    requires WellFormed(s)
    requires allocationId in s.pendingAllocations ==> s.pendingAllocations[allocationId].toPlayerId in s.players
    ensures Responded(s, allocationId, action, s')
  {
    if allocationId !in s.pendingAllocations {
      return s;
    }
    var allocation := s.pendingAllocations[allocationId];
    match action
    case AcceptSips =>
      var target := s.players[allocation.toPlayerId];
      var updatedTarget := target.(sipsTaken := target.sipsTaken + allocation.amount);
      var newAllocations := s.pendingAllocations - {allocationId};
      s' := Merge(s, NoChange.(players := Some(s.players[target.id := updatedTarget]),
                               pendingAllocations := Some(newAllocations),
                               lastEvent := Some(Some(SipTake))));
    case CallLiar =>
      var challenge := Challenge(allocation.toPlayerId, allocation.fromPlayerId, allocationId, Active);
      s' := Merge(s, NoChange.(activeChallenge := Some(Some(challenge)),
                               lastEvent := Some(Some(PhaseChange))));
  }

  // --------------------------------------------------------- resolveChallenge

  /**
   * What `resolveChallenge` dereferences once past its guard: the challenged
   * allocation, the giver, and the challenger when the giver holds a match.
   */
  ghost predicate ChallengeReadable(s: GameState) {
    s.activeChallenge.Some? && s.activeCard.Some? ==>
      var ch := s.activeChallenge.value;
      && ch.allocationId in s.pendingAllocations
      && ch.targetId in s.players
      && (HasMatch(s.players[ch.targetId].hand, s.activeCard.value.rank) ==> ch.challengerId in s.players)
  }

  /**
   * `resolveChallenge`: nothing without an open challenge or an active card.
   * Otherwise, if the giver holds a card of the active card's rank, the
   * challenger takes twice the allocated amount, else the giver does; the
   * allocation is deleted and the challenge closed.
   */
  ghost predicate ChallengeResolved(s: GameState, s': GameState)
    requires ChallengeReadable(s)
  {
    if s.activeChallenge.None? || s.activeCard.None? then s' == s
    else
      var ch := s.activeChallenge.value;
      var a := s.pendingAllocations[ch.allocationId];
      var loser := if HasMatch(s.players[ch.targetId].hand, s.activeCard.value.rank) then ch.challengerId else ch.targetId;
      var l := s.players[loser];
      s' == s.(players := s.players[loser := l.(sipsTaken := l.sipsTaken + 2 * a.amount)],
               activeChallenge := None,
               pendingAllocations := s.pendingAllocations - {ch.allocationId},
               lastEvent := Some(SipTake))
  }

  /** `cardIdToReveal` is accepted and ignored, as in the store. */
  method ResolveChallenge(s: GameState, cardIdToReveal: string) returns (s': GameState)
    requires WellFormed(s)
    requires ChallengeReadable(s)
    ensures ChallengeResolved(s, s')
  {
    if s.activeChallenge.None? || s.activeCard.None? {
      return s;
    }
    var activeChallenge, activeCard := s.activeChallenge.value, s.activeCard.value;
    var allocation := s.pendingAllocations[activeChallenge.allocationId];
    var giver := s.players[activeChallenge.targetId];
    var playerHasMatch := FindIndex(giver.hand, (c: Card) => c.rank == activeCard.rank) >= 0;

    var updatedPlayers := s.players;
    if playerHasMatch {
      var challenger := s.players[activeChallenge.challengerId];
      updatedPlayers := updatedPlayers[challenger.id :=
        challenger.(sipsTaken := challenger.sipsTaken + allocation.amount * 2)];
    } else {
      updatedPlayers := updatedPlayers[giver.id := giver.(sipsTaken := giver.sipsTaken + allocation.amount * 2)];
    }

    var newAllocations := s.pendingAllocations - {activeChallenge.allocationId};
    s' := Merge(s, NoChange.(players := Some(updatedPlayers),
                             activeChallenge := Some(None),
                             pendingAllocations := Some(newAllocations),
                             lastEvent := Some(Some(SipTake))));
  }
}
