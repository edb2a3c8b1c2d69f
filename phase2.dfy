/**
 * Phase 2, the pyramid: the order in which cards are turned up, the cap on
 * the sips a player may commit against the turned-up card, what accepting
 * and challenging cost, and the gate that closes the allocation round.
 */
module Phase2 {
  import opened Wrappers
  import opened Js
  import opened Cards
  import opened DeckUtils
  import opened GameModel
  import opened Rules
  import opened GameStore

  // ------------------------------------------------------------ reveal order

  /** The first m cards of the pyramid are face up, the others face down. */
  ghost predicate RevealedUpTo(p: seq<Card>, m: int) {
    0 <= m <= |p| && forall j :: 0 <= j < |p| ==> (p[j].hidden <==> j >= m)
  }

  /** Besides, the reveal log lists the ids of the face-up cards, in pyramid order. */
  ghost predicate RevealLog(s: GameState, m: int) {
    && RevealedUpTo(s.pyramid, m)
    && |s.revealedPyramidCards| == m
    && forall j :: 0 <= j < m ==> s.revealedPyramidCards[j] == s.pyramid[j].id
  }

  /** A freshly dealt pyramid is all face down, with nothing logged. */
  lemma DealtPyramidFaceDown(deck: seq<Card>, s: GameState)
    requires PyramidDealt(deck, s.deck, s.pyramid) && s.revealedPyramidCards == []
    ensures RevealLog(s, 0)
  {
  }

  /**
   * Reveals go up the flattened pyramid one index at a time: with m cards
   * face up, the next reveal turns up index m (so the five base cards come
   * first and the apex last), makes it the active card and logs its id; once
   * all are up a reveal does nothing.
   */
  lemma RevealsInOrder(s: GameState, m: int, s': GameState)
    requires RevealLog(s, m) && Revealed(s, s')
    ensures m == |s.pyramid| ==> s' == s
    ensures m < |s.pyramid| ==>
      && s' == RevealedAt(s, m)
      && s'.activeCard == Some(s.pyramid[m].(hidden := false))
      && RevealLog(s', m + 1)
    ensures IdsDistinct(s.pyramid) ==> IdsDistinct(s'.pyramid)
  {
    if m < |s.pyramid| {
      assert LowestHidden(s.pyramid, m);
      assert forall j :: 0 <= j < |s.pyramid| ==> s'.pyramid[j].id == s.pyramid[j].id;
    }
  }

  /**
   * The cap while the card at index m (in row r) is up: three times the sips
   * its row is worth, because the id lookup finds that very card.
   */
  lemma RevealedCardCap(s: GameState, m: int, r: int, s': GameState)
    requires RevealLog(s, m) && m < |s.pyramid| && |s.pyramid| <= 15 && IdsDistinct(s.pyramid)
    requires InRow(m, r) && Revealed(s, s')
    ensures s'.activeCard.Some? && SipCap(s'.pyramid, s'.activeCard.value) == 3 * (6 - r)
  {
    RevealsInOrder(s, m, s');
    var card := s'.activeCard.value;
    forall j | 0 <= j < m ensures s'.pyramid[j].id != card.id {
      assert s'.pyramid[j] == s.pyramid[j];
    }
    SipCapByRow(s'.pyramid, card, m, r);
  }

  // -------------------------------------------------------------- sip cap

  /**
   * Every pending allocation is for a positive amount (the amount picker
   * offers 1 to 5), and nobody has committed more than the cap of the card
   * that is up.
   */
  ghost predicate CapInvariant(s: GameState) {
    && (forall id :: id in s.pendingAllocations ==> s.pendingAllocations[id].amount > 0)
    && (s.activeCard.Some? ==>
          forall g :: Committed(s.pendingAllocations, g) <= SipCap(s.pyramid, s.activeCard.value))
  }

  /** A reveal opens a fresh allocation round, within the cap, nobody confirmed, no challenge. */
  lemma RevealOpensRound(s: GameState, s': GameState)
    requires Revealed(s, s') && exists i :: 0 <= i < |s.pyramid| && s.pyramid[i].hidden
    ensures s'.currentPhase == Phase2Allocate && s'.pendingAllocations == map[]
    ensures s'.confirmedTurnPlayers == [] && s'.activeChallenge == None
    ensures CapInvariant(s')
  {
    var i :| 0 <= i < |s.pyramid| && s.pyramid[i].hidden;
    var k := FindIndex(s.pyramid, (c: Card) => c.hidden);
    assert ((c: Card) => c.hidden)(s.pyramid[i]);
    assert LowestHidden(s.pyramid, k);
  }

  /**
   * What an allocation does to the committed sums: when it is let through,
   * the caller's sum grows by the amount, less the share of any earlier
   * allocation recorded under the same id (which the map update overwrites);
   * everybody else's sum loses only that overwritten share.
   */
  lemma AllocationWithinCap(s: GameState, localPlayerId: Option<PlayerId>, targetPlayerId: PlayerId,
                            amount: int, allocationId: string, s': GameState)
    requires Allocated(s, localPlayerId, targetPlayerId, amount, allocationId, s')
    requires localPlayerId.Some? && s.activeCard.Some?
    ensures var l, m := localPlayerId.value, s.pendingAllocations;
      Committed(m, l) + amount > SipCap(s.pyramid, s.activeCard.value) ==> s' == s
    ensures var l, m := localPlayerId.value, s.pendingAllocations;
      Committed(m, l) + amount <= SipCap(s.pyramid, s.activeCard.value) ==>
        && Committed(s'.pendingAllocations, l) ==
             Committed(m, l) - (if allocationId in m then Share(m[allocationId], l) else 0) + amount
        && forall g :: g != l ==>
             Committed(s'.pendingAllocations, g) ==
               Committed(m, g) - (if allocationId in m then Share(m[allocationId], g) else 0)
  {
    var m := s.pendingAllocations;
    var a := NewAllocation(localPlayerId.value, targetPlayerId, amount);
    if Committed(m, localPlayerId.value) + amount <= SipCap(s.pyramid, s.activeCard.value) {
      forall g ensures Committed(m[allocationId := a], g) ==
        Committed(m, g) - (if allocationId in m then Share(m[allocationId], g) else 0) + Share(a, g)
      {
        CommittedPut(m, g, allocationId, a);
      }
    }
  }

  /** An allocation of a positive amount keeps everyone within the cap, even when its id overwrites an earlier one. */
  lemma AllocateKeepsCap(s: GameState, localPlayerId: Option<PlayerId>, targetPlayerId: PlayerId,
                         amount: int, allocationId: string, s': GameState)
    requires CapInvariant(s) && Allocated(s, localPlayerId, targetPlayerId, amount, allocationId, s')
    requires amount > 0
    ensures CapInvariant(s')
  {
    if localPlayerId.Some? && s.activeCard.Some? {
      AllocationWithinCap(s, localPlayerId, targetPlayerId, amount, allocationId, s');
    }
  }

  /** Accepting or challenging never pushes anybody over the cap. */
  lemma RespondKeepsCap(s: GameState, allocationId: string, action: Response, s': GameState)
    requires CapInvariant(s)
    requires allocationId in s.pendingAllocations ==> s.pendingAllocations[allocationId].toPlayerId in s.players
    requires Responded(s, allocationId, action, s')
    ensures CapInvariant(s')
  {
    if allocationId in s.pendingAllocations && action == AcceptSips {
      forall g ensures Committed(s'.pendingAllocations, g) <= Committed(s.pendingAllocations, g) {
        CommittedDelete(s.pendingAllocations, g, allocationId);
      }
    }
  }

  /** Settling a challenge never pushes anybody over the cap. */
  lemma ResolveKeepsCap(s: GameState, s': GameState)
    requires CapInvariant(s) && ChallengeReadable(s) && ChallengeResolved(s, s')
    ensures CapInvariant(s')
  {
    if s.activeChallenge.Some? && s.activeCard.Some? {
      var id := s.activeChallenge.value.allocationId;
      forall g ensures Committed(s'.pendingAllocations, g) <= Committed(s.pendingAllocations, g) {
        CommittedDelete(s.pendingAllocations, g, id);
      }
    }
  }

  // ------------------------------------------------------------- sips taken

  /** The sips taken by the listed players, all together. */
  ghost function TotalTaken(players: map<PlayerId, Player>, ids: seq<PlayerId>): int {
    if ids == [] then 0
    else (if ids[0] in players then players[ids[0]].sipsTaken else 0) + TotalTaken(players, ids[1..])
  }

  lemma {:induction false} TotalTakenUnlisted(players: map<PlayerId, Player>, ids: seq<PlayerId>, t: PlayerId, p: Player)
    requires t !in ids
    ensures TotalTaken(players[t := p], ids) == TotalTaken(players, ids)
  {
    if ids != [] {
      assert t !in ids[1..] by {
        forall i | 0 <= i < |ids[1..]| ensures ids[1..][i] != t { assert ids[1..][i] == ids[i + 1]; }
      }
      TotalTakenUnlisted(players, ids[1..], t, p);
    }
  }

  /** Changing one listed player's count changes the total by the same amount. */
  lemma {:induction false} TotalTakenBump(players: map<PlayerId, Player>, ids: seq<PlayerId>, t: PlayerId, p: Player)
    requires Distinct(ids) && t in ids && t in players
    ensures TotalTaken(players[t := p], ids) == TotalTaken(players, ids) - players[t].sipsTaken + p.sipsTaken
  {
    var rest := ids[1..];
    assert Distinct(rest) by {
      forall i, j | 0 <= i < j < |rest| ensures rest[i] != rest[j] { assert rest[i] == ids[i + 1] && rest[j] == ids[j + 1]; }
    }
    if ids[0] == t {
      assert t !in rest by {
        forall i | 0 <= i < |rest| ensures rest[i] != t { assert rest[i] == ids[i + 1]; }
      }
      TotalTakenUnlisted(players, rest, t, p);
    } else {
      assert t in rest by {
        var i :| 0 <= i < |ids| && ids[i] == t;
        assert rest[i - 1] == t;
      }
      TotalTakenBump(players, rest, t, p);
    }
  }

  /** Accepting costs the table exactly the allocated amount; challenging costs nothing yet. */
  lemma ResponseCost(s: GameState, allocationId: string, action: Response, s': GameState)
    requires WellFormed(s) && allocationId in s.pendingAllocations
    requires s.pendingAllocations[allocationId].toPlayerId in s.players
    requires Responded(s, allocationId, action, s')
    ensures action == AcceptSips ==>
      TotalTaken(s'.players, s'.playerIds) == TotalTaken(s.players, s.playerIds) + s.pendingAllocations[allocationId].amount
    ensures action == CallLiar ==> s'.players == s.players && s'.pendingAllocations == s.pendingAllocations
  {
    var a := s.pendingAllocations[allocationId];
    if action == AcceptSips {
      TotalTakenBump(s.players, s.playerIds, a.toPlayerId, s'.players[a.toPlayerId]);
    }
  }

  /**
   * The verdict of a challenge: exactly one of the two drinks, the
   * challenger when the giver does hold a card of the active card's rank and
   * the giver otherwise, and the table pays twice the allocated amount.
   */
  lemma ChallengeVerdict(s: GameState, s': GameState)
    requires WellFormed(s) && ChallengeReadable(s) && ChallengeResolved(s, s')
    requires s.activeChallenge.Some? && s.activeCard.Some?
    ensures var ch := s.activeChallenge.value;
      var a := s.pendingAllocations[ch.allocationId];
      var truthful := exists c :: c in s.players[ch.targetId].hand && c.rank == s.activeCard.value.rank;
      && (truthful ==> s'.players == s.players[ch.challengerId :=
            s.players[ch.challengerId].(sipsTaken := s.players[ch.challengerId].sipsTaken + 2 * a.amount)])
      && (!truthful ==> s'.players == s.players[ch.targetId :=
            s.players[ch.targetId].(sipsTaken := s.players[ch.targetId].sipsTaken + 2 * a.amount)])
      && TotalTaken(s'.players, s'.playerIds) == TotalTaken(s.players, s.playerIds) + 2 * a.amount
  {
    var ch := s.activeChallenge.value;
    HasMatchMeans(s.players[ch.targetId].hand, s.activeCard.value.rank);
    var loser := if HasMatch(s.players[ch.targetId].hand, s.activeCard.value.rank) then ch.challengerId else ch.targetId;
    TotalTakenBump(s.players, s.playerIds, loser, s'.players[loser]);
  }

  // ------------------------------------------------------- confirmation gate

  /** With the players kept under their own ids, the gate opens exactly when every player has confirmed. */
  lemma ConfirmGate(s: GameState, localPlayerId: Option<PlayerId>, s': GameState)
    requires WellFormed(s) && Confirmed(s, localPlayerId, s')
    requires localPlayerId.Some? && s.currentPhase == Phase2Allocate && localPlayerId.value !in s.confirmedTurnPlayers
    ensures s'.currentPhase == Phase2Resolve <==> forall id :: id in s.players ==> id in s'.confirmedTurnPlayers
  {
  }

  /** A confirmation leaves the pyramid, the active card and the allocations alone, so it keeps the cap. */
  lemma ConfirmKeepsCap(s: GameState, localPlayerId: Option<PlayerId>, s': GameState)
    requires CapInvariant(s) && Confirmed(s, localPlayerId, s')
    ensures CapInvariant(s')
  {
  }

  /** Nobody is listed twice as confirmed. */
  lemma ConfirmKeepsDistinct(s: GameState, localPlayerId: Option<PlayerId>, s': GameState)
    requires Distinct(s.confirmedTurnPlayers) && Confirmed(s, localPlayerId, s')
    ensures Distinct(s'.confirmedTurnPlayers)
  {
    if !(localPlayerId.None? || s.currentPhase != Phase2Allocate || localPlayerId.value in s.confirmedTurnPlayers) {
      var c := s'.confirmedTurnPlayers;
      forall i, j | 0 <= i < j < |c| ensures c[i] != c[j] {
        if j == |c| - 1 {
          assert c[i] in s.confirmedTurnPlayers;
        }
      }
    }
  }

  lemma {:induction false} DistinctCardinality<T>(s: seq<T>)
    requires Distinct(s)
    ensures |set x | x in s| == |s|
  {
    if s != [] {
      var rest := s[1..];
      assert Distinct(rest) by {
        forall i, j | 0 <= i < j < |rest| ensures rest[i] != rest[j] { assert rest[i] == s[i + 1] && rest[j] == s[j + 1]; }
      }
      DistinctCardinality(rest);
      assert s[0] !in rest by {
        forall i | 0 <= i < |rest| ensures rest[i] != s[0] { assert rest[i] == s[i + 1]; }
      }
      assert (set x | x in s) == (set x | x in rest) + {s[0]} by {
        forall x ensures x in s <==> x in rest || x == s[0] {
          if x in s && x != s[0] {
            var i :| 0 <= i < |s| && s[i] == x;
            assert rest[i - 1] == x;
          }
        }
      }
    }
  }

  lemma SubsetOfSameSize<T>(a: set<T>, b: set<T>)
    requires a <= b && |a| == |b|
    ensures a == b
  {
    var d := b - a;
    assert b == a + d && a * d == {};
    assert |d| == 0;
    assert forall x :: x in b ==> x in a || x in d;
  }

  /**
   * When only players confirm (each at most once), the gate opens exactly
   * when the number of confirmations reaches the number of players.
   */
  lemma GateByCount(ids: seq<PlayerId>, confirmed: seq<PlayerId>)
    requires Distinct(ids) && Distinct(confirmed)
    requires forall x :: x in confirmed ==> x in ids
    ensures (forall id :: id in ids ==> id in confirmed) <==> |confirmed| == |ids|
  {
    var a, b := set x | x in confirmed, set x | x in ids;
    DistinctCardinality(confirmed);
    DistinctCardinality(ids);
    if |confirmed| == |ids| {
      SubsetOfSameSize(a, b);
      forall id | id in ids ensures id in confirmed {
        assert id in b;
      }
    }
    if forall id :: id in ids ==> id in confirmed {
      assert a == b;
    }
  }

  // ------------------------------------------------------------ phase flow

  /**
   * `resolveTurn` has no phase guard. Called with a card up after the fifth
   * question (index 5) in any phase other than PHASE_2_PYRAMID, it moves the
   * game back to PHASE_2_PYRAMID, clears the active card and deals a new
   * pyramid off what is left of the deck, with an empty reveal log.
   */
  lemma ResolveTurnRedealsPyramid(s: GameState, correct: bool, s': GameState)
    requires WellFormed(s) && s.activeCard.Some?
    requires s.currentTurnPlayerId.Some? && s.currentTurnPlayerId.value in s.players
    requires s.currentQuestionIndex >= 5 && s.currentPhase != Phase2Pyramid
    requires TurnResolved(s, correct, s')
    ensures s'.currentPhase == Phase2Pyramid && s'.activeCard == None
    ensures PyramidDealt(s.deck, s'.deck, s'.pyramid) && s'.revealedPyramidCards == []
  {
  }
}
