/**
 * The shared game document: players, deck, pyramid, phase, turn pointer and
 * the per-reveal interactive state, plus the partial updates the actions
 * publish and the merge that applies them.
 */
module GameModel {
  import opened Wrappers
  import opened Js
  import opened Cards

  type PlayerId = string

  datatype Player = Player(
    id: PlayerId,
    name: string,
    hand: seq<Card>,          // `cards`, in the order they were received
    sipsGiven: int,
    sipsTaken: int,
    isHost: bool,
    isConnected: bool)

  datatype GamePhase =
    | Lobby
    | Phase1Distribution
    | Phase2Pyramid
    | Phase2Reveal
    | Phase2Allocate
    | Phase2Resolve
    | GameOver

  datatype AllocationStatus = Pending | Accepted | Challenged

  datatype SipAllocation = SipAllocation(
    fromPlayerId: PlayerId,
    toPlayerId: PlayerId,
    amount: int,
    usingCardId: string,
    status: AllocationStatus)

  datatype ChallengeStatus = Active | Resolved

  datatype Challenge = Challenge(
    challengerId: PlayerId,   // the recipient who calls "Menteur"
    targetId: PlayerId,       // the giver
    allocationId: string,
    status: ChallengeStatus)

  /** The kind of the last notification; its id and message text are not modelled. */
  datatype EventType = SipDistribute | SipTake | CardDrawn | PhaseChange | GameStart

  /**
   * The room document. `playerIds` is the key order of `players`
   * (`Object.keys(players)`, the order the database returns the keys in),
   * kept beside the map.
   */
  datatype GameState = GameState(
    roomId: string,
    players: map<PlayerId, Player>,
    playerIds: seq<PlayerId>,
    deck: seq<Card>,                  // a stack: the last element is drawn first
    pyramid: seq<Card>,               // index 0..4 base row, 14 apex
    currentPhase: GamePhase,
    currentTurnPlayerId: Option<PlayerId>,
    activeCard: Option<Card>,
    currentQuestionIndex: int,
    currentPyramidRow: int,
    revealedPyramidCards: seq<string>,
    pendingAllocations: map<string, SipAllocation>,
    confirmedTurnPlayers: seq<PlayerId>,
    activeChallenge: Option<Challenge>,
    lastEvent: Option<EventType>)

  /** A `Partial<GameState>`: `Some` for each top-level key the update writes. */
  datatype Delta = Delta(
    roomId: Option<string>,
    players: Option<map<PlayerId, Player>>,
    playerIds: Option<seq<PlayerId>>,
    deck: Option<seq<Card>>,
    pyramid: Option<seq<Card>>,
    currentPhase: Option<GamePhase>,
    currentTurnPlayerId: Option<Option<PlayerId>>,
    activeCard: Option<Option<Card>>,
    currentQuestionIndex: Option<int>,
    currentPyramidRow: Option<int>,
    revealedPyramidCards: Option<seq<string>>,
    pendingAllocations: Option<map<string, SipAllocation>>,
    confirmedTurnPlayers: Option<seq<PlayerId>>,
    activeChallenge: Option<Option<Challenge>>,
    lastEvent: Option<Option<EventType>>)

  /** The update that writes no key. */
  const NoChange: Delta := Delta(None, None, None, None, None, None, None, None,
                                 None, None, None, None, None, None, None)

  /**
   * `updateGameState` followed by `syncState`: every key the update carries
   * overwrites the state's, every other key keeps its value.
   */
  function Merge(s: GameState, d: Delta): GameState {
    GameState(
      d.roomId.GetOr(s.roomId),
      d.players.GetOr(s.players),
      d.playerIds.GetOr(s.playerIds),
      d.deck.GetOr(s.deck),
      d.pyramid.GetOr(s.pyramid),
      d.currentPhase.GetOr(s.currentPhase),
      d.currentTurnPlayerId.GetOr(s.currentTurnPlayerId),
      d.activeCard.GetOr(s.activeCard),
      d.currentQuestionIndex.GetOr(s.currentQuestionIndex),
      d.currentPyramidRow.GetOr(s.currentPyramidRow),
      d.revealedPyramidCards.GetOr(s.revealedPyramidCards),
      d.pendingAllocations.GetOr(s.pendingAllocations),
      d.confirmedTurnPlayers.GetOr(s.confirmedTurnPlayers),
      d.activeChallenge.GetOr(s.activeChallenge),
      d.lastEvent.GetOr(s.lastEvent))
  }

  /** The full snapshot of a document, as the room subscription delivers it. */
  function Snapshot(t: GameState): Delta {
    Delta(Some(t.roomId), Some(t.players), Some(t.playerIds), Some(t.deck), Some(t.pyramid),
          Some(t.currentPhase), Some(t.currentTurnPlayerId), Some(t.activeCard),
          Some(t.currentQuestionIndex), Some(t.currentPyramidRow), Some(t.revealedPyramidCards),
          Some(t.pendingAllocations), Some(t.confirmedTurnPlayers), Some(t.activeChallenge),
          Some(t.lastEvent))
  }

  /** Receiving a full snapshot makes every client's copy that snapshot, whatever it held before. */
  lemma MergeSnapshot(s: GameState, t: GameState)
    ensures Merge(s, Snapshot(t)) == t
  {
  }

  /** An update that writes nothing changes nothing, and applying an update twice is applying it once. */
  lemma MergeIdempotent(s: GameState, d: Delta)
    ensures Merge(s, NoChange) == s
    ensures Merge(Merge(s, d), d) == Merge(s, d)
  {
  }

  /**
   * The representation invariant: `playerIds` lists each key of `players`
   * exactly once, and every player is stored under its own id, as the room
   * bootstrap creates them.
   */
  ghost predicate WellFormed(s: GameState) {
    && Distinct(s.playerIds)
    && (forall id :: id in s.players <==> id in s.playerIds)
    && (forall id :: id in s.players ==> s.players[id].id == id)
  }

  /** Every card still in the (Phase 1) deck is face down. */
  ghost predicate AllHidden(cards: seq<Card>) {
    forall i :: 0 <= i < |cards| ==> cards[i].hidden
  }

  function OptionCards(c: Option<Card>): multiset<Card> {
    if c.Some? then multiset{c.value} else multiset{}
  }

  /** The cards in the hands of the listed players. */
  ghost function Hands(players: map<PlayerId, Player>, ids: seq<PlayerId>): multiset<Card> {
    if ids == [] then multiset{}
    else (if ids[0] in players then multiset(players[ids[0]].hand) else multiset{})
         + Hands(players, ids[1..])
  }

  /** Every card the document holds: deck, active card, hands and pyramid. */
  ghost function InPlay(s: GameState): multiset<Card> {
    multiset(s.deck) + OptionCards(s.activeCard) + Hands(s.players, s.playerIds) + multiset(s.pyramid)
  }

  /** Changing a player who is not listed leaves the listed hands alone. */
  lemma {:induction false} HandsUnlisted(players: map<PlayerId, Player>, ids: seq<PlayerId>, t: PlayerId, p: Player)
    requires t !in ids
    ensures Hands(players[t := p], ids) == Hands(players, ids)
  {
    if ids != [] {
      assert t !in ids[1..] by {
        forall i | 0 <= i < |ids[1..]| ensures ids[1..][i] != t { assert ids[1..][i] == ids[i + 1]; }
      }
      HandsUnlisted(players, ids[1..], t, p);
    }
  }

  /** Giving a listed player one more card adds exactly that card to the listed hands. */
  lemma {:induction false} HandsReceive(players: map<PlayerId, Player>, ids: seq<PlayerId>, t: PlayerId, p: Player, c: Card)
    requires Distinct(ids) && t in ids && t in players
    requires p.hand == players[t].hand + [c]
    ensures Hands(players[t := p], ids) == Hands(players, ids) + multiset{c}
  {
    var rest := ids[1..];
    assert Distinct(rest) by {
      forall i, j | 0 <= i < j < |rest| ensures rest[i] != rest[j] { assert rest[i] == ids[i + 1] && rest[j] == ids[j + 1]; }
    }
    if ids[0] == t {
      assert t !in rest by {
        forall i | 0 <= i < |rest| ensures rest[i] != t { assert rest[i] == ids[i + 1]; }
      }
      HandsUnlisted(players, rest, t, p);
    } else {
      assert t in rest by {
        var i :| 0 <= i < |ids| && ids[i] == t;
        assert rest[i - 1] == t;
      }
      HandsReceive(players, rest, t, p, c);
    }
  }
}
