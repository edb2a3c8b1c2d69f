# Pyramid game-state engine, in Dafny

This project models the rule engine of a multiplayer "Pyramid" drinking-card
game and proves properties of it. Every client keeps one shared game document.
Each store action reads the whole document and computes a partial update
(`Partial<GameState>`). The action publishes that update, and every client
merges it back key by key. The model treats a published update as arriving
whole. A key cleared to `null`, `[]` or `{}` is the one exception: the
database deletes it instead, and "## Left out" says what follows from that.

The game has two phases:

- **Phase 1.** Every player answers five questions in turn about the next card
  off the deck: colour, higher or lower, in or out, suit, exact card. Each
  answered card goes into the answering player's hand.
- **Phase 2.** Up to fifteen further cards form a pyramid and are turned up one
  at a time. After each reveal, players give sips to one another, up to a cap
  set by the card's row. A recipient may accept or shout "Menteur".

The model covers:

- the card tables (`Cards`, card.dfy);
- deck generation and the Fisher–Yates shuffle (`DeckUtils`, deck_utils.dfy);
- the document and its merge (`GameModel`, game_state.dfy);
- the pure rule computations (`Rules`, rules.dfy);
- the ten store actions (`GameStore`, game_store.dfy);
- the Phase 1 and Phase 2 properties (`Phase1`, phase1.dfy; `Phase2`, phase2.dfy);
- the JavaScript built-ins the rules rely on: `findIndex`, `indexOf` and
  `split` (`Js`, js.dfy).

Modelling choices:

- **The document is a value.** `GameState` is a datatype. Each action is a
  method `(s, arguments) returns (s')` that builds a `Delta` the same way the
  action builds its update. It returns `Merge(s, delta)`: `updateGameState`
  followed by `syncState`, one top-level key overwritten at a time. Beside each
  action, a predicate (`Started`, `TurnResolved`, `Revealed`, `Allocated`,
  `Confirmed`, `Responded`, `ChallengeResolved`) states the transition. The
  action's `ensures` ties its result to that predicate, and the lemmas in
  `Phase1` and `Phase2` are stated over the predicates.
- **Players.** `players` is a map. `playerIds` is its key order, the order
  `Object.keys` gives, used for turn rotation and for the confirmation gate.
- **The representation invariant.** `WellFormed` says two things:
  - `playerIds` lists each key exactly once;
  - every player is stored under its own `id`, as room creation and joining do
    (src/screens/HomeScreen.tsx:24-35, src/services/firebase.ts:27-29).

  The action methods that index `players` take it as a precondition.
- **The deck is a stack.** The deck is a `seq<Card>`, and `pop()` takes its
  last element.
- **Randomness and clocks are parameters:**
  - the random suffix of each generated card id (`suffixes`);
  - the index the shuffle draws at each step (`draws`, with `0 <= draws[i] <= i`);
  - the `Date.now()` id of a new allocation (`allocationId`);
  - the local player's id, where `localPlayerId` is read from the store.
- **Numbers** are unbounded integers. The counters never approach any limit
  that matters here.

In three places the code does something other than what a reader of the
game's rules might expect. The model follows the code:

- **Reveal order.** A reader might expect the pyramid to be revealed apex
  first. `revealPyramidCard` turns up the lowest-index hidden card instead, and index
  0 is the base row (src/components/PyramidBoard.tsx:19-24). So the base row
  goes first and the apex last (`Phase2.RevealsInOrder`).
- **`allocateSips`** checks neither the phase, nor that the caller is not the
  target, nor that the amount is positive. A reader might take all three as
  preconditions of the action. Only the user interface enforces them
  (src/components/Phase2Controller.tsx:206 shows the allocation panel only in PHASE_2_ALLOCATE; :37, :74 and :91 check the target and the amount). The model lets any
  amount through that fits under the cap. `Phase2.AllocateKeepsCap` takes
  the positive amount as an assumption.
- **Phase guards.** `startGame`, `drawCard`, `resolveTurn`, `initializePyramid`,
  `revealPyramidCard`, `submitAnswer`, `respondToAllocation` and
  `resolveChallenge` have none either. Only `confirmPhase2Turn` checks the
  phase (gameStore.ts:376).

## Model

| member | source | states |
|---|---|---|
| `Cards.SuitsTable` | src/models/Card.ts:12 | `SUITS` has four entries, pairwise distinct, and every suit is among them |
| `Cards.RanksTable` | src/models/Card.ts:13 | `RANKS` has thirteen entries, pairwise distinct, and every rank is among them |
| `Cards.CardValue` | src/models/Card.ts:15-21 | `getCardValue`'s table: every rank is worth between 2 and 14; `Cards.ValueOfEachRank` and `Cards.ValueBijection` give each entry and show the values are exactly 2..14, one rank each |
| `Cards.ValueAlongRanks` | src/models/Card.ts:13-19 | the rank at index i of `RANKS` is worth i + 2 |
| `Cards.ValueOfEachRank` | src/models/Card.ts:15-21 | a numeric rank's value is the number its name spells in decimal; J, Q, K, A are 11, 12, 13, 14 |
| `Cards.ValueStrictlyIncreasing` | src/models/Card.ts:13-19 | values strictly increase along the `RANKS` order |
| `Cards.ValueInjective` | src/models/Card.ts:15-21 | two ranks with the same value are the same rank |
| `Cards.ValueBijection` | src/models/Card.ts:15-21 | the values are exactly 2..14, each taken by exactly one rank |
| `Cards.RankOf` | src/models/Card.ts:15-21 | the inverse of `getCardValue` on 2..14 |
| `Cards.GetColor` | src/models/Card.ts:23-25 | `getColor`; its meaning is stated by `Cards.RedSuits` |
| `Cards.RedSuits` | src/models/Card.ts:23-25 | `getColor` is red exactly for hearts and diamonds, so exactly two of the four `SUITS` entries are red |
| `Cards.NamesWithoutDash` | src/utils/deckUtils.ts:8 | no rank or suit name contains `-`, the separator inside card ids |
| `Cards.NamesInjective` | src/models/Card.ts:1-2 | distinct ranks, and distinct suits, have distinct names |
| `DeckUtils.GenerateDeck` | src/utils/deckUtils.ts:3-17 | the nested loops build exactly the 52-card deck `FullDeck`, with suits in the outer loop and ranks in the inner one |
| `DeckUtils.FullDeck` | src/utils/deckUtils.ts:5-12 | the 52 cards `generateDeck` pushes, each built by `NewCard` with the `RANK-SUIT-suffix` id of `CardId`; it has 52 entries, and `DeckUtils.FullDeckAt`, `DeckUtils.FullDeckCoversPairs`, `DeckUtils.FullDeckCards` and `DeckUtils.FullDeckIdsDistinct` state the rest |
| `DeckUtils.FullDeckAt` | src/utils/deckUtils.ts:5-12 | index 13·s + r holds suit `SUITS[s]` and rank `RANKS[r]`, is face down, and carries that rank's value |
| `DeckUtils.FullDeckCoversPairs` | src/utils/deckUtils.ts:5-15 | every (suit, rank) pair is at exactly one index of the generated deck |
| `DeckUtils.FullDeckCards` | src/utils/deckUtils.ts:11-12 | every generated card is hidden, and its value is `getCardValue` of its rank |
| `DeckUtils.FullDeckIdsDistinct` | src/utils/deckUtils.ts:8 | generated ids are pairwise distinct whatever the random suffixes, because each starts with its own `rank-suit-` |
| `DeckUtils.FisherYates` | src/utils/deckUtils.ts:22-27 | the backward swap pass as a function of the draws; it keeps the length |
| `DeckUtils.FisherYatesPermutes` | src/utils/deckUtils.ts:22-27 | the pass returns a permutation of its input: same length, same multiset |
| `DeckUtils.FisherYatesKeepsAbove` | src/utils/deckUtils.ts:22-27 | the steps for positions i and below never touch a position above i, so each position is final once its step is done |
| `DeckUtils.FisherYatesSettles` | src/utils/deckUtils.ts:23-26 | position i ends up holding the card its own step swapped in from `draws[i]` |
| `DeckUtils.FisherYatesKeepsIdsDistinct` | src/utils/deckUtils.ts:21-27 | shuffling a deck with distinct ids keeps them distinct |
| `DeckUtils.ShuffleDeck` | src/utils/deckUtils.ts:19-31 | the in-place loop on a fresh array copy computes `FisherYates` of the input, a permutation of it, and returns inputs of length at most 1 unchanged |
| `GameModel.Merge` | src/store/gameStore.ts:62-65 | `syncState`'s spread of what `updateGameState` (src/services/firebase.ts:39-42) writes: each key the update carries replaces the old value, the others are kept; `GameModel.MergeSnapshot` and `GameModel.MergeIdempotent` state its properties |
| `GameModel.MergeSnapshot` | src/store/gameStore.ts:62-65 | merging a full snapshot makes a client's copy equal to the snapshot, whatever it held before; the database delivers such a snapshot only while no key has been cleared (see Transport under "## Left out") |
| `GameModel.MergeIdempotent` | src/services/firebase.ts:39-42 | an empty update changes nothing, and applying an update twice is the same as applying it once |
| `GameModel.HandsReceive` | src/store/gameStore.ts:140 | giving one listed player one more card adds exactly that card to the cards held in hands |
| `Js.FindIndex` | src/store/gameStore.ts:243 | `findIndex` gives the lowest index whose element satisfies the test, or -1 exactly when none does |
| `Js.IndexOfDistinct` | src/store/gameStore.ts:161 | in a list without repeats, `indexOf` finds each element at its own index |
| `Js.Split` | src/store/gameStore.ts:315 | `split` always gives at least one piece |
| `Js.JoinSplit` | src/store/gameStore.ts:315 | joining the pieces of a `split` with the separator gives back the string |
| `Rules.AnswerCorrect` | src/store/gameStore.ts:276-323 | the verdict switch of `submitAnswer`; the five `Rules.*Verdict` lemmas below state it question by question |
| `Rules.ColourVerdict` | src/store/gameStore.ts:279-282 | question 0 is right exactly when the answer names `getColor` of the card's suit |
| `Rules.HigherLowerVerdict` | src/store/gameStore.ts:283-288 | question 1 is right exactly for 'more' with a strictly higher value or 'less' with a strictly lower one than the first card held; 'equal' is never right |
| `Rules.InOutVerdict` | src/store/gameStore.ts:289-298 | question 2 is right exactly for 'in' strictly between, or 'out' strictly outside, the first two cards held, in either order; with fewer than two cards it is never right |
| `Rules.SuitVerdict` | src/store/gameStore.ts:299-301 | question 3 is right exactly when the answer is the suit's name |
| `Rules.ExactCardVerdict` | src/store/gameStore.ts:302-322 | question 4, reached through the duplicate `case 4` label, is right exactly when the answer is the card's `RANK-SUIT` string |
| `Rules.OtherQuestionVerdict` | src/store/gameStore.ts:279-323 | no answer is right for a question index outside 0..4 |
| `Rules.RowMultiplier` | src/store/gameStore.ts:334-338 | the sips per matching card lie between 1 and 5; `Rules.MultiplierByRow` gives the value row by row |
| `Rules.MultiplierByRow` | src/store/gameStore.ts:334-338 | the overwritten `>=` tests give row r (5 the base, 1 the apex) a multiplier of 6 - r |
| `Rules.RowsPartition` | src/components/PyramidBoard.tsx:19-31 | each of the 15 pyramid indices lies in exactly one row |
| `Rules.SipCap` | src/store/gameStore.ts:333-340 | the cap lies between 3 and 15; `Rules.SipCapByRow` ties it to the row of the active card |
| `Rules.SipCapByRow` | src/store/gameStore.ts:333-340 | the cap is 3 × (6 - r) for the first pyramid card with the active card's id, and 3 when there is no such card |
| `Rules.Committed` | src/store/gameStore.ts:343-345 | the filter and sum over the pending allocations: the amounts one giver has committed; `Rules.CommittedRemove`, `Rules.CommittedAdd`, `Rules.CommittedPut` and `Rules.CommittedDelete` state how it moves, and `GameStore.AllocateSips`'s loop is proved to compute it |
| `Rules.CommittedRemove` | src/store/gameStore.ts:343-345 | a giver's committed sum may be split off at any allocation: that allocation's share plus the sum over the rest |
| `Rules.CommittedAdd` | src/store/gameStore.ts:362 | recording an allocation under a fresh id adds its amount to its giver's sum and nothing to anyone else's |
| `Rules.CommittedPut` | src/store/gameStore.ts:362 | recording an allocation under any id, fresh or taken, takes the overwritten entry's share out of its giver's sum and adds the new entry's share |
| `Rules.CommittedDelete` | src/store/gameStore.ts:410-411 | deleting an allocation with a positive amount lowers its giver's sum by that amount and leaves the others' |
| `Rules.HasMatch` | src/store/gameStore.ts:452-453 | the giver's `find` by rank; `Rules.HasMatchMeans` states it holds exactly when the hand has a card of that rank |
| `Rules.HasMatchMeans` | src/store/gameStore.ts:452-453 | the `find` by rank succeeds exactly when the hand holds a card of that rank |
| `GameStore.Pop` | src/store/gameStore.ts:188-189 | `pop()` on a copy of the deck, as at gameStore.ts:113-114 too: an empty deck gives no card and stays empty; otherwise the card is the last one and the rest is the deck without it (`Popped`, with `GameStore.PoppedCards` on what it keeps) |
| `GameStore.PoppedCards` | src/store/gameStore.ts:113-114 | a pop loses no card: the rest of the deck plus the popped card are the old deck, and a face-down deck and distinct ids stay so |
| `GameStore.PyramidDealtCards` | src/store/gameStore.ts:220-225 | dealing the pyramid off a face-down deck moves cards from the deck to the pyramid and no others |
| `GameStore.StartGame` | src/store/gameStore.ts:67-97 | no change without players; otherwise the shuffled generated deck's last card becomes active, the other 51 the deck, the first player in key order answers question 0 in Phase 1, and nothing else changes |
| `GameStore.DrawCard` | src/store/gameStore.ts:105-132 | no change while a card is active or when the deck is empty; otherwise the deck's last card becomes active; in every case the cards in play stay the same |
| `GameStore.CreditTurn` | src/store/gameStore.ts:138-158 | the turn player gets the active card at the end of the hand and exactly one of `sipsGiven` (right answer) or `sipsTaken` (wrong answer) goes up by one; the event is SIP_DISTRIBUTE or SIP_TAKE to match |
| `GameStore.Rotate` | src/store/gameStore.ts:160-168 | the next seat is `GameStore.NextSeat` of the current one and the question index rises by `GameStore.Wraps` |
| `GameStore.NextSeat` | src/store/gameStore.ts:160-168 | the next index of the rotation is (k + 1) mod n |
| `GameStore.Wraps` | src/store/gameStore.ts:162-168 | the question index goes up by (k + 1) div n: by one exactly when the last player has answered |
| `GameStore.ResolveTurn` | src/store/gameStore.ts:134-215 | the transition `TurnResolved`: active card appended to the turn player's hand, exactly one counter up by one, no other player changed, turn to the next player in key order, question index up on wrap-around; at index 5 (unless already in PHASE_2_PYRAMID) the phase changes, no card is active and the pyramid is dealt from the untouched deck, otherwise the next card is popped if there is one |
| `GameStore.SubmitAnswer` | src/store/gameStore.ts:269-326 | no change without an active card or turn player; otherwise the turn is resolved with the verdict on the answer |
| `GameStore.InitializePyramid` | src/store/gameStore.ts:217-238 | the fifteen pops put min(15, deck size) cards into the pyramid in pop order, face down; row 5, revealed list empty; with an empty old pyramid and a face-down deck no card is lost |
| `GameStore.RevealPyramidCard` | src/store/gameStore.ts:240-267 | no change when no card is hidden; otherwise exactly the lowest-index hidden card is turned up, its id logged, it becomes active, the phase becomes PHASE_2_ALLOCATE, and allocations, confirmations and challenge are reset |
| `GameStore.AllocateSips` | src/store/gameStore.ts:328-372 | the loop over the pending allocations computes the caller's committed sum; no change without a caller or active card, or when that sum plus the amount exceeds the cap; otherwise exactly one PENDING allocation is added and nothing else changes |
| `GameStore.ConfirmPhase2Turn` | src/store/gameStore.ts:374-397 | no change without a caller, outside PHASE_2_ALLOCATE or for a caller already confirmed; otherwise the caller is appended, and the phase becomes PHASE_2_RESOLVE exactly when every player id is confirmed |
| `GameStore.RespondToAllocation` | src/store/gameStore.ts:399-438 | no change for an unknown id; accepting adds the amount to the recipient's sips taken and deletes only that allocation; challenging opens a challenge of the recipient against the giver and leaves the allocations alone |
| `GameStore.ResolveChallenge` | src/store/gameStore.ts:440-484 | no change without a challenge or active card; otherwise the challenger (if the giver holds the rank) or the giver takes twice the amount, then the allocation is deleted and the challenge closed |
| `Phase1.ShuffledFullDeck` | src/store/gameStore.ts:73-76 | the shuffled fresh deck is face down, its ids are distinct, and its 51 + 1 cards are exactly the generated ones |
| `Phase1.StartDealsRound` | src/store/gameStore.ts:67-97 | from the lobby (hands and pyramid empty) `startGame` establishes the round invariant, and exactly the 52 generated cards are in play |
| `Phase1.TurnKeepsHands` | src/store/gameStore.ts:138-168 | after a turn, players before the new turn player hold q + 1 cards and the others q |
| `Phase1.TurnsDoneStep` | src/store/gameStore.ts:160-168 | each turn adds one to q·n + k, the number of turns played |
| `Phase1.TurnKeepsBudget` | src/store/gameStore.ts:187-196 | after t turns the deck holds 51 - t cards while a card is active, and is empty once t = 52 |
| `Phase1.TurnKeepsRound` | src/store/gameStore.ts:134-215 | a turn that stays in Phase 1 keeps the round invariant (hand sizes, deck budget, face-down deck with distinct ids, empty pyramid) |
| `Phase1.LastTurnDealsPyramid` | src/store/gameStore.ts:170-237 | the turn that leaves Phase 1 leaves every player with 5 cards, no active card, the first player as turn player and a face-down pyramid of min(15, 52 - 5n) cards with distinct ids, so all 15 only when n <= 7 |
| `Phase1.TurnConservesCards` | src/store/gameStore.ts:138-225 | a turn puts no card in play and takes none out, whether it pops the next card or deals the pyramid |
| `Phase1.DrawCardIdleInRound` | src/store/gameStore.ts:105-119 | within the round a card is always active or the deck is spent, so `drawCard` never acts |
| `Phase1.RoundMakesHandReadsDefined` | src/store/gameStore.ts:284-291 | within the round the turn player holds exactly q cards, so the hand reads of questions 1 and 2 are defined |
| `Phase1.DeckRunsDryOnlyWithElevenPlayers` | src/store/gameStore.ts:136 | the round is left without an active card, so that every later turn does nothing, only with 11 or more players |
| `Phase1.ElevenPlayersNeverReachPyramid` | src/store/gameStore.ts:165-173 | with 11 or more players no turn reaches PHASE_2_PYRAMID |
| `Phase2.DealtPyramidFaceDown` | src/store/gameStore.ts:222-231 | a freshly dealt pyramid is all face down with nothing logged as revealed |
| `Phase2.RevealsInOrder` | src/store/gameStore.ts:243-259 | with m cards up, the next reveal turns up index m, makes it active and logs its id, so the base row comes first and the apex last; with all up it does nothing; card ids stay distinct |
| `Phase2.RevealedCardCap` | src/store/gameStore.ts:333-340 | while the card revealed at index m of row r is active the cap is 3 × (6 - r), since the id lookup finds that card |
| `Phase2.RevealOpensRound` | src/store/gameStore.ts:253-260 | a reveal opens a fresh round: PHASE_2_ALLOCATE, no allocations, nobody confirmed, no challenge, everybody within the cap |
| `Phase2.AllocationWithinCap` | src/store/gameStore.ts:343-365 | a refused allocation changes nothing; one that is let through adds the amount to the caller's committed sum, and its id takes out the share of any earlier allocation it overwrites from that allocation's giver, whoever it is; nobody else's sum changes |
| `Phase2.AllocateKeepsCap` | src/store/gameStore.ts:347-362 | an allocation of a positive amount keeps every giver's committed sum within the cap, also when its id overwrites an earlier allocation |
| `Phase2.RespondKeepsCap` | src/store/gameStore.ts:410-415 | accepting or challenging keeps every giver within the cap |
| `Phase2.ResolveKeepsCap` | src/store/gameStore.ts:471-477 | settling a challenge keeps every giver within the cap |
| `Phase2.TotalTakenBump` | src/store/gameStore.ts:407 | changing one listed player's sips-taken count changes the table's total by the same amount |
| `Phase2.ResponseCost` | src/store/gameStore.ts:404-437 | accepting raises the table's total sips taken by exactly the amount; challenging changes neither players nor allocations |
| `Phase2.ChallengeVerdict` | src/store/gameStore.ts:452-468 | the challenger drinks twice the amount exactly when the giver holds a card of the active rank, and otherwise the giver does; the table's total goes up by twice the amount |
| `Phase2.ConfirmGate` | src/store/gameStore.ts:380-388 | the phase becomes PHASE_2_RESOLVE exactly when every key of `players` is confirmed |
| `Phase2.ConfirmKeepsCap` | src/store/gameStore.ts:374-397 | a confirmation, whether let through or not, keeps every giver within the cap |
| `Phase2.ConfirmKeepsDistinct` | src/store/gameStore.ts:378-380 | nobody is ever listed twice as confirmed |
| `Phase2.GateByCount` | src/store/gameStore.ts:381 | when only players confirm, the gate opens exactly when the number of confirmations reaches the number of players |
| `Phase2.ResolveTurnRedealsPyramid` | src/store/gameStore.ts:170-214 | a turn resolved at question index 5 or more with a card up, in any phase but PHASE_2_PYRAMID, sets PHASE_2_PYRAMID, clears the active card, deals a new pyramid off the remaining deck and empties the reveal log |

## Left out

- Transport: `updateGameState` and the room subscription (src/services/firebase.ts, src/hooks/useGameSync.ts) are modelled as an immediate top-level overwrite. There is no network, no asynchrony and no failure. The database also drops empty arrays and maps, so a hand arrives as `undefined` and a cleared key is deleted rather than emptied. The empty hand is modelled as `[]`, the `|| []` of gameStore.ts:139. That guard is the only one; the other reads of a hand that can be missing throw, as the `GameStore.SubmitAnswer` and `GameStore.ResolveChallenge` lines below say. A cleared key is missing from the next snapshot, so `syncState`'s spread (gameStore.ts:64) keeps each client's old value for it. The model writes the cleared value instead. So the following hold only under the overwrite abstraction, and not for what other clients hold:
  - `activeCard: null` (gameStore.ts:200) in `GameStore.ResolveTurn`, and with it "every later turn does nothing" in `Phase1.DeckRunsDryOnlyWithElevenPlayers`;
  - `deck: []` once the deck is spent (gameStore.ts:124, :201, :228);
  - `revealedPyramidCards: []` (gameStore.ts:231) in `GameStore.InitializePyramid` and `Phase2.ResolveTurnRedealsPyramid`, whose empty reveal log other clients do not see when the game is dealt a second pyramid;
  - the resets `pendingAllocations: {}`, `confirmedTurnPlayers: []` and `activeChallenge: null` (gameStore.ts:258-260) in `GameStore.RevealPyramidCard` and `Phase2.RevealOpensRound`;
  - the closed challenge `activeChallenge: null` (gameStore.ts:476) in `GameStore.ResolveChallenge`, and an emptied `pendingAllocations` after the last response (gameStore.ts:415, :477).
- Concurrency: racing clients and last-write-wins on the shared document are not modelled. Actions apply one at a time.
- `resolveTurn` calls `initializePyramid` after its own update (gameStore.ts:212-213). The model assumes that by then the client's copy already holds that update, which is what that call relies on.
- Aliasing: the store changes shared objects in place. `revealPyramidCard` sets `hidden` on a card object that the previous state shares (gameStore.ts:246-247). `resolveChallenge` bumps `sipsTaken` on a player object shared with the previous state (gameStore.ts:460-467). The model updates values, so the previous local state is never changed behind the update.
- Event texts and ids: `lastEvent` keeps only its type. Messages, `Date.now()` event ids, `targetPlayerId` and `amount` are dropped.
- Randomness: `Math.random` in ids and shuffle, and `Date.now()` for allocation ids, are parameters. A repeated allocation id overwrites the earlier entry, as the store's map update does.
- GameStore.SubmitAnswer: the throw is not modelled. For question 1, `player.cards[0].value` (gameStore.ts:284) throws a TypeError when the turn player's hand is empty or missing. The model requires a non-empty hand there instead; `Rules.AnswerCorrect` carries the same requires. `Phase1.RoundMakesHandReadsDefined` shows the case cannot arise inside the round: the turn player then holds exactly q cards, one card at question 1. For question 2, `player.cards.length` (gameStore.ts:290) throws when the hand is missing, which is how the database delivers an empty one. The model reads the missing hand as `[]`, so `Rules.AnswerCorrect` returns "wrong" there instead. `Phase1.RoundMakesHandReadsDefined` shows this cannot arise inside the round either: the turn player holds two cards at question 2.
- GameStore.RespondToAllocation and GameStore.ResolveChallenge: the throws on ids that name no player or allocation are not modelled. `allocateSips` never checks that its target is a player (gameStore.ts:347-362). A stored allocation whose recipient is missing makes `target.sipsTaken` (gameStore.ts:407) or `players[allocation.toPlayerId].name` (:434) throw a TypeError. With the challenged allocation, the giver or the challenger missing, `giver.cards` (:452), `challenger.name` and `updatedPlayers[challenger.id]` (:463-464) or `allocation.amount` (:463, :466) throw. The model requires instead that the recipient is a player (`GameStore.RespondToAllocation`), and that the allocation, the giver and, when the giver holds a match, the challenger exist (`ChallengeReadable`, for `GameStore.ResolveChallenge`). These requires stand for the user interface's target list, which offers only players.
- GameStore.ResolveChallenge: the throw on a giver without cards is not modelled. `giver.cards.find(...)` (gameStore.ts:452) throws when the giver has no cards, since the database then delivers no `cards` key. The model reads the missing hand as `[]`: `Rules.HasMatch` is false and the giver drinks double.
- The `!firstCard` branch of `startGame` (gameStore.ts:77-80) cannot be taken: a fresh deck has 52 cards. The model has no such branch.
- JavaScript truthiness of ids: an empty-string `currentTurnPlayerId` or `localPlayerId` would count as absent. Ids are `Option` values in the model, and the empty string is treated as a present id.
- `nextPhase` and `answerQuestion` (gameStore.ts:100-102, 486-489) are an empty stub and an alias, so they are not modelled. `setRoomId` and `setLocalPlayerId` only set local keys and are not modelled either.
- Rendering, navigation and room bootstrap (src/components, src/screens, src/navigation, App.tsx) are not part of this model. The user-interface gating appears only as stated assumptions:
  - the self-target check and the 1–5 amount picker appear as the positive-amount assumption of `Phase2.AllocateKeepsCap`;
  - the target list built from `Object.values(players)` (src/components/Phase2Controller.tsx:73-78) appears as the preconditions of `GameStore.RespondToAllocation` and `GameStore.ResolveChallenge` that the ids they read name players;
  - host-only reveal does not appear at all;
  - empty hands at the start appear as a precondition of `Phase1.StartDealsRound`.
- `currentPyramidRow` is only ever written as 5, and the model keeps it so. Challenge status RESOLVED and allocation statuses ACCEPTED and CHALLENGED are never written and exist only as datatype values.
- `resolveChallenge` accepts `cardIdToReveal` and ignores it, and the model does the same.
- Phase flow:
  - No action reachable from the user interface moves the game back to PHASE_2_PYRAMID, and no action at all reaches GAME_OVER. The reveal button of src/components/PyramidBoard.tsx:50 shows only in PHASE_2_PYRAMID.
  - The store itself does have a path back. `resolveTurn` and `submitAnswer` carry no phase guard. Called in a later Phase 2 phase with a card up, at question index 5 they set PHASE_2_PYRAMID and deal the pyramid again off the remaining deck (gameStore.ts:170-175, 212-213). `Phase2.ResolveTurnRedealsPyramid` states this.
  - `drawCard`, also unguarded (gameStore.ts:105-119), can supply the active card when none is up.
  - The user interface never takes that path. Nothing calls `drawCard`. The question board still shows in Phase 2 for the player on turn (src/screens/GameScreen.tsx:55), but it renders no buttons at index 5 (src/components/Phase1QuestionBoard.tsx:124-125).
  - The model makes no claim about a full Phase 2 game beyond single actions and their invariants.
