# Memory card game session (Easy mode), modelled in Dafny

This project models the game logic of the `MemoryEasy` React component of a
browser memory (concentration) game.

- **Deck shuffle.** `shuffleArray` is a Fisher–Yates (Durstenfeld) shuffle of a copy of the
  four-card `cardImages` deck: two meteors and two comets.
- **Session state.** The component keeps its game state in eight fields: `cards`, `flippedCards`,
  `matchedCards`, `failedAttempts`, `timer`, `timerActive`, `initialReveal` and
  `mouseDisabled`.
- **Events.** These change the state:
  - `newGame`;
  - a click on a card (`handleFlip`);
  - the one-second timeout that resolves a face-up pair;
  - the completion effect, which stops the timer and posts a summary once every card is matched;
  - the one-second timer interval;
  - the two start-of-round timeouts, which enable input and end the initial reveal.

The model has four modules:

- `Shuffle` (`shuffle.dfy`). `ShuffleArray` copies its input array and shuffles the copy in
  place. It is proved against the function `Shuffled`, and lemmas prove that `Shuffled` is a
  permutation. The random choice `Math.floor(Math.random() * (i + 1))` is a caller-supplied
  sequence `picks`, with `picks[i] <= i`.
- `Deck` (`deck.dfy`). It holds the `Card` record, the `cardImages` constant, and two facts
  about every deck a shuffle can deal: the ids are distinct and each image is on exactly two
  cards.
- `Session` (`session.dfy`). It holds the state fields as a value (`State`), one transition
  function per event, and the session invariant `Valid`. Lemmas state what each event does,
  that each event keeps `Valid`, and that a completed round is terminal.
- `MemoryEasy` (`memory_easy.dfy`). The class `GameSession` holds the same fields, with one
  method per event.
  - Each method updates the fields in place.
  - Each method's `ensures` ties the new `Snapshot()` to the matching `Session` function of
    the old snapshot.
  - Each method keeps `Valid`.
  - Summaries sent to the server are returned by `CheckCompletion` and `Resolve`. They are
    also recorded in a ghost log, `saved`.

What the invariant `Valid` says:

- Card ids in the deck are distinct.
- `flippedCards` holds at most two distinct positions of the deck, and neither of their cards
  is matched.
- `matchedCards` holds distinct ids of the deck. They were added a pair at a time, and each
  pair is two different cards with the same image.
- Once every card is matched, the timer is stopped.

Behaviour of the code worth knowing when reading the model:

- The code has no explicit phase; the session state is the eight fields above.
- While a pair waits to be resolved, the code does not disable input. Further clicks are
  absorbed only because two cards are already face up.
- Flip gating reads `mouseDisabled` only. `initialReveal` affects only what is displayed.
- `newGame` does not cancel a pending resolution, input or reveal timeout (see "Left out").

## Model

| member | source | states |
|---|---|---|
| Shuffle.Swap | frontend/src/MemoryCardGame/MemoryEasy.jsx:32 | positions i and j exchange their elements, every other position keeps its own, and the length is kept |
| Shuffle.ShuffleFrom | frontend/src/MemoryCardGame/MemoryEasy.jsx:30-33 | the loop steps i, i-1, ..., 1 keep the length and never touch a position above i, so those positions are final |
| Shuffle.Shuffled | frontend/src/MemoryCardGame/MemoryEasy.jsx:28-35 | the whole shuffle, starting at the last index, keeps the length (its permutation property is `ShuffledPermutes`) |
| Shuffle.ShuffleArray | frontend/src/MemoryCardGame/MemoryEasy.jsx:28-35 | returns a fresh array equal to `Shuffled(input, picks)`, with the same multiset of elements as the input, and leaves the input array unchanged |
| Shuffle.SwapPermutes | frontend/src/MemoryCardGame/MemoryEasy.jsx:32 | the destructuring swap keeps the multiset of elements |
| Shuffle.ShuffleFromPermutes | frontend/src/MemoryCardGame/MemoryEasy.jsx:30-33 | whatever steps of the loop remain, they only rearrange the elements (same multiset) |
| Shuffle.ShuffledPermutes | frontend/src/MemoryCardGame/MemoryEasy.jsx:28-35 | shuffleArray's result has the input's length and the input's multiset of elements, for every choice of random indices |
| Shuffle.ShuffledSameElements | frontend/src/MemoryCardGame/MemoryEasy.jsx:28-35 | an element occurs in the shuffled deck exactly when it occurs in the input |
| Shuffle.StayingPicks | frontend/src/MemoryCardGame/MemoryEasy.jsx:30-33 | if every random index equals its loop index, the shuffle leaves the deck in order |
| Deck.CardImagesWellFormed | frontend/src/MemoryCardGame/MemoryEasy.jsx:18-23 | cardImages has four cards with distinct ids, and every image is on exactly two of them |
| Deck.CountImagePermutation | frontend/src/MemoryCardGame/MemoryEasy.jsx:28-35 | rearranging a deck keeps, for every image, the number of cards showing it |
| Deck.ShuffledKeepsPairs | frontend/src/MemoryCardGame/MemoryEasy.jsx:28-35 | shuffling a deck with distinct ids and every image twice yields such a deck again |
| Deck.ShuffledCardImages | frontend/src/MemoryCardGame/MemoryEasy.jsx:18-35 | every deck newGame can deal has four cards, distinct ids, and every image exactly twice |
| MemoryEasy.ShuffleCardImages | frontend/src/MemoryCardGame/MemoryEasy.jsx:230 | `shuffleArray(cardImages)` yields `Shuffled(cardImages, picks)` |
| Session.Mounted | frontend/src/MemoryCardGame/MemoryEasy.jsx:132-139 | the state at mount has no cards, the timer stopped and input enabled; it satisfies the session invariant and is not complete |
| Session.NewRound | frontend/src/MemoryCardGame/MemoryEasy.jsx:229-238 | newGame deals the given deck with the timer running, the deck revealed and input disabled; with distinct ids the state is valid, and on a non-empty deck the completion effect then triggered by the reset of matchedCards neither fires nor changes anything |
| Session.FlipAccepted | frontend/src/MemoryCardGame/MemoryEasy.jsx:219-224 | a click passes handleFlip's guard only on a card of the deck, with input enabled and not exactly two cards face up |
| Session.Flip | frontend/src/MemoryCardGame/MemoryEasy.jsx:218-226 | a click changes only flippedCards, which either stays as it was or gains exactly i, and it changes the state exactly when the guard accepts it |
| Session.FlipIgnored | frontend/src/MemoryCardGame/MemoryEasy.jsx:218-224 | a click changes nothing when input is disabled, the position is face up, its card is matched, or two cards are face up |
| Session.FlipAppends | frontend/src/MemoryCardGame/MemoryEasy.jsx:219-225 | a click that passes the guard appends exactly its position to flippedCards and changes no other field |
| Session.FlipTwice | frontend/src/MemoryCardGame/MemoryEasy.jsx:218-226 | clicking the same card twice before resolution has the effect of one click |
| Session.FlipKeepsValid | frontend/src/MemoryCardGame/MemoryEasy.jsx:218-226 | a click keeps the invariant, so flippedCards stays duplicate-free with at most two entries |
| Session.ResolvePair | frontend/src/MemoryCardGame/MemoryEasy.jsx:193-204 | the resolution timeout empties flippedCards, never shrinks matchedCards or failedAttempts, and adds one pair or one failure (the length of matchedCards plus twice failedAttempts grows by exactly 2); no other field changes |
| Session.AfterResolve | frontend/src/MemoryCardGame/MemoryEasy.jsx:190-216 | the resolution followed, after a match, by the completion effect keeps the deck, the timer value, the reveal flag and input gating, empties flippedCards, and counts the pair as two matched ids or one failure |
| Session.Complete | frontend/src/MemoryCardGame/MemoryEasy.jsx:209-212 | the completion effect stops the timer when every card is matched, changes nothing else, and does nothing when the round is not complete |
| Session.Report | frontend/src/MemoryCardGame/MemoryEasy.jsx:209-213 | a summary is handed to saveGameData exactly when the round is complete, carrying userID, failed = failedAttempts, difficulty "Easy", completed = 1 and timeTaken = timer |
| Session.ResolveMatch | frontend/src/MemoryCardGame/MemoryEasy.jsx:191-203 | equal images: both card ids are appended to matchedCards, failedAttempts and the timer are unchanged, flippedCards is emptied, and the timer stops exactly when the round becomes complete |
| Session.ResolveMismatch | frontend/src/MemoryCardGame/MemoryEasy.jsx:200-203 | different images: failedAttempts grows by exactly one, matchedCards is unchanged, flippedCards is emptied, the timer keeps its value and state |
| Session.ResolveKeepsValid | frontend/src/MemoryCardGame/MemoryEasy.jsx:190-216 | the resolution timeout, followed by the completion effect after a match, keeps the invariant: matchedCards stays duplicate-free, within the deck, and made of same-image pairs |
| Session.Tick | frontend/src/MemoryCardGame/MemoryEasy.jsx:181-187 | a tick adds exactly one to the timer when the timer is active, does nothing otherwise, and changes no other field |
| Session.TickKeepsValid | frontend/src/MemoryCardGame/MemoryEasy.jsx:181-187 | a timer tick keeps the invariant |
| Session.CompleteKeepsValid | frontend/src/MemoryCardGame/MemoryEasy.jsx:209-216 | the completion effect keeps the invariant |
| Session.EnableInput | frontend/src/MemoryCardGame/MemoryEasy.jsx:239 | the 2-second timeout enables input and changes no other field |
| Session.EndReveal | frontend/src/MemoryCardGame/MemoryEasy.jsx:240 | the 1.5-second timeout ends the reveal and changes no other field |
| Session.StartTimeoutsKeepValid | frontend/src/MemoryCardGame/MemoryEasy.jsx:239-240 | the two timeouts newGame schedules keep the invariant |
| Session.MatchedEven | frontend/src/MemoryCardGame/MemoryEasy.jsx:195 | matchedCards grows by whole pairs, so its length is even |
| Session.AllMatchedWhenDue | frontend/src/MemoryCardGame/MemoryEasy.jsx:210 | when matchedCards is as long as the deck, every card of the deck is matched |
| Session.CompletedIsTerminal | frontend/src/MemoryCardGame/MemoryEasy.jsx:209-226 | once the completion condition holds, no card is face up, the timer is stopped and frozen, and every click is ignored, so the completion effect cannot fire again until newGame |
| Session.PendingPairNotComplete | frontend/src/MemoryCardGame/MemoryEasy.jsx:190-216 | while two cards wait to be resolved the round is not complete, so a summary is only ever reported by the resolution that completes the round |
| Session.ScenarioTwoMatches | frontend/src/MemoryCardGame/MemoryEasy.jsx:189-216 | on the unshuffled deck, matching the meteors and then the comets completes the round with no failure, stops the timer, and reports completed = 1 and difficulty "Easy" |
| Session.ScenarioMismatch | frontend/src/MemoryCardGame/MemoryEasy.jsx:200-203 | turning a meteor and a comet counts one failed attempt and turns both back |
| MemoryEasy.GameSession.constructor | frontend/src/MemoryCardGame/MemoryEasy.jsx:132-143 | the mount state: empty deck, no flips or matches, counters 0, timer inactive, reveal on, input enabled; userID is a parameter |
| MemoryEasy.GameSession.NewGame | frontend/src/MemoryCardGame/MemoryEasy.jsx:229-241 | cards becomes the shuffled cardImages (four cards, each image twice); flips and matches are emptied; failedAttempts and the timer are 0; timerActive, initialReveal and mouseDisabled are true; the invariant holds afterwards |
| MemoryEasy.GameSession.HandleFlip | frontend/src/MemoryCardGame/MemoryEasy.jsx:218-226 | the new state is `Flip` of the old one: flippedCards is unchanged or gains exactly i, and nothing else changes |
| MemoryEasy.GameSession.Resolve | frontend/src/MemoryCardGame/MemoryEasy.jsx:190-206 | the new state is the resolved pair, followed on a match by the completion effect; a summary is reported and logged only when that match completes the round, and from a valid state only when the round was not complete before |
| MemoryEasy.GameSession.CheckCompletion | frontend/src/MemoryCardGame/MemoryEasy.jsx:209-216 | fires exactly when the deck is non-empty and fully matched: it stops the timer and returns and logs the summary (userID, failed = failedAttempts, difficulty "Easy", completed = 1, timeTaken = timer) |
| MemoryEasy.GameSession.Tick | frontend/src/MemoryCardGame/MemoryEasy.jsx:181-187 | the timer grows by exactly one when active and is unchanged otherwise |
| MemoryEasy.GameSession.EnableInput | frontend/src/MemoryCardGame/MemoryEasy.jsx:239 | the 2-second timeout clears mouseDisabled and changes nothing else |
| MemoryEasy.GameSession.EndReveal | frontend/src/MemoryCardGame/MemoryEasy.jsx:240 | the 1.5-second timeout clears initialReveal and changes nothing else |

## Left out

- Rendering is not modelled: the styled components, the spring animation, the card grid and
  the wallet display (MemoryEasy.jsx:49-126, 243-267). The presentational `Card.jsx` and the
  background-music component `BackgroundMusic.jsx` are not modelled either.
- Wallet connection through `window.ethereum` is not modelled (MemoryEasy.jsx:147-166). It is
  a foreign API call. `GameSession.NewGame` is the event it triggers.
- Audio playback and the `audioIndex` counter are not modelled (MemoryEasy.jsx:169-179,
  196-199, 211). They are browser I/O and do not affect the game state.
- The HTTP POST in `saveGameData` is not modelled (MemoryEasy.jsx:38-46). The model keeps only
  the summary that would be sent, which is returned and logged in `saved`. Transport errors
  are not modelled; the code only logs them.
- The navigation to the congratulations page is not modelled (MemoryEasy.jsx:214).
- `gameDate` is left out of the summary because it reads the clock.
- `userID` is a constructor parameter instead of a `localStorage` read. The component's early
  exit when no identity is stored (line 144) is not modelled.
- Real time is not modelled: `setTimeout` and `setInterval` become the explicit events
  `Resolve`, `EnableInput`, `EndReveal` and `Tick`. Their durations (1 s, 1.5 s, 2 s) are not
  modelled, and neither is the order those durations imply. The model lets these events
  happen in any order.
- The shuffle is not proved to be uniformly random. `Math.random` is replaced by
  caller-supplied indices, so only the permutation property is proved.
- Stale timeouts after `newGame` are not modelled. The resolution timeout captures the deck
  and the two positions when it is scheduled. If `newGame` runs before the timeout fires, the
  code still applies the old pair to the new round. `GameSession.Resolve` instead requires two
  face-up cards and reads the current state. The code also never cancels a pending
  `EnableInput` or `EndReveal` timeout.
- React's batching of state updates and its stale closures are not modelled. Each event is
  applied to the latest state, one at a time.
- GameSession.HandleFlip requires the clicked index to lie within the deck whenever the guard
  reaches `cards[i].id`. For an index outside the deck the code throws, but the rendered grid
  only passes indices of existing cards.
- GameSession.Resolve requires two face-up positions within the deck. The code schedules the
  timeout only in that state.
- GameSession.CheckCompletion is a separate method so that `Resolve` and `NewGame` can run the
  completion effect where the code's `[matchedCards]` effect runs. Calling it anywhere else,
  for example twice on a completed session (which would log a second summary), has no
  counterpart in the code.
