# Paws and Preferences: the swipe session, modelled in Dafny

`App` fetches a batch of cat pictures and shows them as a stack of cards. Users swipe
each card left (pass) or right (like), by dragging, with the two buttons or with the
arrow keys. When the last card is decided, the app shows the collection of liked cats.
This project models the session state machine behind that screen:

- `cats`: the batch, fixed once loaded.
- `likedCats`: the liked cats, appended in decision order.
- `currentIndex` and its synchronous mirror `currentIndexRef`: the cursor on the top undecided card.
- `lastDirection`, `isFinished` and `isReady`.
- The two deferred steps (`setTimeout`): readiness after the load, and finishing after the last decision.

Modules:

- `SwipeSession` (session.dfy) holds the state as a value, `State`. It defines the transitions:
  - `Initial`: the state before the batch arrives.
  - `Load`: the post-load setup.
  - `Decide`: the guarded decision step of `swiped`.
  - `FireReady` and `FireFinish`: the two timer callbacks.
  - `Run`: any sequence of gesture callbacks and timer firings.

  It also defines the invariant `Inv` of reachable states, and `LikedInv`, which says the
  liked list is an ordered subset of the decided cats.
- `App.Session` (app.dfy) is a class with the fields of the source component. The methods
  that change state (`LoadCats`, `Swiped`, `FireReadyTimer`, `FireFinishTimer`) update the
  fields in place and are proved to perform the matching `SwipeSession` transition;
  `UpdateCurrentIndex` moves the cursor and its mirror together. `Swipe` and `HandleKeyDown`
  change nothing and return the request that `Controls` defines.
- `Controls` (controls.dfy) holds the programmatic-swipe guard (`SwipeFor`) and the keydown
  handler (`KeyDirections`, `KeyDown`). A swipe only *requests* a gesture. The state changes
  later, when that card's callback reaches `Swiped`.
- `Render` (render.dfy) holds which view is shown, which cards are rendered and which card
  takes pointer input.
- `Subsequence` (subsequence.dfy) holds the order-preserving subsequence relation and its lemmas.

Modelling choices:

- A card's image handle is modelled only as present or absent: `handles[i]` is true when card `i`'s handle is live.
- A timer is a counter of scheduled callbacks that have not fired yet. Firing it is a separate step.
- Card indices are `nat`, because they come from mapping over the batch. Before the load the
  cursor is -1, so no callback can pass the guard.

## Model

| member | source | states |
|---|---|---|
| `App.Session.constructor` | src/App.jsx:24-30 | before the load: no cats, no likes, cursor and its ref both -1, not finished, not ready, no last direction |
| `App.Session.LoadCats` | src/App.jsx:52-57 | after the load the cursor and its ref are both the top index `|list| - 1`, the liked list is empty, and readiness is still false with one readiness timer pending |
| `App.Session.FireReadyTimer` | src/App.jsx:57 | readiness becomes true only when the deferred readiness step fires; the invariant is kept |
| `App.Session.FireFinishTimer` | src/App.jsx:94 | the finished flag becomes true only when the deferred finish step fires; the invariant is kept |
| `App.Session.UpdateCurrentIndex` | src/App.jsx:70-73 | the cursor and its ref both take the new value, and nothing else changes |
| `App.Session.Swiped` | src/App.jsx:82-100 | a callback whose index is not the ref's changes no field; an accepted one lowers the cursor by exactly one, keeps cursor and ref equal, and keeps the liked list an ordered subset of the batch whenever the callback carries its own card's cat |
| `App.Session.Swipe` | src/App.jsx:102-109 | a request is made exactly when the session is ready, the cursor is non-negative and that card's handle is live; it targets the card at the ref, and no state changes |
| `App.Session.HandleKeyDown` | src/App.jsx:113-117 | a request is made only when the session is not finished, is ready, and the key is an arrow key; otherwise nothing happens |
| `SwipeSession.Initial` | src/App.jsx:24-30 | the state before the load satisfies the session invariant, has no likes, is neither ready nor finished, and no callback for any card changes it |
| `SwipeSession.Load` | src/App.jsx:52-57 | loading stores the batch and puts the cursor on its top card `|list| - 1`; from the initial state the result satisfies both invariants, with readiness still false and one readiness timer pending |
| `SwipeSession.Decide` | src/App.jsx:82-100 | a callback for another card returns the state unchanged; an accepted one lowers the cursor by one and records its direction; the liked list either stays or grows by exactly the cat on "right"; batch, readiness and finished flag stay; the invariant is kept |
| `SwipeSession.FireReady` | src/App.jsx:57 | after the readiness timer fires the session is ready exactly when it was or a readiness timer was pending; nothing else in the session changes and the invariant is kept |
| `SwipeSession.FireFinish` | src/App.jsx:94 | after the finish timer fires the session is finished exactly when it was or a finish timer was pending; nothing else in the session changes, the invariant is kept and no new finish is scheduled |
| `SwipeSession.Decided` | src/App.jsx:97 | the cats decided at a given cursor are the cards from the top index down to the one above the cursor, in that order, one per accepted decision |
| `SwipeSession.StaleDecisionIgnored` | src/App.jsx:85 | a callback for any index other than the cursor leaves the whole state unchanged |
| `SwipeSession.AcceptedDecision` | src/App.jsx:87-97 | an accepted decision records its direction, lowers the cursor by one, appends exactly the cat on "right" and nothing on any other direction, and leaves the batch, readiness and the finished flag alone |
| `SwipeSession.FinishScheduledOnlyOnce` | src/App.jsx:93-97 | the finish timer is scheduled exactly by the decision on card 0, only when none was scheduled before; after it the cursor is -1 and no card index passes the guard |
| `SwipeSession.LoadEstablishesInv` | src/App.jsx:52-57 | the initial state and the freshly loaded state satisfy the session invariant, with an empty liked list and readiness still pending |
| `SwipeSession.StepPreservesInv` | src/App.jsx:82-100 | every callback or timer keeps the cursor in [-1, top index], ties "no last direction" to "nothing decided", ties the finish schedule to the cursor passing card 0, and never changes the batch |
| `SwipeSession.StepPreservesLikedInv` | src/App.jsx:89-91 | a decision whose callback carries its own card's cat keeps the liked list an ordered subset of the decided cats |
| `SwipeSession.RunPreservesInv` | src/App.jsx:82-100 | over any sequence of callbacks and timers, the invariant holds, the batch stays fixed, and the cursor never increases and never drops below -1 |
| `SwipeSession.RunKeepsLikedOrdered` | src/App.jsx:89-91 | over any run, the liked list is an ordered subset of the decided cats in decision order, no longer than the number of accepted decisions, which is at most the batch size |
| `SwipeSession.LikedAreFromBatch` | src/App.jsx:89-91 | every liked cat is a cat of the batch |
| `SwipeSession.FinishScheduledAtMostOnce` | src/App.jsx:93-94 | over any run, the finish timer is scheduled at most once per session, and it has been scheduled exactly when a non-empty batch has been decided down to card 0 |
| `SwipeSession.FinishedIsFinal` | src/App.jsx:94 | once finished and ready, no later callback or timer undoes it or changes the batch |
| `SwipeSession.BeforeLoadNothingHappens` | src/App.jsx:24-30 | before the load, no callback or timer changes the initial state; in particular readiness cannot come first |
| `SwipeSession.DecidingEveryCardFinishes` | src/App.jsx:82-100 | deciding each remaining card once, top card first, brings the cursor to -1 and schedules the finish |
| `SwipeSession.ScenarioMixedDecisions` | src/App.jsx:82-100 | for [a, b, c]: left on c, right on b, right on a likes [b, a]; finished only after the finish timer fires |
| `SwipeSession.ScenarioDuplicateCallback` | src/App.jsx:85 | a second callback for the already decided card 2 is ignored: likes [c], cursor 1 |
| `SwipeSession.ScenarioAllLeft` | src/App.jsx:82-100 | three lefts like nothing and finish |
| `Controls.RequestedSwipeIsAccepted` | src/App.jsx:102-109 | a programmatic swipe is requested exactly when ready, a card is left and its handle is live; it targets the one interactive card, and that card's callback is accepted and likes it exactly on "right" |
| `Controls.SwipeFor` | src/App.jsx:104-105 | a request is issued exactly when ready, the cursor is non-negative and the current card's handle is live, and it targets the current, interactive card with the asked direction |
| `Controls.KeyDirections` | src/App.jsx:114-116 | a key press asks for at most one swipe: "left" exactly for ArrowLeft, "right" exactly for ArrowRight, and nothing when finished, not ready or for any other key |
| `Controls.KeyPressDecidesCurrentCard` | src/App.jsx:113-117 | a key press leads to a request exactly for an arrow key in a ready, unfinished session with a live current card; its callback decides the current card, liking it on ArrowRight and passing it on ArrowLeft |
| `Controls.KeyDown` | src/App.jsx:113-117 | a key press leads to a request only in an unfinished session and only through the swipe guard; the request is "right" exactly for ArrowRight and "left" exactly for ArrowLeft; any other key requests nothing |
| `Controls.KeysIgnoredAfterLastCard` | src/App.jsx:113-117 | between the last decision and the collection view, no key press requests anything |
| `Render.IsRendered` | src/App.jsx:252 | no card is rendered when the cursor is below 0, and every card below a rendered card is rendered too |
| `Render.IsInteractive` | src/App.jsx:263 | the interactive card is rendered and no rendered card lies above it |
| `Render.RenderedCards` | src/App.jsx:251-252 | the rendered cards are exactly the indices 0 through the current index, in order, and no others |
| `Render.OnlyCurrentCardInteractive` | src/App.jsx:263 | the rendered cards are exactly the undecided ones, and exactly one of them, the current card, takes pointer input; with no card left none is rendered |
| `Render.ViewOf` | src/App.jsx:154-165 | any view other than loading needs a non-empty batch and readiness; the collection shows exactly when ready, non-empty and finished, and then every card is decided |
| `Render.ViewMatchesProgress` | src/App.jsx:154-165 | the collection view shows only after the whole batch is decided; the swiping view without a card occurs only while the finish timer is pending |
| `Render.CollectionIsFinal` | src/App.jsx:165 | once the collection view is shown, nothing returns the session to the cards |

## Left out

- Fetching the batch is not modelled: `fetch`, `Promise.all`, the random cache-buster and object URLs are network and browser I/O. A successful load receives an arbitrary sequence of cats.
- The load-failure branch is not modelled. It only logs, and the state stays initial, which is what `BeforeLoadNothingHappens` describes.
- The effect cleanup that revokes object URLs is not modelled. It is a browser call, and it reads the initial empty batch, so it releases nothing.
- The timer delays (500 ms and 300 ms) are not modelled. Each timer is a pending callback, and the model does not fix its order relative to other events.
- The drag library and the ref objects are modelled only as a live or absent handle per card. The animation, and exactly when the library reports a swipe, are not modelled.
- `App.Session.Swiped`: React applies `setCurrentIndex` and the other state setters at the next render, while the ref changes at once. The model updates the state and the ref together, so it does not capture a render that still shows the old index.
- `App.Session.LoadCats`: the mount effect runs once, so the method requires the initial state. A second load, which React's development mode may cause, is not modelled.
- Downloading, sharing or copying to the clipboard, `alert`, and "Play Again" (`location.reload()`) are browser APIs. There is no in-code reset to model.
- The progress bar width (floating point), the z-order, scale and opacity of the cards, the icons and the injected CSS are presentation only.
- Registering and removing the keydown listener is event plumbing. Only the handler's decision is modelled.
