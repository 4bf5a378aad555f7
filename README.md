# FlipOrQuit memory-card game, modelled in Dafny

This project models the game logic of a browser memory game, the `FlipOrQuit` class in `script.js`. A deck of `n` cards is laid out. Clicking a card shows its face. The first card of a pair becomes the pending card (`cardToCheck`). The second card is compared with it by type, the picture on the face. A match pushes both cards onto `matchedCards` and marks them. A mismatch locks the board (`busy`) and hides both cards a second later. A countdown ends the game at zero, and matching the whole deck wins it. `startGame` resets the session and hides every card. Half a second later it shuffles the display order, unlocks the board and starts the countdown.

Files:

- `pairs.dfy`, module `Pairs`: facts on plain values. It holds the invariant of the matched list (distinct cards of the deck, even length, at most `n`) with the counting lemmas behind it. It also holds `Shuffled`, the function that says what the shuffle loop writes into the CSS `order` values.
- `flip_or_quit.dfy`, module `Game`: the class `FlipOrQuit`. Its fields are the source's fields. Its arrays `visible`, `matched` and `order` stand for the per-card CSS classes and the `order` style property. Each method of the source is a method here, with two exceptions: `canFlipCard` is the predicate `CanFlipCard`, and `getCardType` is the constant `types`. Each browser timer callback is a method of its own. The file ends with client methods that play three short games through these contracts.

Modelling choices:

- Cards are the indices `0..n-1`. `getCardType` is the constant sequence `types`, given to the constructor.
- `Math.random` becomes the caller-supplied `picks`. `picks[i]` is the index drawn at step `i`, and it lies in `[0, i]`.
- Timers become explicit steps.
  - `StartGame` queues one continuation (`pendingStarts`), which `FinishStart` runs.
  - `CardsMisMatch` queues an unhide callback tied to its two cards (`pendingUnhides`). `UnhideCards` runs the oldest one, because callbacks with the same delay fire in the order they were scheduled.
  - `liveIntervals` counts running countdown intervals. `countDownLive` says whether the interval named by `countDown` still runs. `Tick` is one run of an interval's callback.
- A click before the first `startGame` reads the still-undefined `matchedCards` in the guard and throws. The model returns `Threw` and changes nothing.
- The source does not ensure that each type appears exactly twice, so the model does not require it either.
- The starting state of the cards comes from the page, not from the constructor (`script.js:51-62` never touches the cards). The model assumes the page starts every card without the `visible` and `matched` classes and with no inline `order`, whose CSS initial value is 0. The invariant at construction rests on this: `matched` agrees with the empty matched list, and every order lies in `[0, n)`. It matters beyond the first start in one place only. The shuffle writes card 0 only when some pick is 0. Otherwise card 0 keeps the order it started with, which is 0 under this assumption (`Pairs.ShuffledAt`, `Pairs.WrittenOrderInRange`).

Behaviour of the code that a reader might not expect, modelled as written:

- The flip guard has no "running / over" status (`script.js:126-131`). Flips are still accepted after the countdown reaches zero.
- The shuffle is not the Fisher–Yates swap its comment names (`script.js:103-108`). Step `i` writes order `j` on card `i` and then order `i` on card `j`. The result need not be a permutation: `Pairs.ShuffleMayRepeatOrders` exhibits `[1, 0, 1]`.
- A restart cancels nothing (`script.js:65-83`). A queued mismatch callback may later hide a card of the new session and unlock its board (`Game.PlayStaleUnhide`). Two starts in quick succession leave an extra interval running that `countDown` no longer names. It keeps decrementing `remainingTime`, which may then go below zero. Since `victory` clears only the interval `countDown` names (`script.js:174`), such an orphan interval also keeps ticking after a victory, and it can reach 0 and fire `gameover` in a session already won.

## Model

| member | source | states |
|---|---|---|
| Game.FlipOrQuit.constructor | script.js:51-62 | the remaining time starts at the total time; no timer is queued or running; the cards are in the page's assumed starting state (hidden, unmatched, order 0, see Modelling choices) |
| Game.FlipOrQuit.StartGame | script.js:65-83 | resets the remaining time to the total time, the pending card to none, the matched list to empty, `busy` to true and the flip counter to 0; clears `visible` and `matched` on every card; queues exactly one delayed start; keeps the invariant |
| Game.FlipOrQuit.FinishStart | script.js:74-79 | the order values are those the shuffle writes for the given picks; `busy` becomes false; one more interval runs and `countDown` names it; consumes one queued start |
| Game.FlipOrQuit.StartTimer | script.js:86-93 | starts one more interval and makes `countDown` name it |
| Game.FlipOrQuit.Tick | script.js:87-92 | each tick decrements the remaining time by exactly 1; game over fires exactly when it reaches 0, and then the countdown interval is stopped; otherwise no timer changes |
| Game.FlipOrQuit.HideCards | script.js:96-101 | afterwards no card is visible or matched |
| Game.FlipOrQuit.ShuffleCards | script.js:104-110 | the order array becomes `Shuffled(old order, picks, n - 1)`, the loop from `n - 1` down to 1 with each pick in `[0, i]` |
| Game.FlipOrQuit.CanFlipCard | script.js:126-131 | holds iff not busy, the card is not in the matched list and it is not the pending card; under the invariant, "not in the matched list" is the same as lacking the `matched` class |
| Game.FlipOrQuit.FlipCard | script.js:113-132 | before the first start, a click throws and changes nothing. Otherwise the click is rejected iff not (not busy, card not matched, card not pending), and a rejected click changes nothing. An accepted click adds exactly 1 to the counter and makes exactly this card visible. With no pending card it becomes the pending card. Otherwise the pair is resolved and the pending card is cleared, whether the cards match or not |
| Game.FlipOrQuit.CheckIfMatching | script.js:135-141 | the cards match iff their types are equal; the match or mismatch effects follow; the pending card is none afterwards; keeps the invariant |
| Game.FlipOrQuit.CardsMatch | script.js:144-154 | the matched list grows by exactly the two cards, in push order; only those two cards get `matched`; victory fires exactly when the list length equals `n`, and then the countdown stops |
| Game.FlipOrQuit.CardsMisMatch | script.js:157-165 | `busy` becomes true at once, and one unhide callback for exactly these two cards is queued |
| Game.FlipOrQuit.UnhideCards | script.js:160-164 | the oldest queued callback clears `visible` on exactly its two cards, leaves every other flag unchanged, sets `busy` to false and leaves the queue |
| Game.FlipOrQuit.StopCountDown | script.js:174 | the interval `countDown` names is no longer running; the running count drops by one if it was running |
| Game.FlipOrQuit.Victory | script.js:173-174 | victory stops the countdown interval |
| Game.FlipOrQuit.GameOver | script.js:182-183 | game over stops the countdown interval |
| Game.VictoryIffAllFlagged | script.js:144-153 | under the invariant, the victory test "matched list as long as the deck" holds iff every card carries the `matched` class |
| Game.NoFlipAfterVictory | script.js:126-131 | once the whole deck is matched, the guard refuses every card, so victory cannot fire twice in a session |
| Pairs.DistinctInDeckBound | script.js:145-146 | distinct cards of an `n`-card deck number at most `n`, which gives the bound of the matched list |
| Pairs.FullIffEveryCard | script.js:153 | for distinct cards of the deck, the list has length `n` iff every card of the deck is in it |
| Pairs.MatchKeepsInvariant | script.js:126-131 | pushing two distinct deck cards that the guard let through keeps the matched list distinct, of even length and at most `n` long |
| Pairs.Shuffled | script.js:105-109 | the shuffle keeps the number of order values |
| Pairs.ShuffledInRange | script.js:107-108 | every order value the shuffle leaves lies in `[0, n)` when the values it starts from do |
| Pairs.ShuffledLeavesUntouched | script.js:105-108 | steps `i` down to 1 never write a card above `i` |
| Pairs.ShuffledAt | script.js:105-109 | whatever the starting orders, each card `k` in `1..i` ends with exactly its own pick `picks[k]`, and card 0 ends with the order written by the last step that picked 0, or keeps its old order if no step did |
| Pairs.WrittenOrderInRange | script.js:107-108 | whatever the starting orders, every card ends with an order in `[0, n)`, except that card 0 may keep the order it started with |
| Pairs.ShuffleMayRepeatOrders | script.js:107-108 | on three cards, valid picks leave orders `[1, 0, 1]`, a repeated value and not a permutation |

## Left out

- The `AudioController` class (`script.js:5-47`) and every call into it. It only plays, pauses and loads sound files.
- DOM access and display writes (`script.js:2, 58-59, 81-82, 88, 116, 176-178, 185-187`). These are the flip and timer text, and the overlay classes and animations. The counter values they show are modelled.
- The random choice of the next game-over sound (`script.js:189-202`). It is cosmetic, and it only takes effect at the next game over.
- The DOM query inside `getCardType` (`script.js:168-170`). The model uses the given `types` sequence instead.
- Wall-clock timing of `setTimeout` and `setInterval`. Each callback is a step that the environment may take whenever it has been queued. The model does not capture the half-second and one-second delays, and between different callbacks only the queue order is modelled.
- The distribution of `Math.random` (floating point). The pick is an input in its allowed range, so uniformity is not stated.
- The `startLoading` wiring and the `DOMContentLoaded` registration (`script.js:207-231`): event-handler glue. `FlipCard` takes a card index of the deck (`c < n`), because click handlers are attached only to deck cards.
