# WhacAR game logic in Dafny

A model of the game logic in WhacAR, an augmented-reality whack-a-mole game for
Android written in Kotlin. Droids sit in a grid on a detected plane. A
self-rescheduling runnable pops a random Down droid up and schedules its pull-down.
The player taps raised droids for points and loses points and a life on every miss.
A heart beside the grid gives a life back when tapped. A scoreboard widget shows
the counters and switches to a game-over display when no life is left.

The model has five modules:

- `Options`: the `Option` datatype.
- `Translation` (Translation.kt): the pop-up node.
  - `TranslatableNode` is a class with a `position`, a `localPosition`, and at most one running animation. Each method is proved against a pure step function on `NodeState` (`PullUpStep`, `PullDownStep`, `EndStep`, `OffsetStep`).
  - Lemmas about those functions give the guards' idempotence, the animation targets and durations, and coherence of every reachable state. Coherence means every rest position is Down or Up, and every moving node carries the animation that ends in the matching rest position.
- `Scoreboard` (ScoreboardView.kt): the `ScoreboardView` class.
  - Its `score` and `life` setters drive a three-flag display: game-over message shown, start button enabled, start label reads "restart".
  - `LifeDisplay` states the life setter on values. `Replay` chains it over several assignments, which is what the restart quirk needs.
- `Selection` (MainActivity.kt, the pure part):
  - the flattened grid, filtered by droid position;
  - the draw of `getOrNull((0..size).random())` from the filtered list.
- `Session` (MainActivity.kt): the `Game` class.
  - It holds the `array2` grid of optional nodes, the heart, the `initialized` and `heartClicked` flags, the scoreboard, and the game handler's queue as a `seq<Task>`.
  - The tap handlers, `failHit`, `pullUpRunnable`, `onStartTapped` and the handler's dispatch of each kind of task are methods.
  - Each method states its whole new state. These statements are written through the node step functions and the scoreboard's `LifeDisplay`.

The droid tap listener (MainActivity.kt:130) tests only `position != DOWN`. A tap on a MovingDown droid therefore scores 10, and its pullDown then does nothing. `Session.Game.TapDroid` states this.

## Model

| member | source | states |
|---|---|---|
| Translation.TranslatableNode.constructor | app/src/main/java/com/raywenderlich/whacardroid/Translation.kt:12-14 | a new node rests Down at its parent's origin with no animation running |
| Translation.InitialIsCoherent | app/src/main/java/com/raywenderlich/whacardroid/Translation.kt:14 | the initial state is Down, idle and coherent |
| Translation.TranslatableNode.PullUp | app/src/main/java/com/raywenderlich/whacardroid/Translation.kt:17-22 | the new state is the pull-up transition of the old one: guarded by "neither MovingUp nor Up" |
| Translation.PullUpIgnoredWhenRising | app/src/main/java/com/raywenderlich/whacardroid/Translation.kt:17-22 | on a MovingUp or Up node, pullUp changes neither the position nor the running animation, whatever the offset and heart arguments |
| Translation.TranslatableNode.PullDown | app/src/main/java/com/raywenderlich/whacardroid/Translation.kt:24-28 | the new state is the pull-down transition of the old one: guarded by "neither MovingDown nor Down" |
| Translation.PullDownIgnoredWhenSinking | app/src/main/java/com/raywenderlich/whacardroid/Translation.kt:24-28 | on a MovingDown or Down node, pullDown changes nothing |
| Translation.RepeatedRequestsAreIdempotent | app/src/main/java/com/raywenderlich/whacardroid/Translation.kt:17-28 | a second pullUp right after a pullUp changes nothing; the same holds for pullDown |
| Translation.PullDownSettles | app/src/main/java/com/raywenderlich/whacardroid/Translation.kt:24-28 | after pullDown a node is MovingDown or Down, whatever its state before |
| Translation.TranslatableNode.AnimatePullDown | app/src/main/java/com/raywenderlich/whacardroid/Translation.kt:30-50 | the start listener sets MovingDown; the new animation runs from the local position to the same point at y = 0 for 250 ms, ends in Down, and replaces any running one |
| Translation.AcceptedPullDown | app/src/main/java/com/raywenderlich/whacardroid/Translation.kt:30-56 | an accepted pullDown: MovingDown at start, target (x, 0, z), 250 ms; when it ends the node is Down at (x, 0, z) |
| Translation.TranslatableNode.AnimatePullUp | app/src/main/java/com/raywenderlich/whacardroid/Translation.kt:66-104 | the start listener sets MovingUp; the new animation runs to the same point with y = offset, for 1000 ms with the heart's animator and 250 ms otherwise, ends in Up, and replaces any running one |
| Translation.AcceptedPullUp | app/src/main/java/com/raywenderlich/whacardroid/Translation.kt:81-104 | an accepted pullUp: MovingUp at start, target (x, offset, z), 1000 ms for the heart, 250 ms otherwise; when it ends the node is Up at (x, offset, z) |
| Translation.TranslatableNode.CompleteAnimation | app/src/main/java/com/raywenderlich/whacardroid/Translation.kt:90-102 | the running animation ends: the node reaches its target and the end listener assigns the rest position; nothing happens when no animation runs (the pull-down listener, lines 36-48, is the same shape) |
| Translation.EndComesToRest | app/src/main/java/com/raywenderlich/whacardroid/Translation.kt:94-100 | on a coherent node the end listener leaves it idle: Up after MovingUp, Down after MovingDown |
| Translation.TranslatableNode.AddOffset | app/src/main/java/com/raywenderlich/whacardroid/Translation.kt:106-112 | the new state is the old one with the local position translated by (x, y, z) |
| Translation.OffsetTranslates | app/src/main/java/com/raywenderlich/whacardroid/Translation.kt:106-112 | addOffset adds (dx, dy, dz) componentwise and leaves the position and the running animation unchanged |
| Translation.StepCoherent | app/src/main/java/com/raywenderlich/whacardroid/Translation.kt:14-112 | every request, end callback or offset keeps a node coherent |
| Translation.RunCoherent | app/src/main/java/com/raywenderlich/whacardroid/Translation.kt:14-112 | after any sequence of requests, end callbacks and offsets, a coherent node is still coherent: at rest it is Down or Up, and while moving it carries the animation that ends in the matching rest position |
| Translation.RunKeepsXZ | app/src/main/java/com/raywenderlich/whacardroid/Translation.kt:30-104 | without addOffset, no sequence of requests and end callbacks changes x or z, and every animation stays vertical |
| Scoreboard.ScoreboardView.constructor | app/src/main/java/com/raywenderlich/whacardroid/ScoreboardView.kt:12-28 | both counters start at 0, the widgets as the layout declares them, with no onStartTapped callback |
| Scoreboard.ScoreboardView.SetScore | app/src/main/java/com/raywenderlich/whacardroid/ScoreboardView.kt:22-26 | score holds exactly the assigned value; life and the display are unchanged |
| Scoreboard.ScoreboardView.SetLife | app/src/main/java/com/raywenderlich/whacardroid/ScoreboardView.kt:28-44 | life holds exactly the assigned value; score is unchanged; the display changes as LifeDisplay says |
| Scoreboard.LifeDisplay | app/src/main/java/com/raywenderlich/whacardroid/ScoreboardView.kt:28-44 | a value of at most 0 shows game over, enables start and relabels it restart; for a positive value the message stays visible unless the previous value was exactly 0, and the start button does not change |
| Scoreboard.GameOverHiddenOnlyFromZero | app/src/main/java/com/raywenderlich/whacardroid/ScoreboardView.kt:30-33 | a visible game-over message is hidden if and only if the previous life was exactly 0 and the new value is positive |
| Scoreboard.GameOverPersists | app/src/main/java/com/raywenderlich/whacardroid/ScoreboardView.kt:28-44 | once shown, the message stays visible through every assignment sequence in which no single assignment lifts the counter from exactly 0 to a positive value |
| Scoreboard.PositiveLivesKeepStartButton | app/src/main/java/com/raywenderlich/whacardroid/ScoreboardView.kt:28-44 | any sequence of positive life assignments leaves the start button's enabled state and label as they were |
| Scoreboard.RestartQuirk | app/src/main/java/com/raywenderlich/whacardroid/ScoreboardView.kt:30-33 | from one life, a miss and then a restart hide the message; two misses (life 0, then -1) and then a restart leave it visible |
| Scoreboard.ScoreboardView.ClickStart | app/src/main/java/com/raywenderlich/whacardroid/ScoreboardView.kt:15-18 | the start button is disabled, and the callback is invoked exactly when it is set; nothing else changes |
| Selection.Select | app/src/main/java/com/raywenderlich/whacardroid/MainActivity.kt:50-51 | the result lists, in increasing order, exactly the indices of the non-empty cells whose droid passes the filter |
| Selection.PickedDroidWasDown | app/src/main/java/com/raywenderlich/whacardroid/MainActivity.kt:50-52 | a draw from 0..size picks nothing exactly when it equals size, and any droid it picks occupies a non-empty cell and was Down |
| Selection.EveryDownDroidCanBePicked | app/src/main/java/com/raywenderlich/whacardroid/MainActivity.kt:50-52 | every Down droid is picked by some in-range draw |
| Selection.Pick | app/src/main/java/com/raywenderlich/whacardroid/MainActivity.kt:52 | a draw picks an entry exactly when it is below the list's size, and the entry picked is the one at the draw's index; an empty list or a draw of size picks nothing |
| Selection.StillUpIsPullDownGuard | app/src/main/java/com/raywenderlich/whacardroid/MainActivity.kt:236 | the game-over filter keeps exactly the droids that pullDown would move |
| Session.PositionsOf | app/src/main/java/com/raywenderlich/whacardroid/MainActivity.kt:50-51 | one entry per cell: None exactly for an empty cell, otherwise the position of the droid in it |
| Session.Game.Row | app/src/main/java/com/raywenderlich/whacardroid/MainActivity.kt:50 | row i as a sequence: one entry per column, entry j being cell (i, j) |
| Session.Game.RowsBelow | app/src/main/java/com/raywenderlich/whacardroid/MainActivity.kt:50 | the first n rows concatenated: every cell (i, j) with i < n appears in it |
| Session.Game.Droids | app/src/main/java/com/raywenderlich/whacardroid/MainActivity.kt:50 | every grid cell appears in the flattened grid |
| Session.Game.CellOf | app/src/main/java/com/raywenderlich/whacardroid/MainActivity.kt:50 | every entry of the flattened grid is some grid cell |
| Session.PullDownEach | app/src/main/java/com/raywenderlich/whacardroid/MainActivity.kt:237 | each targeted droid ends as pullDown leaves it, and every other droid is unchanged or likewise pulled down |
| Session.RemoveAt | app/src/main/java/com/raywenderlich/whacardroid/MainActivity.kt:75 | dispatching the k-th queued task leaves the queue one shorter, holding exactly the other tasks (as a multiset) |
| Session.Ticks | app/src/main/java/com/raywenderlich/whacardroid/MainActivity.kt:197-199 | exactly n ticks, each posted without delay |
| Session.Game.constructor | app/src/main/java/com/raywenderlich/whacardroid/MainActivity.kt:41-44 | an empty grid of the configured size, no heart, flags cleared, empty queue, fresh scoreboard at 0 whose onStartTapped callback is set |
| Session.Game.LoadResources | app/src/main/java/com/raywenderlich/whacardroid/MainActivity.kt:203-222 | the renderables are available |
| Session.Game.TapPlane | app/src/main/java/com/raywenderlich/whacardroid/MainActivity.kt:85-109 | after setup a plane tap is a miss; before setup it places the game only on an upward-facing plane with the resources loaded, and otherwise changes nothing |
| Session.Game.PlaceGrid | app/src/main/java/com/raywenderlich/whacardroid/MainActivity.kt:113-179 | every cell (i, j) holds a fresh Down droid at (0.3 j, 0, 0.3 i), a fresh Down heart rests at (0.3, 0, 0.9), and the game is initialized |
| Session.Game.TapDroid | app/src/main/java/com/raywenderlich/whacardroid/MainActivity.kt:128-139 | a droid that is not Down: score +10, life, display and onStartTapped callback unchanged, the droid pulled down and no other node moved. A Down droid: a miss as failHit states it |
| Session.Game.TapHeart | app/src/main/java/com/raywenderlich/whacardroid/MainActivity.kt:151-154 | life +1 with the setter's display change, score and the onStartTapped callback unchanged, heartClicked set |
| Session.Game.FailHit | app/src/main/java/com/raywenderlich/whacardroid/MainActivity.kt:227-239 | score -5, life -1, heart untouched; while lives remain nothing else changes; at life <= 0 the queue is empty and every droid is MovingDown or Down |
| Session.Game.GameOver | app/src/main/java/com/raywenderlich/whacardroid/MainActivity.kt:231-238 | the queue is emptied and every droid ends as pullDown leaves it, so MovingDown or Down |
| Session.Game.PopUp | app/src/main/java/com/raywenderlich/whacardroid/MainActivity.kt:46-73 | at life <= 0 nothing changes and nothing is queued; otherwise the drawn droid (if any) was Down, is pulled up and gets one pull-down task with the drawn delay, the heart gets pullUp(2, heart), and exactly one next tick is queued last |
| Session.Game.PullUpDrawn | app/src/main/java/com/raywenderlich/whacardroid/MainActivity.kt:50-59 | the drawn Down droid is pulled up and one pull-down task is appended; an out-of-range draw changes nothing |
| Session.Game.RunTick | app/src/main/java/com/raywenderlich/whacardroid/MainActivity.kt:68 | dispatching a queued tick removes it and runs pullUpRunnable |
| Session.Game.RunPullDown | app/src/main/java/com/raywenderlich/whacardroid/MainActivity.kt:58 | dispatching a scheduled pull-down removes it and pulls that droid down; no other node moves |
| Session.Game.RunPostTicks | app/src/main/java/com/raywenderlich/whacardroid/MainActivity.kt:196-200 | dispatching the posted runnable removes it and queues exactly MOVES_PER_TIME ticks |
| Session.Game.OnStartTapped | app/src/main/java/com/raywenderlich/whacardroid/MainActivity.kt:192-201 | life = START_LIVES with the setter's display change, score = 0, one runnable posted |
| Session.Game.TapStart | app/src/main/java/com/raywenderlich/whacardroid/ScoreboardView.kt:15-18 | the start button is disabled, then onStartTapped runs when it is set; the callback itself stays set or unset, so a later restart click behaves the same way |

## Left out

- Sceneform and ARCore: anchors, hit results, parenting, scale and renderables. The plane type is a boolean parameter of `TapPlane`, and nodes carry no scene graph.
- Asset loading: the asynchronous `ModelRenderable`/`ViewRenderable` builders are reduced to a `resourcesLoaded` flag, set by `LoadResources`. The placement guard tests that flag, which stands for the droid model, the scoreboard view and the fail light together. As in the source, placement does not wait for the heart's model.
- Outside effects: toasts, the fail light and its `blink()`, layout inflation, and the counters' text.
- The scoreboard node and the light node that placement creates: neither is stored or used by the game logic.
- The initial state of the widgets comes from a layout that is not part of this model, so it is a parameter.
- Interpolation: `LinearInterpolator` and `VectorEvaluator` frames are not modelled. A node's local position keeps its start value while the animation runs and becomes the target when the end listener runs.
- Float rounding: coordinates and offsets are reals.
- Integer width: score and life are unbounded integers, so Kotlin's 32-bit `Int` wrap-around is not modelled.
- Handler timing: delays are recorded in the queued tasks but have no clock. Any queued task may be dispatched next (`RunTick`, `RunPullDown`, `RunPostTicks` take its index), which over-approximates the handler's delay order. Animation ends are delivered by `CompleteAnimation` at any time.
- Randomness: the droid draw and the two delays are parameters. The delays are constrained to their configured ranges, and the draw to `0..size`.
- Grid geometry: `matrixIndices` is not part of this model. Placement assumes it passes the outer index first, so cell `[i][j]` is offset by `j * 0.3` in x and `i * 0.3` in z.
- The configuration constants (rows, columns, start lives, moves per time, delay bounds) are fields of `Config`, with each minimum at most its maximum.
