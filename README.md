# Sprite logic of two canvas demos, modelled in Dafny

The repository holds two small browser demos built on a sprite sheet:

- **Tap the flower** (`sprites/`). Flowers appear at random places, at most
  about one per second. Each one grows in ("spawn", 0.5 s), stays ("static",
  1.5 s) and then grows on while fading out ("die", 0.8 s). After that it
  marks itself `kill`, and the next update of the game drops it. A tap marks
  every flower whose circle contains the pointer and scores one point per
  flower hit.
- **Walking bucket** (`animating/`). A sprite plays an eight-frame walk cycle
  at 8 frames per second and moves 120 pixels per second to the right. It
  jumps back to x = -100 once it has walked past x = 500. The game spawns
  one walker and updates every walker on every frame.

The model keeps each class of the source as a Dafny `class` with the same
mutable fields. The constructor, setter, `spawn`, `tap` and `update` are
methods that change those fields. The two sprite classes and the flower game
each have a `View()` that reads their fields as a datatype value
(`SpriteView`, `WalkView`, `GameView`); the walker game is described by the
views of its sprites, `ViewsOf(sprites)`, and by `bucket`. Every method's
contract gives the new value as a function of the old one: `Step`,
`AfterTap`, `AfterUpdate`, `AfterSpawn`, `StepAll`. The lemmas prove what the
program promises about those functions. Times, positions, scales and
opacities are `real`s. The frame time `dt` and the random numbers `spawn`
draws are parameters.

Files:

- `common.dfy`: `Option`, `Distinct`, and the sprite-sheet records (`Point`, `Rect`, `Size`, `FrameInfo`);
- `flower_sprite.dfy`: the flower's timed state machine and hit test (`sprites/sprite.js`);
- `flower_game.dfy`: the flower game's list, score and spawn timer (`sprites/game.js`);
- `walk_sprite.dfy`: the walk-cycle sprite (`animating/sprite.js`);
- `walk_game.dfy`: the walker game's list (`animating/game.js`).

The flower game's `update` is commented "if 1 sec elapsed, spawn a new
sprite" (`sprites/game.js:123`), but its test is that the timer STRICTLY
exceeds one second. The model follows the test. So from a reset timer,
updates of exactly one second spawn every other time, not every time.
`OneSecondTicks` and `NoSpawnAfterExactlyOneSecond` state this.

## Model

| member | source | states |
|---|---|---|
| FlowerSprite.GetterDrivesUpdate | sprites/sprite.js:69-73 | for an index within the list or one past its end, the `state` getter finds nothing exactly one past the end; `update` sets `kill` exactly when the sprite was marked or the getter finds nothing; otherwise the looks follow the state the getter returns |
| FlowerSprite.Step | sprites/sprite.js:67-102 | one update moves the index by 0 or +1, and by +1 exactly when there is a current state and the new state time exceeds its duration; the index never passes the list's end; the timer resets to 0 on a transition and runs on otherwise; `kill` is set exactly when there is no current state and is never cleared; past the end the looks are unchanged; otherwise the looks follow the mode of the state current before the transition, at the pre-transition progress; no other field changes |
| FlowerSprite.ProgressExceedsOne | sprites/sprite.js:75-77 | for a positive duration, the progress `stateTime / duration` exceeds 1 exactly when the time exceeds the duration |
| FlowerSprite.RunMonotone | sprites/sprite.js:75-79 | over any run of updates the state index never decreases, rises by at most one per update and never passes the list's end, and a set `kill` stays set |
| FlowerSprite.LeavingSpawnOvershoots | sprites/sprite.js:75-88 | the update that leaves "spawn" sets scale and opacity above 1, since the progress is taken before the transition |
| FlowerSprite.FadeOutOpacityBounded | sprites/sprite.js:94-100 | in "die" and any unknown mode the opacity is never negative, and it is at most 1 for a non-negative state time |
| FlowerSprite.KilledOneUpdateAfterLastState | sprites/sprite.js:69-79 | the update that leaves the last state does not set `kill`; the next one does, and leaves the index at the list's length |
| FlowerSprite.SpawnHalfway | sprites/sprite.js:82-88 | a new flower updated by 0.25 s is at half size and half opacity, still in "spawn" |
| FlowerSprite.DieHalfwayAndEnd | sprites/sprite.js:94-100 | 0.4 s into "die" the flower is at 1.5 times its size and half opacity; at 0.8 s its opacity is 0 and it is still in "die" |
| FlowerSprite.Lifetime | sprites/sprite.js:20-39 | a new flower updated by 0.6, 1.6, 0.9 and 0.1 s leaves each of the three states on one of the first three updates and is marked `kill` on the fourth, not before |
| FlowerSprite.SquaredDistanceIsZeroOnlyAtSamePoint | sprites/sprite.js:52-56 | the squared distance is never negative and is zero exactly between equal points |
| FlowerSprite.CoversIsDistanceBelowRadius | sprites/sprite.js:58-65 | the hit test on squared distances agrees with `dist < radius` for the Euclidean distance, so a point at exactly the radius misses |
| FlowerSprite.CentreHits | sprites/sprite.js:58-65 | the centre is hit exactly when the radius `frame.w * scale / 2` is positive |
| FlowerSprite.Sprite.constructor | sprites/sprite.js:2-40 | a new sprite (whose state list is the class constant `FlowerStates`: spawn 0.5, static 1.5, die 0.8) has index 0, state time 0 and `kill` false, and the given position, frame, scale, opacity and anchor |
| FlowerSprite.Sprite.SetState | sprites/sprite.js:42-45 | the setter sets the index and resets the state time to 0, and changes nothing else |
| FlowerSprite.Sprite.Update | sprites/sprite.js:67-102 | the new fields are `Step` of the old ones, and the index stays within the state list or one past its end |
| FlowerGame.MousePosRoundTrip | sprites/game.js:73-78 | the mouse-to-canvas conversion (offset by the canvas corner, scaled by `canvas.width / offsetWidth`) and its inverse undo each other, for any point and any event |
| FlowerGame.UnscaledCanvas | sprites/game.js:73-78 | a canvas shown at its bitmap width maps the pointer by the corner offset alone |
| FlowerGame.SpawnIndex | sprites/game.js:86 | `Math.floor(random * 5)` is a flower index in 0..4, the floor of `random * 5` |
| FlowerGame.SpawnedOnCanvas | sprites/game.js:84-97 | a spawned flower lies on the canvas, shows one of the first five frames of the sheet, and is a new live sprite in state 0 |
| FlowerGame.TimerAfter | sprites/game.js:122-126 | after an update the timer is at most 1, and it is 0 exactly when a spawn was due or the advanced timer was already 0 |
| FlowerGame.OneSecondTicks | sprites/game.js:122-126 | with the strict test, `n` one-second updates spawn `n / 2` flowers from a reset timer and `(n + 1) / 2` from a timer at 1 |
| FlowerGame.HitsAppend | sprites/game.js:51-56 | the hit count of two lists is the sum of their hit counts |
| FlowerGame.HitsBounds | sprites/game.js:51-56 | a tap scores at most the number of sprites; 0 exactly when it hits none; all of them exactly when it hits all |
| FlowerGame.TappedMarksTheHit | sprites/game.js:51-56 | after a tap a sprite is marked exactly when it was marked or the tap hit it; length, order and every other field are unchanged |
| FlowerGame.TapAgainScoresAgain | sprites/game.js:51-56 | marked sprites still count: a second tap at the same point hits exactly as many sprites as the first |
| FlowerGame.SurvivorsMembers | sprites/game.js:128 | a sprite survives the filter exactly when it is in the list and not marked |
| FlowerGame.SurvivorsAppend | sprites/game.js:128 | filtering a concatenation filters each part, so the survivors keep their order |
| FlowerGame.SurvivorsKeepsUnmarked | sprites/game.js:128 | the filter never lengthens the list, and leaves it unchanged exactly when no sprite is marked |
| FlowerGame.NoSurvivorIsHit | sprites/game.js:51-56 | no sprite the tap hit survives the next filter, and every survivor was an unmarked sprite of the list |
| FlowerGame.ScoreCountsTheDropped | sprites/game.js:51-56 | when no sprite was marked before a tap, the survivors plus the tap's score add up to the list's length |
| FlowerGame.UpdateTimerAndList | sprites/game.js:121-133 | `update` keeps the score and sets the timer as `TimerAfter` says; the survivors of the old list come first, each updated once, in their old order, followed by the spawned flower, updated once, exactly when a spawn was due |
| FlowerGame.NoSpawnAfterExactlyOneSecond | sprites/game.js:122-126 | from a reset timer an update of exactly 1 s spawns nothing and leaves the timer at 1 |
| FlowerGame.UpdateKeepsIndexBound | sprites/game.js:121-133 | when every flower's state index is within the state list or one past its end, so is every flower's after `update`, including a newly spawned one |
| FlowerGame.TapScoresTheHits | sprites/game.js:47-57 | a tap raises the score by exactly its hits, at most by the list's length, and keeps the timer and the list's length |
| FlowerGame.OverlappingFlowersBothScore | sprites/game.js:47-57 | two flowers whose circles both contain the tap point score two points together, and after the next update, for any `dt`, neither is left: the list is only the flower that update spawns, exactly when it spawns |
| FlowerGame.Alive | sprites/game.js:128 | the filter on sprite objects keeps the unmarked ones in order, takes its sprites from the list, and keeps them distinct |
| FlowerGame.Game.constructor | sprites/game.js:33-37 | `init` leaves score 0, a reset timer and exactly one spawned flower |
| FlowerGame.Game.Spawn | sprites/game.js:84-102 | `spawn` appends one new sprite at the end, leaves the earlier ones in place, and resets the timer |
| FlowerGame.Game.Tap | sprites/game.js:47-57 | `tap` at the converted mouse position marks the hit sprites, adds their number to the score, and keeps the same list of objects |
| FlowerGame.Game.TapSprite | sprites/game.js:52-55 | a sprite under the pointer is marked and scores one point; any other sprite is untouched |
| FlowerGame.Game.Update | sprites/game.js:121-133 | the new game is `AfterUpdate` of the old one: timer, a spawn when due, the in-order filter, one update per survivor |
| FlowerGame.Game.AdvanceTimer | sprites/game.js:122-126 | the timer advances by `dt`, and a spawn follows exactly when it then exceeds 1 |
| FlowerGame.Game.UpdateSprites | sprites/game.js:130-132 | every listed sprite is updated once, in list order |
| WalkSprite.DurationPositive | animating/sprite.js:25-38 | the duration `frames.length * (1 / fps)` of a playable state is positive, and the walk's is exactly 1 |
| WalkSprite.StateTablePlayable | animating/sprite.js:25-32 | the only state is the walk: eight frames, looping, 8 fps, 120 px/s to the right |
| WalkSprite.StepFindsFrameIffInPass | animating/sprite.js:104-108 | with a sheet that holds all of the state's frames, an update finds a frame exactly when its new time is in [0, duration) |
| WalkSprite.StepMoves | animating/sprite.js:97-102 | the position advances by exactly motion times `dt`, except that an x beyond 500 becomes exactly -100, so x ends at most 500; only the position, the time and the frame change |
| WalkSprite.WalkMotion | animating/sprite.js:97-98 | for a move that does not pass x = 500, the walk moves x by 120·dt and keeps y |
| WalkSprite.RunTimeStaysInPass | animating/sprite.js:90-95 | over any run of looping updates of at most one duration each, starting in [0, duration], the time stays in [0, duration], the state is kept, and the time is the start time plus the total elapsed time less one duration per wrap |
| WalkSprite.LessDurationsIsMultiple | animating/sprite.js:93 | subtracting the duration once per wrap, `k` times, takes off exactly `k` durations |
| WalkSprite.OneSecondThenAQuarter | animating/sprite.js:90-108 | updates of 1 s and then 0.25 s from time 0 wrap once and end at time 0.25 showing frame 2, as one update of 0.25 s does |
| WalkSprite.TimeStaysInPass | animating/sprite.js:90-95 | a looping time in [0, duration] stays there under an update of at most one duration |
| WalkSprite.FrameIndexInRange | animating/sprite.js:104-106 | the frame index is a valid index exactly when the time is in [0, duration) |
| WalkSprite.FrameIndexAtDuration | animating/sprite.js:104-106 | at exactly one duration the index equals the frame count |
| WalkSprite.FullSecondLosesTheFrame | animating/sprite.js:90-108 | a fresh walker updated by exactly 1 s is not wrapped: the index is 8 and no frame is found |
| WalkSprite.WrapShowsSameFrame | animating/sprite.js:90-108 | cumulative times 1.25 and 0.25 give the same time and the same frame, frame 2 of the sheet |
| WalkSprite.LongUpdateWrapsOnce | animating/sprite.js:90-95 | an update of 2.5 s from time 0 wraps once only, to 1.5, and finds no frame |
| WalkSprite.FrameFoundWithinPass | animating/sprite.js:104-108 | within a pass, with the sheet holding all of the state's frames, the update shows one of the state's frames |
| WalkSprite.UntrimmedOffset | animating/sprite.js:76-87 | for an untrimmed frame the anchor offset is the anchor fraction of the scaled frame size, half of it at the default anchor and scale |
| WalkSprite.TopLeftAnchorOffset | animating/sprite.js:76-87 | a zero anchor gives a zero offset |
| WalkSprite.Sprite.constructor | animating/sprite.js:2-39 | the walker takes the named state and the given position, size, anchor, sheet, scale and opacity, starts at time 0, and stores the state's duration |
| WalkSprite.Sprite.Update | animating/sprite.js:89-109 | the new fields are `Step` of the old ones |
| WalkGame.SpawnedWalks | animating/game.js:39-53 | a spawned walker walks, at time 0, playable, with no frame yet and the size of the sheet's first frame |
| WalkGame.ListOnlyGrows | animating/game.js:77-81 | after any spawns and updates the list holds one walker per old walker plus one per spawn; the old walkers stay in front, in order, each one the old walker updated by every update's `dt` in turn, still in its state |
| WalkGame.UpdateKeepsTheList | animating/game.js:77-81 | an update keeps the list's length, each walker's state and its sheet |
| WalkGame.FirstQuarterSecond | animating/game.js:77-81 | the first quarter-second update moves the fresh walker 30 px to the right and shows frame 2 |
| WalkGame.Game.constructor | animating/game.js:32-36 | `init` performs exactly one spawn into the empty list |
| WalkGame.Game.Spawn | animating/game.js:39-58 | `spawn` appends one new walker at (150, 180), centred, walking, sized by the first frame, and makes it `bucket` |
| WalkGame.Game.Update | animating/game.js:77-81 | every walker is updated once, in list order; the list and `bucket` stay the same |

## Left out

- Loading the sheet (`loadJSON`, `XMLHttpRequest`, `Image.onload`, `JSON.parse`): asynchronous I/O. The frame list is a constant of each game, given to its constructor.
- `refresh`, `requestAnimationFrame` and `Date.now`: a wall clock driving an endless callback loop. The model takes one `update(dt)` at a time, with `dt` as a parameter.
- Every `render` method and the canvas calls (`drawImage`, `globalAlpha`, `clearRect`, `fillText`): foreign drawing API.
- Binding the tap handler in `init`, `getBoundingClientRect`, and the touch branch of `getMousePos`. The rectangle's corner and the canvas's displayed width are parameters. The touch branch reads a global instead of the event and would fail.
- `Math.random` in `spawn`: the three numbers it draws are parameters. The index draw is required to lie in [0, 1).
- IEEE floating point and `Math.sqrt`: all quantities are `real`s. The hit test compares squared distance with the squared radius, and `CoversIsDistanceBelowRadius` relates this to the source's `dist < radius`.
- FlowerGame.Game.constructor, FlowerGame.Game.Spawn, FlowerGame.Game.Update: require a sheet of at least five frames. `spawn` draws an index in 0..4, and on a shorter sheet `frames[index].frame` at `sprites/game.js:87` throws a TypeError. The model does not capture that failure.
- WalkGame.Game.constructor, WalkGame.Game.Spawn: require a sheet with at least one frame. `spawn` reads `frames[0].sourceSize` at `animating/game.js:40` and 47, which throws on an empty sheet. The model does not capture that failure.
- FlowerGame.MousePos: requires a non-zero displayed width. The source would divide by zero and produce an infinite or NaN scale, which reals cannot represent.
- WalkSprite.Sprite.constructor: requires a state name from the table. For any other name the source fails while reading `frames` of `undefined`. The game only ever passes "walk".
- WalkSprite.Sprite.Offset: requires a looked-up frame. The source fails when `frameData` is `undefined`.
- `getState` in `animating/sprite.js`: dead code. `states` is an object, so the loop never runs and the method returns `undefined`.
- `hitTest` in `animating/sprite.js`: it reads a `frame` field that is never assigned, so it cannot work. The walk model has no hit test.
- FlowerGame.Game.Update: the object invariant `Valid` does not carry each sprite's own index bound. `FlowerGame.UpdateKeepsIndexBound` proves that `update` keeps the bound for every sprite, on the game's value.
- Per-sprite `context` and `image` fields: drawing handles only, never read by the logic.
