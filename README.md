# Player movement and map decay of a tile game, in Dafny

This project models the logic of `src/game.ts` of a small tile game: a player
walks cell by cell over a tile map, bumping back from solid cells, while a
decay process rewrites random cells of the map every quarter second.

- `directions.dfy` (`Directions`): the facing enum `Dir` with `dirToDelta` and
  `dirToString`.
- `animation.dfy` (`Animation`): `PlayerState`, `playerStateToAnim` and the
  animation name `updateAnim` builds, `<idle|walk>-<facing>`.
- `input.dfy` (`Input`): the W, A, S, D keys and the facing `handleInputs` picks.
- `motion.dfy` (`Motion`): the player's state machine as functions on a
  snapshot of its fields (`View`): `walk`, the completion of each tween,
  `handleInputs`, `update`, and runs of updates. The invariant `Consistent`
  and the lemmas about whole walks, rests and runs live here.
- `player.dfy` (`PlayerActor`): the `Player` class whose methods change its
  fields in place. The postconditions of `Walk`, the three tween completions,
  `HandleInputs` and `Update` tie the new fields to the corresponding `Motion`
  function of the old ones and keep `Consistent`. `UpdateAnim` changes only
  `anim`, to the name for the current state and facing.
  `BumpRightScenario` walks a new player into a wall on its right and back.
- `decay.dfy` (`MapDecay`): the decay timer as a function, runs of it, and the
  `Decay` class, which writes one cell of its `array2` grid in place.
- `options.dfy` (`Options`): an `Option` datatype.
- `sums.dfy` (`Sums`): the sum of a sequence of tick lengths, shared by both runs of ticks.

Modelling choices:

- The tween library's interpolation is reduced to its end points. `walk`
  records the tween it starts in the field `tween`. `CompleteBumpForth`,
  `CompleteBumpBack` and `CompleteMove` stand for the moments the tweens
  finish, including the `onComplete` callbacks. The forth tween has no
  callback; its completion starts the chained back tween.
- Positions are `real` cell coordinates. `Round` is JavaScript's `Math.round`
  (halves round up). The logical cell of a position is its rounded value.
- The tile map is a parameter `tiles: (int, int) -> Cell` of each call that
  looks at it. `Missing` stands for a coordinate with no cell, `Tile(solid)` for a cell.
- Emitting `"walked"` increments the counter `walked`. `updateAnim` stores the
  name it plays in `anim`.
- The source's constructor plays no animation; the first `updateAnim` is the
  last line of `load` (src/game.ts:186). The model's constructor includes that
  call, so a new player already shows `idle-right`; the rest of `load` is left out.
- The random row, column and symbol of the decay are parameters of
  `Decay.Update`. Its result `redraw` says that `updateMap` is called.
- Tick lengths (`delta`) and the rest time are integers (milliseconds).

Three behaviours of the code worth knowing, which the model keeps:
- Only a bump is followed by a rest. A free walk goes straight back to idle.
- The decay timer is reset to 0 when it fires. It does not carry the excess over.
- A decayed cell may receive the symbol it already holds, and nothing
  validates the symbol written: the only writer picks from `"0"`..`"4"`.

## Model

| member | source | states |
|---|---|---|
| `Directions.DirToDelta` | src/game.ts:25-36 | the step is a unit step along exactly one axis; Up/Down move only the row, Left/Right only the column; Up and Left point toward smaller indices (these three facts fix the step for each facing) |
| `Directions.DirToString` | src/game.ts:38-49 | the facing's name is 2 to 5 characters long and contains no `-` |
| `Directions.DirToStringInjective` | src/game.ts:38-49 | two facings have the same name exactly when they are the same facing |
| `Animation.PlayerStateToAnim` | src/game.ts:98-104 | the kind is `"idle"` or `"walk"` and has 4 characters; it is `"walk"` exactly in state Walk, so Idle and Rest look alike |
| `Animation.AnimName` | src/game.ts:286-288 | the name is the state's kind, then `-`, then the facing's name |
| `Animation.AnimNamesAreLoaded` | src/game.ts:148-184 | every name `updateAnim` can ask for is one of the eight animations `load` registers, so `playAnim` never takes its missing-animation branch |
| `Animation.AnimNameInjective` | src/game.ts:286-288 | two (state, facing) pairs give the same animation name exactly when their kinds agree and their facings are equal |
| `Input.PickDir` | src/game.ts:207-216 | there is no facing exactly when no key is held; the facing it gives is held, and no facing ranked before it (W, A, S, D order) is held |
| `Motion.Round` | src/game.ts:223-226 | the result is the integer within half a cell below and up to half a cell above its argument, as `Math.round` |
| `Motion.WalkStep` | src/game.ts:219-269 | `walk(d)` faces `d`, enters Walk, emits "walked" exactly once, leaves position and rest unchanged, and starts a bump exactly when the looked-up cell exists and is solid |
| `Motion.TweenStep` | src/game.ts:238-266 | completing a tween keeps the facing and emits no event |
| `Motion.InputStep` | src/game.ts:207-216 | with no key held nothing changes; otherwise the result is exactly `WalkStep` toward the facing `PickDir` picks, so the player faces it, enters Walk, starts a bump or a move, and emits one "walked" event |
| `Motion.UpdateStep` | src/game.ts:189-205 | in Walk nothing changes; in Rest the rest drops by `delta` and the state becomes Idle exactly when the rest is `<= 0`; outside Idle facing, position, tween and events are unchanged; at most one walk starts per tick, and only from Idle; Idle with no key held changes nothing; Idle with a key held is exactly `WalkStep` toward the facing `PickDir` picks |
| `Motion.WalkStepConsistent` | src/game.ts:219-269 | `walk` from a non-walking consistent player keeps the invariant: tween in flight iff Walk, animation matches state and facing, tween end points on the line toward the facing |
| `Motion.TweenStepConsistent` | src/game.ts:238-266 | every tween completion keeps the invariant; in particular the player is back on a whole cell when no tween runs |
| `Motion.UpdateStepConsistent` | src/game.ts:189-205 | `update` keeps the invariant, including Rest to Idle, which does not replay the animation |
| `Motion.BlockedWalk` | src/game.ts:227-250 | a walk into a solid cell goes to start + 0.1·delta, whose logical cell is still the start cell, then back exactly to the start cell, ending in Rest with rest 200, facing `d`, one "walked" event |
| `Motion.FreeWalk` | src/game.ts:257-266 | a walk toward a free or missing cell ends exactly one cell further (logical cell = start + delta), Idle, rest untouched, facing `d`, one "walked" event |
| `Motion.WalkIgnoresUpdates` | src/game.ts:191-193 | while walking, any run of updates with any keys leaves the player unchanged |
| `Motion.IdleWithoutKeysStays` | src/game.ts:201-216 | an idle player with no keys held stays unchanged over any run of updates |
| `Motion.RestCountdown` | src/game.ts:194-200 | over one or more non-negative ticks with no keys held, a resting player ends Idle exactly when the ticks add up to its rest time, and otherwise is still resting with the rest reduced by their total; position, facing and events are untouched |
| `PlayerActor.Player.constructor` | src/game.ts:107-119 | a new player is Idle at (1, 1) facing right with rest 0, no tween and no events; its `anim` is `idle-right`, the name the final `updateAnim` of `load` (src/game.ts:186) plays |
| `PlayerActor.Player.UpdateAnim` | src/game.ts:286-288 | the animation played is the one named after the current state and facing |
| `PlayerActor.Player.Walk` | src/game.ts:219-269 | the fields become `WalkStep` of the old fields and the invariant is kept |
| `PlayerActor.Player.CompleteBumpForth` | src/game.ts:238-250 | the player reaches the far point and the back tween is in flight (`TweenStep`) |
| `PlayerActor.Player.CompleteBumpBack` | src/game.ts:242-248 | the player is on its start cell, in Rest for 200 ms, with the idle animation (`TweenStep`) |
| `PlayerActor.Player.CompleteMove` | src/game.ts:259-266 | the player is on the target cell and Idle, with the idle animation (`TweenStep`) |
| `PlayerActor.Player.HandleInputs` | src/game.ts:207-216 | the W, A, S, D if-chain walks exactly as `InputStep` (the facing `PickDir` gives) |
| `PlayerActor.Player.Update` | src/game.ts:189-205 | the fields become `UpdateStep` of the old fields and the invariant is kept |
| `MapDecay.TimerStep` | src/game.ts:78-81 | a cell is rewritten exactly when time plus tick exceeds 250 (strictly); then the timer is 0, otherwise it holds time plus tick; the timer never rests above 250, and non-negative time and tick keep it non-negative |
| `MapDecay.QuietBelowThreshold` | src/game.ts:77-89 | from a timer at or below 250 with non-negative ticks, no cell is rewritten exactly when start plus ticks stay `<= 250`, and then the timer holds that sum |
| `MapDecay.RewritesAreRationed` | src/game.ts:78-85 | over any run, 251 ms per rewrite plus the time left on the timer never exceed the starting time plus the ticks' total |
| `MapDecay.Decay.constructor` | src/game.ts:66-75 | a new decay starts with its timer at 0 over the given grid |
| `MapDecay.Decay.Update` | src/game.ts:77-89 | the timer and the redraw flag follow `TimerStep`; on a rewrite exactly cell (`row`, `col`) gets the symbol and every other cell keeps its value, otherwise the grid is unchanged; a grid of decay symbols stays one |

## Left out

- Rendering and actor plumbing: `Player.load` (sprite sheet, animation frames), the drawing in `playAnim` and its warning log, `Tweener`, the excalibur `Actor` base class. `playAnim` is reduced to recording the requested name.
- `updatePos`: the pixel position depends on cell sizes defined in a file that is not part of this model, and on floating point.
- The tween library's per-frame interpolation and its global update queue: only the end points and completions of the tweens are modelled. Tween durations (100 ms, 400 ms) are therefore not modelled.
- Floating point: positions are exact reals, so 1 + 0.1 is exactly 1.1 here.
- `startGame`, `boot`, `resourcePath`, sound loading and playback, and the `Math.random` sound choice in the `"walked"` handler: I/O, asynchronous loading and audio.
- `updateMap`, `parseMap` and the `random` helpers live in files that are not part of this model. Random results are parameters, and the call to `updateMap` is the `redraw` result. The grid is assumed to be `constants.mapRows` by `constants.mapCols`, the bounds `random.within` draws from.
- Logging in `Decay.update` ("Updating map!").
- `PlayerActor.Player.Walk`: requires that no tween is in flight. Its only caller, `handleInputs`, runs in Idle. A walk started during a tween would run two tweens on the same vector, which is not modelled.
- `PlayerActor.Player.HandleInputs`: requires that no tween is in flight, for the same reason. Its only caller, `update`, calls it in Idle.
