# Tile platformer simulation core, in Dafny

This project models the simulation engine of a small browser platformer (`JS/gameProject.js`).

A level is written as text, one character per cell. The text is parsed into a grid of tiles (`empty`, `wall`, `lava`) and a list of start actors. The actors are the player, several kinds of lava, coins, monsters, extra lives and shields.

Each animation frame calls `State.prototype.update` once. That call does four things, in order:

- Every actor computes its next value against the previous state.
- A finished level (won or lost) stops there.
- A lava tile under an unshielded player loses the level.
- Otherwise the `collide` handler of every actor touching the player runs, left to right. Each handler receives the state the previous one returned.

The handlers drive the status machine `playing / protected / won / lost`. They also drive the global `lives` counter.

Modules, one file each:

- `Geometry`: `Vec` and the floor/ceiling rounding the grid is measured with.
- `Actors`: the actor datatype, per-class sizes, and `create` for each level character.
- `Levels`: the level constructor and the `touches` tile query. Each has a specification function and an imperative method proved equal to it.
- `World`: status, game state, held input, and player lookup.
- `Motion`: the per-actor `update` rules.
- `Collisions`: `overlap` and the `collide` handlers.
- `Game`: the tick.
  - `Step` specifies it.
  - `Update` and `CollideAll` run it with the source's `for` loop.
  - Lemmas relate the tick to its outcome.

Representation choices:

- Coordinates are `real`.
- `Math.floor` and `Math.ceil` are `Floor` and `Ceil` on reals.
- `Math.sin` and `Math.cos` are uninterpreted functions passed in a `Trig` value.
- The random initial wobble of coins and lives is a function of the cell, passed to the parser.
- The global `lives` counter is an explicit input and output of the tick.
- A handler's `this` is identified by its index in the working actor list. The collision loop tracks that index as entries are removed before it.

Points where the model keeps to the code exactly:

- The stomp test is `monster.pos.y - monster.size.y > player.pos.y`, exactly as `Monster.prototype.collide` writes it.
- `Coin.prototype.collide` changes only the actor list and the status. Collecting the last coin sets `won`.
- Unknown level characters and rows of unequal width are not validated. The model takes known characters as a precondition and lets cells past the end of a short row read as `undefined`.

## Model

| member | source | states |
|---|---|---|
| Geometry.Floor | JS/gameProject.js:26 | the result is the greatest integer not above the argument |
| Geometry.Ceil | JS/gameProject.js:27 | the result is the least integer not below the argument |
| Geometry.Vec.Plus | JS/gameProject.js:98-100 | `Vec.plus`: a fresh vector holding the component-wise sum |
| Geometry.Vec.Times | JS/gameProject.js:101-103 | `Vec.times`: a fresh vector holding each component times the factor |
| Geometry.RoundingMonotone | JS/gameProject.js:26-29 | floor and ceiling never decrease as the argument grows |
| Geometry.RoundingOfIntegers | JS/gameProject.js:26-29 | integers round to themselves both ways |
| Actors.Size | JS/gameProject.js:121 | every class size (0.8×1.5 for the player here; 0.6×0.6 for coins and 1×1 for the others, set on their prototypes) is positive on both axes |
| Actors.Create | JS/gameProject.js:354-369 | each actor character creates a well-formed actor of exactly the class `levelChars` maps it to |
| Actors.CreatePlacement | JS/gameProject.js:116-118 | created actors sit inside their cell, except that the player is raised by 0.5 so its box stands on the cell floor |
| Actors.PlayerCountSplit | JS/gameProject.js:54 | the player count of a concatenation is the sum of the counts |
| Actors.PlayerCountOfSameKinds | JS/gameProject.js:60-62 | lists that agree on the class at each position have equally many players |
| Levels.SkipSpace | JS/gameProject.js:8 | the index of the first non-space at or after `i`, skipping only white space |
| Levels.SkipSpaceBack | JS/gameProject.js:8 | the end of the last non-space, skipping only white space |
| Levels.Trim | JS/gameProject.js:8 | the result is the input minus its leading and trailing white space, and it neither starts nor ends with white space |
| Levels.Lines | JS/gameProject.js:9 | `split('\n')` gives at least one piece, and no piece holds a line break |
| Levels.JoinLines | JS/gameProject.js:9 | joining the split pieces with line breaks gives the text back |
| Levels.LinesJoin | JS/gameProject.js:9 | splitting a join of break-free pieces gives the pieces back |
| Levels.LinesOfLine | JS/gameProject.js:9 | text without a break splits into itself |
| Levels.LinesOfBreak | JS/gameProject.js:9 | a break after a break-free prefix splits off that prefix |
| Levels.RowActors | JS/gameProject.js:15-20 | one well-formed actor per actor character of the row suffix |
| Levels.GridActors | JS/gameProject.js:14-21 | one well-formed actor per actor character of the remaining rows |
| Levels.Parse | JS/gameProject.js:6-22 | `height` is the number of trimmed lines and equals the number of grid rows; `width` is the first line's length; the level is well-formed |
| Levels.NewLevel | JS/gameProject.js:6-22 | the constructor, with its row `map` and its pushes onto `startActors`, builds exactly the level `Parse` describes |
| Levels.ParseRow | JS/gameProject.js:15-20 | the inner `map` yields the row's tiles and appends the row's actors, left to right, to those already pushed |
| Levels.RowDone | JS/gameProject.js:14-21 | after each row, the pushed actors and the mapped rows are the prefixes of the whole scan |
| Levels.ParsedGrid | JS/gameProject.js:16-19 | each tile is wall iff `#` and lava iff `+`, and it is empty for every actor character; each row keeps its line's length |
| Levels.StartActorsInScanOrder | JS/gameProject.js:13-21 | the start actors number the actor characters, and the actor of cell (x, y) is the one at its row-major scan index |
| Levels.ScanIndexIncreases | JS/gameProject.js:14-21 | a cell later in row-major order gets a strictly larger start-actor index |
| Levels.ActorCountSplit | JS/gameProject.js:15-20 | actor characters of a concatenated row add up |
| Levels.ActorCountAllSplit | JS/gameProject.js:14-21 | actor characters of concatenated row lists add up |
| Levels.RowActorsAt | JS/gameProject.js:15-20 | the actor created at x in a row is at the index counting the actor characters before it |
| Levels.GridActorsAt | JS/gameProject.js:14-21 | the actor created at (x, y) is at the index counting the earlier rows' and cells' actor characters |
| Levels.TileAt | JS/gameProject.js:33-34 | the cell `touches` reads: wall outside the grid, `undefined` past the end of a short row, otherwise the grid's tile |
| Levels.CoversKind | JS/gameProject.js:26-37 | some cell from the floored low corner up to the ceiled high corner, exclusive, holds the kind |
| Levels.PlayerChars | JS/gameProject.js:16-18 | the `@` characters of a row, at most its actor characters |
| Levels.PlayerCharsAll | JS/gameProject.js:14-21 | the `@` characters of all rows, at most their actor characters |
| Levels.RowPlayers | JS/gameProject.js:15-20 | a row creates exactly one player per `@` |
| Levels.GridPlayers | JS/gameProject.js:14-21 | the rows create exactly one player per `@` |
| Levels.Touches | JS/gameProject.js:25-40 | the nested scan with early return answers true iff some cell between the floored and ceiled corners has the requested kind |
| Levels.OutsideTouchesWall | JS/gameProject.js:33-34 | a box of positive size that reaches outside the grid on any side touches wall |
| Levels.UnitBoxCoversOnlyItsCell | JS/gameProject.js:26-29 | a 1×1 box on integer coordinates covers exactly its own cell |
| Levels.CoversMonotone | JS/gameProject.js:25-40 | a box containing another covers every kind the smaller one covers |
| World.PlayerFrom | JS/gameProject.js:54 | the first player at or after `i`, with none before it |
| World.PlayerIndex | JS/gameProject.js:54 | `find` returns the first player in the list |
| World.FindPlayer | JS/gameProject.js:53-55 | the `player` getter returns a player that is in the list |
| World.PlayerCountFacts | JS/gameProject.js:54 | a positive player count means a player exists; a count of one means a single player index |
| World.SinglePlayerIsFound | JS/gameProject.js:53-55 | with exactly one player, `find` returns it at its only index |
| World.FindPlayerOfUniform | JS/gameProject.js:53-55 | when every player entry is the same value, `find` returns that value |
| World.Start | JS/gameProject.js:49-51 | the start state holds the level, its start actors and `playing` |
| World.StartIsValid | JS/gameProject.js:49-51 | a parsed level starts in a state the tick can advance (one player, well-formed actors and level) exactly when its text holds one `@` |
| Motion.WalkSpeed | JS/gameProject.js:126-128 | the horizontal speed is −8, 0 or +8; it is negative iff only left is held and positive iff only right is held (keyboard or touch) |
| Motion.Walk | JS/gameProject.js:129-134 | x moves by `xSpeed·time` exactly when the moved box is free of wall; y is untouched |
| Motion.PlayerUpdate | JS/gameProject.js:125-146 | the new player stores the requested x-speed even when blocked, and its x is the walked x |
| Motion.Drop | JS/gameProject.js:137 | the vertical probe keeps x |
| Motion.PlayerFalls | JS/gameProject.js:136-145 | the y-speed gains `30·time`; if the drop is free the player takes it, otherwise y stays and the speed is −17 with Up held while falling, else 0 |
| Motion.PlayerStaysOutOfWalls | JS/gameProject.js:125-146 | a player not touching wall never moves into wall |
| Motion.Orbit | JS/gameProject.js:188-194 | the point at `angle` on the ellipse of radii `rx`, `ry` around `center`, as the orbiting lavas compute it |
| Motion.LavaUpdate | JS/gameProject.js:179-215 | a linear lava moves while free and is otherwise reset to its anchor or reversed in place; the velocity is only kept or negated; linear lava stays linear |
| Motion.BouncingLavaReversesTwice | JS/gameProject.js:212-214 | a bouncing lava blocked on two ticks in a row is back to its original value |
| Motion.MonsterUpdate | JS/gameProject.js:282-288 | the monster steps `4·time` toward the player's x in the previous state, or returns itself when the step touches wall; y never changes |
| Motion.MonsterStaysOutOfWalls | JS/gameProject.js:282-288 | a monster not touching wall never moves into wall |
| Motion.MonsterApproaches | JS/gameProject.js:284 | with non-negative time the monster never moves away from the player's side |
| Motion.CoinUpdate | JS/gameProject.js:249-255 | the phase advances by `8·time` and the base is kept |
| Motion.LifeUpdate | JS/gameProject.js:312-322 | the phase advances by `4·time` and the base is kept |
| Motion.ShieldUpdate | JS/gameProject.js:340-348 | the angle advances by `7·time` and the centre is kept |
| Motion.PickupsStayNearHome | JS/gameProject.js:249-255 | given sine and cosine in [−1, 1], coins stay within 0.07 of their base, lives within 0.1, shields within 0.04 of their centre |
| Motion.UpdateActor | JS/gameProject.js:60-62 | `actor.update` keeps the class and yields a well-formed actor |
| Collisions.OverlapIffCommonInteriorPoint | JS/gameProject.js:84-91 | `overlap` is symmetric and holds iff the two open boxes share a point |
| Collisions.EdgeContactIsNoOverlap | JS/gameProject.js:84-91 | boxes that only share an edge do not overlap |
| Collisions.IntervalsMeet | JS/gameProject.js:86-89 | two open intervals that each start before the other ends share a point |
| Collisions.Overlap | JS/gameProject.js:84-91 | `overlap`: each box starts strictly before the other ends, on both axes |
| Collisions.Stomped | JS/gameProject.js:272 | the stomp test, as the code writes it |
| Collisions.RemoveAt | JS/gameProject.js:243 | `filter(a => a !== this)` drops exactly the entry at `this`'s index and keeps the others in order |
| Collisions.RemoveAtKeeps | JS/gameProject.js:243 | every other entry survives the removal |
| Collisions.Hurt | JS/gameProject.js:216-222 | damage keeps `protected` and otherwise gives `lost` |
| Collisions.LavaCollide | JS/gameProject.js:216-222 | lava keeps the actors and sets `lost` unless protected |
| Collisions.CoinCollide | JS/gameProject.js:241-248 | the coin is removed; the status becomes `won` iff no coin remains, else it is kept |
| Collisions.MonsterCollide | JS/gameProject.js:271-280 | a stomped monster is removed with the status kept; otherwise the actors are kept and the status is `lost` unless protected |
| Collisions.LifeCollide | JS/gameProject.js:306-311 | the life is removed, the status is kept and `lives` grows by one |
| Collisions.ShieldCollide | JS/gameProject.js:349-352 | the shield is removed and the status becomes `protected` |
| Collisions.Collide | JS/gameProject.js:77 | the dispatched handler removes its actor iff it is a pickup or a stomped monster; lives grow iff it is a life; the status follows each class's rule |
| Collisions.CollideKeepsWonFair | JS/gameProject.js:246 | no handler leaves a `won` state with a coin in it |
| Game.Moved | JS/gameProject.js:60-62 | the moved list has the same length, updates each actor at the same index, and still has exactly one player |
| Game.Step | JS/gameProject.js:58-82 | `update` as a function: a terminal status stops after moving, an unshielded player on lava loses, and otherwise the collision loop runs; the level never changes |
| Game.Turn | JS/gameProject.js:76-77 | one iteration of the collision loop keeps the loop invariant and the level |
| Game.Resolve | JS/gameProject.js:75-79 | the collision loop over the remaining moved actors keeps the level |
| Game.CollisionPhase | JS/gameProject.js:75-81 | the collision loop from the moved actors keeps the level |
| Game.Update | JS/gameProject.js:58-82 | the tick, with `touches` and the collision `for` loop, returns exactly what `Step` describes |
| Game.CollideAll | JS/gameProject.js:75-79 | the collision loop, reassigning `newState` per handler, ends in the state the fold `CollisionPhase` describes |
| Game.FoldingSkip | JS/gameProject.js:75-76 | an actor not touching the player leaves the loop's invariant in place at the next actor |
| Game.FoldingCollide | JS/gameProject.js:76-77 | a handler call keeps the loop's invariant, whether or not it removes its actor |
| Game.FoldingRemove | JS/gameProject.js:243 | a handler removing itself keeps the untouched actors at the working position |
| Game.TurnEffect | JS/gameProject.js:75-79 | one loop turn changes nothing unless the actor touches the player, and then removes it iff consumed and adds a life iff a life |
| Game.TurnStatus | JS/gameProject.js:75-79 | one loop turn changes the status as its actor's handler rule says |
| Game.TurnSurvivors | JS/gameProject.js:75-79 | one loop turn preserves "working list so far + actors still to survive" |
| Game.ResolveSurvivors | JS/gameProject.js:75-79 | the loop leaves exactly the moved actors that were not consumed, in order |
| Game.ResolveLives | JS/gameProject.js:75-79 | the loop adds one life per touching life |
| Game.ResolveUntouched | JS/gameProject.js:75-79 | with no actor touching the player, the loop changes nothing |
| Game.ResolveShieldHolds | JS/gameProject.js:75-79 | a shield stays up through the loop unless a coin is collected |
| Game.HarmFromWitness | JS/gameProject.js:75-79 | one harmful contact at or after `i` means harm lies ahead from `i` |
| Game.ResolveUnshieldedHarm | JS/gameProject.js:75-79 | without a shield, a harmful contact and no coin or shield pickup ends the loop in `lost` |
| Game.ResolveWonFair | JS/gameProject.js:75-79 | the loop only yields `won` with no coin left |
| Game.SurvivorsFacts | JS/gameProject.js:75-79 | survivors keep the player count and come from the moved list |
| Game.StepCollides | JS/gameProject.js:63-81 | a tick that reaches the collision phase gives the loop's result; one that does not keeps the moved actors and lives and is lost when it was playing |
| Game.FinishedStaysFinished | JS/gameProject.js:63-65 | a won or lost state keeps its status and lives, and its actors are just moved |
| Game.LavaTileLoses | JS/gameProject.js:67-73 | a lava tile under the unshielded moved player gives `lost` with the moved actors and unchanged lives |
| Game.StepOutcome | JS/gameProject.js:75-81 | in the collision phase the new actors are the moved ones minus the consumed ones, and lives grow by the lives touched |
| Game.NoContactNoChange | JS/gameProject.js:75-81 | in the collision phase, when nothing touches the player, the tick only moves the actors |
| Game.ShieldHolds | JS/gameProject.js:75-81 | a protected tick without a coin contact stays protected |
| Game.UnshieldedHarmLoses | JS/gameProject.js:75-81 | an unshielded tick with a lava or unstomped monster contact, and no coin or shield contact, is lost |
| Game.CollisionsKeepValid | JS/gameProject.js:75-81 | the loop leaves exactly one player and well-formed actors |
| Game.StepPreservesValid | JS/gameProject.js:58-82 | a tick keeps the state advanceable: same level, one player, well-formed actors |
| Game.StepKeepsWonFair | JS/gameProject.js:58-82 | `won` is never reached or kept with a coin present |
| Game.TimeStep | JS/gameProject.js:526 | the step fed to `update` is at most 0.1 s, and it is the elapsed milliseconds over 1000 when at most 100 ms passed |

## Left out

- DOM rendering (`elt`, `DOMDisplay`, `drawGrid`, `drawActors`, `syncState`, `scrollPlayerIntoView`) is browser output with no simulation logic.
- Input capture (`trackKeys`, `trackTouch`) is event listeners. The held directions are a plain `Held` record per source, OR-ed where the code ORs them.
- The frame loop and run controller (`runAnimation`, `runLevel`, `runGame`, `restartGame`) are `requestAnimationFrame`, Promises, timers and `console.log`. Only the clamped time step is modelled (`TimeStep`).
- The shield countdown in `runLevel` mutates `state.status` back to `playing` from a timer, outside `update`. It is part of the run controller.
- `GAME_LEVELS` is imported from `JS/gameLevels.js`, which is not part of this model. Levels are given as text.
- `JS/provaTouch.js` only logs touch positions and has no stateable behaviour.
- Floating point: coordinates are exact reals. Rounding error, NaN and infinities are not modelled.
- `Math.sin` and `Math.cos` are uninterpreted (`Trig`). Orbiting lava, coin, life and shield motion is therefore stated only as far as it does not depend on their values.
- `Math.random()` in `Coin.create` and `Life.create` is replaced by a wobble function of the cell, passed to the parser.
- Levels.Parse: unknown level characters are a precondition (`WellFormedPlan`). The code crashes on them.
- Levels.Parse: unequal row widths are not checked, as in the code. A cell past the end of a short row reads as `undefined` (`None`) in `TileAt`.
- Game.Step: requires exactly one player in the state (`State.Valid`). The code only needs one for the lava check and the monster rules, and would crash without one.
- Game.Update: requires exactly one player, for the same reason as `Step`.
- Motion.UpdateActor: requires a player in the state for monsters, where the code would crash reading `player.pos`.
- The `console.log` in `Life.collide` is output and is left out.
