# Fireworks and image flow, modelled in Dafny

This project models the bookkeeping core of `js/index.js`: a full-screen canvas
fireworks show and, underneath it, an image drawn by rising particles.

**Fireworks.** Every frame, `loop` does the following:

- raises the global hue;
- walks the `fireworks` array backwards and calls `update(i)` on each entry;
- walks the `particles` array backwards the same way;
- then advances two launch counters.

A firework flies from the bottom middle of the canvas towards a target. It
accelerates as it goes and keeps a three-point trail. On the update where it
would reach its target, it appends 30 particles at the target and splices
itself out of `fireworks`. A particle keeps a five-point trail and loses
`decay` alpha per update. It splices itself out of `particles` on the first
update where its alpha is at most its decay. The automatic launch counter
fires while the mouse is up. The pointer limiter fires, towards the mouse
position, while the mouse is down.

**Image flow.** The image `load` handler samples the picture's RGBA pixels
every 5 pixels into a grid of `[colour, brightness]` cells. It then animates
3000 particles. Each particle looks up the cell under it to get its speed and
its fill. It rises through the picture and starts again at the bottom edge
once it reaches the top.

The modules:

- `Trail`: the `pop()`/`unshift()` trail buffer as a sliding window.
- `Helpers`: `random`, `Math.random()` and squared distances.
- `Fade`: the alpha countdown in closed form.
- `Counters`: the two launch counters as a state machine over a run of frames.
- `Entities`: the two entity kinds as values, with the pure step of one
  `update` each, the `Keep` filter of a splicing pass and the explosion
  bookkeeping.
- `Show`: the `Firework`, `Particle` and `World` classes. Their methods mutate
  fields and arrays in place. Each method is proved to follow the `Entities`
  steps.
- `ImageFlow`: the grid sampler, the grid particle class and the animation
  pass.

**How the floating-point parts are represented.**

- Numbers are `real`.
- The angle a firework is launched at is held as its cosine and sine. These are
  values in [-1, 1] chosen when the firework is created.
- `calculateDistance` is compared through squared distances. `Math.sqrt` is
  monotone on non-negative numbers, so `distanceTraveled >= distanceToTarget`
  means the same thing either way.
- `Math.sqrt` in the brightness and `Math.cos` in the image flow are function
  parameters.
- A `Math.random()` value is either a parameter in [0, 1) or chosen by
  `Helpers.MathRandom`.

## Model

| member | source | states |
|---|---|---|
| Trail.Repeat | js/index.js:68-73 | the initial trail holds `count` copies of the start point (3 for a firework, 5 for a particle) |
| Trail.Shift | js/index.js:84-87 | one `pop()`+`unshift()` keeps the length, puts the pre-update position at index 0 and moves every other entry one slot towards the end |
| Trail.ShiftAllWindow | js/index.js:159-162 | after any number of updates the trail is the most recent positions, newest first, followed by the old trail, cut to the fixed length |
| Trail.OldestEntry | js/index.js:121 | the entry `draw` reads (the last one) is the position from `length` updates ago, or the old trail's entry when fewer updates have happened |
| Trail.SpawnPointLingers | js/index.js:137-141 | while fewer updates than the trail length have happened, the oldest entry is still the spawn point |
| Helpers.MathRandom | js/index.js:43 | a `Math.random()` value lies in [0, 1) |
| Helpers.Random | js/index.js:42-44 | `random(min, max)` lies in [min, max], strictly below `max` when `min < max` |
| Helpers.Scaled | js/index.js:342 | `Math.random() * n` lies in [0, n) for a positive `n` |
| Helpers.DistanceSquared | js/index.js:47-51 | the squared distance is non-negative |
| Helpers.SquaresPreserveOrder | js/index.js:106 | comparing two distances is the same as comparing their squares, so the arrival test may compare squared distances |
| Fade.AlphaClosedForm | js/index.js:152 | after n updates alpha is exactly 1 - n·decay |
| Fade.RemovedFromLifetimeOn | js/index.js:169-174 | update n removes the particle exactly when n reaches the particle's lifetime |
| Fade.FirstRemoval | js/index.js:169-174 | update n is the removing update, with no earlier update removing, exactly when n is the lifetime |
| Fade.LifetimeRange | js/index.js:154 | with `decay` in [0.015, 0.03) a particle survives 33 to 66 updates |
| Counters.Advance | js/index.js:230-238 | a counter launches exactly when it is at its total and its gate is open; launching resets it to 0; below the total it counts up; a closed gate holds it; it stays in [0, total] |
| Counters.OpenSchedule | js/index.js:241-249 | for the two totals the source uses (80 and 5): with the gate open on every frame, frame j launches exactly when (t + j + 1) is a multiple of total + 1, and the counter is that remainder |
| Counters.ClosedSaturates | js/index.js:230-238 | with the gate closed the counter climbs to its total and stays there; nothing is launched |
| Counters.LaunchOnReopen | js/index.js:230-235 | after enough closed frames to reach the total, the first open frame launches and resets the counter |
| Counters.AutoLaunchSchedule | js/index.js:27-28 | with the mouse never down, frame j launches a firework exactly when j + 1 is a multiple of 81; the timer stays in [0, 80] |
| Counters.AutoLaunchHeld | js/index.js:230-233 | while the mouse is held with the timer at 80, the timer stays at 80 and nothing is launched |
| Counters.PointerLaunchSchedule | js/index.js:24-25 | with the mouse held from the start, frame j launches exactly when j + 1 is a multiple of 6; the limiter stays in [0, 5] |
| Counters.PointerLaunchAfterRelease | js/index.js:241-249 | after the mouse has been up long enough for the limiter to reach 5, the first held frame launches |
| Entities.LaunchedIsValid | js/index.js:54-80 | a newly launched firework satisfies the firework invariant |
| Entities.NextRadius | js/index.js:89-94 | the pulse either restarts at 1 or grows by 0.3, and it keeps the target radius within [1, 8.3) |
| Entities.Arrives | js/index.js:96-106 | the arrival test: after the speed is multiplied by the acceleration, the squared distance from the launch point to the moved position is at least the squared distance to the target |
| Entities.ArrivalAsWritten | js/index.js:103-106 | for any square root function, comparing the two `calculateDistance` results as the source does gives the same answer as `Arrives` |
| Entities.FireworkStep | js/index.js:83-115 | one firework update keeps the invariant, and the firework arrives exactly when the distance travelled reaches the distance to the target |
| Entities.RadiusCycle | js/index.js:89-94 | starting at 1, the target radius after n updates is 1 + 0.3·(n mod 25), always within [1, 8.2] |
| Entities.ParticleStep | js/index.js:158-175 | one particle update keeps the invariant, and the particle is removed exactly when its decremented alpha is at most its decay |
| Entities.Fades | js/index.js:169-172 | the removal test on the state before the update: alpha minus decay is at most decay; `ParticleStep` proves this is the source's test on the decremented alpha |
| Entities.ParticleSteps | js/index.js:158-175 | any number of particle updates keeps the invariant |
| Entities.SpawnedFade | js/index.js:150-174 | for a newly created particle, alpha after n updates is the closed-form countdown, decay never changes, and update n removes it exactly when `Fade` says so |
| Entities.SpawnedSurvivesFirstUpdate | js/index.js:152-154 | a newly created particle is never removed by its first update |
| Entities.KeepMembers | js/index.js:216-227 | an entity survives a splicing pass exactly when it was present at the start and was not removed |
| Entities.KeepConcat | js/index.js:223-227 | the survivors of a pass over old plus new particles are the old survivors followed by the new ones |
| Entities.KeepAll | js/index.js:216-220 | a pass in which nothing is removed leaves the array unchanged |
| Entities.ExplosionTargetsMembers | js/index.js:105-109 | a point is an explosion target of a pass exactly when some firework present at the start arrives and targets it |
| Entities.SpawnedAtIndex | js/index.js:188-194 | the particles spawned by a pass number 30 per arriving firework, and particle k was created at the target of arrival k / 30 |
| Show.Firework.constructor | js/index.js:54-80 | `new Firework(sx, sy, tx, ty)` stands at its launch point with a trail of 3 copies of it, speed 2, acceleration 1.05, brightness in [50, 70), target radius 1 and the squared launch distance |
| Show.Firework.Advance | js/index.js:83-106 | the fields change exactly as `FireworkStep` says, and the result is the arrival test |
| Show.Firework.Update | js/index.js:83-115 | the firework steps; when it arrives it is spliced out at its index and 30 new particles created at its target are appended; otherwise neither array changes |
| Show.Particle.constructor | js/index.js:133-155 | `new Particle(x, y)` stands at (x, y) with a trail of 5 copies of it, alpha 1, decay in [0.015, 0.03), speed in [1, 10), hue within 20 of the global hue |
| Show.Particle.Update | js/index.js:158-175 | the particle steps, and it is spliced out at its index exactly when it fades |
| Show.RemoveAtDistinct | js/index.js:109 | splicing one entry out of an array of distinct objects leaves them distinct |
| Show.World.constructor | js/index.js:12-33 | empty arrays, hue 120, both counters 0, mouse up |
| Show.World.CreateParticles | js/index.js:188-194 | exactly 30 new particles, all created at (x, y) with the current hue, are appended and the existing ones are untouched |
| Show.World.VisitFirework | js/index.js:217-219 | one iteration of the firework loop steps firework i, removes it exactly when it arrives, and appends its explosion |
| Show.World.UpdateFireworks | js/index.js:215-220 | the reverse loop steps every firework present at the start exactly once; the survivors are exactly the non-arriving ones, in their old order; 30 particles per arrival are appended, at the targets in loop order |
| Show.World.VisitParticle | js/index.js:224-226 | one iteration of the particle loop steps particle i and removes it exactly when it fades |
| Show.World.UpdateParticles | js/index.js:222-227 | the reverse loop steps every particle present at the start exactly once; the survivors are exactly the non-fading ones, in their old order |
| Show.World.PushFirework | js/index.js:233 | the firework is appended to `fireworks` |
| Show.World.AutoLaunch | js/index.js:229-238 | the timer moves as `Counters.Advance` with the gate open while the mouse is up; when it launches, one new firework from (cw/2, ch) to a target in [0, cw] × [0, ch/2] is appended |
| Show.World.PointerLaunch | js/index.js:240-249 | the limiter moves as `Counters.Advance` with the gate open while the mouse is down; when it launches, one new firework from (cw/2, ch) to (mx, my) is appended |
| Show.World.LaunchFireworks | js/index.js:229-249 | both counters move, and the automatic and pointer launches never happen in the same frame |
| Show.World.FireworkPhase | js/index.js:201-220 | the hue rises by 0.5 before the firework loop, so explosions of this frame use the new hue |
| Show.World.Tick | js/index.js:197-250 | one frame: hue + 0.5; every firework present at the start steps once and arrivals are removed; every particle present after the firework loop steps once, including the particles created by this frame's explosions, and faded ones are removed; then the counters move; at most one firework is launched, never both kinds in one frame, and it is new; an automatic launch flies from (cw/2, ch) to a target in [0, cw] × [0, ch/2], a pointer launch from (cw/2, ch) to (mx, my) |
| ImageFlow.Samples | js/index.js:323-325 | the number of loop positions 0, 5, 10, ... below n |
| ImageFlow.PixelInBounds | js/index.js:326-328 | every sampled offset `(y*4*width)+(x*4)+c`, c in {0, 1, 2}, lies inside the pixel data |
| ImageFlow.Brightness | js/index.js:409-415 | `calculateBrightness(r, g, b) / 100`: the square root of 0.299r² + 0.587g² + 0.114b², divided by 100, with the square root a parameter |
| ImageFlow.GreyBrightness | js/index.js:409-415 | the weights 0.299, 0.587 and 0.114 of `calculateBrightness` sum to 1, so a grey pixel (v, v, v) has brightness sqrt(v·v)/100 |
| ImageFlow.SampleRow | js/index.js:324-336 | the row built for pixel row y has one cell per sampled column, and cell k holds the colour and brightness / 100 of pixel (5k, y) |
| ImageFlow.BuildGrid | js/index.js:322-338 | the grid has one row per sampled pixel row, and cell [r][k] holds the colour and brightness of pixel (5k, 5r) |
| ImageFlow.CanvasGridSize | js/index.js:310-316 | on the 459 by 459 canvas the grid has 92 rows of 92 cells |
| ImageFlow.CellIndex | js/index.js:353-354 | `Math.floor(v / 5)` is the index i of the 5-pixel band holding v: 5i <= v < 5i + 5 |
| ImageFlow.SpeedAt | js/index.js:355-359 | the speed lookup: the brightness of cell [p1][p2] when both indices hit a cell, else the old speed (characterised on the canvas grid by `LookupByBlock`) |
| ImageFlow.FillAt | js/index.js:372-381 | the fill lookup: the cell's colour when there is a cell, black when the row exists but the column does not, white when the row is missing (characterised on the canvas grid by `LookupByBlock`) |
| ImageFlow.LookupByBlock | js/index.js:353-359 | for a point (x, y), the looked-up cell exists exactly when x and y are both in [0, 460), and it is the cell of the 5 by 5 block the point lies in; the speed lookup gives that block's brightness and otherwise keeps the old speed; the fill lookup gives the block's colour, black when only the row exists, and white when the row is missing |
| ImageFlow.GridParticleStep | js/index.js:352-367 | one grid particle update: the speed comes from the cell under the particle when there is one and is kept otherwise; the particle turns by speed/10; it rises and drifts, or restarts on the bottom edge at a column in [0, 459) when it reaches the top; afterwards y > 0 |
| ImageFlow.GridParticle.constructor | js/index.js:341-351 | a new grid particle stands on the bottom edge at a column in [0, 459), with speed 0.7, velocity in [0, 0.4), size in [0.5, 2.5) and angle 0 |
| ImageFlow.GridParticle.Update | js/index.js:352-367 | the fields change exactly as `GridParticleStep` says |
| ImageFlow.GridParticle.FillStyle | js/index.js:372-381 | the fill `draw` uses is `FillAt` at the cell indices stored by the latest `update` |
| ImageFlow.FillAfterUpdate | js/index.js:353-354 | after an update, the particle is drawn with the colour of the 5 by 5 block it stood in before it moved; the fill is black when only that block's row is on the grid and white when the row is not |
| ImageFlow.Flow.constructor | js/index.js:388-392 | the grid is the sampled grid of the pixel data, and there are exactly 3000 distinct new particles, each freshly released |
| ImageFlow.Flow.AnimateStep | js/index.js:400-401 | one iteration of the animation loop updates particle i as `GridParticleStep` with its own random value; the particles before i stay updated and those after i keep their state |
| ImageFlow.Flow.Animate | js/index.js:395-404 | each particle is updated once, in order, as `GridParticleStep` with its own random value, and all end strictly below the top edge |

## Left out

- All drawing is left out: `draw` methods, `ctx` calls, composite operations, `globalAlpha` and the style strings. `ImageFlow.FillAt` covers only the lookup that chooses the grid particle's fill. A colour string `'rgb(r,g,b)'` is its three channels.
- The `requestAnimFrame` shim and `requestAnimationFrame` scheduling are left out. One frame is one call of `Show.World.Tick` or `ImageFlow.Flow.Animate`.
- The gift-box reveal chain in `window.onload` (js/index.js:252-281) is not part of this model. It only toggles classes on timers.
- The YouTube iframe and the embedded image in `reveal` are not part of this model. `drawImage`/`getImageData` decoding is an input: the pixel data is a sequence of length 4·459·459.
- `index.js` has no mouse handlers. `mousedown`, `mx` and `my` are fields of `Show.World`. The constructor sets them, and no method writes them after construction.
- `Show.World.constructor`: `mx` and `my` start at 0.0. The source declares them without a value, so they are `undefined` until a mouse handler sets them.
- IEEE floating point is modelled as exact `real` arithmetic. Rounding, NaN and infinities are not captured.
- `Math.cos`, `Math.sin`, `Math.atan2` and `Math.sqrt` are not computed.
  - A firework's heading is any cosine/sine pair in [-1, 1].
  - The image flow's cosine and square root are arbitrary function parameters.
- `Helpers.MathRandom` and `Helpers.Heading` make their choice with a `:|` such-that, so they describe the allowed range rather than a generator. Repeated calls are not independent samples.
- `Show.World.Tick`: the fade flags of the particles spawned in the frame are their states at spawn time. The contract relates them to the particles created by this frame's explosions through `SpawnedAt`; the identity of each spawned object is stated in `Show.World.UpdateFireworks`.
- `Show.World.UpdateFireworks`: it states that the spawned particles are fresh and appended in loop order. It does not state which spawned object belongs to which firework beyond the order of `ExplosionTargets`.
- `ImageFlow.Flow.constructor`: `console.log(grid)` is left out.

A note on the launch counters. The comments at js/index.js:23 and js/index.js:26 speak of one launch per 5 and per 80 loop ticks. The code as written counts up to the total and launches on the following tick. That is one launch per 6 and per 81 ticks, as `Counters.PointerLaunchSchedule` and `Counters.AutoLaunchSchedule` state. The model follows the code.
