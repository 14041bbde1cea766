# Collision worker model

A Dafny model of the web worker `app/workers/collisionWorker.ts`. Each frame
the main thread posts the worker a list of falling balls. The worker buckets
the balls into a spatial grid of square cells. It then resolves collisions
between balls of the same cell and of the eight neighbouring cells, and posts
the updated list back.

The model follows the file's own structure:

- `balls.dfy` (module `Balls`): the `Ball` record, the pair key and the
  quantities a collision conserves.
- `grid.dfy` (module `SpatialGrid`): step 1 of `processCollisionsWithGrid`.
  The `Map` of cell keys to ball lists becomes a `Grid`: the cells in
  insertion order, plus a map from each cell to its list of ball slots.
  `BuildGrid` is the loop (lines 40-55). `GridOf` is the value it must
  produce, and `CellOf` is the `Math.floor` division of lines 42-43.
- `resolver.dfy` (module `Resolver`): `checkAndResolveCollision`. It is a
  method over `array<Ball>` that finds both balls by id with `findIndex` and
  writes their new positions and velocities in place. `Resolved` specifies
  it on the array's contents. Its parts: `DistanceSquared` and
  `MinDistance` (lines 114-117); `Collides`, the squared fast reject of
  line 120 and the `distance < minDistance` test of line 126; `FindIndex`
  (lines 128-129); `Displacement`, the angle and the half-overlap move of
  lines 134-136 and 150-153; `V1Final` and `V2Final`, the velocity formulas
  of lines 147-148, with mass `size²` (`Balls.Mass`, lines 139-140);
  `Exchange`, the six writes of lines 156-162.
- `candidates.dfy` (module `Candidates`): the pairs that step 2's loops put in
  front of the `checkedPairs` test, in loop order. Same-cell pairs come first
  (`SamePairs` and `SameRow`, lines 66-67). Then come the neighbour pairs,
  offset by offset: `Columns` for the `nx` loop of line 77, `Column` for the
  `ny` loop of line 78, `Offset` for lines 80-86, `CrossPairs` and
  `CrossRow` for lines 88-89. Cells follow in map order: `CellCandidates`
  is the `forEach` body of lines 62-102 and `PassCandidates` the whole
  `forEach`.
- `pass.dfy` (module `CollisionPass`): step 2 stated without loops. `Dedupe`
  is the `checkedPairs` filter over the candidates: the `has`/`continue`
  tests of lines 68-69 and 90-94 (`Skips`, with `PairKeyOf` and
  `ReversePairKeyOf` for the keys) and the `add` of lines 72 and 97.
  `PassCalls` is the list of pairs that reach `checkAndResolveCollision`
  (lines 71 and 96). `ApplyAll` applies the resolver to each of them in
  turn, against the balls' current state, and `Pass` is the whole of
  lines 37-106. The theorems here say which pairs are resolved,
  that none is resolved twice, and what is conserved.
- `process.dfy` (module `Process`): `processCollisionsWithGrid` as the nested
  loops of the source, over a shared `array<Ball>` (the shallow copy
  `processedBalls`) and a `set` of id pairs (`checkedPairs`). Each loop is
  proved to leave the array and the set as `Replay` prescribes for the
  candidates it has offered. `Replay` is the filter and the resolver taken
  one candidate at a time. The loops carry `Tracks` as a ghost function
  value (`Tracker`), tied to `Tracks` by `IsTracker`. This only keeps the
  verifier from unfolding `Replay` inside every loop body.
- `worker.dfy` (module `Worker`): the `onmessage` handler (lines 21-34).
  `Message` holds the four fields read at line 22, `BallsOrEmpty` is
  `balls || []` (line 25) and `CellSizeOrDefault` is `gridCellSize || 200`
  (line 30).

A ball's identity in the grid is its slot in the array. `[...balls]` copies
references, so slot `k` of `processedBalls` is the same object as
`balls[k]`. The grid's lists therefore hold slot numbers. A call
`checkAndResolveCollision(cellBalls[i], …)` passes the current value of
that slot. `Math.sqrt`, `Math.atan2`, `Math.sin` and `Math.cos` are the
fields of a `MathLib` value passed in from outside. No property of them is
assumed, so every theorem holds whatever they compute. Numbers are Dafny
`real`s.

Two behaviours of the code that a reader might not expect, both kept by the
model:

- Zero-distance pairs: a natural guard would skip a pair at distance 0,
  whose collision normal is undefined. The code has none, so such a pair
  passes both tests and is resolved like any other (`Collides`).
- `distance < minDistance`: the code tests this after the squared test. The
  model keeps both tests, since with an inexact square root they can
  disagree (`ExactRootCollision` shows that with an exact root the second
  test only adds `minDistance > 0`).

## Model

| member | source | states |
|---|---|---|
| Worker.OnMessage | app/workers/collisionWorker.ts:21-34 | With no balls it posts `[]`. With one ball it posts the balls as received. Otherwise it posts `Pass` over them, using the cell size or 200. The posted list keeps every ball's slot, id, size, colour, rotation and bounce count. With distinct ids it also has the same sums of x, y, momentum and energy. |
| Worker.CellSizeOrDefault | app/workers/collisionWorker.ts:30 | `gridCellSize \|\| 200`: a missing or zero size becomes 200, any other size is kept, and the result is never 0. |
| Worker.FewBallsPassUnchanged | app/workers/collisionWorker.ts:24-27 | For zero or one ball the grid pass makes no call and returns its input. So the early return posts what the pass would have produced. |
| Process.ProcessCollisionsWithGrid | app/workers/collisionWorker.ts:37-106 | The loops leave `processedBalls` equal to `Pass(balls, gridCellSize, env)`. |
| Process.VisitCell | app/workers/collisionWorker.ts:62-103 | The body of the `forEach` for one cell extends the tracked history by exactly that cell's candidates: same-cell pairs first, then neighbour pairs. |
| Process.VisitSameCell | app/workers/collisionWorker.ts:66-74 | The two same-cell loops offer the cell's pairs `(i, j)`, `i < j`, in loop order. |
| Process.VisitSameRow | app/workers/collisionWorker.ts:67-73 | The inner same-cell loop offers `(i, j)` for `j` from `i + 1` up, in order. |
| Process.VisitSamePair | app/workers/collisionWorker.ts:68-72 | A same-cell pair is skipped when its key is in `checkedPairs`. Otherwise it is resolved and its key added, as `Replay` prescribes. |
| Process.VisitNeighbours | app/workers/collisionWorker.ts:77-102 | The `nx` loop offers the neighbour pairs of the columns `-1..1`, in order. |
| Process.VisitColumn | app/workers/collisionWorker.ts:78-101 | The `ny` loop offers the neighbour pairs of one column, in order. |
| Process.VisitOffset | app/workers/collisionWorker.ts:80-100 | Offset `(0, 0)` offers nothing. So does a neighbour cell absent from the grid. Any other offset offers the cross pairs with that cell. |
| Process.VisitNeighbour | app/workers/collisionWorker.ts:88-99 | The `ball1`/`ball2` loops offer every pair of a ball of this cell and a ball of the neighbour cell, in order. |
| Process.VisitCrossRow | app/workers/collisionWorker.ts:89-98 | The inner `ball2` loop, for one `ball1`. |
| Process.VisitCrossPair | app/workers/collisionWorker.ts:90-97 | A cross pair is skipped when its key or its reverse key is in `checkedPairs`. Otherwise it is resolved and its key recorded. |
| Process.TracksSkip | app/workers/collisionWorker.ts:68-69 | A skipped candidate changes neither the balls nor `checkedPairs`. |
| Process.TracksResolve | app/workers/collisionWorker.ts:71-72 | A candidate that is not skipped applies the resolver to the current balls and adds its key. |
| Process.ReplayIsFilteredCalls | app/workers/collisionWorker.ts:62-103 | Offering candidates one at a time gives the same set and the same balls as the whole `checkedPairs` filter followed by the resolver calls it lets through. |
| Process.ReplayKeepsRoster | app/workers/collisionWorker.ts:62-103 | However many candidates are offered, every slot keeps its ball's id, size, colour, rotation and bounce count. |
| Process.TracksPass | app/workers/collisionWorker.ts:62-105 | Once every candidate of the grid has been offered, the balls are `Pass`. |
| SpatialGrid.BuildGrid | app/workers/collisionWorker.ts:40-55 | The loop builds exactly `GridOf(balls, cs)`. |
| SpatialGrid.GridPlacesEachBallOnce | app/workers/collisionWorker.ts:40-55 | Each ball is in the list of its floor-division cell exactly once. It is in no other cell's list. |
| SpatialGrid.GridOrderIsFirstSeen | app/workers/collisionWorker.ts:49-53 | The map iterates its cells in the order their first balls appear. A cell's first slot holds a ball of that cell, and no earlier ball lies in it. |
| SpatialGrid.GridForIsGridOfKeys | app/workers/collisionWorker.ts:40-55 | The order lists each key of the map once. Every list is non-empty and ascending. Slot `k` is listed under its own cell and under no other. The cells are ordered by their first balls. |
| SpatialGrid.InsertFirstSeenOrder | app/workers/collisionWorker.ts:49-54 | One step of the build loop keeps the map's order equal to the order of first appearance. |
| Candidates.SamePairsMember | app/workers/collisionWorker.ts:66-67 | The same-cell loops offer a pair iff both slots are in the cell's list and the first is the earlier ball. |
| Candidates.CrossPairsMember | app/workers/collisionWorker.ts:88-89 | The neighbour loops offer a pair iff the first slot is in this cell's list and the second is in the neighbour's. |
| Candidates.OffsetMember | app/workers/collisionWorker.ts:80-89 | An offset offers a cross pair iff the second ball lies in that neighbour cell and the neighbour is not the cell itself. |
| Candidates.ColumnsMember | app/workers/collisionWorker.ts:77-99 | The `nx`/`ny` loops offer a cross pair iff the second ball lies in one of the eight neighbour cells scanned so far. |
| Candidates.CellMember | app/workers/collisionWorker.ts:62-102 | A cell's candidates are exactly the pairs whose first ball is in that cell: either an earlier/later pair of the same cell, or a pair with a ball of a different, adjacent cell. |
| Candidates.PassCandidatesAreOffered | app/workers/collisionWorker.ts:61-103 | Over all cells, a pair is a candidate iff it is such a same-cell or adjacent-cell pair. |
| CollisionPass.DedupeKeys | app/workers/collisionWorker.ts:66-99 | `checkedPairs` ends up holding exactly the keys of the pairs handed to the resolver. |
| CollisionPass.CandidateIsCovered | app/workers/collisionWorker.ts:66-99 | Every candidate is covered by a call with its key. For a cross pair, a call with its reverse key also covers it. |
| CollisionPass.CallsAreFresh | app/workers/collisionWorker.ts:66-99 | No call repeats the key of an earlier call. No cross call carries the reverse of an earlier call's key. |
| CollisionPass.PassResolvesEachAdjacentPairOnce | app/workers/collisionWorker.ts:61-103 | With distinct ids, two balls reach the resolver together iff their cells are equal or adjacent, in either order. They do so at most once. |
| CollisionPass.PassCallsAreOffered | app/workers/collisionWorker.ts:61-103 | Every call joins two different balls of the same cell (the earlier first) or of two adjacent cells. |
| CollisionPass.ApplyAllKeepsRoster | app/workers/collisionWorker.ts:156-162 | Any sequence of resolver calls keeps every slot's id, size, colour, rotation and bounce count. |
| CollisionPass.ApplyAllConserves | app/workers/collisionWorker.ts:139-162 | With distinct ids, calls on two different slots keep the sums of x, y, momentum and energy over the whole list. |
| CollisionPass.ResolvedConserves | app/workers/collisionWorker.ts:139-162 | With distinct ids, one resolver call keeps those four sums. |
| CollisionPass.PassConserves | app/workers/collisionWorker.ts:37-106 | With distinct ids, the whole pass keeps the sums of x, y, momentum (`size² · velocity`) and kinetic energy. |
| CollisionPass.Pass | app/workers/collisionWorker.ts:37-106 | The pass keeps every ball in its slot with its bookkeeping fields. |
| Resolver.CheckAndResolveCollision | app/workers/collisionWorker.ts:109-164 | The array afterwards is `Resolved(ball1, ball2, old contents)`. |
| Resolver.Resolved | app/workers/collisionWorker.ts:114-131 | Only the two found slots can change, and no bookkeeping field does. Nothing changes when the squared test rejects, when `distance < minDistance` fails, or when either id is not found. |
| Resolver.ResolvedAt | app/workers/collisionWorker.ts:133-162 | On a collision with both ids found at different slots, `idx1` moves by `-(moveX, moveY)` and takes `v1Final`, and `idx2` moves by `+(moveX, moveY)` and takes `v2Final`. The total mass is positive. |
| Resolver.ResolvedWrites | app/workers/collisionWorker.ts:133-162 | On a collision the result is the six writes with the computed displacement and velocities. This holds even when both ids are found at one slot. |
| Resolver.ResolvedDisplacement | app/workers/collisionWorker.ts:150-162 | The two balls move by equal and opposite amounts, so the sums of their x and of their y are kept. |
| Resolver.ResolvedExchange | app/workers/collisionWorker.ts:139-148 | The new velocities keep momentum and kinetic energy, with mass `size²`. Equal sizes swap the velocities. |
| Resolver.ResolvedVelocities | app/workers/collisionWorker.ts:143-162 | The written velocities are the elastic-collision formulas. |
| Resolver.MomentumExchange | app/workers/collisionWorker.ts:147-148 | `m1·v1Final + m2·v2Final = m1·v1 + m2·v2`. |
| Resolver.EnergyExchange | app/workers/collisionWorker.ts:147-148 | `m1·v1Final² + m2·v2Final² = m1·v1² + m2·v2²`. |
| Resolver.EqualMassesSwap | app/workers/collisionWorker.ts:147-148 | With equal masses the two velocities are exchanged. |
| Resolver.ImpulseForm | app/workers/collisionWorker.ts:147-148 | The new velocities are the old ones plus opposite impulses `m2·t` and `-m1·t`. |
| Resolver.ExchangeLaws | app/workers/collisionWorker.ts:147-148 | The formulas keep momentum and energy, and swap velocities for equal masses. |
| Resolver.CollisionHasMass | app/workers/collisionWorker.ts:114-147 | A pair that passes the squared test has positive total mass, so the division by `mass1 + mass2` is defined. |
| Resolver.ExactRootCollision | app/workers/collisionWorker.ts:119-126 | If `sqrt` were exact, both guards together would mean (squared test) and `minDistance > 0`. |
| Resolver.FindIndex | app/workers/collisionWorker.ts:128-129 | The result is -1 iff no slot holds the id. Otherwise it is the first slot that holds it. |
| Resolver.FindIndexIn | app/workers/collisionWorker.ts:128-129 | The linear scan returns `FindIndex` of the array's contents. |
| Resolver.FindIndexOfDistinct | app/workers/collisionWorker.ts:128-129 | With distinct ids, looking up ball `k`'s id finds slot `k`. |
| Resolver.ApplyExchange | app/workers/collisionWorker.ts:156-162 | The six in-place writes turn the array into `Exchange` of its old contents. |

## Left out

- `self.postMessage` and the message channel: the handler returns the posted
  list instead of sending it.
- Floating point: coordinates, sizes and velocities are exact reals. Rounding,
  NaN and infinities are not modelled, and the conservation theorems hold for
  exact arithmetic only.
- `Math.sqrt`, `Math.atan2`, `Math.sin`, `Math.cos`: passed in as arbitrary
  functions. So the model does not prove that two resolved balls end at
  distance `minDistance`. That would need the trigonometric identities.
- `windowWidth` and `windowHeight` are read from the message and not used,
  as in the code.
- The string keys `"${cellX},${cellY}"` and `"${id1}-${id2}"` are modelled as
  integer pairs. Ball ids are modelled as integers; non-integer ids are not
  modelled.
- Process.ProcessCollisionsWithGrid: requires a non-zero cell size. In the
  code a size of 0 would put every ball in an `Infinity`/`NaN` cell. The only
  caller replaces 0 by 200, so the case cannot arise from the handler.
- Worker.CellSizeOrDefault: a NaN `gridCellSize` (falsy in JavaScript) is
  modelled as an absent one. Non-number values in the message are not
  modelled.
- Object aliasing: an input list holding the same ball object twice is not
  modelled. The model assumes each slot holds its own object.
- Duplicate ids are kept as the code has them: `findIndex` finds the first
  slot with the id. The theorems on which pairs meet and on conservation
  assume distinct ids.
