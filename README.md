# Drawing-to-command pipeline of the robot drawer app

The app lets a user draw strokes on a 500 x 500 pixel canvas. When the user presses
Send, it turns every stroke into motion commands for a small drawing robot on a
100 cm x 100 cm ground and writes them to the robot over Bluetooth Low Energy. This
project models the sequential core of that pipeline in `App.tsx` and proves what each
stage promises:

- **Canvas mapping** (`canvas_mapping.dfy`, on top of `numerics.dfy`). A touch point
  becomes a ground point: x is scaled by 100/500, y is flipped and scaled, and both
  are rounded to two decimals by `toFixed(2)`. `insideCanvas` is the bounds test the
  touch handlers apply.
- **Path refiner** (`refinement.dfy`). `refinePath` keeps the first point. After that
  it keeps a point only when the point is at least `threshold` away from the last
  kept point on the x axis or on the y axis.
- **Commands** (`commands.dfy`). The four command tags, and the list shapes the later
  stages talk about.
- **Command compiler** (`compiler.dfy`). `pathToRobotCommands` walks consecutive
  point pairs from a heading of 90 degrees. It skips pairs shorter than 0.5 cm and
  normalises the heading difference with two `while` loops. It then emits at most one
  turn and exactly one `move_forward` per pair.
- **Command optimiser** (`optimizer.dfy`). `optimizeCommands` merges each maximal run
  of same-type commands into one command whose value is the run's sum. It updates the
  input's command objects in place.
- **Transport chunking** (`transport.dfy`). The serialised payload is cut into slices
  of at most 180 characters. A receiver that concatenates the slices in order gets
  the payload back.
- **The Send action** (`pipeline.dfy`). `sendDrawing` runs the stages in sequence.

The data model follows `App.tsx`:

- `Commands.CommandType` and `Commands.RobotCommand` are the `RobotCommand` type of
  `App.tsx:107-110`: one of four tags and a numeric value.
- `CanvasMapping.CanvasPoint` is a recorded touch point, and `CanvasMapping.RealPoint` is
  the `[number, number]` ground point of `App.tsx:66-71`.
- `Compiler.MathLib` stands for the two floating-point leaves the compiler calls:
  `Math.sqrt` at `App.tsx:121` and `Math.atan2(dy, dx) * (180 / Math.PI)` at
  `App.tsx:123`.

The imperative parts of `App.tsx` are methods with loops:

- `Refinement.RefinePath`
- `Compiler.PathToRobotCommands`, including its two normalising `while` loops
- `Optimizer.OptimizeCommands`, over an array whose slots it updates
- `Transport.ChunkPayload`, with the `i += 180` loop
- `Pipeline.SendDrawing`

Each method is proved equal to a specification function: `Refine`, `Compile`,
`Optimize`/`InPlace` and `Slices`. The properties are proved about those functions.

Numbers are exact reals. `Math.round` is floor(x + 1/2), and `toFixed(2)` is rounding
to the nearest hundredth with ties away from zero. `Math.sqrt` and the degree-valued
`Math.atan2` are the two fields of a `MathLib` value passed in to the compiler. Only
the concrete-scenario lemmas say anything about what they return.

The heading difference ends in [-180, 180], both ends included: the loops at
`App.tsx:125-126` stop at 180 and at -180, so a difference of exactly -180 is left
alone and becomes a 180-degree right turn (`Compiler.Normalize`, `Compiler.HalfTurnIsRight`).

## Model

| member | source | states |
|---|---|---|
| Numerics.Abs | App.tsx:99-100 | `Math.abs`: the result is non-negative and is x or -x |
| Numerics.Round | App.tsx:129 | `Math.round`: the result is an integer within half a unit of x, x - 1/2 < n <= x + 1/2 |
| Numerics.ToFixed2 | App.tsx:67-68 | `parseFloat(x.toFixed(2))`: the result has two decimals, is within 0.005 of x, and is non-negative when x is |
| Numerics.ToFixed2Exact | App.tsx:67-68 | a value that already has two decimals is left unchanged by rounding to two decimals |
| Numerics.ToFixed2Idempotent | App.tsx:67-68 | rounding to two decimals twice is rounding once |
| CanvasMapping.InsideCanvas | App.tsx:44-45 | `insideCanvas`: x and y both lie in [0, 500], edges included. No contract of its own; what it guarantees downstream is `CanvasMapping.InsideCanvasOnGround` |
| CanvasMapping.ToRealWorld | App.tsx:66-71 | a canvas point maps to ground coordinates within 0.005 cm of x * 100/500 and (500 - y) * 100/500, each with two decimals |
| CanvasMapping.RealWorldPath | App.tsx:66-71 | one stroke mapped point by point, in order: as many points as the stroke, each coordinate with two decimals |
| CanvasMapping.RealWorldPaths | App.tsx:249-255 | `getRealWorldPaths`: every stroke of the drawing mapped, one mapped path per stroke |
| CanvasMapping.InsideCanvasOnGround | App.tsx:44-45 | every point that passes `insideCanvas` maps onto the 100 cm x 100 cm ground square |
| CanvasMapping.YAxisFlipped | App.tsx:249-255 | the y axis is flipped: the canvas's top edge maps to y = 100 cm and its bottom edge to y = 0 |
| CanvasMapping.MappedPointsStable | App.tsx:249-255 | mapped coordinates are already two-decimal values, so rounding them again changes nothing |
| Refinement.Near | App.tsx:99-101 | the drop test of `refinePath`: both axis differences from the last kept point are below `threshold`. No contract of its own; `Refinement.RefineDropsOnlyNear`, `Refinement.RefineSpaced` and `Refinement.DiagonalStepDropped` state what it does to a path |
| Refinement.Refine | App.tsx:93-105 | the refined path is no longer than the input, is empty exactly when the input is, and starts with the input's first point |
| Refinement.RefinePath | App.tsx:93-105 | the loop returns exactly `Refine(path, threshold)`, the fold that keeps a point unless it is Near the last kept point |
| Refinement.RefineSelects | App.tsx:94-104 | the refined path is an order-preserving selection of the input: kept point k is input point idx[k], the positions strictly increase, and the first is 0 |
| Refinement.RefineDropsOnlyNear | App.tsx:97-102 | every dropped point is less than `threshold` away on both axes from the last point kept before it |
| Refinement.RefineSpaced | App.tsx:97-102 | every kept point after the first is at least `threshold` away from the previous kept point on x or on y |
| Refinement.RefineKeepsSpacedPath | App.tsx:97-102 | a path whose consecutive points are all at least `threshold` apart on some axis is its own refinement |
| Refinement.RefineIdempotent | App.tsx:97-102 | refining a refined path with the same threshold returns it unchanged |
| Refinement.DiagonalStepDropped | App.tsx:99-101 | the test is per axis, not Euclidean: a diagonal step of 2.9 cm on each axis (about 4.1 cm long) is dropped with threshold 3 |
| Commands.WellFormedNoAdjacentTurns | App.tsx:127-135 | in a well-formed list (every turn followed by a `move_forward`) no two turns are adjacent |
| Commands.WellFormedAppend | App.tsx:116-136 | concatenating the well-formed command lists of successive pairs gives a well-formed list |
| Commands.ValuesInRangeAppend | App.tsx:116-136 | concatenating lists whose moves are at least 0.5 and whose turns are 5 to 180 keeps those bounds |
| Compiler.ReduceAbove | App.tsx:125 | the first loop, `while (angleDiff > 180) angleDiff -= 360`: it ends at or below 180, and a value above -180 stays above -180 |
| Compiler.RaiseBelow | App.tsx:126 | the second loop, `while (angleDiff < -180) angleDiff += 360`: it ends at or above -180, and a value at or below 180 stays at or below 180 |
| Compiler.Normalize | App.tsx:124-126 | both loops in turn: the difference always ends in [-180, 180], both ends included |
| Compiler.ReduceAboveSpec | App.tsx:125 | the first loop changes the difference by a whole number of turns |
| Compiler.RaiseBelowSpec | App.tsx:126 | the second loop changes the difference by a whole number of turns |
| Compiler.NormalizeSpec | App.tsx:124-126 | after both loops the difference differs from `targetAngle - currentAngle` by a multiple of 360, and is unchanged if it was already in [-180, 180] |
| Compiler.HalfTurnIsRight | App.tsx:125-131 | a difference of exactly -180 stays -180 and is emitted as `turn_right` 180 |
| Compiler.Distance | App.tsx:121 | the pair's length, `Math.sqrt(dx * dx + dy * dy)`, through the `sqrt` field of `Compiler.MathLib`. No contract of its own: nothing is assumed about `Math.sqrt` |
| Compiler.Direction | App.tsx:123 | the pair's direction in degrees, `Math.atan2(dy, dx) * (180 / Math.PI)`, through the `atan2Deg` field of `Compiler.MathLib`. No contract of its own: nothing is assumed about `Math.atan2` |
| Compiler.LongPair | App.tsx:122 | the pair is driven: the negation of the skip test `distance < 0.5`. No contract of its own; `Compiler.StepTurnRule` and `Compiler.CompileShape` state what a long pair emits and that each one yields exactly one move |
| Compiler.TurnFor | App.tsx:128-132 | the turn pushed for a normalised difference: `turn_left` by `Math.round(angleDiff)` when it is positive, `turn_right` by `Math.round(Math.abs(angleDiff))` otherwise. No contract of its own; `Compiler.StepTurnRule` and `Compiler.StepShape` state its tag, its value to within half a degree and its range |
| Compiler.MoveFor | App.tsx:135 | the move pushed for a distance, `Math.round(distance * 10) / 10`. No contract of its own; `Compiler.StepTurnRule` and `Compiler.StepShape` state that it is the last command of every driven pair and at least 0.5 |
| Compiler.Step | App.tsx:117-135 | one iteration of the loop: what pair (i - 1, i) emits and the heading afterwards. No contract of its own; `Compiler.StepTurnRule`, `Compiler.StepShape` and `Compiler.StepHeadingTracksDirection` state what it does |
| Compiler.CompileFrom | App.tsx:116-136 | the for loop from pair i on, entered with a given heading: pair i's step followed by the rest under the new heading. No contract of its own; `Compiler.CompileFromShape` states its shape, and it is the loop invariant of `Compiler.PathToRobotCommands` |
| Compiler.Compile | App.tsx:113-137 | what `pathToRobotCommands` returns: `[]` below two points, otherwise the commands of every pair in order from the starting heading of 90. No contract of its own; `Compiler.PathToRobotCommands` is proved equal to it, and `Compiler.CompileShape` states its properties |
| Compiler.PathToRobotCommands | App.tsx:112-138 | the loop, normalising loops included, returns exactly `Compile(m, path)`, and `[]` for a path of fewer than two points |
| Compiler.StepTurnRule | App.tsx:122-135 | a pair shorter than 0.5 emits nothing and keeps the heading. Otherwise the pair ends with one `move_forward` of its rounded length, and starts with a turn exactly when the normalised difference exceeds 5 in magnitude: `turn_left` when positive, `turn_right` when negative, its value the magnitude to within half a degree. The heading changes only with a turn, and then becomes the pair's direction |
| Compiler.StepHeadingTracksDirection | App.tsx:127-133 | after a driven pair the tracked heading is within 5 degrees of the pair's direction, modulo whole turns |
| Compiler.StepShape | App.tsx:122-135 | one pair's output is well formed, keeps values in range, and holds one `move_forward` exactly when the pair is at least 0.5 long |
| Compiler.CompileFromShape | App.tsx:116-136 | the commands from pair i on are well formed, in range, and hold one `move_forward` per long pair from i on |
| Compiler.CompileShape | App.tsx:113-135 | a path of fewer than two points gives `[]`. Otherwise there is exactly one `move_forward` per pair of length at least 0.5, no `move_backward`, and every turn is immediately followed by a move, so no two turns are adjacent and each move has at most one turn before it. Moves are at least 0.5 and turns 5 to 180 |
| Compiler.CompileStraightUp | App.tsx:115-135 | a 10 cm stroke straight up, along the starting heading of 90 degrees, compiles to one 10 cm move and no turn |
| Compiler.CompileStraightRight | App.tsx:115-135 | a 10 cm stroke to the right compiles to `turn_right` 90 then a 10 cm move |
| Optimizer.Optimize | App.tsx:140-155 | the output is never longer than the input, is empty exactly when the input is, and ends with a command of the input's last type |
| Optimizer.Merges | App.tsx:146 | the loop's test `current.type === next.type`, on the last output command. No contract of its own; `Optimizer.LastCommandStep` states that on the fold it holds exactly when the next command does not start a new run |
| Optimizer.LastCommandStep | App.tsx:144-151 | one more command: the fold absorbs it, it merges exactly when it does not start a run, and the run starts grow by its position exactly when it does |
| Optimizer.Absorb | App.tsx:145-151 | one iteration of the loop on the output so far: a command of the same type as the last output command is added to it, any other is appended. The result is never empty, grows by at most one, and ends with a command of the next command's type |
| Optimizer.RunHeadsSpec | App.tsx:143-150 | the run starts begin at 0, strictly increase, are all run starts, and include every run start |
| Optimizer.OptimizeMergesRuns | App.tsx:143-153 | output command k stands for the k-th maximal run of the input: every command of the run has its type, and its value is the sum of the run's values |
| Optimizer.OptimizeNoAdjacentRepeats | App.tsx:141-154 | no two adjacent output commands share a type |
| Optimizer.OptimizeKinds | App.tsx:143-153 | the output's tags are the input's tags with adjacent duplicates collapsed |
| Optimizer.OptimizeTotals | App.tsx:143-153 | for every tag, the values of that tag add up to the same total in the output as in the input |
| Optimizer.OptimizeMovesOnly | App.tsx:143-153 | a list of forward moves only becomes a single move covering the total distance |
| Optimizer.OptimizeKeepsShape | App.tsx:143-153 | merging keeps a compiled list's shape: no `move_backward`, turns still followed by moves, values still in range |
| Optimizer.SeparatedTurnsStayApart | App.tsx:146-150 | two turns of the same type with a move between them are not merged |
| Optimizer.LastHead | App.tsx:143-150 | `current` after the first i commands: the position of the last run start before i. Its contract: it lies before i and starts a run |
| Optimizer.InPlace | App.tsx:144-152 | the array after the first i commands have gone through the loop, with `current.value += next.value` applied to the command at `current`. Its contract: the array keeps its length. `Optimizer.InPlaceUntouched` and `Optimizer.InPlaceDone` state which slots change and to what |
| Optimizer.Finished | App.tsx:142-149 | `optimized` after the first i commands: the commands pushed when a run ended. No contract of its own; `Optimizer.InPlaceFold` and `Optimizer.InPlacePlaced` state what they are |
| Optimizer.InPlaceFold | App.tsx:144-152 | after the first i commands, the pushed commands followed by the command at `current` are the fold over those i commands |
| Optimizer.InPlaceUntouched | App.tsx:146-150 | the loop writes only the slots of run heads it has passed, and `current` holds a command of the current run's type |
| Optimizer.InPlacePlaced | App.tsx:146-150 | the pushed commands sit in the array at the earlier run heads, in order, and `current` is the latest run head |
| Optimizer.InPlaceDone | App.tsx:140-155 | after the loop, each output command is the array slot at its run's head (the input's command objects are the ones updated and returned), and every other slot holds its input command |
| Optimizer.OptimizeCommands | App.tsx:140-155 | the method returns `Optimize` of the input, and leaves the array as `InPlace` describes: run-head slots updated to their runs' sums, everything else untouched |
| Transport.ChunkPayload | App.tsx:274-276 | the `i += 180` loop produces exactly `Slices(json)` |
| Transport.Slices | App.tsx:275-276 | the slices the loop produces: none exactly when the payload is empty, and every slice holds 1 to 180 characters. `Transport.ChunkPayload` is proved equal to it |
| Transport.ReassembleSlices | App.tsx:274-276 | concatenating the slices in order gives the payload back |
| Transport.SliceSizes | App.tsx:274-276 | there are ceil(len / 180) slices, every slice but the last holds exactly 180 characters, and the last holds 1 to 180 |
| Transport.SliceAt | App.tsx:275-276 | slice k is the payload from 180 k up to 180 (k + 1) or the end of the payload |
| Transport.TwoSlices | App.tsx:274-276 | a 190-character payload gives a slice of 180 characters and one of 10 |
| Pipeline.StrokeCommands | App.tsx:265-271 | what one stroke becomes: mapped, refined with threshold 3, compiled and optimised. No contract of its own; `Pipeline.StrokeCommandsShape` states its properties |
| Pipeline.DrawingCommands | App.tsx:266-272 | one command list per stroke, in stroke order: list k is `Pipeline.StrokeCommands` of stroke k |
| Pipeline.StrokeCommandsShape | App.tsx:266-272 | a stroke's final commands are well formed and in range, have no two adjacent commands of one type, and drive the compiled distance. A stroke of fewer than two points drives nothing |
| Pipeline.RefinedStrokeOnGround | App.tsx:44-71 | a stroke recorded inside the canvas reaches the compiler as points on the 100 cm x 100 cm ground |
| Pipeline.SendDrawing | App.tsx:257-289 | with no robot connected nothing is sent. Otherwise the slices written are `Slices` of the serialised per-stroke commands, and concatenating them in order gives that payload back |

## Left out

- The React and UI layer: `useState`/`useRef` state, the `PanResponder` gesture handlers, `Alert`, `console.log`, the render tree and the styles. The touch handlers' only role here is that they record points that pass `insideCanvas`, which `Pipeline.RefinedStrokeOnGround` takes as its precondition.
- The release handler's own run of the pipeline (`App.tsx:61-89`). It only logs its result, and it reads `currentPath` from a possibly stale closure, which is a React lifecycle effect.
- `getSmoothPath`: Bézier control points for the SVG strokes, used only for rendering.
- The Bluetooth session: permission requests, scanning, connecting, the disconnect listener, the characteristic writes and the 50 ms pause between writes. These are asynchronous calls into a foreign library. `Pipeline.SendDrawing` takes connectedness as a boolean and returns the slices it would write, in order.
- `JSON.stringify` is the `serialize` parameter of `Pipeline.SendDrawing`, so the wire format of the commands, including the four tag strings of `App.tsx:108`, is not modelled. The base64 encoding of each slice is not modelled either.
- The `try`/`catch` around sending and the success and error alerts. A failed write is not modelled.
- IEEE-754 arithmetic. Numbers are exact reals, so rounding error, infinities and NaN do not arise. `Math.sqrt` and `Math.atan2(dy, dx) * 180 / Math.PI` are the fields of `Compiler.MathLib`.
- Numerics.ToFixed2: rounds the exact real value, so it does not model how `toFixed` rounds a binary float that is slightly below a written half. It also ignores the exponent form `toFixed` uses for magnitudes of 1e21 and more.
- JavaScript strings are UTF-16 code units. The payload is a `seq<char>`, and slices split it by characters.
- The `threshold` default of 3 is modelled only at the call sites, as `Refinement.DefaultThreshold`.
