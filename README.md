# Playback engine of the roboviz motion-log viewer, in Dafny

roboviz is a browser viewer that replays a recorded motion log of an
articulated mechanism as an animation. A log declares named groups, each made
of primitive shapes, and a table of frames. Each frame holds a position and a
quaternion for every group. This project models the viewer's playback engine,
which lives in the `App` closure of `js/app.js`, and proves properties of it:

- `FrameSelect` (frame_select.dfy) maps a clock reading and a model's
  `start`, `stop` and `step` to a frame index. This is the pure arithmetic at
  the top of `update`. JavaScript numbers are reals here. `Math.round` is
  `Round`, and JavaScript's truncating `%` is `Rem`. A division by zero gives
  NaN or an infinity, which indexes nothing; the model returns `None` for it.
- `Scene` (scene.dfy) holds the data: the parsed log (`LogData`), the record
  that `createModel` pushes (`ModelRecord`), and child groups with their
  meshes and transforms. Its specification functions say which record
  `createModel` builds (`BuildModel`) and what `update` writes: `Stepped`
  is the model list once every child before a given position has been posed.
- `Viewer` (app.dfy) holds the class `App` with the closure's state:
  `isPlaying`, `playbackSpeed`, `models`, the throttle's last tick time
  `lastTick`, and `interval = 1000 / fps`. The loop variable is called
  `then` in the source, a reserved word in Dafny. `App` also has the
  operations `CreateModel`, `Update`, `Tick` (one run of the
  `requestAnimationFrame` callback), `AnimationLoop`, `Play`, `Pause`,
  `SetTime` and `SetSpeed`.

Clocks are parameters. `Tick` takes `now`, the `Date.now()` value read
before the throttle test, and `after`, the fresh `Date.now()` that resets the
last tick time after rendering. `update` calls `clock.getElapsedTime()` anew
for each model, so `Update` takes one reading per model, `readings[i]`.

The model follows the code as written, including where one might expect
otherwise:

- The index is rounded (`Math.round`), not floored.
- Before the range the index is the constant 1, not 0.
- The offset `current - start` is compared against `start` and `stop`
  themselves. So a reading in `[start, 2*start)` is pre-roll.
- After the range the offset is wrapped by `stop`, not by `stop - start`.
- Nothing clamps the index. `EndOfRangeIndex` shows that a log starting at 0
  with `n` frames of `step` seconds selects index `n` at `current == stop`,
  one past the last frame.
- `createModel` validates nothing and cannot fail.
- A lookup the code cannot make throws a JavaScript `TypeError`. That covers
  a non-finite index, an index outside the frame table, or a group name
  missing from the frame. The throw leaves the children posed before it,
  skips `render()` and skips the reset of `then`. The exception does not end
  the loop, because the next frame was requested first. The model reports
  such a throw as `Threw`/`Aborted` with the position of the failed lookup.
- `setTime` has an empty body, and nothing reads `playbackSpeed`.
- An object of unknown `type` still gets a mesh. That mesh reuses the
  geometry of the group's previous mesh, or has none if no earlier mesh in
  the group had one (`LastShape`).

Group transforms are values. `Update` reassigns `models` with the posed
children, where the source mutates Three.js objects in place.

## Model

| member | source | states |
|---|---|---|
| FrameSelect.Round | js/app.js:235 | `Math.round`: the result is the integer nearest to its argument, halves rounded up |
| FrameSelect.Trunc | js/app.js:241 | the quotient used by JavaScript's `%` is truncated toward zero: at most the argument for a non-negative argument, at least it for a non-positive one, and within 1 of it |
| FrameSelect.BranchesExhaustive | js/app.js:234-242 | the three branches cover every offset and are exclusive; the post-roll branch only takes offsets beyond `stop` |
| FrameSelect.FrameIndexDefined | js/app.js:229-242 | the index is always assigned; it is a usable number exactly in pre-roll, or when `step` is non-zero and, after the range, `stop` is non-zero |
| FrameSelect.InRangeFrame | js/app.js:234-235 | in range, the index is the integer nearest to `offset / step` |
| FrameSelect.PreRollIsFrameOne | js/app.js:237-238 | an offset below `start` selects frame 1, whatever the step |
| FrameSelect.RemUnique | js/app.js:241 | for positive operands, `%` returns the unique remainder in `[0, stop)` of a decomposition into whole multiples of `stop` |
| FrameSelect.DivideByPositive | js/app.js:241 | a non-negative offset splits into whole multiples of a positive `stop` and a remainder in `[0, stop)` |
| FrameSelect.PostRollFrame | js/app.js:240-241 | after the range with a positive `stop`, the index is the rounded `w / step` for the remainder `w` of the offset modulo `stop` |
| FrameSelect.PostRollPeriodic | js/app.js:240-241 | after the range, with a positive `stop` and a non-zero `step`, adding any whole number of `stop` periods to the reading keeps it in post-roll and selects the same frame |
| FrameSelect.InRangeMonotone | js/app.js:234-235 | in range with a positive step, a later reading never selects a smaller index |
| FrameSelect.EndOfRangeIndex | js/app.js:234-235 | with `start = 0` and `stop = n * step`, the reading `stop` selects index `n`, past the end of an `n`-frame table: the code does not clamp |
| Scene.LastShapeIsLastKnown | js/app.js:80-110 | the geometry a mesh is built with is that of the last object so far in the group whose type is known |
| Scene.LastShapeNoneKnown | js/app.js:80-110 | while no object of the group has a known type, the meshes have no geometry |
| Scene.MeshGeometry | js/app.js:87-112 | a known type selects its own geometry; an unknown one reuses the previous mesh's geometry, or none for the first object |
| Scene.BuiltModelShape | js/app.js:72-115 | the built record has one child per declared group, in order, named after it, with one mesh per object and the identity transform; it keeps the log's step, start, stop and frames |
| Scene.SteppedKeepsStructure | js/app.js:244-254 | posing changes only transforms: model count, timing, frames, child count, names, meshes and therefore every lookup stay as they were |
| Scene.FullPassPoses | js/app.js:244-254 | when every lookup succeeds, each child gets position `frames[frame][name].position[0..2]` and quaternion `frames[frame][name].quaternion[0..3]` in component order, and an array too short yields `undefined` |
| Scene.FullPassIdempotent | js/app.js:226-256 | a second full pass with the same clock readings changes nothing |
| Viewer.UpdateStep | js/app.js:244-254 | the lookup the inner loop makes on the partly posed list is the one made on the original list, and posing that child extends the posed prefix by one |
| Viewer.NextModelStep | js/app.js:227-255 | finishing a model's children is starting the next model |
| Viewer.PoseModel | js/app.js:229-254 | one model's iteration: it selects the frame from its clock reading and poses the children in order; if a lookup fails it stops there, leaving the children before it posed and the rest untouched |
| Viewer.TickRendersUnlessLookupFails | js/app.js:128-139 | an unthrottled tick renders exactly when paused or when every lookup succeeds, and the last tick time is reset exactly when it renders |
| Viewer.App.constructor | js/app.js:12-17 | initial state: `isPlaying`, no models, speed 1, interval `1000 / fps` |
| Viewer.App.CreateModel | js/app.js:68-120 | appends exactly `BuildModel(data)` and leaves earlier records unchanged |
| Viewer.App.Update | js/app.js:226-256 | either every lookup succeeded and every child of every model is posed, or the first failing lookup is reported and exactly the children before it are posed |
| Viewer.App.Tick | js/app.js:125-140 | throttled (`now - then < interval`): nothing runs and `then` is kept; otherwise it updates when playing and renders once, and `then` becomes the fresh reading; a throw in `update` skips both |
| Viewer.App.AnimationLoop | js/app.js:122-143 | seeds the last tick time with the first reading and runs the callback once |
| Viewer.App.Play | js/app.js:267-269 | sets `isPlaying`, whatever it was (so it is idempotent); changes nothing else |
| Viewer.App.Pause | js/app.js:276-278 | clears `isPlaying`, whatever it was; changes nothing else |
| Viewer.App.SetTime | js/app.js:288-290 | changes no state |
| Viewer.App.SetSpeed | js/app.js:302-304 | sets `playbackSpeed` and leaves `isPlaying` and `models` unchanged |

## Left out

- Geometry and material construction: box, cylinder and sphere sizes, the ellipsoid scaling matrix and colours. These are Three.js calls with floating-point sizes. A mesh keeps only which kind of geometry it has.
- `scene.add(model)` and the top-level `THREE.Group`. The scene graph is an external library; the record's children are the groups it would hold.
- The renderer, camera, lights, canvas, resize listener and `render()` itself. They are rendering and DOM plumbing. A tick reports that it rendered.
- URL and query-parameter dispatch with `setTimeout`, `fetch` and `res.json()`, `FileReader`, `JSON.parse`, the drag handlers, `initLoading` and `testModels`. These are I/O, logging or data that is not part of this model.
- `requestAnimationFrame`, `Date.now()` and `THREE.Clock`. Their values are method parameters. The rescheduling of the loop is the caller calling `Tick` again.
- IEEE-754 behaviour: numbers are exact reals. Rounding error can select a different frame than real arithmetic does, for example for `0.35 / 0.1`. NaN and infinities appear only as `None` from a division by zero.
- JavaScript property lookups that reach the object prototype, for example a group named `constructor`. A log value that is not of the expected JSON shape is also left out, for example a pose without `position`.
- Viewer.App.constructor: requires `fps != 0`, because `1000 / 0` is an infinite interval that reals cannot represent.
- Viewer.App.constructor: `lastTick` starts at 0. In the source `then` does not exist until `animationLoop` runs; `AnimationLoop` sets it.
- The unused `startTime` variable and `update`'s unused `elapsed` parameter. Neither affects behaviour.
