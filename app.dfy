/** The `App` closure of the viewer as a class: the playback state
    (`isPlaying`, `playbackSpeed`), the list of registered models, the
    throttle's last tick time (the loop variable `then`, a reserved word in
    Dafny) and the tick interval `1000 / fps`. Clock readings are parameters:
    `now` and `after` are successive `Date.now()` values, and `readings[i]` is
    the value `clock.getElapsedTime()` returns when `update` reaches model `i`. */
module Viewer {
  import opened Wrappers
  import opened Scene

  /** How a call of `update` ends: after every model, or by a `TypeError`
      at the lookup for child `child` of model `model`. */
  datatype UpdateOutcome = Completed | Threw(model: nat, child: nat)

  /** How one run of the animation loop's callback ends: throttled away,
      rendered (after updating when playing), or aborted by `update`. */
  datatype TickOutcome = Skipped | Rendered(updated: bool) | Aborted(model: nat, child: nat)

  /** What `update` does to the model list `m0`, giving `m1`: on completion
      every lookup succeeded and every child is posed; on a throw the lookup
      at the reported position failed, all earlier ones succeeded and exactly
      the earlier children are posed. */
  ghost predicate UpdateEffect(m0: seq<ModelRecord>, readings: seq<real>, outcome: UpdateOutcome, m1: seq<ModelRecord>)
    requires |readings| == |m0|
  {
    match outcome
    case Completed =>
      AllResolved(m0, readings) && m1 == Stepped(m0, readings, |m0|, 0)
    case Threw(mi, cj) =>
      mi < |m0| && cj < |m0[mi].children| &&
      ChildPose(m0[mi], readings[mi], cj).None? &&
      ResolvedBefore(m0, readings, mi, cj) &&
      m1 == Stepped(m0, readings, mi, cj)
  }

  /** What one run of the loop callback does, from last tick time `last0`
      and models `m0` to `last1` and `m1`. */
  ghost predicate TickEffect(interval: real, playing: bool, last0: real, m0: seq<ModelRecord>,
                             now: real, readings: seq<real>, after: real,
                             r: TickOutcome, last1: real, m1: seq<ModelRecord>)
    requires |readings| == |m0|
  {
    && (r.Skipped? <==> now - last0 < interval)
    && (r.Skipped? ==> m1 == m0 && last1 == last0)
    && (r.Rendered? ==> r.updated == playing && last1 == after)
    && (r == Rendered(false) ==> m1 == m0)
    && (r == Rendered(true) ==> UpdateEffect(m0, readings, Completed, m1))
    && (r.Aborted? ==> playing && last1 == last0 && UpdateEffect(m0, readings, Threw(r.model, r.child), m1))
  }

  /** A tick that is not throttled renders exactly when the models are paused
      or every pose lookup succeeds; otherwise `update`'s `TypeError` skips
      the render and the reset of the last tick time. */
  lemma TickRendersUnlessLookupFails(interval: real, playing: bool, last0: real, m0: seq<ModelRecord>,
                                     now: real, readings: seq<real>, after: real,
                                     r: TickOutcome, last1: real, m1: seq<ModelRecord>)
    requires |readings| == |m0|
    requires TickEffect(interval, playing, last0, m0, now, readings, after, r, last1, m1)
    requires now - last0 >= interval
    ensures r.Rendered? <==> !playing || AllResolved(m0, readings)
    ensures last1 == if r.Rendered? then after else last0
  {
  }

  /** One iteration of `update`'s inner loop, seen from the list `m0` it
      started from: the lookup it makes is the one `ChildPose` describes, and
      posing the child gives the next `Stepped` list. */
  lemma UpdateStep(m0: seq<ModelRecord>, readings: seq<real>, mi: nat, cj: nat, ms: seq<ModelRecord>,
                   model: ModelRecord, frame: Option<int>, group: Child, pose: Option<Pose>)
    requires |readings| == |m0| && mi < |m0|
    requires model == Stepped(m0, readings, mi, 0)[mi] && cj < |model.children|
    requires ms == Stepped(m0, readings, mi, cj)
    requires ResolvedBefore(m0, readings, mi, cj)
    requires frame == FrameOf(model, readings[mi])
    requires group == ms[mi].children[cj] && pose == PoseAt(model.frames, frame, group.name)
    ensures cj < |m0[mi].children| && pose == ChildPose(m0[mi], readings[mi], cj)
    ensures pose.Some? ==>
      ms[mi := ms[mi].(children := ms[mi].children[cj := group.(transform := PoseTransform(pose.value))])]
        == Stepped(m0, readings, mi, cj + 1)
    ensures pose.Some? ==> ResolvedBefore(m0, readings, mi, cj + 1)
  {
    SteppedKeepsStructure(m0, readings, mi, 0);
    SteppedKeepsStructure(m0, readings, mi, cj);
    assert group == m0[mi].children[cj];
    if pose.Some? {
      SteppedNext(m0, readings, mi, cj);
      ResolvedNext(m0, readings, mi, cj);
    }
  }

  /** The end of `update`'s inner loop for model `mi` is the start of the
      next model's. */
  lemma NextModelStep(m0: seq<ModelRecord>, readings: seq<real>, mi: nat, ms: seq<ModelRecord>, model: ModelRecord)
    requires |readings| == |m0| && mi < |m0|
    requires model == Stepped(m0, readings, mi, 0)[mi]
    requires ms == Stepped(m0, readings, mi, |model.children|)
    requires ResolvedBefore(m0, readings, mi, |model.children|)
    ensures ms == Stepped(m0, readings, mi + 1, 0) && ResolvedBefore(m0, readings, mi + 1, 0)
  {
    SteppedKeepsStructure(m0, readings, mi, 0);
    SteppedNextModel(m0, readings, mi);
    ResolvedNextModel(m0, readings, mi);
  }

  /** The body of `update`'s loop for model `mi` of `m0`, applied to the
      list `ms0` in which the earlier models are already posed: reads the
      clock, selects the frame and poses the children in order, stopping at
      the first lookup that throws (reported as `failed`). */
  method PoseModel(ghost m0: seq<ModelRecord>, readings: seq<real>, mi: nat, ms0: seq<ModelRecord>)
    returns (ms: seq<ModelRecord>, failed: Option<nat>)
    requires |readings| == |m0| && mi < |m0|
    requires ms0 == Stepped(m0, readings, mi, 0) && ResolvedBefore(m0, readings, mi, 0)
    ensures failed.None? ==> ms == Stepped(m0, readings, mi + 1, 0) && ResolvedBefore(m0, readings, mi + 1, 0)
    ensures failed.Some? ==>
      failed.value < |m0[mi].children| && ChildPose(m0[mi], readings[mi], failed.value).None? &&
      ResolvedBefore(m0, readings, mi, failed.value) && ms == Stepped(m0, readings, mi, failed.value)
  {
    ms := ms0;
    var model := ms[mi];
    var current := readings[mi];
    var frame := FrameOf(model, current);
    var cj := 0;
    while cj < |model.children|
      invariant 0 <= cj <= |model.children|
      invariant ms == Stepped(m0, readings, mi, cj)
      invariant ResolvedBefore(m0, readings, mi, cj)
    {
      var group := ms[mi].children[cj];
      var pose := PoseAt(model.frames, frame, group.name);
      UpdateStep(m0, readings, mi, cj, ms, model, frame, group, pose);
      if pose.None? {
        return ms, Some(cj);
      }
      ms := ms[mi := ms[mi].(children := ms[mi].children[cj := group.(transform := PoseTransform(pose.value))])];
      cj := cj + 1;
    }
    NextModelStep(m0, readings, mi, ms, model);
    failed := None;
  }

  class App {
    const interval: real
    var isPlaying: bool
    var playbackSpeed: real
    var models: seq<ModelRecord>
    var lastTick: real

    /** `App(fps)`: nothing registered, playing, speed 1. */
    constructor (fps: real)
      requires fps != 0.0
      ensures interval == 1000.0 / fps
      ensures isPlaying && models == [] && playbackSpeed == 1.0
    {
      interval := 1000.0 / fps;
      isPlaying := true;
      models := [];
      playbackSpeed := 1.0;
      lastTick := 0.0;
    }

    /** `createModel(data)`: builds one group per declared group, with one
        mesh per object, and appends the new record to `models`. */
    method CreateModel(data: LogData)
      modifies this`models
      ensures models == old(models) + [BuildModel(data)]
    {
      var children: seq<Child> := [];
      var gi := 0;
      while gi < |data.groups|
        invariant 0 <= gi <= |data.groups| && |children| == gi
        invariant forall i :: 0 <= i < gi ==> children[i] == BuildGroup(data.groups[i])
      {
        var group := data.groups[gi];
        var geometry: Option<Shape> := None;
        var meshes: seq<Mesh> := [];
        var oi := 0;
        while oi < |group.objs|
          invariant 0 <= oi <= |group.objs| && |meshes| == oi
          invariant geometry == LastShape(group.objs[..oi])
          invariant forall k :: 0 <= k < oi ==> meshes[k] == Mesh(LastShape(group.objs[..k + 1]))
        {
          var obj := group.objs[oi];
          if obj.kind == "box" {
            geometry := Some(Box);
          } else if obj.kind == "cylinder" {
            geometry := Some(Cylinder);
          } else if obj.kind == "ellipsoid" {
            geometry := Some(Ellipsoid);
          } else if obj.kind == "sphere" {
            geometry := Some(Sphere);
          }
          ghost var upTo := group.objs[..oi + 1];
          assert upTo[..oi] == group.objs[..oi] && upTo[oi] == obj;
          meshes := meshes + [Mesh(geometry)];
          oi := oi + 1;
        }
        assert meshes == BuildMeshes(group.objs);
        children := children + [Child(group.name, meshes, Identity)];
        gi := gi + 1;
      }
      assert BuildModel(data).children == children;
      models := models + [ModelRecord(children, data.step, data.start, data.stop, data.frames)];
    }

    /** `update()`: for every model in turn, reads the clock, selects a frame
        and copies each child's pose from it; a failed lookup throws. */
    method Update(readings: seq<real>) returns (outcome: UpdateOutcome)
      requires |readings| == |models|
      modifies this`models
      ensures UpdateEffect(old(models), readings, outcome, models)
    {
      var ms := models;
      SteppedStart(ms, readings);
      var mi := 0;
      while mi < |ms|
        invariant 0 <= mi <= |old(models)| && |ms| == |old(models)|
        invariant ms == Stepped(old(models), readings, mi, 0)
        invariant ResolvedBefore(old(models), readings, mi, 0)
      {
        var failed;
        ms, failed := PoseModel(old(models), readings, mi, ms);
        if failed.Some? {
          models := ms;
          return Threw(mi, failed.value);
        }
        mi := mi + 1;
      }
      models := ms;
      return Completed;
    }

    /** One run of the animation loop's callback: when at least `interval`
        has passed since the last tick, updates (if playing), renders and
        resets the last tick time to a fresh reading `after`. */
    method Tick(now: real, readings: seq<real>, after: real) returns (r: TickOutcome)
      requires |readings| == |models|
      modifies this`models, this`lastTick
      ensures TickEffect(interval, isPlaying, old(lastTick), old(models), now, readings, after, r, lastTick, models)
    {
      var delta := now - lastTick;
      if delta >= interval {
        if isPlaying {
          var outcome := Update(readings);
          if outcome.Threw? {
            return Aborted(outcome.model, outcome.child);
          }
        }
        // render() hands the scene to the renderer.
        lastTick := after;
        return Rendered(isPlaying);
      }
      return Skipped;
    }

    /** `animationLoop()`: takes the first last-tick time `start` and runs
        the callback once; later runs are further calls of `Tick`. */
    method AnimationLoop(start: real, now: real, readings: seq<real>, after: real) returns (r: TickOutcome)
      requires |readings| == |models|
      modifies this`models, this`lastTick
      ensures TickEffect(interval, isPlaying, start, old(models), now, readings, after, r, lastTick, models)
    {
      lastTick := start;
      r := Tick(now, readings, after);
    }

    /** `play()`. */
    method Play()
      modifies this`isPlaying
      ensures isPlaying
    {
      isPlaying := true;
    }

    /** `pause()`. */
    method Pause()
      modifies this`isPlaying
      ensures !isPlaying
    {
      isPlaying := false;
    }

    /** `setTime(timeVal)`: its body is empty, so no state changes. */
    method SetTime(timeVal: real)
      ensures unchanged(this)
    {
    }

    /** `setSpeed(speedVal)`: stores the speed; nothing reads it. */
    method SetSpeed(speedVal: real)
      modifies this`playbackSpeed
      ensures playbackSpeed == speedVal
      ensures isPlaying == old(isPlaying) && models == old(models)
    {
      playbackSpeed := speedVal;
    }
  }
}
