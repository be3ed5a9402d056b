/** The data of the viewer: the parsed log, the runtime model record that
    `createModel` appends, and the specification functions for building a
    model and for writing a frame's poses onto its groups. Scene objects are
    abstract: a group has a name, its meshes and its transform; a mesh keeps
    only which kind of geometry it was built with. */
module Scene {
  import opened Wrappers
  import opened FrameSelect

  /** A number read out of a pose array: `undefined` when the array is too short. */
  datatype Value = Number(n: real) | Undefined

  datatype Vec3 = Vec3(x: Value, y: Value, z: Value)
  datatype Quat = Quat(x: Value, y: Value, z: Value, w: Value)

  /** The part of a group's state that playback changes. */
  datatype Transform = Transform(position: Vec3, quaternion: Quat)

  /** A new group sits at the origin with the identity rotation. */
  const Identity := Transform(Vec3(Number(0.0), Number(0.0), Number(0.0)),
                              Quat(Number(0.0), Number(0.0), Number(0.0), Number(1.0)))

  /** One group's entry in a frame, as the log holds it. */
  datatype Pose = Pose(position: seq<real>, quaternion: seq<real>)

  /** A frame maps group names to poses. */
  type Frame = map<string, Pose>

  datatype Shape = Box | Cylinder | Ellipsoid | Sphere

  /** A primitive of a group; only its `type` string matters here. */
  datatype ObjSpec = ObjSpec(kind: string)

  datatype GroupSpec = GroupSpec(name: string, objs: seq<ObjSpec>)

  /** A parsed log. */
  datatype LogData = LogData(step: real, start: real, stop: real, groups: seq<GroupSpec>, frames: seq<Frame>)

  datatype Mesh = Mesh(geometry: Option<Shape>)

  /** A child group of a model: its name, its meshes and its transform. */
  datatype Child = Child(name: string, meshes: seq<Mesh>, transform: Transform)

  /** The record `createModel` pushes onto `models`. */
  datatype ModelRecord = ModelRecord(children: seq<Child>, step: real, start: real, stop: real, frames: seq<Frame>)

  // ---------------------------------------------------------------------
  // Building a model

  /** The geometry an object's `type` selects; `None` for an unknown type. */
  function ShapeOf(kind: string): Option<Shape> {
    if kind == "box" then Some(Box)
    else if kind == "cylinder" then Some(Cylinder)
    else if kind == "ellipsoid" then Some(Ellipsoid)
    else if kind == "sphere" then Some(Sphere)
    else None
  }

  /** The geometry held by the group loop's `geometry` variable after the
      objects `objs`: that of the last one with a known type, or none. */
  function LastShape(objs: seq<ObjSpec>): Option<Shape> {
    if objs == [] then None
    else if ShapeOf(objs[|objs| - 1].kind).Some? then ShapeOf(objs[|objs| - 1].kind)
    else LastShape(objs[..|objs| - 1])
  }

  /** One mesh per object, each built with the geometry current at that object. */
  function BuildMeshes(objs: seq<ObjSpec>): seq<Mesh> {
    seq(|objs|, k requires 0 <= k < |objs| => Mesh(LastShape(objs[..k + 1])))
  }

  function BuildGroup(g: GroupSpec): Child {
    Child(g.name, BuildMeshes(g.objs), Identity)
  }

  /** The record `createModel(data)` appends. */
  function BuildModel(data: LogData): ModelRecord {
    ModelRecord(seq(|data.groups|, i requires 0 <= i < |data.groups| => BuildGroup(data.groups[i])),
                data.step, data.start, data.stop, data.frames)
  }

  /** `LastShape` is the shape of the last object whose type is known. */
  lemma {:induction false} LastShapeIsLastKnown(objs: seq<ObjSpec>, i: nat)
    requires i < |objs| && ShapeOf(objs[i].kind).Some?
    requires forall j :: i < j < |objs| ==> ShapeOf(objs[j].kind).None?
    ensures LastShape(objs) == ShapeOf(objs[i].kind)
  {
    if i < |objs| - 1 {
      var init := objs[..|objs| - 1];
      assert init[i] == objs[i];
      LastShapeIsLastKnown(init, i);
    }
  }

  /** With no object of a known type, `LastShape` is none. */
  lemma {:induction false} LastShapeNoneKnown(objs: seq<ObjSpec>)
    requires forall j :: 0 <= j < |objs| ==> ShapeOf(objs[j].kind).None?
    ensures LastShape(objs) == None
  {
    if objs != [] {
      var init := objs[..|objs| - 1];
      assert forall j :: 0 <= j < |init| ==> init[j] == objs[j];
      LastShapeNoneKnown(init);
    }
  }

  /** A mesh for an object of an unknown type reuses the geometry of the
      group's previous mesh, and the group's first such mesh has none. */
  lemma MeshGeometry(objs: seq<ObjSpec>, k: nat)
    requires k < |objs|
    ensures |BuildMeshes(objs)| == |objs|
    ensures BuildMeshes(objs)[k].geometry ==
      if ShapeOf(objs[k].kind).Some? then ShapeOf(objs[k].kind)
      else if k == 0 then None
      else BuildMeshes(objs)[k - 1].geometry
  {
    var upTo := objs[..k + 1];
    assert upTo[|upTo| - 1] == objs[k];
    assert upTo[..|upTo| - 1] == objs[..k];
    assert BuildMeshes(objs)[k] == Mesh(LastShape(upTo));
    if k > 0 {
      assert BuildMeshes(objs)[k - 1] == Mesh(LastShape(objs[..k]));
    } else {
      assert objs[..k] == [];
      assert LastShape(objs[..k]) == None;
    }
  }

  /** The built model has one child per declared group, in order, named after
      it and holding one mesh per object; it keeps the log's timing and frames. */
  lemma BuiltModelShape(data: LogData)
    ensures |BuildModel(data).children| == |data.groups|
    ensures forall i :: 0 <= i < |data.groups| ==>
      BuildModel(data).children[i].name == data.groups[i].name &&
      |BuildModel(data).children[i].meshes| == |data.groups[i].objs| &&
      BuildModel(data).children[i].transform == Identity
    ensures BuildModel(data).step == data.step && BuildModel(data).start == data.start
    ensures BuildModel(data).stop == data.stop && BuildModel(data).frames == data.frames
  {
  }

  // ---------------------------------------------------------------------
  // Applying a frame

  function Element(s: seq<real>, i: nat): Value {
    if i < |s| then Number(s[i]) else Undefined
  }

  /** The transform `position.set` and `quaternion.set` give a group for a pose. */
  function PoseTransform(p: Pose): Transform {
    Transform(Vec3(Element(p.position, 0), Element(p.position, 1), Element(p.position, 2)),
              Quat(Element(p.quaternion, 0), Element(p.quaternion, 1),
                   Element(p.quaternion, 2), Element(p.quaternion, 3)))
  }

  /** `frames[frame][name]`, or `None` where JavaScript would throw: a
      non-finite index, an index outside the table, or a missing name. */
  function PoseAt(frames: seq<Frame>, frame: Option<int>, name: string): Option<Pose> {
    if frame.Some? && 0 <= frame.value < |frames| && name in frames[frame.value]
    then Some(frames[frame.value][name])
    else None
  }

  /** The frame index a model shows for a clock reading. */
  function FrameOf(m: ModelRecord, reading: real): Option<int> {
    FrameIndex(reading, m.start, m.stop, m.step)
  }

  /** The pose of child `j` of model `m` for a clock reading. */
  function ChildPose(m: ModelRecord, reading: real, j: nat): Option<Pose>
    requires j < |m.children|
  {
    PoseAt(m.frames, FrameOf(m, reading), m.children[j].name)
  }

  function Posed(c: Child, p: Option<Pose>): Child {
    if p.Some? then c.(transform := PoseTransform(p.value)) else c
  }

  /** Whether child `j` of model `i` comes before child `cj` of model `mi` in
      the order `update` visits them. */
  predicate Before(i: int, j: int, mi: int, cj: int) {
    i < mi || (i == mi && j < cj)
  }

  /** Every pose lookup `update` makes before position (mi, cj) succeeds. */
  predicate ResolvedBefore(ms: seq<ModelRecord>, readings: seq<real>, mi: int, cj: int)
    requires |readings| == |ms|
  {
    forall i, j :: 0 <= i < |ms| && 0 <= j < |ms[i].children| && Before(i, j, mi, cj) ==>
      ChildPose(ms[i], readings[i], j).Some?
  }

  predicate AllResolved(ms: seq<ModelRecord>, readings: seq<real>)
    requires |readings| == |ms|
  {
    ResolvedBefore(ms, readings, |ms|, 0)
  }

  /** The model list once `update` has posed every child before position
      (mi, cj), model `i` using clock reading `readings[i]`. */
  function Stepped(ms: seq<ModelRecord>, readings: seq<real>, mi: int, cj: int): seq<ModelRecord>
    requires |readings| == |ms|
  {
    seq(|ms|, i requires 0 <= i < |ms| =>
      ms[i].(children := seq(|ms[i].children|, j requires 0 <= j < |ms[i].children| =>
        if Before(i, j, mi, cj) then Posed(ms[i].children[j], ChildPose(ms[i], readings[i], j))
        else ms[i].children[j])))
  }

  /** Nothing is posed before the first child of the first model. */
  lemma SteppedStart(ms: seq<ModelRecord>, readings: seq<real>)
    requires |readings| == |ms|
    ensures Stepped(ms, readings, 0, 0) == ms
  {
    var r := Stepped(ms, readings, 0, 0);
    forall i | 0 <= i < |ms| ensures r[i] == ms[i] {
      assert r[i].children == ms[i].children;
    }
  }

  /** Posing one more child changes exactly that child. */
  lemma SteppedNext(ms: seq<ModelRecord>, readings: seq<real>, i: nat, j: nat)
    requires |readings| == |ms| && i < |ms| && j < |ms[i].children|
    ensures var s := Stepped(ms, readings, i, j);
      Stepped(ms, readings, i, j + 1) ==
        s[i := s[i].(children := s[i].children[j := Posed(ms[i].children[j], ChildPose(ms[i], readings[i], j))])]
  {
    var s := Stepped(ms, readings, i, j);
    var t := Stepped(ms, readings, i, j + 1);
    var u := s[i := s[i].(children := s[i].children[j := Posed(ms[i].children[j], ChildPose(ms[i], readings[i], j))])];
    forall k | 0 <= k < |ms| ensures t[k] == u[k] {
      if k == i {
        assert t[k].children == u[k].children;
      } else {
        assert t[k].children == s[k].children;
      }
    }
  }

  /** One more successful lookup extends the resolved prefix by one child. */
  lemma ResolvedNext(ms: seq<ModelRecord>, readings: seq<real>, i: nat, j: nat)
    requires |readings| == |ms| && i < |ms| && j < |ms[i].children|
    requires ResolvedBefore(ms, readings, i, j) && ChildPose(ms[i], readings[i], j).Some?
    ensures ResolvedBefore(ms, readings, i, j + 1)
  {
  }

  /** Resolving every child of model `i` is resolving everything before model `i + 1`. */
  lemma ResolvedNextModel(ms: seq<ModelRecord>, readings: seq<real>, i: nat)
    requires |readings| == |ms| && i < |ms|
    requires ResolvedBefore(ms, readings, i, |ms[i].children|)
    ensures ResolvedBefore(ms, readings, i + 1, 0)
  {
  }

  /** Finishing the children of model `i` is starting model `i + 1`. */
  lemma SteppedNextModel(ms: seq<ModelRecord>, readings: seq<real>, i: nat)
    requires |readings| == |ms| && i < |ms|
    ensures Stepped(ms, readings, i, |ms[i].children|) == Stepped(ms, readings, i + 1, 0)
  {
    var s := Stepped(ms, readings, i, |ms[i].children|);
    var t := Stepped(ms, readings, i + 1, 0);
    forall k | 0 <= k < |ms| ensures s[k] == t[k] {
      assert s[k].children == t[k].children;
    }
  }

  /** Posing leaves every name, mesh list, timing parameter and frame table
      as it was, so the lookups of a second pass find the same poses. */
  lemma SteppedKeepsStructure(ms: seq<ModelRecord>, readings: seq<real>, mi: int, cj: int)
    requires |readings| == |ms|
    ensures var r := Stepped(ms, readings, mi, cj);
      |r| == |ms| &&
      forall i :: 0 <= i < |ms| ==>
        r[i].step == ms[i].step && r[i].start == ms[i].start && r[i].stop == ms[i].stop &&
        r[i].frames == ms[i].frames && |r[i].children| == |ms[i].children| &&
        forall j :: 0 <= j < |ms[i].children| ==>
          r[i].children[j].name == ms[i].children[j].name &&
          r[i].children[j].meshes == ms[i].children[j].meshes &&
          ChildPose(r[i], readings[i], j) == ChildPose(ms[i], readings[i], j)
  {
  }

  /** When every lookup succeeds, a full pass gives each child the position
      `frames[frame][name].position[0..2]` and the quaternion
      `frames[frame][name].quaternion[0..3]`, in component order. */
  lemma FullPassPoses(ms: seq<ModelRecord>, readings: seq<real>)
    requires |readings| == |ms| && AllResolved(ms, readings)
    ensures var r := Stepped(ms, readings, |ms|, 0);
      forall i, j :: 0 <= i < |ms| && 0 <= j < |ms[i].children| ==>
        ChildPose(ms[i], readings[i], j).Some? &&
        var f := FrameOf(ms[i], readings[i]).value;
        var p := ms[i].frames[f][ms[i].children[j].name];
        r[i].children[j].transform == Transform(
          Vec3(Element(p.position, 0), Element(p.position, 1), Element(p.position, 2)),
          Quat(Element(p.quaternion, 0), Element(p.quaternion, 1), Element(p.quaternion, 2), Element(p.quaternion, 3)))
  {
  }

  /** A second full pass with the same clock readings changes nothing. */
  lemma FullPassIdempotent(ms: seq<ModelRecord>, readings: seq<real>)
    requires |readings| == |ms|
    ensures var once := Stepped(ms, readings, |ms|, 0);
      Stepped(once, readings, |once|, 0) == once
  {
    var once := Stepped(ms, readings, |ms|, 0);
    var twice := Stepped(once, readings, |once|, 0);
    SteppedKeepsStructure(ms, readings, |ms|, 0);
    forall i | 0 <= i < |ms| ensures twice[i] == once[i] {
      forall j | 0 <= j < |ms[i].children| ensures twice[i].children[j] == once[i].children[j] {
        assert Before(i, j, |ms|, 0);
      }
      assert twice[i].children == once[i].children;
    }
  }
}
