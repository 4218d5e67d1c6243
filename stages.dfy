/**
 * The three table-building stages: `mode_bbox` fills `bboxes[t][cam]`,
 * `mode_pose2d` fills `poses2d[t][cam]` from the saved boxes, and `mode_pose3d`
 * fills `poses3d[t]` from the saved 2D poses. "Absent" (None) is carried from
 * one stage to the next.
 *
 * The dataset is the sequence of synchronised frames. Camera construction and
 * projection, the region proposal, the detector, the pose model and the
 * triangulator are function parameters; image reading, drawing and writing and
 * pickle files are left out (a saved table is an `Option`, None when its file
 * does not exist).
 */
module Stages {
  import opened Wrappers
  import opened BBoxCheck

  /** The data of one camera as the dataset hands it to `create_camera`. */
  datatype CameraData = CameraData(params: seq<real>)

  /** `info[name]` for one view of a synchronised frame. */
  datatype View = View(absFramePath: string, cameraData: CameraData)

  type Frame = map<string, View>

  /** The projected region proposal of one camera, with its image size. */
  datatype Proposal = Proposal(points: seq<Point>, width: int, height: int)

  type Keypoints = seq<seq<real>>
  type Pose3d = seq<seq<real>>

  /** `detector_model.get_bboxes`: None, or the detections' boxes (x1, y1, x2, y2, score). */
  type Detector = (string, Box) -> Option<seq<seq<real>>>

  type BBoxTable = map<nat, map<string, Option<seq<real>>>>
  type Pose2dTable = map<nat, map<string, Option<Keypoints>>>

  datatype StageError =
    | EmptyDataset
    | FrameOutOfRange(t: nat)
    | MissingView(t: nat, name: string)
    | DetectorCount(t: nat, cam: string, count: nat)
    | PoseCount(t: nat, cam: string, count: nat)
    | MissingBBox(t: nat, cam: string)
    | MissingPose2d(t: nat, cam: string)
    | MissingPose2dFile
    | Exit(code: int)

  /** `dset[t][name]`. */
  function ViewOf(dset: seq<Frame>, t: nat, name: string): (r: Result<View, StageError>)
    ensures r.Ok? <==> t < |dset| && name in dset[t]
    ensures r.Ok? ==> r.value == dset[t][name]
  {
    if t >= |dset| then Err(FrameOutOfRange(t))
    else if name !in dset[t] then Err(MissingView(t, name))
    else Ok(dset[t][name])
  }

  // ---------------------------------------------------------------------------
  // The frame-by-camera table shared by the bbox and pose2d stages

  /** One frame's row: the cameras' entries in order; the first failure ends it. */
  function RowFrom<V>(entry: (nat, string) -> Result<V, StageError>, t: nat, cams: seq<string>,
                      acc: map<string, V>): Result<map<string, V>, StageError>
    decreases |cams|
  {
    if cams == [] then Ok(acc)
    else
      var v :- entry(t, cams[0]);
      RowFrom(entry, t, cams[1..], acc[cams[0] := v])
  }

  /** The rows of frames `t` to `n - 1`, added to `acc`. */
  function TableFrom<V>(entry: (nat, string) -> Result<V, StageError>, t: nat, n: nat, cams: seq<string>,
                        acc: map<nat, map<string, V>>): Result<map<nat, map<string, V>>, StageError>
    decreases n - t
  {
    if t >= n then Ok(acc)
    else
      var row :- RowFrom(entry, t, cams, map[]);
      TableFrom(entry, t + 1, n, cams, acc[t := row])
  }

  function Table<V>(entry: (nat, string) -> Result<V, StageError>, n: nat, cams: seq<string>): Result<map<nat, map<string, V>>, StageError> {
    TableFrom(entry, 0, n, cams, map[])
  }

  /** The nested loops `for t in range(n): table[t] = {}; for cam in cams: table[t][cam] = ...`. */
  method FillTable<V>(entry: (nat, string) -> Result<V, StageError>, n: nat, cams: seq<string>)
    returns (r: Result<map<nat, map<string, V>>, StageError>)
    ensures r == Table(entry, n, cams)
  {
    var table: map<nat, map<string, V>> := map[];
    var t: nat := 0;
    while t < n
      invariant t <= n
      invariant TableFrom(entry, t, n, cams, table) == Table(entry, n, cams)
    {
      ghost var before := table;
      table := table[t := map[]];
      var j := 0;
      while j < |cams|
        invariant 0 <= j <= |cams|
        invariant t in table && table == before[t := table[t]]
        invariant RowFrom(entry, t, cams[j..], table[t]) == RowFrom(entry, t, cams, map[])
      {
        assert cams[j..][1..] == cams[j + 1..];
        var v := entry(t, cams[j]);
        if v.Err? {
          return Err(v.error);
        }
        table := table[t := table[t][cams[j] := v.value]];
        j := j + 1;
      }
      assert cams[j..] == [];
      t := t + 1;
    }
    return Ok(table);
  }

  /** A row exists iff every camera's entry does. */
  lemma {:induction false} RowFromOk<V>(entry: (nat, string) -> Result<V, StageError>, t: nat, cams: seq<string>, acc: map<string, V>)
    ensures RowFrom(entry, t, cams, acc).Ok? <==> forall c :: c in cams ==> entry(t, c).Ok?
    decreases |cams|
  {
    if cams != [] {
      assert forall c :: c in cams <==> c == cams[0] || c in cams[1..];
      if entry(t, cams[0]).Ok? {
        RowFromOk(entry, t, cams[1..], acc[cams[0] := entry(t, cams[0]).value]);
      }
    }
  }

  /** A row holds every camera's entry (and keeps any other key of `acc`). */
  lemma {:induction false} RowFromContents<V>(entry: (nat, string) -> Result<V, StageError>, t: nat, cams: seq<string>, acc: map<string, V>)
    requires RowFrom(entry, t, cams, acc).Ok?
    ensures RowFrom(entry, t, cams, acc).value.Keys == acc.Keys + set c | c in cams
    ensures forall c :: c in cams ==> entry(t, c) == Ok(RowFrom(entry, t, cams, acc).value[c])
    ensures forall k :: k in acc && k !in cams ==> RowFrom(entry, t, cams, acc).value[k] == acc[k]
    decreases |cams|
  {
    if cams != [] {
      assert forall c :: c in cams <==> c == cams[0] || c in cams[1..];
      RowFromContents(entry, t, cams[1..], acc[cams[0] := entry(t, cams[0]).value]);
    }
  }

  /** The table exists iff every entry of frames `t..n-1` does. */
  lemma {:induction false} TableFromOk<V>(entry: (nat, string) -> Result<V, StageError>, t: nat, n: nat, cams: seq<string>,
                                          acc: map<nat, map<string, V>>)
    ensures TableFrom(entry, t, n, cams, acc).Ok? <==>
      forall u, c :: t <= u < n && c in cams ==> entry(u, c).Ok?
    decreases n - t
  {
    if t < n {
      RowFromOk(entry, t, cams, map[]);
      var row := RowFrom(entry, t, cams, map[]);
      if row.Ok? {
        TableFromOk(entry, t + 1, n, cams, acc[t := row.value]);
      }
    }
  }

  /** The table has a row for every frame `t..n-1` and an entry for every camera. */
  lemma {:induction false} TableFromContents<V>(entry: (nat, string) -> Result<V, StageError>, t: nat, n: nat, cams: seq<string>,
                                                acc: map<nat, map<string, V>>)
    requires TableFrom(entry, t, n, cams, acc).Ok?
    ensures forall u: nat :: u in TableFrom(entry, t, n, cams, acc).value <==> u in acc || t <= u < n
    ensures forall u :: t <= u < n ==> TableFrom(entry, t, n, cams, acc).value[u].Keys == set c | c in cams
    ensures forall u, c :: t <= u < n && c in cams ==> entry(u, c) == Ok(TableFrom(entry, t, n, cams, acc).value[u][c])
    ensures forall u :: u in acc && !(t <= u < n) ==> TableFrom(entry, t, n, cams, acc).value[u] == acc[u]
    decreases n - t
  {
    if t < n {
      var row := RowFrom(entry, t, cams, map[]).value;
      RowFromContents(entry, t, cams, map[]);
      TableFromContents(entry, t + 1, n, cams, acc[t := row]);
    }
  }

  /** Density: a built table has exactly the rows `0..n-1`, each with exactly the
    * cameras, each holding that camera's entry. */
  lemma TableDense<V>(entry: (nat, string) -> Result<V, StageError>, n: nat, cams: seq<string>)
    ensures Table(entry, n, cams).Ok? <==> forall u, c :: 0 <= u < n && c in cams ==> entry(u, c).Ok?
    ensures Table(entry, n, cams).Ok? ==> forall u: nat :: u in Table(entry, n, cams).value <==> u < n
    ensures Table(entry, n, cams).Ok? ==> forall u :: 0 <= u < n ==> Table(entry, n, cams).value[u].Keys == set c | c in cams
    ensures Table(entry, n, cams).Ok? ==>
      forall u, c :: 0 <= u < n && c in cams ==> entry(u, c) == Ok(Table(entry, n, cams).value[u][c])
  {
    TableFromOk(entry, 0, n, cams, map[]);
    if Table(entry, n, cams).Ok? {
      TableFromContents(entry, 0, n, cams, map[]);
    }
  }

  // ---------------------------------------------------------------------------
  // mode_bbox

  /** `dset[0][cam]` for every camera (lines 207-210 and 353-356): with cameras, an empty
    * dataset or a first frame without one of them ends the stage. */
  function FirstFrameCameras(dset: seq<Frame>, cams: seq<string>): (r: Result<(), StageError>)
    ensures r.Ok? <==> cams == [] || (|dset| > 0 && forall c :: c in cams ==> c in dset[0])
    ensures cams != [] && |dset| == 0 ==> r == Err(EmptyDataset)
    decreases |cams|
  {
    if cams == [] then Ok(())
    else if |dset| == 0 then Err(EmptyDataset)
    else if cams[0] !in dset[0] then Err(MissingView(0, cams[0]))
    else
      assert forall c :: c in cams <==> c == cams[0] || c in cams[1..];
      FirstFrameCameras(dset, cams[1..])
  }

  /** The first four numbers of a detection (`bbox[:4]`). */
  function Take4(xs: seq<real>): (r: seq<real>)
    ensures |r| == if |xs| < 4 then |xs| else 4
    ensures forall i :: 0 <= i < |r| ==> r[i] == xs[i]
  {
    xs[..if |xs| < 4 then |xs| else 4]
  }

  /** The proposal of camera `cam` at frame `t`: projected from the camera and the two
    * Aria SLAM cameras of that frame (lines 379-393). */
  function ProposalAt(dset: seq<Frame>, propose: (CameraData, CameraData, CameraData) -> Proposal,
                      t: nat, cam: string): Result<(View, Proposal), StageError>
  {
    var v :- ViewOf(dset, t, cam);
    var left :- ViewOf(dset, t, "aria_slam_left");
    var right :- ViewOf(dset, t, "aria_slam_right");
    Ok((v, propose(v.cameraData, left.cameraData, right.cameraData)))
  }

  /** Lines 371-434, one camera of one frame: the proposal box is checked and, when it
    * is kept, handed to the detector, which must find exactly one person. */
  function BBoxEntry(dset: seq<Frame>, propose: (CameraData, CameraData, CameraData) -> Proposal,
                     detect: Detector, t: nat, cam: string): Result<Option<seq<real>>, StageError>
  {
    var vp :- ProposalAt(dset, propose, t, cam);
    var prop := vp.1;
    match CheckAndConvertBBox(prop.points, prop.width, prop.height, DefaultThresholds)
    case None => Ok(None)
    case Some(box) =>
      match detect(vp.0.absFramePath, box)
      case None => Ok(None)
      case Some(found) =>
        if |found| != 1 then Err(DetectorCount(t, cam, |found|))
        else Ok(Some(Take4(found[0])))
  }

  /** Lines 338-438: `bboxes`. */
  function BBoxes(dset: seq<Frame>, cams: seq<string>, propose: (CameraData, CameraData, CameraData) -> Proposal,
                  detect: Detector): Result<BBoxTable, StageError>
  {
    var _ :- FirstFrameCameras(dset, cams);
    Table((t, c) => BBoxEntry(dset, propose, detect, t, c), |dset|, cams)
  }

  method BBoxStage(dset: seq<Frame>, cams: seq<string>, propose: (CameraData, CameraData, CameraData) -> Proposal,
                   detect: Detector) returns (r: Result<BBoxTable, StageError>)
    ensures r == BBoxes(dset, cams, propose, detect)
  {
    var first := FirstFrameCameras(dset, cams);
    if first.Err? {
      return Err(first.error);
    }
    r := FillTable((t, c) => BBoxEntry(dset, propose, detect, t, c), |dset|, cams);
  }

  /** Lines 353-356: with cameras configured, an empty dataset ends the bbox stage. */
  lemma BBoxesNeedFrames(dset: seq<Frame>, cams: seq<string>, propose: (CameraData, CameraData, CameraData) -> Proposal,
                         detect: Detector)
    requires cams != [] && |dset| == 0
    ensures BBoxes(dset, cams, propose, detect) == Err(EmptyDataset)
  {
  }

  /** Lines 394-420: a box is absent iff the proposal was rejected or the detector
    * returned None; a present box is the first four numbers of the single detection. */
  lemma BBoxEntryAbsence(dset: seq<Frame>, propose: (CameraData, CameraData, CameraData) -> Proposal,
                         detect: Detector, t: nat, cam: string)
    requires BBoxEntry(dset, propose, detect, t, cam).Ok?
    ensures ProposalAt(dset, propose, t, cam).Ok?
    ensures var vp := ProposalAt(dset, propose, t, cam).value;
      var box := CheckAndConvertBBox(vp.1.points, vp.1.width, vp.1.height, DefaultThresholds);
      BBoxEntry(dset, propose, detect, t, cam).value.None? <==>
        box.None? || detect(vp.0.absFramePath, box.value).None?
    ensures var vp := ProposalAt(dset, propose, t, cam).value;
      var box := CheckAndConvertBBox(vp.1.points, vp.1.width, vp.1.height, DefaultThresholds);
      BBoxEntry(dset, propose, detect, t, cam).value.Some? ==>
        |detect(vp.0.absFramePath, box.value).value| == 1 &&
        BBoxEntry(dset, propose, detect, t, cam).value.value == Take4(detect(vp.0.absFramePath, box.value).value[0])
  {
  }

  /** Lines 367-434: the box table has a row for every frame and an entry for every
    * camera, each that camera's box of that frame. */
  lemma BBoxesDense(dset: seq<Frame>, cams: seq<string>, propose: (CameraData, CameraData, CameraData) -> Proposal,
                    detect: Detector)
    requires BBoxes(dset, cams, propose, detect).Ok?
    ensures var b := BBoxes(dset, cams, propose, detect).value;
      forall t: nat :: t in b <==> t < |dset|
    ensures var b := BBoxes(dset, cams, propose, detect).value;
      forall t :: 0 <= t < |dset| ==> b[t].Keys == set c | c in cams
    ensures var b := BBoxes(dset, cams, propose, detect).value;
      forall t, c :: 0 <= t < |dset| && c in cams ==> BBoxEntry(dset, propose, detect, t, c) == Ok(b[t][c])
  {
    var entry := (t, c) => BBoxEntry(dset, propose, detect, t, c);
    assert BBoxes(dset, cams, propose, detect) == Table(entry, |dset|, cams);
    TableDense(entry, |dset|, cams);
    assert forall t, c :: entry(t, c) == BBoxEntry(dset, propose, detect, t, c);
  }

  // ---------------------------------------------------------------------------
  // mode_pose2d

  /** `pose_model.get_poses2d` on one box with its confidence: the keypoints of each pose found. */
  type PoseModel = (string, seq<real>) -> seq<Keypoints>

  /** Lines 307-331, one camera of one frame: the saved box decides; an absent box gives
    * an absent pose, a present one (with confidence 1.0 appended) must yield exactly one pose. */
  function Pose2dEntry(dset: seq<Frame>, bboxes: BBoxTable, pose: PoseModel, t: nat, cam: string): (r: Result<Option<Keypoints>, StageError>)
    ensures r.Ok? ==> t in bboxes && cam in bboxes[t] && (r.value.None? <==> bboxes[t][cam].None?)
  {
    var v :- ViewOf(dset, t, cam);
    if t !in bboxes || cam !in bboxes[t] then Err(MissingBBox(t, cam))
    else
      match bboxes[t][cam]
      case None => Ok(None)
      case Some(b) =>
        var results := pose(v.absFramePath, b + [1.0]);
        if |results| != 1 then Err(PoseCount(t, cam, |results|))
        else Ok(Some(results[0]))
  }

  /** Lines 307-324, case by case: a missing view or box fails; an absent box gives an
    * absent pose; a present box asks the model once, with confidence 1.0 appended,
    * and gives its single pose, or fails with the count when it found another number. */
  lemma Pose2dEntryCases(dset: seq<Frame>, bboxes: BBoxTable, pose: PoseModel, t: nat, cam: string)
    ensures ViewOf(dset, t, cam).Err? ==> Pose2dEntry(dset, bboxes, pose, t, cam) == Err(ViewOf(dset, t, cam).error)
    ensures ViewOf(dset, t, cam).Ok? && (t !in bboxes || cam !in bboxes[t]) ==>
      Pose2dEntry(dset, bboxes, pose, t, cam) == Err(MissingBBox(t, cam))
    ensures ViewOf(dset, t, cam).Ok? && t in bboxes && cam in bboxes[t] && bboxes[t][cam].None? ==>
      Pose2dEntry(dset, bboxes, pose, t, cam) == Ok(None)
    ensures ViewOf(dset, t, cam).Ok? && t in bboxes && cam in bboxes[t] && bboxes[t][cam].Some? ==>
      var results := pose(ViewOf(dset, t, cam).value.absFramePath, bboxes[t][cam].value + [1.0]);
      && (|results| == 1 ==> Pose2dEntry(dset, bboxes, pose, t, cam) == Ok(Some(results[0])))
      && (|results| != 1 ==> Pose2dEntry(dset, bboxes, pose, t, cam) == Err(PoseCount(t, cam, |results|)))
  {
  }

  /** Lines 260-335: `poses2d`, from the saved box table (None when "bbox.pkl" is missing). */
  function Poses2d(dset: seq<Frame>, cams: seq<string>, bboxFile: Option<BBoxTable>, pose: PoseModel): Result<Pose2dTable, StageError> {
    match bboxFile
    case None => Err(Exit(1))
    case Some(bboxes) => Table((t, c) => Pose2dEntry(dset, bboxes, pose, t, c), |dset|, cams)
  }

  method Pose2dStage(dset: seq<Frame>, cams: seq<string>, bboxFile: Option<BBoxTable>, pose: PoseModel)
    returns (r: Result<Pose2dTable, StageError>)
    ensures r == Poses2d(dset, cams, bboxFile, pose)
  {
    if bboxFile.None? {
      return Err(Exit(1));
    }
    var bboxes := bboxFile.value;
    r := FillTable((t, c) => Pose2dEntry(dset, bboxes, pose, t, c), |dset|, cams);
  }

  /** Lines 284-289: without a saved box table the stage exits with status 1 before any loop. */
  lemma Poses2dNeedBoxes(dset: seq<Frame>, cams: seq<string>, pose: PoseModel)
    ensures Poses2d(dset, cams, None, pose) == Err(Exit(1))
  {
  }

  /** Lines 294-331: the pose table has a row for every frame and an entry for every
    * camera; the saved box table has that entry too, and the pose is absent exactly
    * when the box is. */
  lemma Poses2dAbsence(dset: seq<Frame>, cams: seq<string>, bboxes: BBoxTable, pose: PoseModel)
    requires Poses2d(dset, cams, Some(bboxes), pose).Ok?
    ensures var p := Poses2d(dset, cams, Some(bboxes), pose).value;
      forall t: nat :: t in p <==> t < |dset|
    ensures var p := Poses2d(dset, cams, Some(bboxes), pose).value;
      forall t :: 0 <= t < |dset| ==> p[t].Keys == set c | c in cams
    ensures var p := Poses2d(dset, cams, Some(bboxes), pose).value;
      forall t, c :: 0 <= t < |dset| && c in cams ==>
        t in bboxes && c in bboxes[t] && (p[t][c].None? <==> bboxes[t][c].None?)
  {
    var entry := (t, c) => Pose2dEntry(dset, bboxes, pose, t, c);
    assert Poses2d(dset, cams, Some(bboxes), pose) == Table(entry, |dset|, cams);
    TableDense(entry, |dset|, cams);
    var p: Pose2dTable := Poses2d(dset, cams, Some(bboxes), pose).value;
    forall t: nat, c: string | t < |dset| && c in cams
      ensures t in bboxes && c in bboxes[t] && (p[t][c].None? <==> bboxes[t][c].None?)
    {
      assert entry(t, c) == Ok(p[t][c]);
      assert Pose2dEntry(dset, bboxes, pose, t, c) == Ok(p[t][c]);
    }
  }

  /** Absence carried through two stages: when the 2D poses are computed from the box
    * table the bbox stage produced, a camera's pose is absent exactly when its proposal
    * was rejected or the detector found nothing. */
  lemma AbsencePropagates(dset: seq<Frame>, cams: seq<string>, propose: (CameraData, CameraData, CameraData) -> Proposal,
                          detect: Detector, pose: PoseModel, t: nat, cam: string)
    requires BBoxes(dset, cams, propose, detect).Ok?
    requires Poses2d(dset, cams, Some(BBoxes(dset, cams, propose, detect).value), pose).Ok?
    requires t < |dset| && cam in cams
    ensures ProposalAt(dset, propose, t, cam).Ok?
    ensures var p := Poses2d(dset, cams, Some(BBoxes(dset, cams, propose, detect).value), pose).value;
      t in p && cam in p[t]
    ensures var vp := ProposalAt(dset, propose, t, cam).value;
      var box := CheckAndConvertBBox(vp.1.points, vp.1.width, vp.1.height, DefaultThresholds);
      var p := Poses2d(dset, cams, Some(BBoxes(dset, cams, propose, detect).value), pose).value;
      p[t][cam].None? <==> box.None? || detect(vp.0.absFramePath, box.value).None?
  {
    var b := BBoxes(dset, cams, propose, detect).value;
    BBoxesDense(dset, cams, propose, detect);
    BBoxEntryAbsence(dset, propose, detect, t, cam);
    Poses2dAbsence(dset, cams, b, pose);
  }

  // ---------------------------------------------------------------------------
  // mode_pose3d

  /** `Triangulator(t, cams, exo_cameras, multi_view_pose2d).run()`; the cameras are the
    * fixed ones built from the first frame. */
  type Triangulate = (nat, map<string, Option<Keypoints>>) -> Pose3d

  /** Lines 226-229: `{cam: poses2d[t][cam] for cam in cams}`, added to `acc`. */
  function MultiViewPoses(poses2d: Pose2dTable, t: nat, cams: seq<string>, acc: map<string, Option<Keypoints>>)
    : (r: Result<map<string, Option<Keypoints>>, StageError>)
    ensures r.Ok? <==> forall c :: c in cams ==> t in poses2d && c in poses2d[t]
    ensures r.Ok? ==> r.value.Keys == acc.Keys + set c | c in cams
    ensures r.Ok? ==> forall c :: c in cams ==> r.value[c] == poses2d[t][c]
    ensures r.Ok? ==> forall c :: c in acc && c !in cams ==> r.value[c] == acc[c]
    decreases |cams|
  {
    if cams == [] then Ok(acc)
    else
      assert forall c :: c in cams <==> c == cams[0] || c in cams[1..];
      assert cams[0] in cams;
      if t !in poses2d || cams[0] !in poses2d[t] then Err(MissingPose2d(t, cams[0]))
      else MultiViewPoses(poses2d, t, cams[1..], acc[cams[0] := poses2d[t][cams[0]]])
  }

  /** Lines 239-251: every camera view of frame `t` is read for drawing. */
  function ViewsPresent(dset: seq<Frame>, t: nat, cams: seq<string>): (r: Result<(), StageError>)
    ensures r.Ok? <==> forall c :: c in cams ==> t < |dset| && c in dset[t]
    decreases |cams|
  {
    if cams == [] then Ok(())
    else
      assert forall c :: c in cams <==> c == cams[0] || c in cams[1..];
      assert cams[0] in cams;
      var _ :- ViewOf(dset, t, cams[0]);
      ViewsPresent(dset, t, cams[1..])
  }

  /** Lines 223-254, one frame: the triangulated pose of the cameras' 2D poses. */
  function Pose3dEntry(dset: seq<Frame>, poses2d: Pose2dTable, cams: seq<string>, tri: Triangulate, t: nat): Result<Pose3d, StageError> {
    var views :- MultiViewPoses(poses2d, t, cams, map[]);
    var pose3d := tri(t, views);
    var _ :- ViewsPresent(dset, t, cams);
    Ok(pose3d)
  }

  /** The poses of frames `t` to `n - 1`, added to `acc`. */
  function Poses3dFrom(dset: seq<Frame>, poses2d: Pose2dTable, cams: seq<string>, tri: Triangulate,
                       t: nat, acc: map<nat, Pose3d>): Result<map<nat, Pose3d>, StageError>
    decreases |dset| - t
  {
    if t >= |dset| then Ok(acc)
    else
      var p :- Pose3dEntry(dset, poses2d, cams, tri, t);
      Poses3dFrom(dset, poses2d, cams, tri, t + 1, acc[t := p])
  }

  /** Lines 194-257: `poses3d`, from the saved 2D pose table (None when "pose2d.pkl" is missing). */
  function Poses3d(dset: seq<Frame>, cams: seq<string>, pose2dFile: Option<Pose2dTable>, tri: Triangulate): Result<map<nat, Pose3d>, StageError> {
    var _ :- FirstFrameCameras(dset, cams);
    match pose2dFile
    case None => Err(MissingPose2dFile)
    case Some(poses2d) => Poses3dFrom(dset, poses2d, cams, tri, 0, map[])
  }

  method Pose3dStage(dset: seq<Frame>, cams: seq<string>, pose2dFile: Option<Pose2dTable>, tri: Triangulate)
    returns (r: Result<map<nat, Pose3d>, StageError>)
    ensures r == Poses3d(dset, cams, pose2dFile, tri)
  {
    var first := FirstFrameCameras(dset, cams);
    if first.Err? {
      return Err(first.error);
    }
    if pose2dFile.None? {
      return Err(MissingPose2dFile);
    }
    var poses2d := pose2dFile.value;
    var poses3d: map<nat, Pose3d> := map[];
    var t: nat := 0;
    while t < |dset|
      invariant t <= |dset|
      invariant Poses3dFrom(dset, poses2d, cams, tri, t, poses3d) == Poses3d(dset, cams, pose2dFile, tri)
    {
      var views := MultiViewPoses(poses2d, t, cams, map[]);
      if views.Err? {
        return Err(views.error);
      }
      var pose3d := tri(t, views.value);
      poses3d := poses3d[t := pose3d];
      var j := 0;
      while j < |cams|
        invariant 0 <= j <= |cams|
        invariant ViewsPresent(dset, t, cams[j..]) == ViewsPresent(dset, t, cams)
      {
        assert cams[j..][1..] == cams[j + 1..];
        var v := ViewOf(dset, t, cams[j]);
        if v.Err? {
          return Err(v.error);
        }
        j := j + 1;
      }
      assert cams[j..] == [];
      t := t + 1;
    }
    return Ok(poses3d);
  }

  /** The poses of frames `t..n-1`, each the triangulation of that frame's 2D poses. */
  lemma {:induction false} Poses3dFromContents(dset: seq<Frame>, poses2d: Pose2dTable, cams: seq<string>, tri: Triangulate,
                                               t: nat, acc: map<nat, Pose3d>)
    requires Poses3dFrom(dset, poses2d, cams, tri, t, acc).Ok?
    ensures forall u: nat :: u in Poses3dFrom(dset, poses2d, cams, tri, t, acc).value <==> u in acc || t <= u < |dset|
    ensures forall u :: t <= u < |dset| ==> Pose3dEntry(dset, poses2d, cams, tri, u) == Ok(Poses3dFrom(dset, poses2d, cams, tri, t, acc).value[u])
    ensures forall u :: u in acc && !(t <= u < |dset|) ==> Poses3dFrom(dset, poses2d, cams, tri, t, acc).value[u] == acc[u]
    decreases |dset| - t
  {
    if t < |dset| {
      var p := Pose3dEntry(dset, poses2d, cams, tri, t).value;
      Poses3dFromContents(dset, poses2d, cams, tri, t + 1, acc[t := p]);
    }
  }

  /** Lines 223-236: the 3D table has a pose for every frame, the triangulation of the
    * configured cameras' saved 2D poses of that frame (absent ones included). */
  lemma Poses3dShape(dset: seq<Frame>, cams: seq<string>, poses2d: Pose2dTable, tri: Triangulate)
    requires Poses3d(dset, cams, Some(poses2d), tri).Ok?
    ensures var p := Poses3d(dset, cams, Some(poses2d), tri).value;
      forall t: nat :: t in p <==> t < |dset|
    ensures var p := Poses3d(dset, cams, Some(poses2d), tri).value;
      forall t :: 0 <= t < |dset| ==>
        && (forall c :: c in cams ==> t in poses2d && c in poses2d[t])
        && p[t] == tri(t, map c | c in cams :: poses2d[t][c])
  {
    Poses3dFromContents(dset, poses2d, cams, tri, 0, map[]);
    var p := Poses3d(dset, cams, Some(poses2d), tri).value;
    forall t | 0 <= t < |dset|
      ensures (forall c :: c in cams ==> t in poses2d && c in poses2d[t])
      ensures p[t] == tri(t, map c | c in cams :: poses2d[t][c])
    {
      assert Pose3dEntry(dset, poses2d, cams, tri, t) == Ok(p[t]);
      Pose3dEntryValue(dset, poses2d, cams, tri, t);
    }
  }

  /** One frame's entry is the triangulation of exactly the cameras' saved 2D poses. */
  lemma Pose3dEntryValue(dset: seq<Frame>, poses2d: Pose2dTable, cams: seq<string>, tri: Triangulate, t: nat)
    requires Pose3dEntry(dset, poses2d, cams, tri, t).Ok?
    ensures forall c :: c in cams ==> t in poses2d && c in poses2d[t]
    ensures Pose3dEntry(dset, poses2d, cams, tri, t).value == tri(t, map c | c in cams :: poses2d[t][c])
  {
    var views := MultiViewPoses(poses2d, t, cams, map[]).value;
    assert views == map c | c in cams :: poses2d[t][c];
  }

  /** Lines 218-219: without a saved 2D pose table the stage fails (after the first-frame
    * camera check). */
  lemma Poses3dNeedPoses2d(dset: seq<Frame>, cams: seq<string>, tri: Triangulate)
    requires FirstFrameCameras(dset, cams).Ok?
    ensures Poses3d(dset, cams, None, tri) == Err(MissingPose2dFile)
  {
  }
}
