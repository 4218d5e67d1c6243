# Ego-exo human pose pipeline: a verified model of its sequential core

The human pose pipeline of `ego4d/internal/human_pose` runs in stages, selected by
a mode string. Each stage reads the previous stage's files from a per-take cache
directory:

- **preprocess** assembles one record per synchronised frame index. A record holds,
  per Aria stream, the extracted frame whose timestamp key matches the row and the
  nearest trajectory pose. Per exocentric camera it holds the zero-padded frame path
  and the first calibration row.
- **bbox** turns a projected region proposal into a box with `check_and_convert_bbox`,
  and gives the box to a person detector.
- **pose2d** runs a 2D pose model inside every saved box.
- **pose3d** triangulates the 2D poses of all exocentric cameras.
- **multi_view_vis** pastes the cameras' drawings into a 2 x 2 canvas with padding.

This project models that logic in Dafny and proves what the code guarantees. The
modules are:

- `BBoxCheck` (`bbox.dfy`): the proposal-box validator of `utils.py`. Coordinates are
  `real`, and `round` is round-half-to-even (`Rounding`, `rounding.dfy`).
- `Capture` (`capture.dfy`): `_create_json_from_capture_dir`, `_create_video` and
  `get_context`. These infer the capture metadata from the capture path and the
  video listing, build the context's directory layout and filter the exocentric cameras.
- `FrameSync` (`sync.dfy`): the frame table of `mode_preprocess`. It covers the frame
  key parsed from an Aria file name, the exact key lookup, the nearest trajectory
  row, the exocentric frame path and calibration lookup, and the row loop over
  `range(i1, i2 + 1)`. `IndexAriaFrames`, `BuildRecord` and `AssembleFrames` are the
  loops, each proved equal to a recursive specification.
- `Stages` (`stages.dfy`): the nested table-filling loops of `mode_bbox`, `mode_pose2d`
  and `mode_pose3d`. The detector, pose model, triangulator and proposal/projection
  are function parameters.
- `MultiView` (`multiview.dfy`): the tile arithmetic of `mode_multi_view_vis`, and the
  canvas as an `array2` that `PasteTile` and `Compose` fill in place.
- `Dispatch` (`dispatch.dfy`): `run`'s five-way selection.
- `Strings` (`strings.dfy`): the Python string and path operations the code uses
  (`split`, `join`, `os.path.join`, `basename`, `splitext`, `:06d`, `sorted`).
- `Wrappers` (`wrappers.dfy`): `Option` and `Result`.

An operation that raises in Python (an index out of range, a missing key, a
failed `assert`, `sys.exit(1)`) returns an `Err` that names the failure.

Where the documentation and the code disagree, the model follows the code:

- The visualisation canvas is a fixed two-by-two grid. A fifth camera makes the slice
  assignment fail (`MultiView.FifthCameraFails`); it does not grow the canvas.
- The nearest trajectory row is specified only by being nearest. The code's `argsort`
  is not stable, so which row wins a tie is left open.

## Model

| member | source | states |
|---|---|---|
| BBoxCheck.KeepInFrame | ego4d/internal/human_pose/utils.py:40-46 | a point is kept iff it is an input point with 0 <= x <= width and 0 <= y <= height (both bounds inclusive); it never adds points |
| BBoxCheck.KeptInBounds | ego4d/internal/human_pose/utils.py:40-46 | every kept point satisfies the inclusive in-frame test |
| BBoxCheck.MinOf | ego4d/internal/human_pose/utils.py:52-54 | the minimum is one of the values and is below all of them |
| BBoxCheck.MaxOf | ego4d/internal/human_pose/utils.py:53-55 | the maximum is one of the values and is above all of them |
| BBoxCheck.CheckAndConvertBBox | ego4d/internal/human_pose/utils.py:32-78 | a returned box comes from some in-frame point and satisfies 0 <= x1 <= x2 <= width and 0 <= y1 <= y2 <= height |
| BBoxCheck.Decide | ego4d/internal/human_pose/utils.py:57-78 | for a box inside the image, the rounded box it returns stays inside the image |
| BBoxCheck.KeptBoxInBounds | ego4d/internal/human_pose/utils.py:46-55 | the min/max box of the kept points lies inside the image |
| BBoxCheck.TightBoxIsComputed | ego4d/internal/human_pose/utils.py:46-55 | any four coordinates that are attained by, and bound, the in-frame points are exactly the computed x1, x2, y1, y2 |
| BBoxCheck.ComputedBoxIsTight | ego4d/internal/human_pose/utils.py:46-55 | the computed min/max box is attained by, and bounds, the in-frame points |
| BBoxCheck.CheckDecidesTightBox | ego4d/internal/human_pose/utils.py:46-78 | the result is the area/aspect decision on the tight box of the in-frame points |
| BBoxCheck.OutOfFrameRejected | ego4d/internal/human_pose/utils.py:48-50 | with no point inside the image the result is None |
| BBoxCheck.SmallBoxRejected | ego4d/internal/human_pose/utils.py:57-66 | a box with area ratio below the threshold is rejected |
| BBoxCheck.SkewedBoxRejected | ego4d/internal/human_pose/utils.py:68-72 | a box with height/width above the maximum or below the minimum aspect is rejected, and so is a zero-width box of positive height (an infinite ratio) |
| BBoxCheck.ValidBoxAccepted | ego4d/internal/human_pose/utils.py:52-78 | a box that passes both tests is returned as [round(min x), round(min y), round(max x), round(max y)] |
| BBoxCheck.AreaTestGuardsDivision | ego4d/internal/human_pose/utils.py:57-68 | with a positive area threshold, a box that passes the area test has non-zero width, so the division at line 68 is never by zero |
| BBoxCheck.AspectBoundsInclusive | ego4d/internal/human_pose/utils.py:68-72 | a ratio exactly equal to either bound is accepted |
| BBoxCheck.OnlyInFrameSetMatters | ego4d/internal/human_pose/utils.py:40-55 | two point lists with the same in-frame points give the same result |
| BBoxCheck.OrderIndependent | ego4d/internal/human_pose/utils.py:46-55 | the result does not depend on the order (or arrangement) of the input points |
| Rounding.RoundHalfEven | ego4d/internal/human_pose/utils.py:74-76 | the result is within 0.5 of the input, and even when the input is exactly halfway |
| Rounding.RoundingUnique | ego4d/internal/human_pose/utils.py:74-76 | any integer meeting the half-even conditions is the rounded value |
| Rounding.RoundInteger | ego4d/internal/human_pose/utils.py:74-76 | integers are fixed by rounding |
| Rounding.RoundMonotone | ego4d/internal/human_pose/utils.py:74-76 | rounding is monotone |
| Rounding.RoundWithin | ego4d/internal/human_pose/utils.py:74-78 | a value between two integers rounds to a value between them |
| Capture.StripTrailingSlash | ego4d/internal/human_pose/main.py:77-78 | exactly one trailing "/" is removed, and a path without one is unchanged |
| Capture.TrailingSlashIgnored | ego4d/internal/human_pose/main.py:77-78 | adding one trailing "/" to the capture path does not change the inferred metadata |
| Capture.BucketIsPrefix | ego4d/internal/human_pose/main.py:80-81 | "s3://" + bucket is a prefix of an S3 capture path and the bucket holds no "/" |
| Capture.PrefixPath | ego4d/internal/human_pose/main.py:80-84 | the intended S3 prefix is a prefix of the capture path |
| Capture.PrefixPathAsWrittenLosesBucket | ego4d/internal/human_pose/main.py:80-82 | the prefix as written is the constant "s3://{bucket_name}", which differs from the bucket root of the capture |
| Capture.AsWrittenS3Path | ego4d/internal/human_pose/main.py:96 | as written, every relative video file of an S3 capture gets the S3 path "s3://{bucket_name}/" + file, whatever the bucket |
| Capture.DeviceId | ego4d/internal/human_pose/main.py:92 | the device id is a prefix of the file's basename and contains no "/"; what follows it in the basename is empty or "." and a dot-free extension |
| Capture.DeviceIdOfFile | ego4d/internal/human_pose/main.py:92 | the device id of "dir/name.ext" (or "name.ext") is exactly the name, for a name with a non-"." character and a dot-free extension |
| Capture.CreateVideo | ego4d/internal/human_pose/main.py:91-103 | type aria iff the id contains "aria"; is_ego iff type aria; has_walkaround iff the id contains "mobile" or "aria"; the S3 path ends in the file name |
| Capture.CreateVideos | ego4d/internal/human_pose/main.py:111 | one video per listed file, in listing order |
| Capture.CreateJsonFromCaptureDir | ego4d/internal/human_pose/main.py:76-112 | the inferred metadata: names from the stripped path, "aria01", the two joined file paths and one video per listed file; its properties are MetadataExists, MetadataNames, InferredMetadataShape and InferredCacheRelDir |
| Capture.PathNames | ego4d/internal/human_pose/main.py:86-88 | the last two "/"-pieces, or the `dirs[-2]` error; see PathNamesExist and PathNamesShape |
| Capture.BucketName | ego4d/internal/human_pose/main.py:81 | the text between "s3://" and the next "/"; see BucketIsPrefix |
| Capture.PrefixPathAsWritten | ego4d/internal/human_pose/main.py:80-84 | the literal "s3://{bucket_name}" for S3 captures, the capture path otherwise; see PrefixPathAsWrittenLosesBucket and AsWrittenS3Path |
| Capture.MetadataExists | ego4d/internal/human_pose/main.py:76-88 | metadata can be inferred iff the path, trailing "/" stripped, contains "/" |
| Capture.MetadataNames | ego4d/internal/human_pose/main.py:86-88 | inferred metadata exists iff the path has two last pieces, and carries them as take id and video source |
| Capture.PathNamesExist | ego4d/internal/human_pose/main.py:86-88 | a path has a last and a second-to-last "/"-piece iff it contains "/" |
| Capture.PathNamesShape | ego4d/internal/human_pose/main.py:86-88 | the take id is the path's basename and the video source is the basename of its parent |
| Capture.NamesRelative | ego4d/internal/human_pose/main.py:130-133 | the name video_source + "_" + take_id never starts with "/", so joining it keeps the cache directory |
| Capture.SplitLastPieces | ego4d/internal/human_pose/main.py:86-88 | the last "/"-piece of a path is its basename and the second-to-last is the basename of what precedes it |
| Capture.CreatedVideoIsExo | ego4d/internal/human_pose/main.py:91-103 | a created video is neither ego nor walkaround iff its id contains neither "aria" nor "mobile" |
| Capture.ExoCamNamesFromListing | ego4d/internal/human_pose/main.py:138-142 | the exocentric camera names are the listing's device ids that contain neither "aria" nor "mobile", in listing order |
| Capture.ExoIdsMembers | ego4d/internal/human_pose/main.py:138-142 | an id is an exocentric camera name iff it contains neither "aria" nor "mobile" and is the device id of a listed file |
| Capture.ExoCamNames | ego4d/internal/human_pose/main.py:138-142 | the device ids of the videos that are neither ego nor walkaround, in order, no more of them than videos; see ExoCamNamesFromListing |
| Capture.DataDirOf | ego4d/internal/human_pose/main.py:125-127 | an absolute data dir is kept; a relative one is placed under the repository root |
| Capture.GetContext | ego4d/internal/human_pose/main.py:115-123 | with a metadata file the loaded metadata is used; without one the context exists iff the metadata can be inferred from the capture path, and is then the context of the inferred metadata |
| Capture.InferredContextNames | ego4d/internal/human_pose/main.py:115-133 | without a metadata file the context carries the inferred metadata and its cache directory is "cache/" + video_source + "_" + take_id |
| Capture.InferredContextCameras | ego4d/internal/human_pose/main.py:115-142 | without a metadata file the context's exocentric cameras are the listed device ids containing neither "aria" nor "mobile", in listing order |
| Capture.InferredMetadataShape | ego4d/internal/human_pose/main.py:86-88 | inferred metadata carries the path's basename as take id and its parent's basename as video source |
| Capture.ContextFields | ego4d/internal/human_pose/main.py:130-142 | the context keeps the metadata, the cache directory named after it and the exocentric camera names of its videos |
| Capture.CacheRelDirShape | ego4d/internal/human_pose/main.py:130-133 | the cache directory is "cache/" + video_source + "_" + take_id |
| Capture.CacheRelDirOf | ego4d/internal/human_pose/main.py:130-133 | `os.path.join("cache", video_source + "_" + take_id)`; see CacheRelDirShape |
| Capture.ContextOf | ego4d/internal/human_pose/main.py:125-191 | the context's directories, each joined under the data/cache/dataset directory, the exocentric cameras and the model files; see ContextFields and StageDirectoriesSeparate |
| Capture.InferredCacheRelDir | ego4d/internal/human_pose/main.py:130-133 | for inferred metadata the cache directory is always "cache/" + video_source + "_" + take_id |
| Capture.StageDirectoriesSeparate | ego4d/internal/human_pose/main.py:172-183 | every stage directory and data.json lie under the dataset directory, and no two stages (or a stage and its vis directory) share one |
| Capture.PathJoinInjective | ego4d/internal/human_pose/main.py:172-183 | joining distinct relative names under one directory gives distinct paths |
| FrameSync.FrameKeyOfName | ego4d/internal/human_pose/main.py:520-521 | the key of "p-a.b.jpg" is "a.b" when a and b hold no "." or "-" |
| FrameSync.FrameKey | ego4d/internal/human_pose/main.py:520-521 | the part of the file name after the last "-", cut to its first two "."-pieces; see FrameKeyOfName |
| FrameSync.FrameEntry | ego4d/internal/human_pose/main.py:513-525 | a file not ending in "jpg" is skipped; a jpg file's entry is keyed by its frame key; the entry fails iff the key is not a decimal number |
| FrameSync.FrameEntryShape | ego4d/internal/human_pose/main.py:519-523 | an entry's time is the key read as a number and its path is aria01/stream/file |
| FrameSync.IndexFramesOkIff | ego4d/internal/human_pose/main.py:513-525 | a stream's index is built iff every listed file's entry is |
| FrameSync.IndexFrames | ego4d/internal/human_pose/main.py:513-525 | one stream's dictionary comprehension in listing order; see IndexFramesOkIff, IndexFramesKeys and IndexFramesEntry |
| FrameSync.IndexFramesKeys | ego4d/internal/human_pose/main.py:519-525 | the index's keys are exactly the frame keys of the listed jpg files |
| FrameSync.IndexFramesEntry | ego4d/internal/human_pose/main.py:519-525 | each key holds the entry of the last listed file with that key, as a dictionary comprehension keeps |
| FrameSync.FrameIndexesContents | ego4d/internal/human_pose/main.py:511-526 | the index has one entry per configured stream, that stream's own index |
| FrameSync.FrameIndexes | ego4d/internal/human_pose/main.py:511-526 | the index of every configured stream, the first failure ending it; see FrameIndexesContents |
| FrameSync.IndexAriaFrames | ego4d/internal/human_pose/main.py:511-526 | the loop over the streams computes the all-streams index |
| FrameSync.ParseDecimal | ego4d/internal/human_pose/main.py:521 | a parsed number comes from non-empty text |
| FrameSync.ParsePointed | ego4d/internal/human_pose/main.py:521 | "a.b" parses iff both parts are digits and not both empty |
| FrameSync.ParseMillis | ego4d/internal/human_pose/main.py:521 | "q.rrr" parses to q + r/1000 (also line 548) |
| FrameSync.MillisText | ego4d/internal/human_pose/main.py:521 | digits q, ".", and three digits r parse to q + r/1000 |
| FrameSync.Millis | ego4d/internal/human_pose/main.py:547-548 | the millisecond count is within half a millisecond of the nanosecond time |
| FrameSync.FormattedTimeParsesBack | ego4d/internal/human_pose/main.py:547-551 | the `.3f` key of a capture time parses back to its milliseconds, so `a_info["t"]` is the rounded time |
| FrameSync.FormatSeconds3 | ego4d/internal/human_pose/main.py:547-548 | `f"{ns / 1e9:.3f}"` as the exact decimal with milliseconds rounded half to even; see Millis and FormattedTimeParsesBack |
| FrameSync.FormattedFrameKey | ego4d/internal/human_pose/main.py:519-521 | a frame file named "p-" + the formatted time + ".jpg" is a jpg whose key is that formatted time (also lines 547-548) |
| FrameSync.FormattedFrameFound | ego4d/internal/human_pose/main.py:519-526 | when such a file is listed, the formatted key is found in the stream's index (also lines 547-549) |
| FrameSync.MissingFrameFails | ego4d/internal/human_pose/main.py:547-549 | a formatted time missing from the index aborts the record with that stream and key |
| FrameSync.Iloc | ego4d/internal/human_pose/main.py:544 | `iloc[idx]` succeeds iff -len <= idx < len, counting negative indexes from the end |
| FrameSync.Column | ego4d/internal/human_pose/main.py:546-547 | a column read succeeds iff the column exists, and returns its value (also line 572) |
| FrameSync.StreamName | ego4d/internal/human_pose/main.py:532-537 | a stream has a record name iff it is one of the four known streams, and gets its mapped name (also line 558) |
| FrameSync.StreamNamesInjective | ego4d/internal/human_pose/main.py:532-537 | distinct streams get distinct record names |
| FrameSync.NearestIndex | ego4d/internal/human_pose/main.py:552-557 | the chosen row minimises the distance to the target time |
| FrameSync.Nearest | ego4d/internal/human_pose/main.py:552-557 | a row is chosen iff the trajectory is non-empty, and it is a nearest row |
| FrameSync.NearestIsNearest | ego4d/internal/human_pose/main.py:552-557 | the chosen pose belongs to the trajectory and no pose is nearer |
| FrameSync.CalibrationName | ego4d/internal/human_pose/main.py:574-578 | with a non-empty remap the name is the remapped one (missing key fails); with an empty remap it is the camera id |
| FrameSync.FirstCalibration | ego4d/internal/human_pose/main.py:580 | the chosen calibration row is the first with that gopro_uid; None iff there is none |
| FrameSync.ExoFramePath | ego4d/internal/human_pose/main.py:573 | the frame path is cam + "/" + at least six digits denoting the frame number + ".jpg" |
| FrameSync.AriaEntryShape | ego4d/internal/human_pose/main.py:545-569 | an Aria entry sits under the stream's name; it records the indexed frame path and time, frame number idx and a nearest trajectory pose |
| FrameSync.AriaEntry | ego4d/internal/human_pose/main.py:545-569 | one Aria stream's entry from the row's two columns; see AriaEntryShape and MissingFrameFails |
| FrameSync.AriaView | ego4d/internal/human_pose/main.py:547-569 | the indexed frame, the nearest trajectory row and the stream's name; see AriaViewShape |
| FrameSync.ExoEntry | ego4d/internal/human_pose/main.py:571-593 | one exocentric camera's entry; see ExoEntryShape |
| FrameSync.AriaViewShape | ego4d/internal/human_pose/main.py:550-569 | the same, once the lookup key is known |
| FrameSync.ExoEntryShape | ego4d/internal/human_pose/main.py:571-593 | an exocentric entry sits under the camera id; it records the padded frame path, the row frame number, t = None and the first calibration row of the (remapped) name |
| FrameSync.AriaEntryKey | ego4d/internal/human_pose/main.py:558 | an Aria entry is keyed by its stream's mapped name |
| FrameSync.ExoEntryKey | ego4d/internal/human_pose/main.py:582 | an exocentric entry is keyed by its camera id |
| FrameSync.AriaPartOk | ego4d/internal/human_pose/main.py:545-569 | the Aria part of a record is built iff every stream's entry is |
| FrameSync.AriaPartEntries | ego4d/internal/human_pose/main.py:545-569 | the Aria part adds exactly the streams' names, each holding that stream's entry, and keeps the other keys |
| FrameSync.ExoPartOk | ego4d/internal/human_pose/main.py:571-593 | the exocentric part is built iff every camera's entry is |
| FrameSync.ExoPartEntries | ego4d/internal/human_pose/main.py:571-593 | the exocentric part adds exactly the camera ids, each holding its entry, and keeps the other keys |
| FrameSync.RecordKeys | ego4d/internal/human_pose/main.py:542-594 | a record's keys are exactly the configured streams' names and the camera ids |
| FrameSync.RecordAt | ego4d/internal/human_pose/main.py:542-594 | the record of one synchronised index, the streams first and then the cameras; see RecordKeys, RecordCameras and RecordStreams |
| FrameSync.RecordCameras | ego4d/internal/human_pose/main.py:571-593 | in a record every camera id holds that camera's entry |
| FrameSync.RecordStreams | ego4d/internal/human_pose/main.py:545-569 | in a record every stream whose name is not also a camera id holds that stream's entry; a camera of the same name replaces it |
| FrameSync.BuildRecord | ego4d/internal/human_pose/main.py:543-594 | the loops over streams and cameras compute the record of the index |
| FrameSync.FramesOk | ego4d/internal/human_pose/main.py:542-594 | the table is built iff every record of range(i1, i2 + 1) is |
| FrameSync.Frames | ego4d/internal/human_pose/main.py:542-594 | one record per index of `range(i1, i2 + 1)`, the first failure ending it; see FramesOk and FramesContents |
| FrameSync.FramesContents | ego4d/internal/human_pose/main.py:542-594 | the table has i2 - i1 + 1 rows, row k being the record of index i1 + k |
| FrameSync.AssembleFrames | ego4d/internal/human_pose/main.py:542-594 | the row loop computes the table |
| Stages.ViewOf | ego4d/internal/human_pose/main.py:372 | a view is read iff the frame exists and has the camera |
| Stages.FillTable | ego4d/internal/human_pose/main.py:294-331 | the nested frame/camera loop computes the table specification (also lines 367-434) |
| Stages.TableDense | ego4d/internal/human_pose/main.py:294-331 | the table is built iff every entry is; it then has a row for every frame, each row's keys are the cameras and each cell is its entry (also lines 367-434) |
| Stages.FirstFrameCameras | ego4d/internal/human_pose/main.py:207-210 | the first-frame read succeeds iff there are no cameras or the first frame has all of them; an empty dataset fails (also lines 353-356) |
| Stages.Take4 | ego4d/internal/human_pose/main.py:420 | the first four numbers of the detection, or all if fewer |
| Stages.BBoxStage | ego4d/internal/human_pose/main.py:338-438 | the bbox stage computes the box table |
| Stages.BBoxEntry | ego4d/internal/human_pose/main.py:371-434 | one camera's box of one frame: the checked proposal handed to the detector; see BBoxEntryAbsence |
| Stages.BBoxes | ego4d/internal/human_pose/main.py:338-438 | the box table after the first-frame camera read; see BBoxesNeedFrames and BBoxesDense |
| Stages.BBoxesNeedFrames | ego4d/internal/human_pose/main.py:353-356 | with cameras and an empty dataset the stage fails before any loop |
| Stages.BBoxEntryAbsence | ego4d/internal/human_pose/main.py:394-420 | a box is None iff the proposal was rejected or the detector found nothing; a present box is the first four numbers of the single detection |
| Stages.BBoxesDense | ego4d/internal/human_pose/main.py:365-434 | the box table has a row for every frame and an entry for every exocentric camera |
| Stages.Pose2dEntry | ego4d/internal/human_pose/main.py:307-331 | a pose entry exists only where the saved box does, and is None iff the box is None |
| Stages.Pose2dEntryCases | ego4d/internal/human_pose/main.py:307-324 | a missing view or box fails; an absent box gives None; a present box gives the model's single pose for the box with confidence 1.0 appended, and any other number of poses fails with that count |
| Stages.Pose2dStage | ego4d/internal/human_pose/main.py:260-335 | the pose2d stage computes the pose table |
| Stages.Poses2d | ego4d/internal/human_pose/main.py:260-335 | the pose table from the saved box table, Exit(1) without one; see Poses2dNeedBoxes and Poses2dAbsence |
| Stages.Poses2dNeedBoxes | ego4d/internal/human_pose/main.py:284-289 | without bbox.pkl the stage exits with status 1 |
| Stages.Poses2dAbsence | ego4d/internal/human_pose/main.py:294-331 | the pose table is dense, and a pose is None exactly when its box is None |
| Stages.AbsencePropagates | ego4d/internal/human_pose/main.py:286-331 | across both stages, a pose is None iff the proposal was rejected or the detector found nothing (also lines 394-434) |
| Stages.MultiViewPoses | ego4d/internal/human_pose/main.py:226-229 | the per-frame dictionary exists iff every camera has a saved pose, and holds exactly those poses |
| Stages.ViewsPresent | ego4d/internal/human_pose/main.py:239-240 | the drawing loop succeeds iff the frame has every camera |
| Stages.Pose3dStage | ego4d/internal/human_pose/main.py:194-257 | the pose3d stage computes the 3D table |
| Stages.Pose3dEntry | ego4d/internal/human_pose/main.py:223-254 | one frame's triangulated pose of the cameras' 2D poses; see Pose3dEntryValue |
| Stages.Poses3d | ego4d/internal/human_pose/main.py:194-257 | the 3D pose table from the saved 2D pose table; see Poses3dNeedPoses2d and Poses3dShape |
| Stages.Poses3dFromContents | ego4d/internal/human_pose/main.py:223-236 | the loop from frame t adds exactly frames t.. each holding its frame's pose, and keeps earlier entries |
| Stages.Poses3dShape | ego4d/internal/human_pose/main.py:223-236 | the 3D table has a pose for every frame: the triangulation of all cameras' 2D poses of that frame |
| Stages.Pose3dEntryValue | ego4d/internal/human_pose/main.py:226-236 | one frame's pose is the triangulation of the cameras' saved 2D poses |
| Stages.Poses3dNeedPoses2d | ego4d/internal/human_pose/main.py:218-219 | without pose2d.pkl the stage fails |
| MultiView.OriginX | ego4d/internal/human_pose/main.py:644-647 | a tile's x origin is its column times (tile width + padding) |
| MultiView.OriginY | ego4d/internal/human_pose/main.py:645-648 | a tile's y origin is its row times (tile height + padding) |
| MultiView.FitsIff | ego4d/internal/human_pose/main.py:621-622 | a tile lies inside the canvas iff its camera is one of the first four (also lines 644-655) |
| MultiView.TilesDisjoint | ego4d/internal/human_pose/main.py:644-648 | no pixel lies in two tiles |
| MultiView.TileAt | ego4d/internal/human_pose/main.py:644-648 | the tile found for a pixel is one of the four and covers it; none found means no tile covers it |
| MultiView.TileAtFinds | ego4d/internal/human_pose/main.py:644-648 | each pixel of a fitting tile is found in that tile |
| MultiView.PasteStep | ego4d/internal/human_pose/main.py:651-655 | pasting one more camera changes exactly the pixels of its tile |
| MultiView.PasteCheck | ego4d/internal/human_pose/main.py:637-655 | the pastes succeed iff every image is readable and every camera is one of the first four; the pasted images are the read ones, in order |
| MultiView.PasteCheckStops | ego4d/internal/human_pose/main.py:637-655 | the first failure stays the failure once more cameras follow |
| MultiView.PasteTile | ego4d/internal/human_pose/main.py:651-655 | the tile's pixels become the image and all other pixels are unchanged |
| MultiView.Compose | ego4d/internal/human_pose/main.py:635-655 | the canvas fails iff a paste fails, with the first failing camera's error; otherwise every pixel shows the covering camera's image or white |
| MultiView.CellShowsCamera | ego4d/internal/human_pose/main.py:651-655 | a pixel of a pasted camera's tile shows that camera's image |
| MultiView.Cell | ego4d/internal/human_pose/main.py:634-655 | a canvas pixel after pasting: the covering camera's image pixel, else white; see CellShowsCamera and CellWhiteElsewhere |
| MultiView.CellWhiteElsewhere | ego4d/internal/human_pose/main.py:635 | a pixel no pasted tile covers stays white |
| MultiView.PaddingColumnWhite | ego4d/internal/human_pose/main.py:619-621 | the padding strip between the two columns stays white (also line 647) |
| MultiView.JpgNames | ego4d/internal/human_pose/main.py:628-632 | a name is kept iff it is listed and ends in ".jpg", as often as it is listed; a sorted listing stays sorted |
| MultiView.ImageNames | ego4d/internal/human_pose/main.py:628-632 | the names fail iff there is no camera or the first camera's directory is missing; they are sorted and are the first camera's ".jpg" files, each as often as it is listed |
| MultiView.Drawing | ego4d/internal/human_pose/main.py:637-638 | one read per camera, in camera order |
| MultiView.WriteAllOk | ego4d/internal/human_pose/main.py:634-661 | every drawing is written iff every drawing composes; the written names are the image names in order |
| MultiView.WriteAll | ego4d/internal/human_pose/main.py:634-661 | the names written in order, or the first failing drawing's error; see WriteAllOk |
| MultiView.MultiViewVis | ego4d/internal/human_pose/main.py:604-661 | the image names followed by one drawing per name; see RunMultiViewVis |
| MultiView.FifthCameraFails | ego4d/internal/human_pose/main.py:621-622 | with five readable cameras the first drawing fails at camera 4 (also lines 651-655) |
| MultiView.WriteDrawings | ego4d/internal/human_pose/main.py:634-661 | the loop over the drawings computes the written names or the first error |
| MultiView.RunMultiViewVis | ego4d/internal/human_pose/main.py:604-661 | the mode lists the drawings and composes them, as specified |
| Dispatch.ParseMode | ego4d/internal/human_pose/main.py:676-688 | an unknown mode fails with "unknown mode: " + the mode |
| Dispatch.ParseModeName | ego4d/internal/human_pose/main.py:676-686 | each mode's name selects that mode |
| Dispatch.ParseModeIff | ego4d/internal/human_pose/main.py:676-686 | a string selects a mode iff it is that mode's name |
| Dispatch.ParseModeAccepts | ego4d/internal/human_pose/main.py:676-688 | exactly the five names preprocess, bbox, pose2d, pose3d and multi_view_vis are accepted |
| Dispatch.ModeNamesDistinct | ego4d/internal/human_pose/main.py:676-686 | no two modes share a name |
| Strings.SplitJoin | ego4d/internal/human_pose/main.py:86 | joining the pieces of a split with the separator gives back the text (also line 520) |
| Strings.SplitPiecesFree | ego4d/internal/human_pose/main.py:81 | no piece of a split contains the separator (also line 86) |
| Strings.PathJoin | ego4d/internal/human_pose/main.py:96 | `os.path.join` is the second part when that is absolute, the concatenation when the first is "" or ends in "/", and the parts joined by one "/" otherwise (also lines 126, 130-137) |
| Strings.PathJoinBasename | ego4d/internal/human_pose/main.py:96 | the basename of a joined path is the basename of its non-empty second part |
| Strings.Basename | ego4d/internal/human_pose/main.py:92 | the basename is a suffix of the path without "/" that is the whole path or follows a "/" |
| Strings.BasenameUnique | ego4d/internal/human_pose/main.py:92 | those conditions determine the basename |
| Strings.StripExtension | ego4d/internal/human_pose/main.py:92 | `splitext(...)[0]` is the name cut at its last "." (so the rest is "." and dot-free text) when a non-"." character precedes that dot, and the whole name otherwise |
| Strings.StripExtensionOf | ego4d/internal/human_pose/main.py:92 | a name with a non-"." character followed by "." and a dot-free extension loses exactly that extension |
| Strings.FormatPaddedValue | ego4d/internal/human_pose/main.py:573 | `:06d` gives at least six digits that denote the number |
| Strings.Sort | ego4d/internal/human_pose/main.py:630 | `sorted` gives a sorted permutation of the listing |

## Left out

- File and network I/O are inputs, not effects. This covers `pathmgr` listings and S3,
  `os.listdir`, `os.makedirs`, pickle and JSON reading and writing, `cv2.imread` and
  `cv2.imwrite`, and hydra configuration. Directory listings, the timesync table, the
  trajectory tables, saved pickles and images are parameters.
- The video extraction subprocesses (`vrs`, and the exocentric frame extraction with
  its `imwrite` assertions) and the `ffmpeg`/`rm` commands of the multi-view mode are
  external tools whose exit status the code never checks.
- The Aria extraction window `aria_t1`/`aria_t2` is float arithmetic passed only to an
  external tool.
- `dataset_json` and its `json.dump` are not modelled: its "frames" value is
  `FrameSync.Frames`, and its two directory values are `Context.cacheRelDir` and
  `Context.datasetRelDir`.
- Camera construction and projection (`create_camera`, `batch_xworld_to_yimage`,
  `get_region_proposal`, `get_exo_camera_plane`), `create_camera_data`,
  `get_aria_camera_models`, the detector, the pose models and the triangulator are
  function parameters. A view entry keeps the device row and the arguments given to
  `create_camera_data`, but not its result or the Aria camera model.
- Floating point is exact real arithmetic. numpy's zero-area division is modelled
  (`0/0` never rejects, `h/0` always exceeds the maximum); other NaN and infinity
  behaviour is not.
- FrameSync.ParseDecimal: Python's `float()` is modelled only on plain decimal text
  (digits, an optional point, digits). Signs, exponents, whitespace, "inf" and "nan" are
  not modelled, and a file whose key is such text is reported as unparsable.
- FrameSync.FormatSeconds3: `f"{t:.3f}"` is modelled as the exact decimal rounded
  half-even to milliseconds. The binary-float rounding of `ns / 1e9` is not modelled.
- Capture.CreateJsonFromCaptureDir: each S3 video's `s3_path` is built with the
  intended bucket-root prefix (`PrefixPath`), not the literal "s3://{bucket_name}"
  the code computes (see Findings). `Capture.AsWrittenS3Path` states the path the code
  as written produces.
- Stages.BBoxEntry: the camera data of the three cameras is handed to one `propose`
  parameter that returns the projected points and the image size. The ground-plane
  normal, the human height and the half-sum of the two SLAM camera centres are
  inside it.
- Stages.Pose2dEntry: the pose model parameter returns the "keypoints" array of each
  result directly. The rest of each result dictionary is not modelled. The detector
  parameter likewise returns each detection's "bbox" array.
- The drawing of boxes and poses and the per-camera visualisation writes in the three
  stages are not modelled; only the reads of the views they need are.
- MultiView: `cv2.resize` of a camera image is an image of tile size. The two final
  canvas resizes and the write are not modelled; the model ends at the composed
  canvas and the list of names written.
- The `assert (cond, msg)` checks of `get_context` always pass (they assert a
  non-empty tuple), so they are not modelled. Nor is its rewrite of the
  configuration's pose and detector paths beyond the context's own copies.
- tqdm progress bars and `print` output are not modelled.

## Findings

| source | as written | input that shows it | evidently intended | confidence | as-written member | corrected member |
|---|---|---|---|---|---|---|
| ego4d/internal/human_pose/main.py:82 | `prefix_path = "s3://{bucket_name}"` lacks the `f` prefix, so every S3 video's `s3_path` starts with the literal text "s3://{bucket_name}" | capture dir "s3://ego-bucket/src/take1": the bucket is "ego-bucket" but the prefix is "s3://{bucket_name}" | the bucket root "s3://" + bucket name, a prefix of the capture location | high; not executed | Capture.PrefixPathAsWrittenLosesBucket | Capture.BucketIsPrefix |
