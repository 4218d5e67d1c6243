/**
 * Capture metadata inferred from a capture directory and its video listing,
 * and the derived run context: names, cache/dataset directory layout and the
 * list of exocentric cameras.
 */
module Capture {
  import opened Wrappers
  import opened Strings

  datatype DeviceType = Aria | GoPro

  /** One entry of the metadata's "videos" list. */
  datatype Video = Video(deviceId: string, deviceType: DeviceType, isEgo: bool,
                         hasWalkaround: bool, s3Path: string)

  datatype Metadata = Metadata(takeId: string, videoSource: string, egoId: string,
                               timesyncCsvPath: string, previewPath: string, videos: seq<Video>)

  datatype CaptureError =
    /** `dirs[-2]` raised: the capture path has no "/" once its trailing "/" is removed. */
    | NoParentDirectory(captureDir: string)

  const S3Scheme := "s3://"

  /** Line 77-78: exactly one trailing "/" is removed. */
  function StripTrailingSlash(d: string): (r: string)
    ensures EndsWith(d, "/") ==> d == r + "/"
    ensures !EndsWith(d, "/") ==> r == d
  {
    if EndsWith(d, "/") then d[..|d| - 1] else d
  }

  lemma SchemeSplitsFirst(d: string)
    requires StartsWith(d, S3Scheme)
    ensures |Split(d, S3Scheme)| >= 2
    ensures Split(d, S3Scheme)[1] == Split(d[|S3Scheme|..], S3Scheme)[0]
  {
    assert Find(d, S3Scheme) == Some(0);
  }

  /** Line 81: `capture_dir.split("s3://")[1].split("/")[0]`. */
  function BucketName(d: string): string
    requires StartsWith(d, S3Scheme)
  {
    SchemeSplitsFirst(d);
    Split(Split(d, S3Scheme)[1], "/")[0]
  }

  /** Lines 80-84 as written: the S3 prefix is the literal text "s3://{bucket_name}"
    * (the string is not an f-string, so the bucket is never substituted). */
  function PrefixPathAsWritten(d: string): string {
    if StartsWith(d, S3Scheme) then "s3://{bucket_name}" else d
  }

  /** Lines 80-84 as intended: the S3 prefix is the bucket root "s3://" + bucket. */
  function PrefixPath(d: string): (r: string)
    ensures StartsWith(d, r)
  {
    if StartsWith(d, S3Scheme) then
      BucketIsPrefix(d);
      S3Scheme + BucketName(d)
    else d
  }

  /** The intended prefix is the capture location's own bucket root: a prefix of it. */
  lemma BucketIsPrefix(d: string)
    requires StartsWith(d, S3Scheme)
    ensures StartsWith(d, S3Scheme + BucketName(d))
    ensures !Contains(BucketName(d), "/")
  {
    var rest := d[|S3Scheme|..];
    SchemeSplitsFirst(d);
    var afterScheme := Split(rest, S3Scheme)[0];
    SplitFirst(rest, S3Scheme);
    SplitFirst(afterScheme, "/");
    SplitPiecesFree(afterScheme, "/");
    var b := BucketName(d);
    assert StartsWith(rest, b);
    assert d == S3Scheme + rest;
    assert (S3Scheme + b) == d[..|S3Scheme + b|];
  }

  /** The as-written prefix is the same constant for every S3 capture, so it differs
    * from the capture's bucket root whenever the bucket is not literally named
    * "{bucket_name}". */
  lemma PrefixPathAsWrittenLosesBucket(d: string)
    requires StartsWith(d, S3Scheme)
    requires BucketName(d) != "{bucket_name}"
    ensures PrefixPathAsWritten(d) == "s3://{bucket_name}"
    ensures PrefixPathAsWritten(d) != PrefixPath(d)
  {
    var b := BucketName(d);
    assert PrefixPath(d) == S3Scheme + b;
    assert (S3Scheme + b)[|S3Scheme|..] == b;
    assert "s3://{bucket_name}"[|S3Scheme|..] == "{bucket_name}";
  }

  /** Line 96 as written: for an S3 capture every relative video file's S3 path is
    * the literal "s3://{bucket_name}/" followed by the file, whatever the bucket. */
  lemma AsWrittenS3Path(d: string, f: string)
    requires StartsWith(d, S3Scheme) && !StartsWith(f, "/")
    ensures PathJoin(PrefixPathAsWritten(d), f) == "s3://{bucket_name}/" + f
  {
    assert "s3://{bucket_name}"[|"s3://{bucket_name}"| - 1] == '}';
  }

  /** Line 92: `os.path.splitext(os.path.basename(f))[0]`. */
  function DeviceId(f: string): (id: string)
    ensures EndsWith(f, Basename(f)) && StartsWith(Basename(f), id)
    ensures forall k :: 0 <= k < |id| ==> id[k] != '/'
    ensures var b := Basename(f); |id| < |b| ==> b[|id|] == '.' && CharFree(b[|id| + 1..], '.')
  {
    StripExtension(Basename(f))
  }

  /** The device id of "<dir>/<name>.<ext>" is the name, for a name that holds a
    * non-"." character and an extension without "." (a bare "<name>.<ext>" alike). */
  lemma DeviceIdOfFile(dir: string, n: string, e: string)
    requires CharFree(n, '/') && CharFree(e, '/') && CharFree(e, '.')
    requires exists k :: 0 <= k < |n| && n[k] != '.'
    ensures DeviceId(dir + "/" + n + "." + e) == n
    ensures DeviceId(n + "." + e) == n
  {
    var b := n + "." + e;
    assert CharFree(b, '/') by {
      forall k | 0 <= k < |b| ensures b[k] != '/' {
        if k < |n| { assert b[k] == n[k]; } else if k > |n| { assert b[k] == e[k - |n| - 1]; }
      }
    }
    assert dir + "/" + n + "." + e == dir + "/" + b;
    BasenameOfJoin(dir, b);
    BasenameOfPlain(b);
    StripExtensionOf(n, e);
  }

  /** `_create_video`: a device is of type aria (and is the ego device) iff its id
    * contains "aria", and has a walkaround iff its id contains "mobile" or "aria". */
  function CreateVideo(f: string, prefixPath: string): (v: Video)
    ensures v.deviceId == DeviceId(f)
    ensures v.deviceType == Aria <==> Contains(v.deviceId, "aria")
    ensures v.isEgo <==> v.deviceType == Aria
    ensures v.hasWalkaround <==> Contains(v.deviceId, "mobile") || Contains(v.deviceId, "aria")
    ensures EndsWith(v.s3Path, f)
  {
    var id := DeviceId(f);
    var ty := if Contains(id, "aria") then Aria else GoPro;
    Video(id, ty, ty == Aria, Contains(id, "mobile") || Contains(id, "aria"), PathJoin(prefixPath, f))
  }

  function CreateVideos(files: seq<string>, prefixPath: string): (vs: seq<Video>)
    ensures |vs| == |files|
    ensures forall i :: 0 <= i < |files| ==> vs[i] == CreateVideo(files[i], prefixPath)
  {
    seq(|files|, i requires 0 <= i < |files| => CreateVideo(files[i], prefixPath))
  }

  /** Lines 86-88: `take_id` and `video_source`, the last two pieces of the path
    * split at "/"; `dirs[-2]` raises when there is only one piece. */
  function PathNames(d: string): Result<(string, string), CaptureError> {
    var dirs := Split(d, "/");
    if |dirs| < 2 then Err(NoParentDirectory(d)) else Ok((dirs[|dirs| - 1], dirs[|dirs| - 2]))
  }

  /** `_create_json_from_capture_dir`, with the directory listing of "videos/" given
    * as `videoFiles` (in listing order) and the intended S3 prefix. */
  function CreateJsonFromCaptureDir(captureDir: string, videoFiles: seq<string>): (r: Result<Metadata, CaptureError>)
  {
    var d := StripTrailingSlash(captureDir);
    var names :- PathNames(d);
    Ok(Metadata(names.0, names.1, "aria01",
                PathJoin(d, "timesync.csv"), PathJoin(d, "preview.mp4"),
                CreateVideos(videoFiles, PrefixPath(d))))
  }

  lemma {:induction false} JoinLast(parts: seq<string>, sep: string)
    requires |parts| >= 2
    ensures JoinWith(parts, sep) == JoinWith(parts[..|parts| - 1], sep) + sep + parts[|parts| - 1]
    decreases |parts|
  {
    var init := parts[..|parts| - 1];
    var last := parts[|parts| - 1];
    if |parts| == 2 {
      assert JoinWith(init, sep) == parts[0];
    } else {
      var tail := parts[1..];
      JoinLast(tail, sep);
      assert tail[..|tail| - 1] == init[1..] && tail[|tail| - 1] == last;
      assert JoinWith(init, sep) == init[0] + sep + JoinWith(init[1..], sep);
      assert JoinWith(parts, sep) == parts[0] + sep + JoinWith(tail, sep);
    }
  }

  lemma BasenameOfJoin(a: string, b: string)
    requires CharFree(b, '/')
    ensures Basename(a + "/" + b) == b
  {
    var s := a + "/" + b;
    assert s[|a|] == '/';
    assert s[|a| + 1..] == b;
  }

  lemma BasenameOfPlain(b: string)
    requires CharFree(b, '/')
    ensures Basename(b) == b
  {
  }

  lemma NoSlashChars(s: string)
    requires !Contains(s, "/")
    ensures CharFree(s, '/')
  {
    forall k | 0 <= k < |s| ensures s[k] != '/' {
      assert !OccursAt(s, "/", k);
    }
  }

  /** A path splits on "/" into at least two pieces iff it contains a "/". */
  lemma SplitCountIffContains(d: string)
    ensures |Split(d, "/")| >= 2 <==> Contains(d, "/")
  {
  }

  /** The pieces of a split on "/" contain no "/" character. */
  lemma SplitPiecesNoSlash(d: string)
    ensures forall k :: 0 <= k < |Split(d, "/")| ==> CharFree(Split(d, "/")[k], '/')
  {
    var dirs := Split(d, "/");
    SplitPiecesFree(d, "/");
    forall k | 0 <= k < |dirs| ensures CharFree(dirs[k], '/') {
      NoSlashChars(dirs[k]);
    }
  }

  /** The basename of pieces joined with "/" is the last piece, when no piece holds a "/". */
  lemma BasenameOfJoinedPieces(parts: seq<string>)
    requires |parts| >= 1
    requires forall k :: 0 <= k < |parts| ==> CharFree(parts[k], '/')
    ensures Basename(JoinWith(parts, "/")) == parts[|parts| - 1]
  {
    if |parts| == 1 {
      BasenameOfPlain(parts[0]);
    } else {
      JoinLast(parts, "/");
      BasenameOfJoin(JoinWith(parts[..|parts| - 1], "/"), parts[|parts| - 1]);
    }
  }

  /** Of pieces free of "/" joined with "/", the last is the basename and the one
    * before it is the basename of what precedes the last "/". */
  lemma JoinedPiecesLast(parts: seq<string>, d: string)
    requires |parts| >= 2 && d == JoinWith(parts, "/")
    requires forall k :: 0 <= k < |parts| ==> CharFree(parts[k], '/')
    ensures var n := |parts|;
      && parts[n - 1] == Basename(d)
      && |parts[n - 1]| < |d|
      && parts[n - 2] == Basename(d[..|d| - |parts[n - 1]| - 1])
  {
    var n := |parts|;
    var head := parts[..n - 1];
    var last := parts[n - 1];
    var front := JoinWith(head, "/");
    assert d == front + "/" + last by {
      JoinLast(parts, "/");
    }
    assert Basename(d) == last by {
      BasenameOfJoin(front, last);
    }
    assert |last| < |d| && d[..|d| - |last| - 1] == front by {
      DropLastPiece(front, last);
    }
    assert Basename(front) == parts[n - 2] by {
      assert forall k :: 0 <= k < |head| ==> head[k] == parts[k];
      BasenameOfJoinedPieces(head);
    }
  }

  lemma DropLastPiece(front: string, last: string)
    ensures var d := front + "/" + last; |last| < |d| && d[..|d| - |last| - 1] == front
  {
  }

  /** The last piece of a split on "/" is the basename, and the piece before it
    * is the basename of what precedes the last "/". */
  lemma SplitLastPieces(d: string)
    requires |Split(d, "/")| >= 2
    ensures var dirs := Split(d, "/"); var n := |dirs|;
      && dirs[n - 1] == Basename(d)
      && |dirs[n - 1]| < |d|
      && dirs[n - 2] == Basename(d[..|d| - |dirs[n - 1]| - 1])
  {
    var dirs := Split(d, "/");
    assert JoinWith(dirs, "/") == d by {
      SplitJoin(d, "/");
    }
    assert forall k :: 0 <= k < |dirs| ==> CharFree(dirs[k], '/') by {
      SplitPiecesNoSlash(d);
    }
    JoinedPiecesLast(dirs, d);
  }

  /** Lines 86-88: the metadata exists iff the stripped path contains a "/". */
  lemma MetadataExists(captureDir: string, videoFiles: seq<string>)
    ensures CreateJsonFromCaptureDir(captureDir, videoFiles).Ok? <==> Contains(StripTrailingSlash(captureDir), "/")
  {
    MetadataNames(captureDir, videoFiles);
    PathNamesExist(StripTrailingSlash(captureDir));
  }

  /** The metadata exists iff the path names do, and carries them. */
  lemma MetadataNames(captureDir: string, videoFiles: seq<string>)
    ensures var p := PathNames(StripTrailingSlash(captureDir));
      var r := CreateJsonFromCaptureDir(captureDir, videoFiles);
      && (r.Ok? <==> p.Ok?)
      && (r.Ok? ==> r.value.takeId == p.value.0 && r.value.videoSource == p.value.1)
  {
  }

  /** The names exist iff the path contains a "/". */
  lemma PathNamesExist(d: string)
    ensures PathNames(d).Ok? <==> Contains(d, "/")
  {
    SplitCountIffContains(d);
  }

  /** The names are the basename of the path and the basename of its parent. */
  lemma PathNamesShape(d: string)
    requires PathNames(d).Ok?
    ensures var p := PathNames(d).value;
      p.0 == Basename(d) && |p.0| < |d| && p.1 == Basename(d[..|d| - |p.0| - 1])
  {
    var dirs := Split(d, "/");
    LastTwoPieces(d, dirs[|dirs| - 1], dirs[|dirs| - 2]);
  }

  /** The last two pieces of a path split at "/" are its basename and its parent's. */
  lemma LastTwoPieces(d: string, last: string, parent: string)
    requires var dirs := Split(d, "/");
      |dirs| >= 2 && last == dirs[|dirs| - 1] && parent == dirs[|dirs| - 2]
    ensures last == Basename(d) && |last| < |d| && parent == Basename(d[..|d| - |last| - 1])
  {
    SplitLastPieces(d);
  }

  /** A single trailing "/" on the capture path does not change the metadata. */
  lemma TrailingSlashIgnored(captureDir: string, videoFiles: seq<string>)
    requires !EndsWith(captureDir, "/")
    ensures CreateJsonFromCaptureDir(captureDir + "/", videoFiles) == CreateJsonFromCaptureDir(captureDir, videoFiles)
  {
    assert EndsWith(captureDir + "/", "/");
    assert StripTrailingSlash(captureDir + "/") == captureDir;
  }

  /** Lines 138-142: the device ids of the videos that are neither ego nor walkaround, in order. */
  function ExoCamNames(videos: seq<Video>): (names: seq<string>)
    ensures |names| <= |videos|
    decreases |videos|
  {
    if videos == [] then []
    else (if !videos[0].isEgo && !videos[0].hasWalkaround then [videos[0].deviceId] else [])
         + ExoCamNames(videos[1..])
  }

  predicate IsExoId(id: string) {
    !Contains(id, "aria") && !Contains(id, "mobile")
  }

  /** Reference definition: the ids from the listing that contain neither "aria" nor "mobile". */
  function ExoIds(files: seq<string>): seq<string>
    decreases |files|
  {
    if files == [] then []
    else (if IsExoId(DeviceId(files[0])) then [DeviceId(files[0])] else []) + ExoIds(files[1..])
  }

  /** A created video is exocentric (neither ego nor walkaround) iff its id contains
    * neither "aria" nor "mobile". */
  lemma CreatedVideoIsExo(f: string, prefixPath: string)
    ensures var v := CreateVideo(f, prefixPath);
      (!v.isEgo && !v.hasWalkaround) <==> IsExoId(v.deviceId)
  {
  }

  /** For inferred metadata, the exocentric cameras are exactly the listed devices
    * whose ids contain neither "aria" nor "mobile", in listing order. */
  lemma ExoCamNamesFromListing(files: seq<string>, prefixPath: string)
    ensures ExoCamNames(CreateVideos(files, prefixPath)) == ExoIds(files)
  {
    var vs := CreateVideos(files, prefixPath);
    forall i | 0 <= i < |files|
      ensures vs[i].deviceId == DeviceId(files[i])
      ensures (!vs[i].isEgo && !vs[i].hasWalkaround) <==> IsExoId(DeviceId(files[i]))
    {
      CreatedVideoIsExo(files[i], prefixPath);
    }
    ExoCamNamesPointwise(vs, files);
  }

  /** Videos whose ids and exocentric flags follow the listing have its exocentric ids. */
  lemma {:induction false} ExoCamNamesPointwise(vs: seq<Video>, files: seq<string>)
    requires |vs| == |files|
    requires forall i :: 0 <= i < |vs| ==> vs[i].deviceId == DeviceId(files[i])
    requires forall i :: 0 <= i < |vs| ==> ((!vs[i].isEgo && !vs[i].hasWalkaround) <==> IsExoId(DeviceId(files[i])))
    ensures ExoCamNames(vs) == ExoIds(files)
    decreases |vs|
  {
    if vs != [] {
      ExoCamNamesPointwise(vs[1..], files[1..]);
    }
  }

  /** Membership view of `ExoIds`. */
  lemma {:induction false} ExoIdsMembers(files: seq<string>, id: string)
    ensures id in ExoIds(files) <==> IsExoId(id) && exists f :: f in files && DeviceId(f) == id
    decreases |files|
  {
    if files != [] {
      ExoIdsMembers(files[1..], id);
      assert forall f :: f in files <==> f == files[0] || f in files[1..];
    }
  }

  /** Run options that `get_context` reads. `metadataJsonPath` chooses between the
    * loaded metadata file and inference from `captureDataDir`. */
  datatype Config = Config(
    dataDir: string, repoRootDir: string, datasetName: string,
    metadataJsonPath: Option<string>, captureDataDir: string,
    poseConfig: string, poseCheckpoint: string,
    dummyPoseConfig: string, dummyPoseCheckpoint: string,
    detectorConfig: string, detectorCheckpoint: string, humanHeight: real)

  datatype Context = Context(
    dataDir: string, repoRootDir: string, cacheDir: string, cacheRelDir: string,
    metadata: Metadata, datasetDir: string, datasetJsonPath: string, datasetRelDir: string,
    frameDir: string, exoCamNames: seq<string>,
    bboxDir: string, visBboxDir: string, pose2dDir: string, visPose2dDir: string,
    pose3dDir: string, visPose3dDir: string,
    detectorConfig: string, detectorCheckpoint: string,
    poseConfig: string, poseCheckpoint: string,
    dummyPoseConfig: string, dummyPoseCheckpoint: string, humanHeight: real)

  /** Lines 125-127: a relative data directory is resolved against the repository root. */
  function DataDirOf(cfg: Config): (r: string)
    ensures StartsWith(cfg.dataDir, "/") ==> r == cfg.dataDir
    ensures !StartsWith(cfg.dataDir, "/") ==> StartsWith(r, cfg.repoRootDir) && EndsWith(r, cfg.dataDir)
  {
    if !StartsWith(cfg.dataDir, "/") then PathJoin(cfg.repoRootDir, cfg.dataDir) else cfg.dataDir
  }

  /** Lines 130-133: the cache directory is named after the video source and the take. */
  function CacheRelDirOf(m: Metadata): string {
    PathJoin("cache", m.videoSource + "_" + m.takeId)
  }

  /** Lines 125-191: the run context built from the options and the metadata. */
  function ContextOf(cfg: Config, m: Metadata): (ctx: Context)
  {
    var dataDir := DataDirOf(cfg);
    var cacheRelDir := CacheRelDirOf(m);
    var cacheDir := PathJoin(dataDir, cacheRelDir);
    var datasetDir := PathJoin(cacheDir, cfg.datasetName);
    Context(
      dataDir, cfg.repoRootDir, cacheDir, cacheRelDir, m, datasetDir,
      PathJoin(datasetDir, "data.json"), PathJoin(cacheRelDir, cfg.datasetName),
      PathJoin(datasetDir, "frames"), ExoCamNames(m.videos),
      PathJoin(datasetDir, "bbox"), PathJoin(datasetDir, "vis_bbox"),
      PathJoin(datasetDir, "pose2d"), PathJoin(datasetDir, "vis_pose2d"),
      PathJoin(datasetDir, "pose3d"), PathJoin(datasetDir, "vis_pose3d"),
      PathJoin(cfg.repoRootDir, cfg.detectorConfig), cfg.detectorCheckpoint,
      PathJoin(cfg.repoRootDir, cfg.poseConfig), cfg.poseCheckpoint,
      PathJoin(cfg.repoRootDir, cfg.dummyPoseConfig), cfg.dummyPoseCheckpoint,
      cfg.humanHeight)
  }

  /** `get_context`. `loaded` is the parsed metadata file when `metadataJsonPath`
    * is set; otherwise the metadata is inferred from `captureDataDir` and its
    * video listing `videoFiles`. */
  function GetContext(cfg: Config, loaded: Metadata, videoFiles: seq<string>): (r: Result<Context, CaptureError>)
    ensures cfg.metadataJsonPath.Some? ==> r == Ok(ContextOf(cfg, loaded))
    ensures cfg.metadataJsonPath.None? ==>
      (r.Ok? <==> CreateJsonFromCaptureDir(cfg.captureDataDir, videoFiles).Ok?)
    ensures cfg.metadataJsonPath.None? && r.Ok? ==>
      r.value == ContextOf(cfg, CreateJsonFromCaptureDir(cfg.captureDataDir, videoFiles).value)
  {
    if cfg.metadataJsonPath.Some? then Ok(ContextOf(cfg, loaded))
    else
      var m :- CreateJsonFromCaptureDir(cfg.captureDataDir, videoFiles);
      Ok(ContextOf(cfg, m))
  }

  /** Lines 130-133: the cache directory is "cache/<video_source>_<take_id>" whenever
    * the video source does not start with "/" (always so for inferred metadata). */
  lemma CacheRelDirShape(m: Metadata)
    requires !StartsWith(m.videoSource + "_" + m.takeId, "/")
    ensures CacheRelDirOf(m) == "cache/" + (m.videoSource + "_" + m.takeId)
  {
    RelativeUnderCache(m.videoSource + "_" + m.takeId);
  }

  lemma RelativeUnderCache(s: string)
    requires !StartsWith(s, "/")
    ensures PathJoin("cache", s) == "cache/" + s
  {
  }

  /** For metadata inferred from a capture directory the cache name always has that shape. */
  lemma InferredCacheRelDir(captureDir: string, videoFiles: seq<string>)
    requires CreateJsonFromCaptureDir(captureDir, videoFiles).Ok?
    ensures var m := CreateJsonFromCaptureDir(captureDir, videoFiles).value;
      CacheRelDirOf(m) == "cache/" + (m.videoSource + "_" + m.takeId)
  {
    var m := CreateJsonFromCaptureDir(captureDir, videoFiles).value;
    MetadataNames(captureDir, videoFiles);
    NamesRelative(StripTrailingSlash(captureDir));
    CacheRelDirShape(m);
  }

  /** Lines 115-133 without a metadata file: the context carries the inferred
    * metadata (see `InferredMetadataShape` for its names) and its cache directory
    * is "cache/<video_source>_<take_id>". */
  lemma InferredContextNames(cfg: Config, loaded: Metadata, videoFiles: seq<string>)
    requires cfg.metadataJsonPath.None? && GetContext(cfg, loaded, videoFiles).Ok?
    ensures CreateJsonFromCaptureDir(cfg.captureDataDir, videoFiles).Ok?
    ensures var ctx := GetContext(cfg, loaded, videoFiles).value;
      ctx.metadata == CreateJsonFromCaptureDir(cfg.captureDataDir, videoFiles).value
    ensures var ctx := GetContext(cfg, loaded, videoFiles).value;
      ctx.cacheRelDir == "cache/" + (ctx.metadata.videoSource + "_" + ctx.metadata.takeId)
  {
    var m := CreateJsonFromCaptureDir(cfg.captureDataDir, videoFiles).value;
    InferredCacheRelDir(cfg.captureDataDir, videoFiles);
    ContextFields(cfg, m);
  }

  /** Inferred metadata carries the path's basename as take id and its parent's
    * basename as video source. */
  lemma InferredMetadataShape(captureDir: string, videoFiles: seq<string>)
    requires CreateJsonFromCaptureDir(captureDir, videoFiles).Ok?
    ensures var m := CreateJsonFromCaptureDir(captureDir, videoFiles).value; var d := StripTrailingSlash(captureDir);
      && m.takeId == Basename(d) && |m.takeId| < |d|
      && m.videoSource == Basename(d[..|d| - |m.takeId| - 1])
  {
    MetadataNames(captureDir, videoFiles);
    PathNamesShape(StripTrailingSlash(captureDir));
  }

  /** Lines 115-142 without a metadata file: the context's exocentric cameras are the
    * listed device ids that contain neither "aria" nor "mobile", in listing order. */
  lemma InferredContextCameras(cfg: Config, loaded: Metadata, videoFiles: seq<string>)
    requires cfg.metadataJsonPath.None? && GetContext(cfg, loaded, videoFiles).Ok?
    ensures GetContext(cfg, loaded, videoFiles).value.exoCamNames == ExoIds(videoFiles)
  {
    var d := StripTrailingSlash(cfg.captureDataDir);
    var m := CreateJsonFromCaptureDir(cfg.captureDataDir, videoFiles).value;
    ContextFields(cfg, m);
    assert GetContext(cfg, loaded, videoFiles).value == ContextOf(cfg, m);
    assert m.videos == CreateVideos(videoFiles, PrefixPath(d));
    ExoCamNamesFromListing(videoFiles, PrefixPath(d));
  }

  /** The context keeps the metadata, its cache directory and its exocentric names. */
  lemma ContextFields(cfg: Config, m: Metadata)
    ensures ContextOf(cfg, m).metadata == m
    ensures ContextOf(cfg, m).cacheRelDir == CacheRelDirOf(m)
    ensures ContextOf(cfg, m).exoCamNames == ExoCamNames(m.videos)
  {
  }

  /** The inferred video source holds no "/", so the cache name is a relative path. */
  lemma NamesRelative(d: string)
    requires PathNames(d).Ok?
    ensures var p := PathNames(d).value; !StartsWith(p.1 + "_" + p.0, "/")
  {
    SplitPiecesFree(d, "/");
    var dirs := Split(d, "/");
    var source := dirs[|dirs| - 2];
    assert !Contains(source, "/");
    if |source| > 0 {
      assert OccursAt(source, "/", 0) ==> Contains(source, "/") by {
        ContainsIff(source, "/");
      }
    }
  }

  /** `os.path.join(a, x)` is injective in a relative `x`. */
  lemma PathJoinInjective(a: string, x: string, y: string)
    requires !StartsWith(x, "/") && !StartsWith(y, "/")
    requires PathJoin(a, x) == PathJoin(a, y)
    ensures x == y
  {
    var r := PathJoin(a, x);
    if a == "" || EndsWith(a, "/") {
      assert x == r[|a|..] == y;
    } else {
      assert x == r[|a| + 1..] == y;
    }
  }

  /** A relative name joined to a directory lies under it. */
  lemma JoinUnder(a: string, x: string)
    requires |x| > 0 && x[0] != '/'
    ensures !StartsWith(x, "/")
    ensures StartsWith(PathJoin(a, x), a)
  {
    assert x[..1] == [x[0]];
  }

  /** Distinct relative names give distinct paths under one directory. */
  lemma JoinDistinct(a: string, x: string, y: string)
    requires |x| > 0 && x[0] != '/' && |y| > 0 && y[0] != '/'
    requires x != y
    ensures PathJoin(a, x) != PathJoin(a, y)
  {
    JoinUnder(a, x);
    JoinUnder(a, y);
    if PathJoin(a, x) == PathJoin(a, y) {
      PathJoinInjective(a, x, y);
    }
  }

  /** The stage sub-directories of one directory lie under it and are pairwise distinct. */
  lemma StageJoinsSeparate(a: string)
    ensures && StartsWith(PathJoin(a, "bbox"), a) && StartsWith(PathJoin(a, "pose2d"), a)
            && StartsWith(PathJoin(a, "pose3d"), a) && StartsWith(PathJoin(a, "frames"), a)
            && StartsWith(PathJoin(a, "data.json"), a)
    ensures && PathJoin(a, "bbox") != PathJoin(a, "pose2d") && PathJoin(a, "pose2d") != PathJoin(a, "pose3d")
            && PathJoin(a, "bbox") != PathJoin(a, "pose3d")
            && PathJoin(a, "vis_bbox") != PathJoin(a, "bbox") && PathJoin(a, "vis_pose2d") != PathJoin(a, "pose2d")
            && PathJoin(a, "vis_pose3d") != PathJoin(a, "pose3d")
  {
    JoinUnder(a, "bbox");
    JoinUnder(a, "pose2d");
    JoinUnder(a, "pose3d");
    JoinUnder(a, "frames");
    JoinUnder(a, "data.json");
    assert "pose2d"[4] != "pose3d"[4];
    JoinDistinct(a, "bbox", "pose2d");
    JoinDistinct(a, "pose2d", "pose3d");
    JoinDistinct(a, "bbox", "pose3d");
    JoinDistinct(a, "vis_bbox", "bbox");
    JoinDistinct(a, "vis_pose2d", "pose2d");
    JoinDistinct(a, "vis_pose3d", "pose3d");
  }

  /** Lines 143 and 172-183: every stage directory lies under the dataset directory and the
    * stages never share one. */
  lemma StageDirectoriesSeparate(cfg: Config, m: Metadata)
    ensures var ctx := ContextOf(cfg, m);
      && StartsWith(ctx.bboxDir, ctx.datasetDir) && StartsWith(ctx.pose2dDir, ctx.datasetDir)
      && StartsWith(ctx.pose3dDir, ctx.datasetDir) && StartsWith(ctx.frameDir, ctx.datasetDir)
      && StartsWith(ctx.datasetJsonPath, ctx.datasetDir)
    ensures var ctx := ContextOf(cfg, m);
      && ctx.bboxDir != ctx.pose2dDir && ctx.pose2dDir != ctx.pose3dDir && ctx.bboxDir != ctx.pose3dDir
      && ctx.visBboxDir != ctx.bboxDir && ctx.visPose2dDir != ctx.pose2dDir && ctx.visPose3dDir != ctx.pose3dDir
  {
    StageJoinsSeparate(ContextOf(cfg, m).datasetDir);
  }
}
