/**
 * The synchronised frame table of `mode_preprocess`: every extracted Aria frame
 * file is indexed by its millisecond timestamp key, and for each synchronised
 * index one record is built holding, per Aria stream, the frame whose key is the
 * row's formatted capture time and the nearest trajectory pose, and, per
 * exocentric camera, the zero-padded frame path and its first calibration row.
 *
 * The synchronised timesync table, the frame directory listings and both
 * trajectory tables are inputs (they are read from files by the program).
 */
module FrameSync {
  import opened Wrappers
  import opened Strings
  import opened Rounding

  /** One row of the synchronised timesync table: column name to value. */
  type SyncRow = map<string, int>

  /** An extracted Aria frame as recorded in the per-stream frame index. */
  datatype AriaFrame = AriaFrame(t: real, path: string)

  /** A row of the Aria trajectory table. */
  datatype AriaPose = AriaPose(trackingTimestampUs: real, values: map<string, real>)

  /** A row of the exocentric calibration table. */
  datatype ExoCalib = ExoCalib(goproUid: string, values: map<string, real>)

  /** The device row handed to `create_camera_data` and kept as "_raw_camera". */
  datatype RawCamera = AriaRaw(pose: AriaPose) | ExoRaw(calib: ExoCalib)

  /** One view of a frame record. The camera data is `create_camera_data` applied to
    * `raw`, `name` and `deviceRowKey`; the camera model argument is not modelled. */
  datatype ViewEntry = ViewEntry(framePath: string, frameNumber: int, t: Option<real>,
                                 name: string, deviceRowKey: string, raw: RawCamera)

  type Record = map<string, ViewEntry>

  datatype SyncError =
    | RowOutOfRange(idx: int)
    | MissingColumn(column: string)
    | MissingFrameDir(stream: string)
    | UnparsableFrameTime(file: string)
    | MissingAriaFrame(stream: string, key: string)
    | EmptyTrajectory
    | UnknownStream(stream: string)
    | MissingRemap(cam: string)
    | MissingCalibration(name: string)

  // ---------------------------------------------------------------------------
  // Timestamps as text

  function Pow10(k: nat): (p: nat)
    ensures p >= 1
  {
    if k == 0 then 1 else 10 * Pow10(k - 1)
  }

  /** `f"{ns / 1e9:.3f}"`: seconds with exactly three decimals, the milliseconds
    * rounded half to even. */
  function FormatSeconds3(ns: int): (s: string)
  {
    if ns < 0 then "-" + FormatMillis(Millis(-ns)) else FormatMillis(Millis(ns))
  }

  /** A millisecond count as seconds with three decimals. */
  function FormatMillis(m: nat): string {
    NatToString(m / 1000) + "." + ZeroPad(NatToString(m % 1000), 3)
  }

  /** Python's `float(s)` on a plain decimal "digits", "digits." , ".digits" or
    * "digits.digits"; any other text is refused. */
  function ParseDecimal(s: string): (r: Option<real>)
    ensures r.Some? ==> |s| > 0
  {
    match Find(s, ".")
    case None =>
      if |s| > 0 && AllDigits(s) then Some(DigitsValue(s) as real) else None
    case Some(i) => ParsePointed(s[..i], s[i + 1..])
  }

  /** The value of "a.b" once split at its first "." (either side may be empty, not both). */
  function ParsePointed(a: string, b: string): (r: Option<real>)
    ensures r.Some? <==> AllDigits(a) && AllDigits(b) && |a| + |b| > 0
  {
    if AllDigits(a) && AllDigits(b) && |a| + |b| > 0
    then Some(DigitsValue(a) as real + DigitsValue(b) as real / Pow10(|b|) as real)
    else None
  }

  lemma DigitsHaveNoDot(s: string)
    requires AllDigits(s)
    ensures CharFree(s, '.') && CharFree(s, '-')
  {
  }

  lemma ShortNatToString(n: nat)
    requires n < 1000
    ensures |NatToString(n)| <= 3
  {
    if n >= 10 {
      assert NatToString(n) == NatToString(n / 10) + [DigitChar(n % 10)];
      if n / 10 >= 10 {
        assert NatToString(n / 10) == NatToString(n / 100) + [DigitChar((n / 10) % 10)];
      }
    }
  }

  /** A plain "digits.digits" text reads as its integer part plus its fraction. */
  lemma ParseDecimalPoint(a: string, b: string)
    requires AllDigits(a) && AllDigits(b) && |a| > 0
    ensures ParseDecimal(a + "." + b) == ParsePointed(a, b)
  {
    var s := a + "." + b;
    DotAfterDigits(a, b);
    assert s[..|a|] == a && s[|a| + 1..] == b;
  }

  lemma DotAfterDigits(a: string, b: string)
    requires AllDigits(a)
    ensures Find(a + "." + b, ".") == Some(|a|)
  {
    DigitsHaveNoDot(a);
    FindAfterFree(a, '.', b);
    assert a + "." + b == a + ['.'] + b;
  }

  /** Three zero-padded decimals read back as the value / 1000. */
  lemma ParseMillis(q: nat, r: nat)
    requires r < 1000
    ensures ParseDecimal(NatToString(q) + "." + ZeroPad(NatToString(r), 3)) == Some(q as real + r as real / 1000.0)
  {
    var a := NatToString(q);
    var b := ZeroPad(NatToString(r), 3);
    assert AllDigits(b) && |b| == 3 && DigitsValue(b) == r by {
      ShortNatToString(r);
      FormatPaddedValue(r, 3);
      assert FormatPadded(r, 3) == b;
    }
    assert AllDigits(a) && |a| > 0 && DigitsValue(a) == q by {
      NatToStringValue(q);
    }
    MillisText(a, b, q, r);
  }

  /** Digits, a point and three digits read as the integer part plus thousandths. */
  lemma MillisText(a: string, b: string, q: nat, r: nat)
    requires AllDigits(a) && |a| > 0 && DigitsValue(a) == q
    requires AllDigits(b) && |b| == 3 && DigitsValue(b) == r
    ensures ParseDecimal(a + "." + b) == Some(q as real + r as real / 1000.0)
  {
    ParseDecimalPoint(a, b);
    PointedMillis(a, b);
  }

  lemma PointedMillis(a: string, b: string)
    requires AllDigits(a) && AllDigits(b) && |a| > 0 && |b| == 3
    ensures ParsePointed(a, b) == Some(DigitsValue(a) as real + DigitsValue(b) as real / 1000.0)
  {
    assert Pow10(3) == 1000;
  }

  /** Milliseconds of a non-negative timestamp, rounded half to even. */
  function Millis(ns: nat): (m: nat)
    ensures ns as real / 1000000000.0 - 0.0005 <= m as real / 1000.0 <= ns as real / 1000000000.0 + 0.0005
  {
    var x := ns as real / 1000000.0;
    RoundWithin(x, 0, ns);
    var m := RoundHalfEven(x);
    assert x - 0.5 <= m as real <= x + 0.5;
    m
  }

  /** The formatted capture time of a non-negative timestamp parses back as its
    * milliseconds: within half a millisecond of the exact time in seconds. */
  lemma FormattedTimeParsesBack(ns: nat)
    ensures ParseDecimal(FormatSeconds3(ns)) == Some(Millis(ns) as real / 1000.0)
  {
    var m := Millis(ns);
    assert FormatSeconds3(ns) == FormatMillis(m);
    ParseMillis(m / 1000, m % 1000);
    MillisSplit(m);
  }

  /** Whole seconds plus the millisecond remainder are the milliseconds / 1000. */
  lemma MillisSplit(m: nat)
    ensures (m / 1000) as real + (m % 1000) as real / 1000.0 == m as real / 1000.0
  {
    var q, r := m / 1000, m % 1000;
    assert m == q * 1000 + r;
    assert m as real == q as real * 1000.0 + r as real;
  }

  // ---------------------------------------------------------------------------
  // Frame files

  /** Lines 520-521: `".".join(f.split("-")[-1].split(".")[0:2])`. */
  function FrameKey(f: string): string {
    var pieces := Split(f, "-");
    var parts := Split(pieces[|pieces| - 1], ".");
    JoinWith(parts[..if |parts| < 2 then |parts| else 2], ".")
  }

  /** "<a>.<b>.jpg" splits on "." into its three parts. */
  lemma TailParts(a: string, b: string)
    requires CharFree(a, '.') && CharFree(b, '.')
    ensures Split(a + "." + b + ".jpg", ".") == [a, b, "jpg"]
  {
    assert a + "." + b + ".jpg" == a + ['.'] + (b + ['.'] + "jpg");
    SplitAfterFree(a, '.', b + ['.'] + "jpg");
    SplitAfterFree(b, '.', "jpg");
    assert CharFree("jpg", '.');
    SplitCharFree("jpg", '.');
  }

  /** An extracted frame named "<anything>-<a>.<b>.jpg" has key "<a>.<b>" when `a` and
    * `b` hold no "-" or "." (the extractor names frames by their capture time). */
  lemma FrameKeyOfName(p: string, a: string, b: string)
    requires CharFree(a, '-') && CharFree(a, '.') && CharFree(b, '-') && CharFree(b, '.')
    ensures FrameKey(p + "-" + a + "." + b + ".jpg") == a + "." + b
  {
    var tail := a + "." + b + ".jpg";
    assert CharFree(tail, '-');
    assert p + "-" + a + "." + b + ".jpg" == p + ['-'] + tail;
    SplitLastFree(p, '-', tail);
    TailParts(a, b);
    assert [a, b, "jpg"][..2] == [a, b];
    assert JoinWith([a, b], ".") == a + "." + JoinWith([b], ".");
  }

  /** One extracted frame file's index entry (lines 519-523), or None for a file that
    * is not a ".jpg"-suffixed frame. */
  function FrameEntry(stream: string, f: string): (r: Result<Option<(string, AriaFrame)>, SyncError>)
    ensures r.Ok? ==> (r.value.None? <==> !EndsWith(f, "jpg"))
    ensures r.Ok? && r.value.Some? ==> r.value.value.0 == FrameKey(f)
    ensures r.Err? <==> EndsWith(f, "jpg") && ParseDecimal(FrameKey(f)).None?
  {
    if !EndsWith(f, "jpg") then Ok(None)
    else
      var key := FrameKey(f);
      match ParseDecimal(key)
      case None => Err(UnparsableFrameTime(f))
      case Some(t) => Ok(Some((key, AriaFrame(t, PathJoin(PathJoin("aria01", stream), f)))))
  }

  /** Lines 513-525, one stream: the dictionary comprehension over the listing, in
    * listing order (a later file with the same key replaces an earlier one). */
  function IndexFrames(stream: string, files: seq<string>): Result<map<string, AriaFrame>, SyncError>
    decreases |files|
  {
    if files == [] then Ok(map[])
    else
      var index :- IndexFrames(stream, files[..|files| - 1]);
      var e :- FrameEntry(stream, files[|files| - 1]);
      Ok(AddEntry(index, e))
  }

  function AddEntry(index: map<string, AriaFrame>, e: Option<(string, AriaFrame)>): map<string, AriaFrame> {
    match e
    case None => index
    case Some(kv) => index[kv.0 := kv.1]
  }

  lemma IndexFramesStep(stream: string, files: seq<string>)
    requires files != [] && IndexFrames(stream, files).Ok?
    ensures var init := files[..|files| - 1];
      && IndexFrames(stream, init).Ok? && FrameEntry(stream, files[|files| - 1]).Ok?
      && IndexFrames(stream, files).value
         == AddEntry(IndexFrames(stream, init).value, FrameEntry(stream, files[|files| - 1]).value)
  {
  }

  /** All frame files parse iff indexing succeeds. */
  lemma {:induction false} IndexFramesOkIff(stream: string, files: seq<string>)
    ensures IndexFrames(stream, files).Ok? <==> forall i :: 0 <= i < |files| ==> FrameEntry(stream, files[i]).Ok?
    decreases |files|
  {
    if files != [] {
      var init := files[..|files| - 1];
      IndexFramesOkIff(stream, init);
      assert forall i :: 0 <= i < |init| ==> init[i] == files[i];
    }
  }

  /** A key is indexed iff some ".jpg" file has it. */
  lemma {:induction false} IndexFramesKeys(stream: string, files: seq<string>, key: string)
    requires IndexFrames(stream, files).Ok?
    ensures key in IndexFrames(stream, files).value <==>
      exists i :: 0 <= i < |files| && EndsWith(files[i], "jpg") && FrameKey(files[i]) == key
    decreases |files|
  {
    if files != [] {
      var n := |files|;
      var init := files[..n - 1];
      IndexFramesStep(stream, files);
      IndexFramesKeys(stream, init, key);
      assert forall i :: 0 <= i < |init| ==> init[i] == files[i];
      var e := FrameEntry(stream, files[n - 1]).value;
      var last := EndsWith(files[n - 1], "jpg") && FrameKey(files[n - 1]) == key;
      assert last <==> e.Some? && e.value.0 == key;
      assert key in IndexFrames(stream, files).value <==> key in IndexFrames(stream, init).value || last;
    }
  }

  /** No ".jpg" file among `files[i+1..]` has key `key`. */
  predicate LastWithKey(files: seq<string>, i: nat, key: string) {
    forall j :: i < j < |files| ==> !(EndsWith(files[j], "jpg") && FrameKey(files[j]) == key)
  }

  lemma LastWithKeyExtends(files: seq<string>, i: nat, key: string)
    requires |files| > 0 && i < |files| - 1
    requires LastWithKey(files[..|files| - 1], i, key)
    requires !(EndsWith(files[|files| - 1], "jpg") && FrameKey(files[|files| - 1]) == key)
    ensures LastWithKey(files, i, key)
  {
    assert forall j :: i < j < |files| - 1 ==> files[..|files| - 1][j] == files[j];
  }

  /** An indexed key's entry comes from the last ".jpg" file with that key. */
  lemma {:induction false} IndexFramesEntry(stream: string, files: seq<string>, key: string)
    requires IndexFrames(stream, files).Ok? && key in IndexFrames(stream, files).value
    ensures var index := IndexFrames(stream, files).value;
      exists i :: 0 <= i < |files| && FrameEntry(stream, files[i]) == Ok(Some((key, index[key])))
                                   && LastWithKey(files, i, key)
    decreases |files|
  {
    var n := |files|;
    var init := files[..n - 1];
    var index := IndexFrames(stream, files).value;
    IndexFramesStep(stream, files);
    var before := IndexFrames(stream, init).value;
    var e := FrameEntry(stream, files[n - 1]).value;
    assert index == AddEntry(before, e);
    assert forall i :: 0 <= i < |init| ==> init[i] == files[i];
    if e.Some? && e.value.0 == key {
      assert FrameEntry(stream, files[n - 1]) == Ok(Some((key, index[key])));
      assert LastWithKey(files, n - 1, key);
    } else {
      assert key in before && index[key] == before[key];
      IndexFramesEntry(stream, init, key);
      var i :| 0 <= i < |init| && FrameEntry(stream, init[i]) == Ok(Some((key, before[key])))
                               && LastWithKey(init, i, key);
      LastWithKeyExtends(files, i, key);
    }
  }

  /** The index entry of a frame file records its parsed time and the path
    * "aria01/<stream>/<file>". */
  lemma FrameEntryShape(stream: string, f: string)
    requires FrameEntry(stream, f).Ok? && FrameEntry(stream, f).value.Some?
    ensures var kv := FrameEntry(stream, f).value.value;
      && EndsWith(f, "jpg") && kv.0 == FrameKey(f) && ParseDecimal(kv.0) == Some(kv.1.t)
      && kv.1.path == PathJoin(PathJoin("aria01", stream), f)
  {
  }

  /** Lines 511-526, all streams: `aria_frames_by_stream`, from each stream's listing
    * of its frame directory (a stream without a listing has no directory). Streams
    * are taken in order and the first failure ends the stage. */
  function FrameIndexes(streams: seq<string>, listings: map<string, seq<string>>,
                        acc: map<string, map<string, AriaFrame>>): Result<map<string, map<string, AriaFrame>>, SyncError>
    decreases |streams|
  {
    if streams == [] then Ok(acc)
    else if streams[0] !in listings then Err(MissingFrameDir(streams[0]))
    else
      var index :- IndexFrames(streams[0], listings[streams[0]]);
      FrameIndexes(streams[1..], listings, acc[streams[0] := index])
  }

  /** Every configured stream gets the index of its own listing. */
  lemma {:induction false} FrameIndexesContents(streams: seq<string>, listings: map<string, seq<string>>,
                                                acc: map<string, map<string, AriaFrame>>)
    requires FrameIndexes(streams, listings, acc).Ok?
    ensures FrameIndexes(streams, listings, acc).value.Keys == acc.Keys + set s | s in streams
    ensures forall s :: s in streams ==>
      (s in listings && IndexFrames(s, listings[s]) == Ok(FrameIndexes(streams, listings, acc).value[s]))
    ensures forall s :: s in acc && s !in streams ==> FrameIndexes(streams, listings, acc).value[s] == acc[s]
    decreases |streams|
  {
    if streams != [] {
      var s0 := streams[0];
      var next := acc[s0 := IndexFrames(s0, listings[s0]).value];
      FrameIndexesContents(streams[1..], listings, next);
      assert forall s :: s in streams <==> s == s0 || s in streams[1..];
    }
  }

  method IndexAriaFrames(streams: seq<string>, listings: map<string, seq<string>>)
    returns (r: Result<map<string, map<string, AriaFrame>>, SyncError>)
    ensures r == FrameIndexes(streams, listings, map[])
  {
    var byStream: map<string, map<string, AriaFrame>> := map[];
    var i := 0;
    while i < |streams|
      invariant 0 <= i <= |streams|
      invariant FrameIndexes(streams[i..], listings, byStream) == FrameIndexes(streams, listings, map[])
    {
      var s := streams[i];
      assert streams[i..][0] == s && streams[i..][1..] == streams[i + 1..];
      if s !in listings {
        return Err(MissingFrameDir(s));
      }
      var index := IndexFrames(s, listings[s]);
      if index.Err? {
        return Err(index.error);
      }
      byStream := byStream[s := index.value];
      i := i + 1;
    }
    assert streams[i..] == [];
    return Ok(byStream);
  }

  // ---------------------------------------------------------------------------
  // Record assembly

  /** Everything the row loop reads. */
  datatype SyncInputs = SyncInputs(
    synced: seq<SyncRow>, ariaStreams: seq<string>, exoCams: seq<string>,
    frames: map<string, map<string, AriaFrame>>, ariaTraj: seq<AriaPose>,
    exoTraj: seq<ExoCalib>, remap: map<string, string>)

  /** `synced_df.iloc[idx]`: a negative index counts from the end. */
  function Iloc(rows: seq<SyncRow>, idx: int): (r: Result<SyncRow, SyncError>)
    ensures r.Ok? <==> -|rows| <= idx < |rows|
    ensures 0 <= idx < |rows| ==> r == Ok(rows[idx])
    ensures -|rows| <= idx < 0 ==> r == Ok(rows[|rows| + idx])
  {
    if 0 <= idx < |rows| then Ok(rows[idx])
    else if -|rows| <= idx < 0 then Ok(rows[|rows| + idx])
    else Err(RowOutOfRange(idx))
  }

  function Column(row: SyncRow, name: string): (r: Result<int, SyncError>)
    ensures r.Ok? <==> name in row
    ensures r.Ok? ==> r.value == row[name]
  {
    if name in row then Ok(row[name]) else Err(MissingColumn(name))
  }

  /** Lines 532-537: `stream_id_to_name`. */
  const StreamNames: map<string, string> := map[
    "211-1" := "aria_et", "214-1" := "aria_rgb",
    "1201-1" := "aria_slam_left", "1201-2" := "aria_slam_right"]

  function StreamName(stream: string): (r: Result<string, SyncError>)
    ensures r.Ok? <==> stream in StreamNames
    ensures r.Ok? ==> r.value == StreamNames[stream]
  {
    if stream in StreamNames then Ok(StreamNames[stream]) else Err(UnknownStream(stream))
  }

  /** Distinct streams have distinct names. */
  lemma StreamNamesInjective(s: string, u: string)
    requires s in StreamNames && u in StreamNames && StreamNames[s] == StreamNames[u]
    ensures s == u
  {
  }

  function Distance(p: AriaPose, targetUs: real): real {
    if p.trackingTimestampUs >= targetUs then p.trackingTimestampUs - targetUs else targetUs - p.trackingTimestampUs
  }

  /** Lines 552-557: a row whose tracking timestamp is nearest to the target. Which of
    * several equally near rows pandas returns is not fixed; this one takes the first. */
  function NearestIndex(traj: seq<AriaPose>, targetUs: real): (i: nat)
    requires |traj| > 0
    ensures i < |traj|
    ensures forall j :: 0 <= j < |traj| ==> Distance(traj[i], targetUs) <= Distance(traj[j], targetUs)
    decreases |traj|
  {
    if |traj| == 1 then 0
    else
      var n := |traj|;
      var k := NearestIndex(traj[..n - 1], targetUs);
      assert forall j :: 0 <= j < n - 1 ==> traj[..n - 1][j] == traj[j];
      if Distance(traj[n - 1], targetUs) < Distance(traj[k], targetUs) then n - 1 else k
  }

  function Nearest(traj: seq<AriaPose>, targetUs: real): (r: Result<nat, SyncError>)
    ensures r.Ok? <==> |traj| > 0
    ensures r.Ok? ==> r.value < |traj|
    ensures r.Ok? ==> forall j :: 0 <= j < |traj| ==> Distance(traj[r.value], targetUs) <= Distance(traj[j], targetUs)
  {
    if |traj| == 0 then Err(EmptyTrajectory) else Ok(NearestIndex(traj, targetUs))
  }

  /** Line 580: `exo_traj_df[exo_traj_df.gopro_uid == name].iloc[0]`, as a position. */
  function FirstCalibration(rows: seq<ExoCalib>, name: string): (r: Option<nat>)
    ensures r.Some? ==> r.value < |rows| && rows[r.value].goproUid == name
    ensures r.Some? ==> forall j :: 0 <= j < r.value ==> rows[j].goproUid != name
    ensures r.None? ==> forall j :: 0 <= j < |rows| ==> rows[j].goproUid != name
    decreases |rows|
  {
    if rows == [] then None
    else if rows[0].goproUid == name then Some(0)
    else match FirstCalibration(rows[1..], name)
      case None => None
      case Some(k) => Some(k + 1)
  }

  /** Lines 574-578: the calibration name of an exocentric camera. A non-empty remap
    * table must name the camera; an empty one leaves the name unchanged. */
  function CalibrationName(remap: map<string, string>, cam: string): (r: Result<string, SyncError>)
    ensures |remap| > 0 ==> (r.Ok? <==> cam in remap)
    ensures |remap| > 0 && r.Ok? ==> r.value == remap[cam]
    ensures |remap| == 0 ==> r == Ok(cam)
  {
    if |remap| > 0 then (if cam in remap then Ok(remap[cam]) else Err(MissingRemap(cam)))
    else Ok(cam)
  }

  function FrameNumberColumn(stream: string): string { "aria01_" + stream + "_frame_number" }
  function TimestampColumn(stream: string): string { "aria01_" + stream + "_capture_timestamp_ns" }
  function ExoFrameColumn(cam: string): string { cam + "_frame_number" }

  /** Lines 545-569: the entry of one Aria stream, under the stream's name. */
  function AriaEntry(inp: SyncInputs, idx: int, row: SyncRow, stream: string): Result<(string, ViewEntry), SyncError> {
    var _ :- Column(row, FrameNumberColumn(stream));
    var ns :- Column(row, TimestampColumn(stream));
    AriaView(inp, idx, stream, FormatSeconds3(ns))
  }

  /** Lines 547-569 once the lookup key is formatted: the indexed frame, the nearest
    * trajectory row and the stream's name. */
  function AriaView(inp: SyncInputs, idx: int, stream: string, key: string): Result<(string, ViewEntry), SyncError> {
    if stream !in inp.frames || key !in inp.frames[stream] then Err(MissingAriaFrame(stream, key))
    else
      var info := inp.frames[stream][key];
      var i :- Nearest(inp.ariaTraj, info.t * 1000000.0);
      var name :- StreamName(stream);
      Ok((name, ViewEntry(info.path, idx, Some(info.t), stream, "device", AriaRaw(inp.ariaTraj[i]))))
  }

  /** Lines 571-593: the entry of one exocentric camera, under the camera's name. */
  function ExoEntry(inp: SyncInputs, row: SyncRow, cam: string): Result<(string, ViewEntry), SyncError> {
    var frameNum :- Column(row, ExoFrameColumn(cam));
    var framePath := PathJoin(cam, FormatPadded(frameNum, 6) + ".jpg");
    var calibName :- CalibrationName(inp.remap, cam);
    match FirstCalibration(inp.exoTraj, calibName)
    case None => Err(MissingCalibration(calibName))
    case Some(i) => Ok((cam, ViewEntry(framePath, frameNum, None, cam, "gopro", ExoRaw(inp.exoTraj[i]))))
  }

  /** Entries of `entry` for the keys in order, written into `acc`: a later entry
    * under the same name replaces an earlier one, and the first failure ends it. */
  function AddViews(entry: string -> Result<(string, ViewEntry), SyncError>, keys: seq<string>, acc: Record): Result<Record, SyncError>
    decreases |keys|
  {
    if keys == [] then Ok(acc)
    else
      var e :- entry(keys[0]);
      AddViews(entry, keys[1..], acc[e.0 := e.1])
  }

  /** The stream loop from a partly built record. */
  function AriaPart(inp: SyncInputs, idx: int, row: SyncRow, streams: seq<string>, acc: Record): Result<Record, SyncError> {
    AddViews(s => AriaEntry(inp, idx, row, s), streams, acc)
  }

  /** The camera loop from a partly built record. */
  function ExoPart(inp: SyncInputs, row: SyncRow, cams: seq<string>, acc: Record): Result<Record, SyncError> {
    AddViews(c => ExoEntry(inp, row, c), cams, acc)
  }

  /** Lines 542-594, one index: the record of synchronised index `idx`. */
  function RecordAt(inp: SyncInputs, idx: int): Result<Record, SyncError> {
    var row :- Iloc(inp.synced, idx);
    var withAria :- AriaPart(inp, idx, row, inp.ariaStreams, map[]);
    ExoPart(inp, row, inp.exoCams, withAria)
  }

  /** `n` results of `f` from index `idx` on, appended to `acc`; the first failure ends it. */
  function CollectFrom<T, E>(f: int -> Result<T, E>, idx: int, n: nat, acc: seq<T>): Result<seq<T>, E>
    decreases n
  {
    if n == 0 then Ok(acc)
    else
      var x :- f(idx);
      CollectFrom(f, idx + 1, n - 1, acc + [x])
  }

  /** `n` records from index `idx` on, appended to `acc`. */
  function RecordsFrom(inp: SyncInputs, idx: int, n: nat, acc: seq<Record>): Result<seq<Record>, SyncError> {
    CollectFrom(j => RecordAt(inp, j), idx, n, acc)
  }

  function Count(i1: int, i2: int): nat {
    if i2 >= i1 then i2 - i1 + 1 else 0
  }

  /** Lines 542-594: `output`, one record per index of `range(i1, i2 + 1)`. */
  function Frames(inp: SyncInputs, i1: int, i2: int): Result<seq<Record>, SyncError> {
    RecordsFrom(inp, i1, Count(i1, i2), [])
  }

  /** The record of one index, built by the stream loop and then the camera loop. */
  method BuildRecord(inp: SyncInputs, idx: int) returns (r: Result<Record, SyncError>)
    ensures r == RecordAt(inp, idx)
  {
    var synced := Iloc(inp.synced, idx);
    if synced.Err? {
      return Err(synced.error);
    }
    var row := synced.value;
    var rec: Record := map[];
    var i := 0;
    while i < |inp.ariaStreams|
      invariant 0 <= i <= |inp.ariaStreams|
      invariant AriaPart(inp, idx, row, inp.ariaStreams[i..], rec) == AriaPart(inp, idx, row, inp.ariaStreams, map[])
    {
      assert inp.ariaStreams[i..][1..] == inp.ariaStreams[i + 1..];
      var e := AriaEntry(inp, idx, row, inp.ariaStreams[i]);
      if e.Err? {
        return Err(e.error);
      }
      rec := rec[e.value.0 := e.value.1];
      i := i + 1;
    }
    assert inp.ariaStreams[i..] == [];
    var j := 0;
    while j < |inp.exoCams|
      invariant 0 <= j <= |inp.exoCams|
      invariant AriaPart(inp, idx, row, inp.ariaStreams, map[]).Ok?
      invariant ExoPart(inp, row, inp.exoCams[j..], rec) == RecordAt(inp, idx)
    {
      assert inp.exoCams[j..][1..] == inp.exoCams[j + 1..];
      var e := ExoEntry(inp, row, inp.exoCams[j]);
      if e.Err? {
        return Err(e.error);
      }
      rec := rec[e.value.0 := e.value.1];
      j := j + 1;
    }
    assert inp.exoCams[j..] == [];
    return Ok(rec);
  }

  /** Lines 542-594: the row loop over `range(i1, i2 + 1)`. */
  method AssembleFrames(inp: SyncInputs, i1: int, i2: int) returns (r: Result<seq<Record>, SyncError>)
    ensures r == Frames(inp, i1, i2)
  {
    var output: seq<Record> := [];
    var idx := i1;
    while idx <= i2
      invariant i1 <= idx && (i1 <= i2 ==> idx <= i2 + 1)
      invariant RecordsFrom(inp, idx, Count(idx, i2), output) == Frames(inp, i1, i2)
      decreases i2 - idx
    {
      var rec := BuildRecord(inp, idx);
      if rec.Err? {
        return Err(rec.error);
      }
      output := output + [rec.value];
      idx := idx + 1;
    }
    return Ok(output);
  }

  // ---------------------------------------------------------------------------
  // Properties of the assembled table

  /** The collection exists iff every one of the `n` results does. */
  lemma {:induction false} CollectFromOk<T, E>(f: int -> Result<T, E>, idx: int, n: nat, acc: seq<T>)
    ensures CollectFrom(f, idx, n, acc).Ok? <==> forall j :: idx <= j < idx + n ==> f(j).Ok?
    decreases n
  {
    if n > 0 && f(idx).Ok? {
      CollectFromOk(f, idx + 1, n - 1, acc + [f(idx).value]);
    }
  }

  /** The collection holds `n` results after `acc`, the one of index `j` at position
    * `|acc| + j - idx`. */
  lemma {:induction false} CollectFromContents<T, E>(f: int -> Result<T, E>, idx: int, n: nat, acc: seq<T>)
    requires CollectFrom(f, idx, n, acc).Ok?
    ensures |CollectFrom(f, idx, n, acc).value| == |acc| + n
    ensures CollectFrom(f, idx, n, acc).value[..|acc|] == acc
    ensures forall j :: idx <= j < idx + n ==> f(j) == Ok(CollectFrom(f, idx, n, acc).value[|acc| + (j - idx)])
    decreases n
  {
    if n > 0 {
      var acc' := acc + [f(idx).value];
      var r := CollectFrom(f, idx, n, acc).value;
      CollectFromContents(f, idx + 1, n - 1, acc');
      assert r[..|acc'|][..|acc|] == r[..|acc|];
      assert r[|acc|] == r[..|acc'|][|acc|] == acc'[|acc|];
    }
  }

  /** Lines 542-594: the table is built iff every record of `range(i1, i2 + 1)` is. */
  lemma FramesOk(inp: SyncInputs, i1: int, i2: int)
    ensures Frames(inp, i1, i2).Ok? <==> forall idx :: i1 <= idx <= i2 ==> RecordAt(inp, idx).Ok?
  {
    var f := j => RecordAt(inp, j);
    assert Frames(inp, i1, i2) == CollectFrom(f, i1, Count(i1, i2), []);
    CollectRange(f, i1, i2);
    assert forall j :: f(j) == RecordAt(inp, j);
  }

  /** Lines 542-594: the table holds exactly one record per index of `range(i1, i2 + 1)`,
    * in increasing index order. */
  lemma FramesContents(inp: SyncInputs, i1: int, i2: int)
    requires Frames(inp, i1, i2).Ok?
    ensures |Frames(inp, i1, i2).value| == Count(i1, i2)
    ensures forall idx :: i1 <= idx <= i2 ==> RecordAt(inp, idx) == Ok(Frames(inp, i1, i2).value[idx - i1])
  {
    var f := j => RecordAt(inp, j);
    assert Frames(inp, i1, i2) == CollectFrom(f, i1, Count(i1, i2), []);
    CollectRange(f, i1, i2);
    assert forall j :: f(j) == RecordAt(inp, j);
  }

  /** `CollectFrom` over `i1..i2` from nothing: one result per index, in order. */
  lemma CollectRange<T, E>(f: int -> Result<T, E>, i1: int, i2: int)
    ensures var c := CollectFrom(f, i1, Count(i1, i2), []);
      c.Ok? <==> forall j :: i1 <= j <= i2 ==> f(j).Ok?
    ensures var c := CollectFrom(f, i1, Count(i1, i2), []);
      c.Ok? ==> |c.value| == Count(i1, i2) && forall j :: i1 <= j <= i2 ==> f(j) == Ok(c.value[j - i1])
  {
    CollectFromOk(f, i1, Count(i1, i2), []);
    if CollectFrom(f, i1, Count(i1, i2), []).Ok? {
      CollectFromContents(f, i1, Count(i1, i2), []);
    }
  }

  /** The fold succeeds iff every key's entry does. */
  lemma {:induction false} AddViewsOk(entry: string -> Result<(string, ViewEntry), SyncError>, keys: seq<string>, acc: Record)
    ensures AddViews(entry, keys, acc).Ok? <==> forall k :: k in keys ==> entry(k).Ok?
    decreases |keys|
  {
    if keys != [] {
      assert forall k :: k in keys <==> k == keys[0] || k in keys[1..];
      var e := entry(keys[0]);
      if e.Ok? {
        AddViewsOk(entry, keys[1..], acc[e.value.0 := e.value.1]);
      }
    }
  }

  /** When every entry sits under its key's `name` and distinct keys have distinct
    * names, the fold adds exactly the keys' names, each holding its key's entry, and
    * keeps every other name. */
  lemma {:induction false} AddViewsEntries(entry: string -> Result<(string, ViewEntry), SyncError>, name: string -> string,
                                           keys: seq<string>, acc: Record)
    requires AddViews(entry, keys, acc).Ok?
    requires forall k :: k in keys && entry(k).Ok? ==> entry(k).value.0 == name(k)
    requires forall k, u :: k in keys && u in keys && name(k) == name(u) ==> k == u
    ensures AddViews(entry, keys, acc).value.Keys == acc.Keys + set k | k in keys :: name(k)
    ensures forall k :: k in keys ==>
      name(k) in AddViews(entry, keys, acc).value && entry(k) == Ok((name(k), AddViews(entry, keys, acc).value[name(k)]))
    ensures forall n :: n in acc && n !in (set k | k in keys :: name(k)) ==> AddViews(entry, keys, acc).value[n] == acc[n]
    decreases |keys|
  {
    if keys != [] {
      var k0 := keys[0];
      var rest := keys[1..];
      assert forall k :: k in keys <==> k == k0 || k in rest;
      var e := entry(k0);
      var acc' := acc[name(k0) := e.value.1];
      assert AddViews(entry, keys, acc) == AddViews(entry, rest, acc');
      AddViewsEntries(entry, name, rest, acc');
      var names := set k | k in rest :: name(k);
      assert (set k | k in keys :: name(k)) == {name(k0)} + names;
      var r := AddViews(entry, rest, acc').value;
      if k0 !in rest {
        assert name(k0) !in names;
        assert r[name(k0)] == e.value.1;
      }
    }
  }

  /** The stream loop succeeds iff every stream's entry does. */
  lemma AriaPartOk(inp: SyncInputs, idx: int, row: SyncRow, streams: seq<string>, acc: Record)
    ensures AriaPart(inp, idx, row, streams, acc).Ok? <==>
      forall s :: s in streams ==> AriaEntry(inp, idx, row, s).Ok?
  {
    AddViewsOk(s => AriaEntry(inp, idx, row, s), streams, acc);
  }

  /** The names the stream loop writes. */
  function NamesOf(streams: seq<string>): set<string> {
    set s | s in streams && s in StreamNames :: StreamNames[s]
  }

  /** A stream's name, or the stream itself when it has none. */
  function NameOrSelf(s: string): string {
    if s in StreamNames then StreamNames[s] else s
  }

  /** An Aria entry is keyed by its stream's name. */
  lemma AriaEntryKey(inp: SyncInputs, idx: int, row: SyncRow, stream: string)
    requires AriaEntry(inp, idx, row, stream).Ok?
    ensures stream in StreamNames && AriaEntry(inp, idx, row, stream).value.0 == StreamNames[stream]
  {
  }

  /** An exocentric entry is keyed by its camera id. */
  lemma ExoEntryKey(inp: SyncInputs, row: SyncRow, cam: string)
    requires ExoEntry(inp, row, cam).Ok?
    ensures ExoEntry(inp, row, cam).value.0 == cam
  {
  }

  /** The stream loop adds exactly the streams' names, each holding its stream's
    * entry, and keeps every other key. */
  lemma AriaPartEntries(inp: SyncInputs, idx: int, row: SyncRow, streams: seq<string>, acc: Record)
    requires AriaPart(inp, idx, row, streams, acc).Ok?
    ensures forall s :: s in streams ==> s in StreamNames
    ensures AriaPart(inp, idx, row, streams, acc).value.Keys == acc.Keys + NamesOf(streams)
    ensures forall s :: s in streams ==>
      (StreamNames[s] in AriaPart(inp, idx, row, streams, acc).value &&
       AriaEntry(inp, idx, row, s) == Ok((StreamNames[s], AriaPart(inp, idx, row, streams, acc).value[StreamNames[s]])))
    ensures forall k :: k in acc && k !in NamesOf(streams) ==> AriaPart(inp, idx, row, streams, acc).value[k] == acc[k]
  {
    var f := s => AriaEntry(inp, idx, row, s);
    forall s | s in streams && f(s).Ok?
      ensures s in StreamNames && f(s).value.0 == StreamNames[s]
    {
      AriaEntryKey(inp, idx, row, s);
    }
    AddViewsStreamKeyed(f, streams, acc);
  }

  /** The fold over entries that sit under their stream's name adds exactly the
    * streams' names, each holding its stream's entry, and keeps every other key. */
  lemma AddViewsStreamKeyed(entry: string -> Result<(string, ViewEntry), SyncError>, streams: seq<string>, acc: Record)
    requires AddViews(entry, streams, acc).Ok?
    requires forall s :: s in streams && entry(s).Ok? ==> s in StreamNames && entry(s).value.0 == StreamNames[s]
    ensures forall s :: s in streams ==> s in StreamNames
    ensures AddViews(entry, streams, acc).value.Keys == acc.Keys + NamesOf(streams)
    ensures forall s :: s in streams ==>
      (StreamNames[s] in AddViews(entry, streams, acc).value &&
       entry(s) == Ok((StreamNames[s], AddViews(entry, streams, acc).value[StreamNames[s]])))
    ensures forall k :: k in acc && k !in NamesOf(streams) ==> AddViews(entry, streams, acc).value[k] == acc[k]
  {
    AddViewsOk(entry, streams, acc);
    forall s, u | s in streams && u in streams && NameOrSelf(s) == NameOrSelf(u)
      ensures s == u
    {
      StreamNamesInjective(s, u);
    }
    AddViewsEntries(entry, NameOrSelf, streams, acc);
    assert NamesOf(streams) == set s | s in streams :: NameOrSelf(s);
  }

  /** The camera loop succeeds iff every camera's entry does. */
  lemma ExoPartOk(inp: SyncInputs, row: SyncRow, cams: seq<string>, acc: Record)
    ensures ExoPart(inp, row, cams, acc).Ok? <==> forall c :: c in cams ==> ExoEntry(inp, row, c).Ok?
  {
    AddViewsOk(c => ExoEntry(inp, row, c), cams, acc);
  }

  /** The camera loop adds exactly the cameras, each holding its own entry, and keeps
    * every other key. */
  lemma ExoPartEntries(inp: SyncInputs, row: SyncRow, cams: seq<string>, acc: Record)
    requires ExoPart(inp, row, cams, acc).Ok?
    ensures ExoPart(inp, row, cams, acc).value.Keys == acc.Keys + set c | c in cams
    ensures forall c :: c in cams ==>
      (c in ExoPart(inp, row, cams, acc).value && ExoEntry(inp, row, c) == Ok((c, ExoPart(inp, row, cams, acc).value[c])))
    ensures forall k :: k in acc && k !in cams ==> ExoPart(inp, row, cams, acc).value[k] == acc[k]
  {
    var f := c => ExoEntry(inp, row, c);
    forall c | c in cams && f(c).Ok?
      ensures f(c).value.0 == c
    {
      ExoEntryKey(inp, row, c);
    }
    AddViewsSelfKeyed(f, cams, acc);
  }

  /** The fold over entries that sit under their own keys adds exactly the keys, each
    * holding its entry, and keeps every other key. */
  lemma AddViewsSelfKeyed(entry: string -> Result<(string, ViewEntry), SyncError>, keys: seq<string>, acc: Record)
    requires AddViews(entry, keys, acc).Ok?
    requires forall k :: k in keys && entry(k).Ok? ==> entry(k).value.0 == k
    ensures AddViews(entry, keys, acc).value.Keys == acc.Keys + set k | k in keys
    ensures forall k :: k in keys ==>
      k in AddViews(entry, keys, acc).value && entry(k) == Ok((k, AddViews(entry, keys, acc).value[k]))
    ensures forall n :: n in acc && n !in keys ==> AddViews(entry, keys, acc).value[n] == acc[n]
  {
    var id := (k: string) => k;
    AddViewsEntries(entry, id, keys, acc);
    assert (set k | k in keys) == set k | k in keys :: id(k);
  }

  /** Lines 545-569: an Aria entry sits under the stream's name; it records the frame
    * indexed under the row's formatted capture time, the synchronised index (not the
    * stream's own frame number), the frame's parsed time, and a trajectory row nearest
    * to that time. */
  lemma AriaEntryShape(inp: SyncInputs, idx: int, row: SyncRow, stream: string)
    requires AriaEntry(inp, idx, row, stream).Ok?
    ensures var e := AriaEntry(inp, idx, row, stream).value;
      && stream in StreamNames && e.0 == StreamNames[stream]
      && FrameNumberColumn(stream) in row && TimestampColumn(stream) in row
      && stream in inp.frames && FormatSeconds3(row[TimestampColumn(stream)]) in inp.frames[stream]
    ensures var e := AriaEntry(inp, idx, row, stream).value;
      var info := inp.frames[stream][FormatSeconds3(row[TimestampColumn(stream)])];
      && e.1.framePath == info.path && e.1.frameNumber == idx && e.1.t == Some(info.t)
      && e.1.name == stream && e.1.deviceRowKey == "device"
      && e.1.raw.AriaRaw? && e.1.raw.pose in inp.ariaTraj
      && forall p :: p in inp.ariaTraj ==>
           Distance(e.1.raw.pose, info.t * 1000000.0) <= Distance(p, info.t * 1000000.0)
  {
    AriaViewShape(inp, idx, stream, FormatSeconds3(row[TimestampColumn(stream)]));
  }

  /** The view of an indexed key: the frame's path and time, and a nearest trajectory row. */
  lemma AriaViewShape(inp: SyncInputs, idx: int, stream: string, key: string)
    requires AriaView(inp, idx, stream, key).Ok?
    ensures var e := AriaView(inp, idx, stream, key).value;
      && stream in StreamNames && e.0 == StreamNames[stream]
      && stream in inp.frames && key in inp.frames[stream]
    ensures var e := AriaView(inp, idx, stream, key).value;
      var info := inp.frames[stream][key];
      && e.1.framePath == info.path && e.1.frameNumber == idx && e.1.t == Some(info.t)
      && e.1.name == stream && e.1.deviceRowKey == "device"
      && e.1.raw.AriaRaw? && e.1.raw.pose in inp.ariaTraj
      && forall p :: p in inp.ariaTraj ==>
           Distance(e.1.raw.pose, info.t * 1000000.0) <= Distance(p, info.t * 1000000.0)
  {
    var info := inp.frames[stream][key];
    var target := info.t * 1000000.0;
    var i := Nearest(inp.ariaTraj, target).value;
    assert AriaView(inp, idx, stream, key).value.1.raw == AriaRaw(inp.ariaTraj[i]);
    NearestIsNearest(inp.ariaTraj, target);
  }

  /** The row `Nearest` picks is in the table and no row is nearer. */
  lemma NearestIsNearest(traj: seq<AriaPose>, targetUs: real)
    requires |traj| > 0
    ensures traj[Nearest(traj, targetUs).value] in traj
    ensures forall p :: p in traj ==> Distance(traj[Nearest(traj, targetUs).value], targetUs) <= Distance(p, targetUs)
  {
    var i := Nearest(traj, targetUs).value;
    forall p | p in traj
      ensures Distance(traj[i], targetUs) <= Distance(p, targetUs)
    {
      var j :| 0 <= j < |traj| && traj[j] == p;
    }
  }

  /** Lines 547-549: when both columns are present but the formatted capture time is
    * not a key of the stream's frame index, the stage fails with that key. */
  lemma MissingFrameFails(inp: SyncInputs, idx: int, row: SyncRow, stream: string)
    requires FrameNumberColumn(stream) in row && TimestampColumn(stream) in row
    requires stream !in inp.frames || FormatSeconds3(row[TimestampColumn(stream)]) !in inp.frames[stream]
    ensures AriaEntry(inp, idx, row, stream) == Err(MissingAriaFrame(stream, FormatSeconds3(row[TimestampColumn(stream)])))
  {
  }

  /** Lines 571-593: an exocentric entry sits under the camera's name; it records the
    * camera's synchronised frame number, no time, the frame path
    * "<cam>/<six-digit number>.jpg", and the first calibration row carrying the
    * camera's calibration name. */
  lemma ExoEntryShape(inp: SyncInputs, row: SyncRow, cam: string)
    requires ExoEntry(inp, row, cam).Ok?
    ensures var e := ExoEntry(inp, row, cam).value;
      && e.0 == cam && ExoFrameColumn(cam) in row && e.1.frameNumber == row[ExoFrameColumn(cam)]
      && e.1.t == None && e.1.name == cam && e.1.deviceRowKey == "gopro"
      && e.1.framePath == PathJoin(cam, FormatPadded(e.1.frameNumber, 6) + ".jpg")
      && CalibrationName(inp.remap, cam).Ok?
    ensures var e := ExoEntry(inp, row, cam).value;
      var name := CalibrationName(inp.remap, cam).value;
      exists i :: && 0 <= i < |inp.exoTraj| && e.1.raw == ExoRaw(inp.exoTraj[i]) && inp.exoTraj[i].goproUid == name
                  && forall j :: 0 <= j < i ==> inp.exoTraj[j].goproUid != name
  {
    var name := CalibrationName(inp.remap, cam).value;
    var i := FirstCalibration(inp.exoTraj, name).value;
    assert ExoEntry(inp, row, cam).value.1.raw == ExoRaw(inp.exoTraj[i]);
  }

  /** The exocentric frame path for a plain camera name and a non-negative frame
    * number is "<cam>/" followed by at least six digits that read back as the number. */
  lemma ExoFramePath(cam: string, n: nat)
    requires cam != "" && !EndsWith(cam, "/")
    ensures PathJoin(cam, FormatPadded(n, 6) + ".jpg") == cam + "/" + FormatPadded(n, 6) + ".jpg"
    ensures |FormatPadded(n, 6)| >= 6 && AllDigits(FormatPadded(n, 6)) && DigitsValue(FormatPadded(n, 6)) == n
  {
    FormatPaddedValue(n, 6);
    var b := FormatPadded(n, 6) + ".jpg";
    assert b[0] == FormatPadded(n, 6)[0];
    assert !StartsWith(b, "/");
  }

  /** Lines 542-594, one record: its keys are the configured streams' names and the
    * exocentric cameras. */
  lemma RecordKeys(inp: SyncInputs, idx: int)
    requires RecordAt(inp, idx).Ok?
    ensures forall s :: s in inp.ariaStreams ==> s in StreamNames
    ensures RecordAt(inp, idx).value.Keys == NamesOf(inp.ariaStreams) + (set c | c in inp.exoCams)
  {
    var row := Iloc(inp.synced, idx).value;
    var aria := AriaPart(inp, idx, row, inp.ariaStreams, map[]).value;
    assert RecordAt(inp, idx) == ExoPart(inp, row, inp.exoCams, aria);
    AriaPartEntries(inp, idx, row, inp.ariaStreams, map[]);
    assert aria.Keys == NamesOf(inp.ariaStreams);
    ExoPartEntries(inp, row, inp.exoCams, aria);
  }

  /** Lines 571-593, one record: every exocentric camera holds its own entry. */
  lemma RecordCameras(inp: SyncInputs, idx: int)
    requires RecordAt(inp, idx).Ok?
    ensures Iloc(inp.synced, idx).Ok?
    ensures var row := Iloc(inp.synced, idx).value; var rec := RecordAt(inp, idx).value;
      forall c :: c in inp.exoCams ==> c in rec && ExoEntry(inp, row, c) == Ok((c, rec[c]))
  {
    var row := Iloc(inp.synced, idx).value;
    var withAria := AriaPart(inp, idx, row, inp.ariaStreams, map[]);
    ExoPartEntries(inp, row, inp.exoCams, withAria.value);
  }

  /** Lines 545-569 with 571-593, one record: every stream whose name is not also an
    * exocentric camera holds its own entry (a camera of the same name replaces it). */
  lemma RecordStreams(inp: SyncInputs, idx: int)
    requires RecordAt(inp, idx).Ok?
    ensures Iloc(inp.synced, idx).Ok?
    ensures forall s :: s in inp.ariaStreams ==> s in StreamNames
    ensures var row := Iloc(inp.synced, idx).value; var rec := RecordAt(inp, idx).value;
      forall s :: s in inp.ariaStreams && StreamNames[s] !in inp.exoCams ==>
        StreamNames[s] in rec && AriaEntry(inp, idx, row, s) == Ok((StreamNames[s], rec[StreamNames[s]]))
  {
    var row := Iloc(inp.synced, idx).value;
    var withAria := AriaPart(inp, idx, row, inp.ariaStreams, map[]);
    AriaPartEntries(inp, idx, row, inp.ariaStreams, map[]);
    ExoPartEntries(inp, row, inp.exoCams, withAria.value);
  }

  /** Lines 519-525 with 547-549: when the frame index was built from the listings and
    * the stream's listing holds a frame named after the formatted capture time, the
    * exact lookup finds it. */
  lemma FormattedFrameFound(streams: seq<string>, listings: map<string, seq<string>>,
                            stream: string, p: string, ns: nat)
    requires FrameIndexes(streams, listings, map[]).Ok? && stream in streams
    requires stream in listings && p + "-" + FormatSeconds3(ns) + ".jpg" in listings[stream]
    ensures var frames := FrameIndexes(streams, listings, map[]).value;
      stream in frames && FormatSeconds3(ns) in frames[stream]
  {
    var key := FormatSeconds3(ns);
    var f := p + "-" + key + ".jpg";
    assert EndsWith(f, "jpg") && FrameKey(f) == key by {
      FormattedFrameKey(p, ns);
    }
    FrameIndexesContents(streams, listings, map[]);
    var i :| 0 <= i < |listings[stream]| && listings[stream][i] == f;
    IndexFramesKeys(stream, listings[stream], key);
  }

  /** The file "<p>-<formatted time>.jpg" is a frame file whose key is the formatted time. */
  lemma FormattedFrameKey(p: string, ns: nat)
    ensures var f := p + "-" + FormatSeconds3(ns) + ".jpg";
      EndsWith(f, "jpg") && FrameKey(f) == FormatSeconds3(ns)
  {
    var m := Millis(ns);
    var a := NatToString(m / 1000);
    var b := ZeroPad(NatToString(m % 1000), 3);
    assert FormatSeconds3(ns) == a + "." + b;
    DigitsHaveNoDot(a);
    assert AllDigits(b);
    DigitsHaveNoDot(b);
    var f := p + "-" + FormatSeconds3(ns) + ".jpg";
    assert f == p + "-" + a + "." + b + ".jpg";
    FrameKeyOfName(p, a, b);
    assert f[|f| - 3..] == "jpg";
  }
}
