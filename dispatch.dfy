/**
 * `run`: the configured mode string selects one of the five pipeline stages; any
 * other string is an assertion error naming the mode.
 */
module Dispatch {
  import opened Wrappers

  datatype Mode = Preprocess | BBox | Pose2d | Pose3d | MultiViewVis

  /** The spelling of each mode in the configuration. */
  function ModeName(m: Mode): (s: string)
    ensures |s| > 0
  {
    match m
    case Preprocess => "preprocess"
    case BBox => "bbox"
    case Pose2d => "pose2d"
    case Pose3d => "pose3d"
    case MultiViewVis => "multi_view_vis"
  }

  /** Lines 676-688: the mode string's stage, or `unknown mode: <mode>`. */
  function ParseMode(s: string): (r: Result<Mode, string>)
    ensures r.Err? ==> r.error == "unknown mode: " + s
  {
    if s == "preprocess" then Ok(Preprocess)
    else if s == "bbox" then Ok(BBox)
    else if s == "pose2d" then Ok(Pose2d)
    else if s == "pose3d" then Ok(Pose3d)
    else if s == "multi_view_vis" then Ok(MultiViewVis)
    else Err("unknown mode: " + s)
  }

  /** Every mode's own name selects it. */
  lemma ParseModeName(m: Mode)
    ensures ParseMode(ModeName(m)) == Ok(m)
  {
  }

  /** A string selects a stage exactly when it is that stage's name. */
  lemma ParseModeIff(s: string, m: Mode)
    ensures ParseMode(s) == Ok(m) <==> s == ModeName(m)
  {
  }

  /** Only the five names are accepted. */
  lemma {:induction false} ParseModeAccepts(s: string)
    ensures ParseMode(s).Ok? <==>
      s in {"preprocess", "bbox", "pose2d", "pose3d", "multi_view_vis"}
  {
  }

  /** Distinct modes have distinct names, so the dispatch is unambiguous. */
  lemma ModeNamesDistinct(m: Mode, n: Mode)
    ensures ModeName(m) == ModeName(n) ==> m == n
  {
    ParseModeName(m);
    ParseModeName(n);
  }
}
