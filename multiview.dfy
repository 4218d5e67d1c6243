/**
 * `mode_multi_view_vis`: for every saved 3D-pose drawing, the exocentric cameras'
 * images are pasted into a white canvas in a two-column grid with 5 pixels of
 * padding. The canvas holds two rows and two columns of 3840 x 2160 tiles, so a
 * camera at position 4 or later has no room: numpy then refuses the slice
 * assignment and the mode fails.
 */
module MultiView {
  import opened Wrappers
  import opened Strings

  const TileWidth := 3840
  const TileHeight := 2160
  const Padding := 5
  const Columns := 2
  const CanvasWidth := 2 * TileWidth + Padding
  const CanvasHeight := 2 * TileHeight + Padding

  datatype Pixel = Pixel(blue: int, green: int, red: int)
  const White := Pixel(255, 255, 255)

  /** A camera image after `cv2.resize` to the tile size, indexed (row, column). */
  type Image = (int, int) -> Pixel

  datatype VisError =
    | NoCameras
    | MissingDirectory(cam: string)
    | UnreadableImage(idx: nat)
    | TileOutsideCanvas(idx: nat)

  /** Lines 644-648: column, row and origin of the tile of camera `idx`. */
  function OriginX(idx: nat): (x: nat)
    ensures x == (idx % Columns) * (TileWidth + Padding)
  {
    TileWidth * (idx % Columns) + (idx % Columns) * Padding
  }

  function OriginY(idx: nat): (y: nat)
    ensures y == (idx / Columns) * (TileHeight + Padding)
  {
    TileHeight * (idx / Columns) + (idx / Columns) * Padding
  }

  predicate InTile(idx: nat, y: int, x: int) {
    OriginY(idx) <= y < OriginY(idx) + TileHeight && OriginX(idx) <= x < OriginX(idx) + TileWidth
  }

  /** The tile lies inside the canvas, so the slice has the image's shape. */
  predicate Fits(idx: nat) {
    OriginY(idx) + TileHeight <= CanvasHeight && OriginX(idx) + TileWidth <= CanvasWidth
  }

  /** A tile fits iff it is one of the first four. */
  lemma FitsIff(idx: nat)
    ensures Fits(idx) <==> idx < 4
  {
    if idx >= 4 {
      assert idx / Columns >= 2;
    }
  }

  /** Tiles never overlap: a pixel lies in at most one of them. */
  lemma TilesDisjoint(i: nat, j: nat, y: int, x: int)
    requires InTile(i, y, x) && InTile(j, y, x)
    ensures i == j
  {
    assert i % Columns == j % Columns;
    assert i / Columns == j / Columns;
  }

  /** The fitting tile (if any) that covers a canvas pixel. */
  function TileAt(y: int, x: int): (r: Option<nat>)
    ensures r.Some? ==> r.value < 4 && InTile(r.value, y, x)
    ensures r.None? ==> forall i: nat :: i < 4 ==> !InTile(i, y, x)
  {
    var col := if 0 <= x < TileWidth then 0 else if TileWidth + Padding <= x < 2 * TileWidth + Padding then 1 else -1;
    var row := if 0 <= y < TileHeight then 0 else if TileHeight + Padding <= y < 2 * TileHeight + Padding then 1 else -1;
    if col < 0 || row < 0 then None
    else
      var idx := Columns * row + col;
      assert idx % Columns == col && idx / Columns == row;
      Some(idx)
  }

  /** The pixel of the canvas once the cameras' `images` were pasted in order: the
    * covering camera's image, white where no pasted tile covers it. */
  function Cell(images: seq<Image>, y: int, x: int): Pixel {
    match TileAt(y, x)
    case Some(i) => if i < |images| then images[i](y - OriginY(i), x - OriginX(i)) else White
    case None => White
  }

  /** A fitting tile is the one `TileAt` finds for each of its pixels. */
  lemma TileAtFinds(idx: nat, y: int, x: int)
    requires idx < 4 && InTile(idx, y, x)
    ensures TileAt(y, x) == Some(idx)
  {
    var r := TileAt(y, x);
    if r.Some? {
      TilesDisjoint(idx, r.value, y, x);
    }
  }

  /** Pasting camera `|images|` changes exactly the pixels of its own tile. */
  lemma {:induction false} PasteStep(images: seq<Image>, image: Image, y: int, x: int)
    requires |images| < 4
    ensures InTile(|images|, y, x) ==>
      Cell(images + [image], y, x) == image(y - OriginY(|images|), x - OriginX(|images|))
    ensures !InTile(|images|, y, x) ==> Cell(images + [image], y, x) == Cell(images, y, x)
  {
    if InTile(|images|, y, x) {
      TileAtFinds(|images|, y, x);
    }
  }

  /** Lines 637-655: the first camera that cannot be pasted, in camera order: its image
    * cannot be read, or its tile does not fit. */
  function PasteCheck(read: seq<Option<Image>>, k: nat): (r: Result<seq<Image>, VisError>)
    requires k <= |read|
    ensures r.Ok? <==> forall i :: 0 <= i < k ==> read[i].Some? && i < 4
    ensures r.Ok? ==> |r.value| == k && forall i :: 0 <= i < k ==> read[i] == Some(r.value[i])
    decreases k
  {
    if k == 0 then Ok([])
    else
      var before :- PasteCheck(read, k - 1);
      if read[k - 1].None? then Err(UnreadableImage(k - 1))
      else if k - 1 >= 4 then Err(TileOutsideCanvas(k - 1))
      else Ok(before + [read[k - 1].value])
  }

  /** Once a camera fails, the drawing fails with that camera's error. */
  lemma {:induction false} PasteCheckStops(read: seq<Option<Image>>, k: nat, n: nat)
    requires k <= n <= |read| && PasteCheck(read, k).Err?
    ensures PasteCheck(read, n) == PasteCheck(read, k)
    decreases n
  {
    if n > k {
      PasteCheckStops(read, k, n - 1);
    }
  }

  /** Lines 651-655: `canvas[origin_y:origin_y + h, origin_x:origin_x + w, :] = image`
    * for a tile that fits. */
  method PasteTile(canvas: array2<Pixel>, k: nat, image: Image)
    requires k < 4 && canvas.Length0 == CanvasHeight && canvas.Length1 == CanvasWidth
    modifies canvas
    ensures forall y, x :: 0 <= y < CanvasHeight && 0 <= x < CanvasWidth ==>
      canvas[y, x] == if InTile(k, y, x) then image(y - OriginY(k), x - OriginX(k)) else old(canvas[y, x])
  {
    FitsIff(k);
    var oy := OriginY(k);
    var ox := OriginX(k);
    forall y, x | oy <= y < oy + TileHeight && ox <= x < ox + TileWidth {
      canvas[y, x] := image(y - oy, x - ox);
    }
  }

  /** Lines 635-655 for one drawing: composes the canvas from the cameras' images. */
  method Compose(read: seq<Option<Image>>) returns (r: Result<array2<Pixel>, VisError>)
    ensures r.Err? <==> PasteCheck(read, |read|).Err?
    ensures r.Err? ==> r.error == PasteCheck(read, |read|).error
    ensures r.Ok? ==> fresh(r.value) && r.value.Length0 == CanvasHeight && r.value.Length1 == CanvasWidth
    ensures r.Ok? ==> forall y, x :: 0 <= y < CanvasHeight && 0 <= x < CanvasWidth ==>
      r.value[y, x] == Cell(PasteCheck(read, |read|).value, y, x)
  {
    var canvas := new Pixel[CanvasHeight, CanvasWidth]((y, x) => White);
    var images: seq<Image> := [];
    var k := 0;
    while k < |read|
      invariant 0 <= k <= |read| && |images| == k
      invariant PasteCheck(read, k) == Ok(images)
      invariant forall y, x :: 0 <= y < CanvasHeight && 0 <= x < CanvasWidth ==>
        canvas[y, x] == Cell(images, y, x)
    {
      if read[k].None? {
        PasteCheckStops(read, k + 1, |read|);
        return Err(UnreadableImage(k));
      }
      FitsIff(k);
      if !Fits(k) {
        PasteCheckStops(read, k + 1, |read|);
        return Err(TileOutsideCanvas(k));
      }
      var image := read[k].value;
      PasteTile(canvas, k, image);
      forall y, x | 0 <= y < CanvasHeight && 0 <= x < CanvasWidth
        ensures canvas[y, x] == Cell(images + [image], y, x)
      {
        PasteStep(images, image, y, x);
      }
      images := images + [image];
      k := k + 1;
    }
    return Ok(canvas);
  }

  /** A pixel of camera `i`'s tile shows that camera's image. */
  lemma CellShowsCamera(images: seq<Image>, i: nat, y: int, x: int)
    requires i < |images| && i < 4 && InTile(i, y, x)
    ensures Cell(images, y, x) == images[i](y - OriginY(i), x - OriginX(i))
  {
    TileAtFinds(i, y, x);
  }

  /** A pixel no pasted tile covers (padding, or a missing camera's place) stays white. */
  lemma CellWhiteElsewhere(images: seq<Image>, y: int, x: int)
    requires forall i: nat :: i < |images| ==> !InTile(i, y, x)
    ensures Cell(images, y, x) == White
  {
  }

  /** The padding column between the two tile columns is white. */
  lemma PaddingColumnWhite(images: seq<Image>, y: int, x: int)
    requires TileWidth <= x < TileWidth + Padding
    ensures Cell(images, y, x) == White
  {
  }

  /** The `.jpg` names of a listing, in the listing's order. */
  function JpgNames(s: seq<string>): (r: seq<string>)
    ensures forall n :: n in r <==> n in s && EndsWith(n, ".jpg")
    ensures forall n :: multiset(r)[n] == if EndsWith(n, ".jpg") then multiset(s)[n] else 0
    ensures SortedStrings(s) ==> SortedStrings(r)
    decreases |s|
  {
    if s == [] then []
    else
      var rest := JpgNames(s[1..]);
      JpgNamesStep(s, rest);
      JpgNamesCountStep(s, rest);
      if EndsWith(s[0], ".jpg") then [s[0]] + rest else rest
  }

  /** One step of `JpgNames`: keeping or dropping the head preserves both properties. */
  lemma JpgNamesStep(s: seq<string>, rest: seq<string>)
    requires s != []
    requires forall n :: n in rest <==> n in s[1..] && EndsWith(n, ".jpg")
    requires SortedStrings(s[1..]) ==> SortedStrings(rest)
    ensures var r := if EndsWith(s[0], ".jpg") then [s[0]] + rest else rest;
      (forall n :: n in r <==> n in s && EndsWith(n, ".jpg")) && (SortedStrings(s) ==> SortedStrings(r))
  {
    assert forall n :: n in s <==> n == s[0] || n in s[1..];
    if SortedStrings(s) {
      assert SortedStrings(s[1..]) by {
        forall i, j | 0 <= i < j < |s[1..]| ensures LexLe(s[1..][i], s[1..][j]) {
          assert s[1..][i] == s[i + 1] && s[1..][j] == s[j + 1];
        }
      }
      forall j | 0 <= j < |rest| ensures LexLe(s[0], rest[j]) {
        assert rest[j] in rest;
        var k :| 0 <= k < |s[1..]| && s[1..][k] == rest[j];
        assert s[k + 1] == rest[j];
      }
    }
  }

  /** One step of `JpgNames`: keeping or dropping the head keeps the counts. */
  lemma JpgNamesCountStep(s: seq<string>, rest: seq<string>)
    requires s != []
    requires forall n :: multiset(rest)[n] == if EndsWith(n, ".jpg") then multiset(s[1..])[n] else 0
    ensures var r := if EndsWith(s[0], ".jpg") then [s[0]] + rest else rest;
      forall n :: multiset(r)[n] == if EndsWith(n, ".jpg") then multiset(s)[n] else 0
  {
    assert s == [s[0]] + s[1..];
    assert multiset(s) == multiset{s[0]} + multiset(s[1..]);
  }

  /** Lines 628-632: the names of the first camera's `.jpg` files in sorted order; no
    * camera at all is the `camera_names[0]` index error. */
  function ImageNames(cams: seq<string>, listing: map<string, seq<string>>): (r: Result<seq<string>, VisError>)
    ensures r.Err? <==> cams == [] || cams[0] !in listing
    ensures r.Ok? ==> SortedStrings(r.value)
    ensures r.Ok? ==> forall n :: n in r.value <==> n in listing[cams[0]] && EndsWith(n, ".jpg")
    ensures r.Ok? ==> forall n :: multiset(r.value)[n] == if EndsWith(n, ".jpg") then multiset(listing[cams[0]])[n] else 0
  {
    if cams == [] then Err(NoCameras)
    else if cams[0] !in listing then Err(MissingDirectory(cams[0]))
    else
      var sorted := Sort(listing[cams[0]]);
      assert forall n :: n in sorted <==> n in multiset(sorted);
      assert forall n :: n in listing[cams[0]] <==> n in multiset(listing[cams[0]]);
      Ok(JpgNames(sorted))
  }

  /** The images the cameras supply for one drawing, in camera order (`None` where
    * `cv2.imread` finds nothing). */
  function Drawing(cams: seq<string>, read: (string, string) -> Option<Image>, name: string): (r: seq<Option<Image>>)
    ensures |r| == |cams| && forall i :: 0 <= i < |cams| ==> r[i] == read(cams[i], name)
  {
    seq(|cams|, i requires 0 <= i < |cams| => read(cams[i], name))
  }

  /** Lines 634-661: the names written, in order, or the error of the first drawing
    * that fails. */
  function WriteAll(cams: seq<string>, read: (string, string) -> Option<Image>, names: seq<string>): (r: Result<seq<string>, VisError>)
    decreases |names|
  {
    if names == [] then Ok([])
    else
      var d := Drawing(cams, read, names[0]);
      var _ :- PasteCheck(d, |d|);
      var rest :- WriteAll(cams, read, names[1..]);
      Ok([names[0]] + rest)
  }

  /** Lines 604-661: `mode_multi_view_vis` up to the files it writes. */
  function MultiViewVis(cams: seq<string>, listing: map<string, seq<string>>, read: (string, string) -> Option<Image>): Result<seq<string>, VisError> {
    var names :- ImageNames(cams, listing);
    WriteAll(cams, read, names)
  }

  /** Every drawing is written, under its own name, exactly when no drawing fails. */
  lemma {:induction false} WriteAllOk(cams: seq<string>, read: (string, string) -> Option<Image>, names: seq<string>)
    ensures WriteAll(cams, read, names).Ok? <==>
      forall k :: 0 <= k < |names| ==> PasteCheck(Drawing(cams, read, names[k]), |cams|).Ok?
    ensures WriteAll(cams, read, names).Ok? ==> WriteAll(cams, read, names).value == names
    decreases |names|
  {
    if names != [] {
      WriteAllOk(cams, read, names[1..]);
      assert forall k :: 1 <= k < |names| ==> names[k] == names[1..][k - 1];
    }
  }

  /** With a fifth camera whose images load, the very first drawing fails: its tile
    * starts below the canvas. */
  lemma FifthCameraFails(cams: seq<string>, read: (string, string) -> Option<Image>, names: seq<string>)
    requires |cams| > 4 && names != []
    requires forall i :: 0 <= i < 5 ==> read(cams[i], names[0]).Some?
    ensures WriteAll(cams, read, names) == Err(TileOutsideCanvas(4))
  {
    var d := Drawing(cams, read, names[0]);
    assert PasteCheck(d, 4).Ok?;
    assert PasteCheck(d, 5) == Err(TileOutsideCanvas(4));
    PasteCheckStops(d, 5, |d|);
  }

  function Prefixed(p: seq<string>, r: Result<seq<string>, VisError>): Result<seq<string>, VisError> {
    match r
    case Ok(v) => Ok(p + v)
    case Err(e) => Err(e)
  }

  lemma PrefixedEmpty(r: Result<seq<string>, VisError>)
    ensures Prefixed([], r) == r
  {
    if r.Ok? {
      assert [] + r.value == r.value;
    }
  }

  lemma PrefixedTwice(a: seq<string>, b: seq<string>, r: Result<seq<string>, VisError>)
    ensures Prefixed(a, Prefixed(b, r)) == Prefixed(a + b, r)
  {
    if r.Ok? {
      assert a + (b + r.value) == (a + b) + r.value;
    }
  }

  /** One drawing of `WriteAll`: its failure ends the run, its success is written. */
  lemma WriteAllUnfold(cams: seq<string>, read: (string, string) -> Option<Image>, names: seq<string>, t: nat)
    requires t < |names|
    ensures var c := PasteCheck(Drawing(cams, read, names[t]), |cams|);
      (c.Err? ==> WriteAll(cams, read, names[t..]) == Err(c.error)) &&
      (c.Ok? ==> WriteAll(cams, read, names[t..]) == Prefixed([names[t]], WriteAll(cams, read, names[t + 1..])))
  {
    assert names[t..][0] == names[t];
    assert names[t..][1..] == names[t + 1..];
  }

  /** Lines 604-661 as the program runs it: lists the drawings, then composes them. */
  method RunMultiViewVis(cams: seq<string>, listing: map<string, seq<string>>, read: (string, string) -> Option<Image>)
    returns (r: Result<seq<string>, VisError>)
    ensures r == MultiViewVis(cams, listing, read)
  {
    var names :- ImageNames(cams, listing);
    r := WriteDrawings(cams, read, names);
  }

  /** Lines 634-661: composes every drawing in name order and stops at the first failure. */
  method WriteDrawings(cams: seq<string>, read: (string, string) -> Option<Image>, names: seq<string>)
    returns (r: Result<seq<string>, VisError>)
    ensures r == WriteAll(cams, read, names)
  {
    var written: seq<string> := [];
    var t := 0;
    assert names[0..] == names;
    PrefixedEmpty(WriteAll(cams, read, names));
    while t < |names|
      invariant 0 <= t <= |names| && written == names[..t]
      invariant WriteAll(cams, read, names) == Prefixed(written, WriteAll(cams, read, names[t..]))
    {
      var canvas := Compose(Drawing(cams, read, names[t]));
      WriteAllUnfold(cams, read, names, t);
      if canvas.Err? {
        return Err(canvas.error);
      }
      PrefixedTwice(written, [names[t]], WriteAll(cams, read, names[t + 1..]));
      written := written + [names[t]];
      t := t + 1;
    }
    assert names[t..] == [];
    assert written + [] == written;
    return Ok(written);
  }
}
