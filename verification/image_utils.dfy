/** The image helpers of `app/utils/image.py` that carry logic of their
    own: cropping a face out of a picture with padding, and the checks
    `validate_image_file` makes on a file. Decoding is outside the model:
    what PIL reports on opening a file is a parameter. */
module ImageUtils {
  import opened Wrappers
  import opened Files

  // ------------------------------------------------------------ pictures

  /** A decoded picture: its size and its rows of pixels. */
  datatype Picture<P> = Picture(width: nat, height: nat, rows: seq<seq<P>>)

  /** The rows agree with the declared size. */
  predicate Valid<P>(p: Picture<P>)
  {
    |p.rows| == p.height && forall i :: 0 <= i < |p.rows| ==> |p.rows[i]| == p.width
  }

  /** A face as the detector reports it: corner, width and height. */
  datatype FaceBox = FaceBox(x: int, y: int, w: int, h: int)

  /** A crop rectangle, as PIL's `(left, upper, right, lower)`. */
  datatype CropBox = CropBox(left: int, top: int, right: int, bottom: int)

  /** Python's `int()` on a float: truncation toward zero. */
  function Truncate(r: real): (n: int)
    ensures r >= 0.0 ==> n as real <= r < n as real + 1.0
    ensures r < 0.0 ==> n as real - 1.0 < r <= n as real
  {
    if r >= 0.0 then r.Floor else -((-r).Floor)
  }

  function Max(a: int, b: int): int { if a >= b then a else b }
  function Min(a: int, b: int): int { if a <= b then a else b }

  /** The box `crop_face` asks PIL for: the face grown by a truncated
      `padding` fraction of its size on every side, clipped to the
      picture. */
  function PaddedBox(width: nat, height: nat, face: FaceBox, padding: real): (b: CropBox)
    ensures b.left >= 0 && b.top >= 0 && b.right <= width && b.bottom <= height
  {
    var padX := Truncate(face.w as real * padding);
    var padY := Truncate(face.h as real * padding);
    CropBox(Max(0, face.x - padX), Max(0, face.y - padY),
            Min(width, face.x + face.w + padX), Min(height, face.y + face.h + padY))
  }

  /** PIL refuses a box whose right edge lies left of its left edge, or
      whose lower edge lies above its upper edge. */
  predicate Croppable(b: CropBox)
  {
    b.left <= b.right && b.top <= b.bottom
  }

  /** The part of `p` inside a box that lies within it. */
  function Crop<P>(p: Picture<P>, b: CropBox): (r: Picture<P>)
    requires Valid(p) && Croppable(b)
    requires 0 <= b.left && 0 <= b.top && b.right <= p.width && b.bottom <= p.height
    ensures Valid(r) && r.width == b.right - b.left && r.height == b.bottom - b.top
    ensures forall i, j :: 0 <= i < r.height && 0 <= j < r.width ==> r.rows[i][j] == p.rows[b.top + i][b.left + j]
  {
    Picture(b.right - b.left, b.bottom - b.top, seq(b.bottom - b.top, i requires 0 <= i < b.bottom - b.top => p.rows[b.top + i][b.left..b.right]))
  }

  /** `crop_face(image, face_box, padding)`: the padded face, or the
      picture itself when the crop fails. */
  function CropFace<P>(p: Picture<P>, face: FaceBox, padding: real): (r: Picture<P>)
    requires Valid(p)
    ensures Valid(r)
    ensures !Croppable(PaddedBox(p.width, p.height, face, padding)) ==> r == p
    ensures Croppable(PaddedBox(p.width, p.height, face, padding)) ==>
      var b := PaddedBox(p.width, p.height, face, padding);
      && r.width == b.right - b.left && r.height == b.bottom - b.top
      && forall i, j :: 0 <= i < r.height && 0 <= j < r.width ==> r.rows[i][j] == p.rows[b.top + i][b.left + j]
  {
    var b := PaddedBox(p.width, p.height, face, padding);
    if Croppable(b) then Crop(p, b) else p
  }

  /** With non-negative padding and a face of non-negative size, the crop
      box holds the part of the face that lies in the picture. */
  lemma PaddedBoxHoldsFace(width: nat, height: nat, face: FaceBox, padding: real)
    requires padding >= 0.0 && face.w >= 0 && face.h >= 0
    ensures var b := PaddedBox(width, height, face, padding);
      && b.left <= Max(0, face.x) && b.top <= Max(0, face.y)
      && b.right >= Min(width, face.x + face.w) && b.bottom >= Min(height, face.y + face.h)
  {
    NonNegativeProduct(face.w as real, padding);
    NonNegativeProduct(face.h as real, padding);
  }

  lemma NonNegativeProduct(a: real, b: real)
    requires a >= 0.0 && b >= 0.0
    ensures a * b >= 0.0
  {
  }

  /** A face that lies inside the picture is never refused by PIL once
      padded, so it is always cut out. */
  lemma FaceInsideIsCropped<P>(p: Picture<P>, face: FaceBox, padding: real)
    requires Valid(p) && padding >= 0.0 && face.w >= 0 && face.h >= 0
    requires 0 <= face.x && face.x + face.w <= p.width && 0 <= face.y && face.y + face.h <= p.height
    ensures Croppable(PaddedBox(p.width, p.height, face, padding))
    ensures CropFace(p, face, padding).width >= face.w && CropFace(p, face, padding).height >= face.h
  {
    PaddedBoxHoldsFace(p.width, p.height, face, padding);
  }

  /** The padding is a truncated fraction: a 9-pixel face with 20% padding
      grows by one pixel on each side, not 1.8. */
  lemma PaddingTruncates()
    ensures PaddedBox(100, 100, FaceBox(10, 10, 9, 9), 0.2) == CropBox(9, 9, 20, 20)
  {
    assert Truncate(9.0 * 0.2) == 1;
  }

  /** A face to the right of the picture gives a box PIL refuses, and the
      picture comes back whole. */
  lemma FaceOutsideGivesOriginal<P>(p: Picture<P>, face: FaceBox, padding: real)
    requires Valid(p) && padding >= 0.0 && face.w >= 0
    requires face.x - Truncate(face.w as real * padding) > p.width
    ensures CropFace(p, face, padding) == p
  {
    NonNegativeProduct(face.w as real, padding);
    var b := PaddedBox(p.width, p.height, face, padding);
    assert b.left > b.right;
  }

  // ---------------------------------------------------------- validation

  const MIN_SIDE: int := 32
  const MAX_SIDE: int := 4096
  const MAX_FILE_SIZE: int := 10 * 1024 * 1024

  const MISSING: string := "File does not exist"
  const TOO_SMALL: string := "Image too small (minimum 32x32 pixels)"
  const TOO_LARGE: string := "Image too large (maximum 4096x4096 pixels)"
  const FILE_TOO_LARGE: string := "File too large (maximum 10MB)"
  const UNREADABLE_PREFIX: string := "Cannot read image file: "

  /** `validate_image_file(path)`. `decoded` is the size PIL reports, or the
      text of its exception. The checks run in order and the first that
      fails gives the message. */
  function ValidateImageFile(disk: Disk, path: string, decoded: Result<(nat, nat), string>): (r: (bool, Option<string>))
    ensures r.0 <==> r.1.None?
    ensures r.0 <==>
      && path in disk && decoded.Ok?
      && MIN_SIDE <= decoded.value.0 <= MAX_SIDE && MIN_SIDE <= decoded.value.1 <= MAX_SIDE
      && |disk[path]| <= MAX_FILE_SIZE
    ensures path !in disk ==> r.1 == Some(MISSING)
    ensures path in disk && decoded.Err? ==> r.1 == Some(UNREADABLE_PREFIX + decoded.error)
    ensures path in disk && decoded.Ok? && (decoded.value.0 < MIN_SIDE || decoded.value.1 < MIN_SIDE) ==> r.1 == Some(TOO_SMALL)
    ensures (path in disk && decoded.Ok? && MIN_SIDE <= decoded.value.0 && MIN_SIDE <= decoded.value.1
             && (decoded.value.0 > MAX_SIDE || decoded.value.1 > MAX_SIDE)) ==> r.1 == Some(TOO_LARGE)
    ensures (path in disk && decoded.Ok?
             && MIN_SIDE <= decoded.value.0 <= MAX_SIDE && MIN_SIDE <= decoded.value.1 <= MAX_SIDE
             && |disk[path]| > MAX_FILE_SIZE) ==> r.1 == Some(FILE_TOO_LARGE)
  {
    if path !in disk then (false, Some(MISSING))
    else
      match decoded
      case Err(t) => (false, Some(UNREADABLE_PREFIX + t))
      case Ok(size) =>
        if size.0 < MIN_SIDE || size.1 < MIN_SIDE then (false, Some(TOO_SMALL))
        else if size.0 > MAX_SIDE || size.1 > MAX_SIDE then (false, Some(TOO_LARGE))
        else if |disk[path]| > MAX_FILE_SIZE then (false, Some(FILE_TOO_LARGE))
        else (true, None)
  }

  /** The pixel checks come before the file-size check: a tiny picture in
      an oversized file is reported as too small. */
  lemma SidesCheckedBeforeFileSize(disk: Disk, path: string, width: nat, height: nat)
    requires path in disk && |disk[path]| > MAX_FILE_SIZE && width < MIN_SIDE
    ensures ValidateImageFile(disk, path, Ok((width, height))) == (false, Some(TOO_SMALL))
  {
  }

  /** Only the file's size, never its name, and the decoded size matter: a
      file valid under one path is valid under any other with the same
      bytes. */
  lemma ValidityFollowsContents(disk: Disk, a: string, b: string, decoded: Result<(nat, nat), string>)
    requires a in disk && b in disk && disk[a] == disk[b]
    ensures ValidateImageFile(disk, a, decoded) == ValidateImageFile(disk, b, decoded)
  {
  }
}
