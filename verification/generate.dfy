/**
 * GenerateActivity: the empty-input guard of the generate button and the
 * pixel loop of generateQRCode. The QR encoder itself is external and is
 * passed in as a function from an encode request to a bit matrix.
 */
module Generate {
  import opened Wrappers

  /** Side length, in pixels, of the generated code. */
  const QrSize: nat := 512

  /** Color.BLACK and Color.WHITE as ARGB ints. */
  const Black: int := -16777216
  const White: int := -1

  /** The value of a pixel createBitmap has allocated but nobody has written. */
  const Blank: int := 0

  datatype BarcodeFormat = QrCode

  /** The arguments of QRCodeWriter.encode(text, QR_CODE, width, height). */
  datatype EncodeRequest = EncodeRequest(text: string, format: BarcodeFormat, width: nat, height: nat)

  /** A bit matrix with cells indexed as get(x, y): cells[x][y], true for a dark module. */
  datatype BitMatrix = BitMatrix(cells: seq<seq<bool>>)

  /** The matrix has a cell for every 0 <= x < w, 0 <= y < h. */
  predicate Covers(m: BitMatrix, w: nat, h: nat)
  {
    |m.cells| >= w && forall x :: 0 <= x < w ==> |m.cells[x]| >= h
  }

  /** A bitmap with pixels indexed as bitmap[x, y]: pixels[x][y]. */
  datatype Bitmap = Bitmap(width: nat, height: nat, pixels: seq<seq<int>>)

  /** Pixel storage of exactly w columns of h pixels. */
  predicate Shaped(px: seq<seq<int>>, w: nat, h: nat)
  {
    |px| == w && forall x :: 0 <= x < w ==> |px[x]| == h
  }

  /** The displayed image of the screen, if any. */
  datatype Screen = Screen(displayed: Option<Bitmap>)

  /** The encoder threw (text over capacity): the exception is not caught by the click listener. */
  datatype GenerateError = EncodingFailed

  /** The request made for a text; empty text makes none. */
  function RequestFor(text: string): (req: Option<EncodeRequest>)
    ensures req.None? <==> |text| == 0
    ensures req.Some? ==> req.value.text == text && req.value.format == QrCode
    ensures req.Some? ==> req.value.width == QrSize && req.value.height == QrSize
  {
    if |text| == 0 then None else Some(EncodeRequest(text, QrCode, QrSize, QrSize))
  }

  /** The colour for one matrix cell. */
  function ColorOf(dark: bool): int
  {
    if dark then Black else White
  }

  /** createBitmap(w, h): every pixel still blank. */
  function BlankPixels(w: nat, h: nat): (px: seq<seq<int>>)
    ensures Shaped(px, w, h)
    ensures forall x, y :: 0 <= x < w && 0 <= y < h ==> px[x][y] == Blank
  {
    seq(w, x => seq(h, y => Blank))
  }

  /**
   * generateQRCode's loop: a 512 by 512 bitmap whose pixel (x, y) is BLACK
   * exactly when the matrix cell (x, y) is set, and WHITE otherwise.
   */
  method FillBitmap(m: BitMatrix) returns (b: Bitmap)
    requires Covers(m, QrSize, QrSize)
    ensures b.width == QrSize && b.height == QrSize
    ensures Shaped(b.pixels, QrSize, QrSize)
    ensures forall x, y :: 0 <= x < QrSize && 0 <= y < QrSize ==>
      (b.pixels[x][y] == Black <==> m.cells[x][y])
    ensures forall x, y :: 0 <= x < QrSize && 0 <= y < QrSize ==>
      b.pixels[x][y] == Black || b.pixels[x][y] == White
  {
    var px := BlankPixels(QrSize, QrSize);
    var x := 0;
    while x < QrSize
      invariant 0 <= x <= QrSize
      invariant Shaped(px, QrSize, QrSize)
      invariant forall i, j :: 0 <= i < x && 0 <= j < QrSize ==> px[i][j] == ColorOf(m.cells[i][j])
    {
      var y := 0;
      while y < QrSize
        invariant 0 <= y <= QrSize
        invariant Shaped(px, QrSize, QrSize)
        invariant forall i, j :: 0 <= i < x && 0 <= j < QrSize ==> px[i][j] == ColorOf(m.cells[i][j])
        invariant forall j :: 0 <= j < y ==> px[x][j] == ColorOf(m.cells[x][j])
      {
        px := px[x := px[x][y := ColorOf(m.cells[x][y])]];
        y := y + 1;
      }
      x := x + 1;
    }
    b := Bitmap(QrSize, QrSize, px);
  }

  /**
   * The generate button: empty text leaves the screen as it was; otherwise
   * the text is encoded at 512 by 512 and the filled bitmap is displayed.
   * The encoder's matrix always covers the requested size.
   */
  method OnGenerateClick(screen: Screen, text: string, encode: EncodeRequest -> Option<BitMatrix>)
    returns (r: Result<Screen, GenerateError>)
    requires forall q :: encode(q).Some? ==> Covers(encode(q).value, q.width, q.height)
    ensures |text| == 0 ==> r == Success(screen)
    ensures |text| > 0 && encode(EncodeRequest(text, QrCode, QrSize, QrSize)).None? ==> r == Failure(EncodingFailed)
    ensures |text| > 0 && encode(EncodeRequest(text, QrCode, QrSize, QrSize)).Some? ==>
      r.Success? && r.value.displayed.Some? &&
      var m := encode(EncodeRequest(text, QrCode, QrSize, QrSize)).value;
      var b := r.value.displayed.value;
      Covers(m, QrSize, QrSize) &&
      b.width == QrSize && b.height == QrSize && Shaped(b.pixels, QrSize, QrSize) &&
      forall x, y :: 0 <= x < QrSize && 0 <= y < QrSize ==> (b.pixels[x][y] == Black <==> m.cells[x][y])
  {
    var req := RequestFor(text);
    if req.None? {
      return Success(screen);
    }
    var matrix := encode(req.value);
    if matrix.None? {
      return Failure(EncodingFailed);
    }
    var bitmap := FillBitmap(matrix.value);
    return Success(Screen(Some(bitmap)));
  }
}
