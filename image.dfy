// A decoded image as the canvas exposes it: width, height and an RGBA byte buffer in
// row-major order, four bytes per pixel (magic.js:124, 130, 159).
module Pixels {

  newtype Byte = x: int | 0 <= x < 256

  datatype Image = Image(width: nat, height: nat, data: seq<Byte>)

  /** The buffer holds exactly four bytes per pixel. */
  predicate Wf(img: Image)
  {
    |img.data| == 4 * img.width * img.height
  }

  type WfImage = img: Image | Wf(img) witness Image(0, 0, [])

  /** Index of the red byte of pixel (x, y): (y * width + x) * 4. */
  function Offset(width: nat, x: nat, y: nat): nat
  {
    (y * width + x) * 4
  }

  lemma OffsetBound(w: nat, h: nat, x: nat, y: nat)
    requires x < w && y < h
    ensures Offset(w, x, y) + 4 <= 4 * w * h
  {
    assert y * w + x + 1 <= y * w + w == (y + 1) * w;
    assert (y + 1) * w <= h * w;
  }

  /** The four bytes of the rows above row y all come before the row. */
  lemma OffsetRowStart(w: nat, y: nat)
    ensures Offset(w, 0, y) == 4 * w * y
  {
  }

  /** The alpha byte of pixel (x, y). */
  function Alpha(img: Image, x: nat, y: nat): Byte
    requires Wf(img) && x < img.width && y < img.height
  {
    OffsetBound(img.width, img.height, x, y);
    img.data[Offset(img.width, x, y) + 3]
  }

  /** Pixel (x, y) is visited by a scan with stride `step` (both coordinates multiples of
      the stride) and its alpha exceeds the threshold. */
  predicate Hit(img: Image, threshold: int, step: nat, x: nat, y: nat)
    requires Wf(img) && step >= 1
  {
    x < img.width && y < img.height && x % step == 0 && y % step == 0
    && Alpha(img, x, y) as int > threshold
  }

  /** Some scanned pixel is above the threshold. */
  ghost predicate AnyHit(img: Image, threshold: int, step: nat)
    requires Wf(img) && step >= 1
  {
    exists x: nat, y: nat :: Hit(img, threshold, step, x, y)
  }

  /** Row-major order of pixel coordinates (x, y): by row, then by column. */
  predicate RowMajorBefore(p: (nat, nat), q: (nat, nat))
  {
    p.1 < q.1 || (p.1 == q.1 && p.0 < q.0)
  }

  /** The pixels of the w-by-h rectangle at (x0, y0), as drawing that rectangle onto a
      w-by-h canvas and reading it back yields them: row by row, four bytes per pixel. */
  function CropData(img: Image, x0: nat, y0: nat, w: nat, h: nat): (d: seq<Byte>)
    requires Wf(img) && x0 + w <= img.width && y0 + h <= img.height
    ensures |d| == 4 * w * h
    decreases h
  {
    if h == 0 then []
    else
      var start := Offset(img.width, x0, y0 + h - 1);
      CropRowBound(img, x0, y0 + h - 1, w);
      assert 4 * w * (h - 1) + 4 * w == 4 * w * h;
      CropData(img, x0, y0, w, h - 1) + img.data[start .. start + 4 * w]
  }

  lemma CropRowBound(img: Image, x0: nat, y: nat, w: nat)
    requires Wf(img) && x0 + w <= img.width && y < img.height
    ensures Offset(img.width, x0, y) + 4 * w <= |img.data|
  {
    if w >= 1 {
      OffsetBound(img.width, img.height, x0 + w - 1, y);
    } else if x0 < img.width {
      OffsetBound(img.width, img.height, x0, y);
    } else if img.width >= 1 {
      OffsetBound(img.width, img.height, img.width - 1, y);
    }
  }

  lemma OffsetSplit(w: nat, x: nat, y: nat)
    ensures Offset(w, x, y) == 4 * w * y + 4 * x
  {
  }

  /** Each pixel of the crop is the source pixel at the same place in the rectangle. */
  lemma {:induction false} CropPixel(img: Image, x0: nat, y0: nat, w: nat, h: nat, x: nat, y: nat, c: nat)
    requires Wf(img) && x0 + w <= img.width && y0 + h <= img.height
    requires x < w && y < h && c < 4
    ensures Offset(w, x, y) + c < 4 * w * h
    ensures Offset(img.width, x0 + x, y0 + y) + c < |img.data|
    ensures CropData(img, x0, y0, w, h)[Offset(w, x, y) + c]
         == img.data[Offset(img.width, x0 + x, y0 + y) + c]
    decreases h
  {
    OffsetBound(w, h, x, y);
    OffsetBound(img.width, img.height, x0 + x, y0 + y);
    var d := CropData(img, x0, y0, w, h);
    var prefix := CropData(img, x0, y0, w, h - 1);
    var start := Offset(img.width, x0, y0 + h - 1);
    CropRowBound(img, x0, y0 + h - 1, w);
    assert d == prefix + img.data[start .. start + 4 * w];
    var k := Offset(w, x, y) + c;
    if y == h - 1 {
      var row := img.data[start .. start + 4 * w];
      OffsetSplit(w, x, y);
      assert k == |prefix| + (4 * x + c);
      assert d[k] == row[4 * x + c];
      OffsetSplit(img.width, x0, y0 + h - 1);
      OffsetSplit(img.width, x0 + x, y0 + h - 1);
      assert start + (4 * x + c) == Offset(img.width, x0 + x, y0 + h - 1) + c;
    } else {
      OffsetBound(w, h - 1, x, y);
      assert k < |prefix|;
      assert d[k] == prefix[k];
      CropPixel(img, x0, y0, w, h - 1, x, y, c);
    }
  }
}
