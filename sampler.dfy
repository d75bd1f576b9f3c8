// The alpha-silhouette sampler: cropAlphaBounds (magic.js:117-161) and the pixel
// collection, fallback and mapping part of imageToPointTargets (magic.js:163-234).
module Sampler {
  import opened Pixels
  import opened Arith

  datatype Option<T> = None | Some(value: T)

  /** CONFIG.alphaThreshold, CONFIG.pad and CONFIG.pixelStep. */
  const AlphaThreshold: int := 8
  const Pad: nat := 6
  const PixelStep: nat := 1

  /** Fewer opaque pixels than this and the sampler scatters over the whole crop. */
  const MinOpaquePoints: nat := 50

  /** The crop cropAlphaBounds returns, with the position (left, top) of the crop in the
      source image, which the source keeps in its locals minX and minY. */
  datatype Cropped = Cropped(left: nat, top: nat, image: Image)

  /** A multiple of the stride divides back exactly. */
  lemma MultipleOfStride(k: nat, step: nat)
    requires step >= 1
    ensures (k * step) % step == 0 && (k * step) / step == k
  {
    var d, m := (k * step) / step, (k * step) % step;
    assert k * step == d * step + m && 0 <= m < step;
    assert (k - d) * step == m;
    MulCancel(k - d, 1, step);
    MulCancel(-1, k - d, step);
  }

  /** Consecutive multiples of the stride leave no multiple in between. */
  lemma StrideGap(a: nat, b: nat, step: nat)
    requires step >= 1 && a % step == 0 && b % step == 0 && a <= b < a + step
    ensures a == b
  {
    var p, q := a / step, b / step;
    assert a == p * step && b == q * step;
    assert q * step < (p + 1) * step;
    MulCancel(q, p + 1, step);
    MulMono(q, p, step);
  }

  lemma NextStride(a: nat, step: nat)
    requires step >= 1 && a % step == 0
    ensures (a + step) % step == 0
  {
    var p := a / step;
    assert a == p * step;
    assert a + step == (p + 1) * step;
    MultipleOfStride(p + 1, step);
  }

  /** The padded bounding box of the scanned opaque pixels is (left, top) .. (right, bottom):
      each edge is the extreme hit moved out by `pad` and clamped to the image, and every hit
      lies inside. */
  ghost predicate PaddedBox(img: Image, threshold: int, pad: nat, step: nat,
                            left: int, top: int, right: int, bottom: int)
    requires Wf(img) && step >= 1
  {
    && (forall x: nat, y: nat :: Hit(img, threshold, step, x, y) ==>
          left <= Max(0, x - pad) && Min(img.width - 1, x + pad) <= right
          && top <= Max(0, y - pad) && Min(img.height - 1, y + pad) <= bottom)
    && (exists x: nat, y: nat :: Hit(img, threshold, step, x, y) && left == Max(0, x - pad))
    && (exists x: nat, y: nat :: Hit(img, threshold, step, x, y) && right == Min(img.width - 1, x + pad))
    && (exists x: nat, y: nat :: Hit(img, threshold, step, x, y) && top == Max(0, y - pad))
    && (exists x: nat, y: nat :: Hit(img, threshold, step, x, y) && bottom == Min(img.height - 1, y + pad))
  }

  /** Pixel (x, y) comes before the scan position (sx, sy) in row-major order. */
  predicate ScannedBefore(x: nat, y: nat, sx: nat, sy: nat)
  {
    y < sy || (y == sy && x < sx)
  }

  /** The running extremes minX, minY, maxX, maxY of the scan. */
  datatype Box = Box(minX: int, minY: int, maxX: int, maxY: int)

  /** The pixels that attain the four extremes (proof only). */
  datatype Extremes = Extremes(l: (nat, nat), t: (nat, nat), r: (nat, nat), b: (nat, nat))

  /** What the scan knows once it reaches (sx, sy): maxX < 0 means no hit so far; otherwise
      the box bounds every hit so far and each bound is attained by a hit in `e`. */
  ghost predicate ScanInv(img: Image, threshold: int, step: nat, box: Box, e: Extremes, sx: nat, sy: nat)
    requires Wf(img) && step >= 1
  {
    && (box.maxX < 0 ==> forall x: nat, y: nat ::
          Hit(img, threshold, step, x, y) ==> !ScannedBefore(x, y, sx, sy))
    && (box.maxX >= 0 ==>
          && Hit(img, threshold, step, e.l.0, e.l.1) && e.l.0 == box.minX
          && Hit(img, threshold, step, e.t.0, e.t.1) && e.t.1 == box.minY
          && Hit(img, threshold, step, e.r.0, e.r.1) && e.r.0 == box.maxX
          && Hit(img, threshold, step, e.b.0, e.b.1) && e.b.1 == box.maxY)
    && (box.maxX >= 0 ==> forall x: nat, y: nat ::
          Hit(img, threshold, step, x, y) && ScannedBefore(x, y, sx, sy) ==>
            box.minX <= x <= box.maxX && box.minY <= y <= box.maxY)
  }

  /** Folds pixel (x, y) into the running box (magic.js:130-136). */
  method Visit(img: Image, threshold: int, step: nat, x: nat, y: nat, box: Box, ghost e: Extremes)
    returns (box': Box, ghost e': Extremes)
    requires Wf(img) && step >= 1 && x < img.width && y < img.height
    requires x % step == 0 && y % step == 0
    requires ScanInv(img, threshold, step, box, e, x, y)
    ensures ScanInv(img, threshold, step, box', e', x + 1, y)
  {
    OffsetBound(img.width, img.height, x, y);
    var a := img.data[Offset(img.width, x, y) + 3];
    assert a == Alpha(img, x, y);
    box', e' := box, e;
    if a as int > threshold {
      assert Hit(img, threshold, step, x, y);
      var p := (x, y);
      if box.maxX < 0 {
        box' := Box(x, y, x, y);
        e' := Extremes(p, p, p, p);
      } else {
        if x < box'.minX { box' := box'.(minX := x); e' := e'.(l := p); }
        if y < box'.minY { box' := box'.(minY := y); e' := e'.(t := p); }
        if x > box'.maxX { box' := box'.(maxX := x); e' := e'.(r := p); }
        if y > box'.maxY { box' := box'.(maxY := y); e' := e'.(b := p); }
      }
    }
  }

  /** One row of the scan: columns 0, step, 2 * step, ... below the width. */
  method ScanRow(img: Image, threshold: int, step: nat, y: nat, box: Box, ghost e: Extremes)
    returns (box': Box, ghost e': Extremes)
    requires Wf(img) && step >= 1 && y < img.height && y % step == 0
    requires ScanInv(img, threshold, step, box, e, 0, y)
    ensures ScanInv(img, threshold, step, box', e', 0, y + step)
  {
    box', e' := box, e;
    var x: nat := 0;
    while x < img.width
      invariant x % step == 0
      invariant ScanInv(img, threshold, step, box', e', x, y)
    {
      box', e' := Visit(img, threshold, step, x, y, box', e');
      forall xx: nat, yy: nat | Hit(img, threshold, step, xx, yy)
        && ScannedBefore(xx, yy, x + step, y) && !ScannedBefore(xx, yy, x + 1, y)
        ensures false
      {
        StrideGap(x, xx, step);
      }
      NextStride(x, step);
      x := x + step;
    }
    forall xx: nat, yy: nat | Hit(img, threshold, step, xx, yy)
      && ScannedBefore(xx, yy, 0, y + step) && !ScannedBefore(xx, yy, x, y)
      ensures false
    {
      StrideGap(y, yy, step);
    }
  }

  /** What the whole scan knows: the scan invariant with every hit scanned. */
  ghost predicate ScanDone(img: Image, threshold: int, step: nat, box: Box, e: Extremes)
    requires Wf(img) && step >= 1
  {
    && (box.maxX < 0 ==> !AnyHit(img, threshold, step))
    && (box.maxX >= 0 ==>
          && Hit(img, threshold, step, e.l.0, e.l.1) && e.l.0 == box.minX
          && Hit(img, threshold, step, e.t.0, e.t.1) && e.t.1 == box.minY
          && Hit(img, threshold, step, e.r.0, e.r.1) && e.r.0 == box.maxX
          && Hit(img, threshold, step, e.b.0, e.b.1) && e.b.1 == box.maxY)
    && (box.maxX >= 0 ==> forall x: nat, y: nat :: Hit(img, threshold, step, x, y) ==>
          box.minX <= x <= box.maxX && box.minY <= y <= box.maxY)
  }

  /** The scan loops of cropAlphaBounds (magic.js:126-137). */
  method ScanBounds(img: Image, threshold: int, step: nat) returns (box: Box, ghost e: Extremes)
    requires Wf(img) && step >= 1 && img.width >= 1
    ensures ScanDone(img, threshold, step, box, e)
  {
    box := Box(img.width, img.height, -1, -1);
    e := Extremes((0, 0), (0, 0), (0, 0), (0, 0));
    var y: nat := 0;
    while y < img.height
      invariant y % step == 0
      invariant ScanInv(img, threshold, step, box, e, 0, y)
    {
      box, e := ScanRow(img, threshold, step, y, box, e);
      NextStride(y, step);
      y := y + step;
    }
    assert forall x: nat, yy: nat :: Hit(img, threshold, step, x, yy) ==> ScannedBefore(x, yy, 0, y);
  }

  /** Padding and clamping the scanned box gives the padded bounding box of the hits. */
  lemma PadScanned(img: Image, threshold: int, pad: nat, step: nat, box: Box, e: Extremes)
    requires Wf(img) && step >= 1 && img.width >= 1 && img.height >= 1
    requires ScanDone(img, threshold, step, box, e) && box.maxX >= 0
    ensures PaddedBox(img, threshold, pad, step, Max(0, box.minX - pad), Max(0, box.minY - pad),
                      Min(img.width - 1, box.maxX + pad), Min(img.height - 1, box.maxY + pad))
    ensures 0 <= box.minX <= box.maxX < img.width && 0 <= box.minY <= box.maxY < img.height
  {
    assert Hit(img, threshold, step, e.l.0, e.l.1);
    assert Hit(img, threshold, step, e.t.0, e.t.1);
    assert Hit(img, threshold, step, e.r.0, e.r.1);
    assert Hit(img, threshold, step, e.b.0, e.b.1);
  }

  /** A crop that is the padded, clamped bounding box of the hits, at least one pixel
      each way, holding the source pixels of that rectangle. */
  ghost predicate PaddedCrop(img: Image, threshold: int, pad: nat, step: nat, c: Cropped)
    requires Wf(img) && step >= 1
  {
    && 1 <= c.image.width && 1 <= c.image.height
    && c.left + c.image.width <= img.width && c.top + c.image.height <= img.height
    && PaddedBox(img, threshold, pad, step, c.left, c.top,
                 c.left + c.image.width - 1, c.top + c.image.height - 1)
    && c.image.data == CropData(img, c.left, c.top, c.image.width, c.image.height)
    && Wf(c.image)
  }

  /** The pad, clamp and crop of cropAlphaBounds (magic.js:139-160). */
  method PadAndCrop(img: Image, threshold: int, pad: nat, step: nat, box: Box)
    returns (c: Cropped)
    requires Wf(img) && step >= 1
    requires 0 <= box.minX <= box.maxX < img.width && 0 <= box.minY <= box.maxY < img.height
    requires PaddedBox(img, threshold, pad, step, Max(0, box.minX - pad), Max(0, box.minY - pad),
                       Min(img.width - 1, box.maxX + pad), Min(img.height - 1, box.maxY + pad))
    ensures PaddedCrop(img, threshold, pad, step, c)
  {
    var left := Max(0, box.minX - pad);
    var top := Max(0, box.minY - pad);
    var right := Min(img.width - 1, box.maxX + pad);
    var bottom := Min(img.height - 1, box.maxY + pad);
    var w: nat := right - left + 1;
    var h: nat := bottom - top + 1;
    var data := CropData(img, left, top, w, h);
    c := Cropped(left, top, Image(w, h, data));
    CropOfPaddedBox(img, threshold, pad, step, right, bottom, c);
  }

  lemma CropOfPaddedBox(img: Image, threshold: int, pad: nat, step: nat, right: int, bottom: int,
                        c: Cropped)
    requires Wf(img) && step >= 1
    requires PaddedBox(img, threshold, pad, step, c.left, c.top, right, bottom)
    requires 1 <= c.image.width && 1 <= c.image.height
    requires right == c.left + c.image.width - 1 && bottom == c.top + c.image.height - 1
    requires right < img.width && bottom < img.height
    requires c.image.data == CropData(img, c.left, c.top, c.image.width, c.image.height)
    ensures PaddedCrop(img, threshold, pad, step, c)
  {
  }

  /** The strided row-major scan of cropAlphaBounds, then the pad, clamp and crop. No
      scanned pixel above the threshold leaves the image whole; a zero-sized image makes
      getImageData throw, which is None here. */
  method CropAlphaBounds(img: Image, threshold: int, pad: nat, step: nat)
    returns (r: Option<Cropped>)
    requires Wf(img) && step >= 1
    ensures r.None? <==> img.width == 0 || img.height == 0
    ensures r.Some? && !AnyHit(img, threshold, step) ==> r.value == Cropped(0, 0, img)
    ensures r.Some? && AnyHit(img, threshold, step) ==> PaddedCrop(img, threshold, pad, step, r.value)
  {
    if img.width == 0 || img.height == 0 {
      return None;
    }
    var box;
    ghost var e;
    box, e := ScanBounds(img, threshold, step);
    if box.maxX < 0 {
      return Some(Cropped(0, 0, img));
    }
    PadScanned(img, threshold, pad, step, box, e);
    var c := PadAndCrop(img, threshold, pad, step, box);
    r := Some(c);
  }

  /** The opaque-pixel list of imageToPointTargets (magic.js:188-195): exactly the pixels the
      strided scan finds above the threshold, each once, in row-major order. */
  method CollectOpaque(img: Image, threshold: int, step: nat) returns (pts: seq<(nat, nat)>)
    requires Wf(img) && step >= 1
    ensures forall k :: 0 <= k < |pts| ==> Hit(img, threshold, step, pts[k].0, pts[k].1)
    ensures forall x: nat, y: nat :: Hit(img, threshold, step, x, y) ==> (x, y) in pts
    ensures forall i, j :: 0 <= i < j < |pts| ==> RowMajorBefore(pts[i], pts[j])
  {
    pts := [];
    var y: nat := 0;
    while y < img.height
      invariant y % step == 0
      invariant forall k :: 0 <= k < |pts| ==>
        Hit(img, threshold, step, pts[k].0, pts[k].1) && ScannedBefore(pts[k].0, pts[k].1, 0, y)
      invariant forall x: nat, yy: nat ::
        Hit(img, threshold, step, x, yy) && ScannedBefore(x, yy, 0, y) ==> (x, yy) in pts
      invariant forall i, j :: 0 <= i < j < |pts| ==> RowMajorBefore(pts[i], pts[j])
    {
      var x: nat := 0;
      while x < img.width
        invariant x % step == 0
        invariant forall k :: 0 <= k < |pts| ==>
          Hit(img, threshold, step, pts[k].0, pts[k].1) && ScannedBefore(pts[k].0, pts[k].1, x, y)
        invariant forall xx: nat, yy: nat ::
          Hit(img, threshold, step, xx, yy) && ScannedBefore(xx, yy, x, y) ==> (xx, yy) in pts
        invariant forall i, j :: 0 <= i < j < |pts| ==> RowMajorBefore(pts[i], pts[j])
      {
        OffsetBound(img.width, img.height, x, y);
        var a := img.data[Offset(img.width, x, y) + 3];
        assert a == Alpha(img, x, y);
        if a as int > threshold {
          pts := pts + [(x, y)];
        }
        forall xx: nat, yy: nat | Hit(img, threshold, step, xx, yy)
          && ScannedBefore(xx, yy, x + step, y) && !ScannedBefore(xx, yy, x, y)
          ensures xx == x && yy == y
        {
          StrideGap(x, xx, step);
        }
        NextStride(x, step);
        x := x + step;
      }
      forall xx: nat, yy: nat | Hit(img, threshold, step, xx, yy)
        && ScannedBefore(xx, yy, 0, y + step) && !ScannedBefore(xx, yy, x, y)
        ensures false
      {
        StrideGap(y, yy, step);
      }
      NextStride(y, step);
      y := y + step;
    }
  }

  /** CONFIG.galleryScale (pixel to world) and CONFIG.galleryZJitter. */
  const GalleryScale: real := 0.15
  const ZJitter: real := 0.0

  /** World x of pixel column px of a crop `width` wide centered at centerX (magic.js:215). */
  function WorldX(px: real, width: nat, centerX: real): real
  {
    (px - width as real / 2.0) * GalleryScale + centerX
  }

  /** World y of pixel row py, flipped: image rows grow downward, world y upward (magic.js:216). */
  function WorldY(py: real, height: nat, centerY: real): real
  {
    (height as real / 2.0 - py) * GalleryScale + centerY
  }

  /** The pixel column under world x: the inverse of WorldX. */
  function PixelX(wx: real, width: nat, centerX: real): real
  {
    (wx - centerX) / GalleryScale + width as real / 2.0
  }

  /** The pixel row under world y: the inverse of WorldY. */
  function PixelY(wy: real, height: nat, centerY: real): real
  {
    height as real / 2.0 - (wy - centerY) / GalleryScale
  }

  /** The pixel-to-world mapping is invertible, and it flips the vertical axis. */
  lemma WorldRoundTrip(px: real, py: real, width: nat, height: nat, centerX: real, centerY: real)
    ensures PixelX(WorldX(px, width, centerX), width, centerX) == px
    ensures PixelY(WorldY(py, height, centerY), height, centerY) == py
    ensures forall py': real :: py < py' ==> WorldY(py', height, centerY) < WorldY(py, height, centerY)
  {
  }

  /** The pixel `(Math.random() * n) | 0` picks; for r in [0, 1) the truncation is a floor. */
  function Pick(r: real, n: nat): (k: nat)
    requires 0.0 <= r < 1.0 && n >= 1
    ensures k < n
  {
    ScaledBelow(r, n);
    (r * n as real).Floor
  }

  /** `Math.random() * n` for a crop dimension n: a point of [0, n). */
  function Scaled(r: real, n: nat): (v: real)
    requires 0.0 <= r < 1.0 && n >= 1
    ensures 0.0 <= v < n as real
  {
    ScaledBelow(r, n);
    r * n as real
  }

  lemma ScaledBelow(r: real, n: nat)
    requires 0.0 <= r < 1.0 && n >= 1
    ensures 0.0 <= r * n as real < n as real
  {
  }

  /** Colour channel c of pixel (x, y), as a fraction of 255. */
  function ColourAt(img: Image, x: int, y: int, c: nat): (v: real)
    requires Wf(img) && 0 <= x < img.width && 0 <= y < img.height && c < 3
    ensures 0.0 <= v <= 1.0
  {
    OffsetBound(img.width, img.height, x, y);
    img.data[Offset(img.width, x, y) + c] as real / 255.0
  }

  /** A sample's world point lies over a pixel of the crop and carries that pixel's colour. */
  ghost predicate OverCrop(img: Image, tx: real, ty: real, c0: real, c1: real, c2: real,
                           centerX: real, centerY: real)
    requires Wf(img)
  {
    var px := PixelX(tx, img.width, centerX);
    var py := PixelY(ty, img.height, centerY);
    && 0.0 <= px < img.width as real && 0.0 <= py < img.height as real
    && c0 == ColourAt(img, px.Floor, py.Floor, 0)
    && c1 == ColourAt(img, px.Floor, py.Floor, 1)
    && c2 == ColourAt(img, px.Floor, py.Floor, 2)
  }

  /** A pixel position inside the crop maps to a world point over that pixel. */
  lemma SampleOverCrop(img: Image, px: real, py: real, centerX: real, centerY: real)
    requires Wf(img) && 0.0 <= px < img.width as real && 0.0 <= py < img.height as real
    ensures 0 <= px.Floor < img.width && 0 <= py.Floor < img.height
    ensures OverCrop(img, WorldX(px, img.width, centerX), WorldY(py, img.height, centerY),
                     ColourAt(img, px.Floor, py.Floor, 0), ColourAt(img, px.Floor, py.Floor, 1),
                     ColourAt(img, px.Floor, py.Floor, 2), centerX, centerY)
  {
    WorldRoundTrip(px, py, img.width, img.height, centerX, centerY);
    assert px.Floor as real <= px && py.Floor as real <= py;
  }

  /** The pixel position the draws at d pick (magic.js:205-213): the opaque pixel at index
      `(draws[d] * |pts|) | 0`, or, in fallback mode, the point
      (draws[d] * width, draws[d + 1] * height) of the crop. */
  function SamplePixel(img: Image, pts: seq<(nat, nat)>, useFallback: bool, draws: seq<real>, d: nat)
    : (p: (real, real))
    requires img.width >= 1 && img.height >= 1
    requires forall k :: 0 <= k < |pts| ==> pts[k].0 < img.width && pts[k].1 < img.height
    requires !useFallback ==> |pts| >= 1
    requires d + 2 <= |draws|
    requires forall k :: 0 <= k < |draws| ==> 0.0 <= draws[k] < 1.0
    ensures 0.0 <= p.0 < img.width as real && 0.0 <= p.1 < img.height as real
    ensures !useFallback ==> exists k :: 0 <= k < |pts| && p == (pts[k].0 as real, pts[k].1 as real)
  {
    if !useFallback then
      var pick := pts[Pick(draws[d], |pts|)];
      (pick.0 as real, pick.1 as real)
    else
      (Scaled(draws[d], img.width), Scaled(draws[d + 1], img.height))
  }

  /** The pixel one sample lands on (magic.js:205-213): a uniformly picked opaque pixel, or,
      in fallback mode, a uniform point of the crop; reads one draw or two from draws[d..]. */
  method ChoosePixel(img: Image, pts: seq<(nat, nat)>, useFallback: bool, draws: seq<real>, d: nat)
    returns (px: real, py: real, d': nat, ghost k: nat)
    requires Wf(img) && img.width >= 1 && img.height >= 1
    requires forall k :: 0 <= k < |pts| ==> pts[k].0 < img.width && pts[k].1 < img.height
    requires !useFallback ==> |pts| >= 1
    requires d + 2 <= |draws|
    requires forall k :: 0 <= k < |draws| ==> 0.0 <= draws[k] < 1.0
    ensures d' == d + (if useFallback then 2 else 1)
    ensures 0.0 <= px < img.width as real && 0.0 <= py < img.height as real
    ensures !useFallback ==> k < |pts| && px == pts[k].0 as real && py == pts[k].1 as real
    ensures !useFallback ==> k == Pick(draws[d], |pts|)
    ensures (px, py) == SamplePixel(img, pts, useFallback, draws, d)
  {
    k := 0;
    if !useFallback {
      var idx := Pick(draws[d], |pts|);
      var pick := pts[idx];
      k := idx;
      px, py := pick.0 as real, pick.1 as real;
      d' := d + 1;
    } else {
      px := Scaled(draws[d], img.width);
      py := Scaled(draws[d + 1], img.height);
      d' := d + 2;
    }
  }

  /** A world point is the image of one of the opaque pixels. */
  ghost predicate AtOpaque(img: Image, pts: seq<(nat, nat)>, tx: real, ty: real,
                           centerX: real, centerY: real)
  {
    exists k :: 0 <= k < |pts|
      && tx == WorldX(pts[k].0 as real, img.width, centerX)
      && ty == WorldY(pts[k].1 as real, img.height, centerY)
  }

  /** The target a sample at draws[d..] yields: the world image of SamplePixel, and a z
      jitter from the draw that follows the pixel's one draw or two (magic.js:205-217). */
  ghost predicate SampleFrom(img: Image, pts: seq<(nat, nat)>, useFallback: bool,
                             centerX: real, centerY: real, draws: seq<real>, d: nat,
                             x: real, y: real, z: real)
    requires img.width >= 1 && img.height >= 1
    requires forall k :: 0 <= k < |pts| ==> pts[k].0 < img.width && pts[k].1 < img.height
    requires !useFallback ==> |pts| >= 1
    requires d + 3 <= |draws|
    requires forall k :: 0 <= k < |draws| ==> 0.0 <= draws[k] < 1.0
  {
    var p := SamplePixel(img, pts, useFallback, draws, d);
    && x == WorldX(p.0, img.width, centerX)
    && y == WorldY(p.1, img.height, centerY)
    && z == (draws[if useFallback then d + 2 else d + 1] - 0.5) * ZJitter
  }

  /** One iteration of the sampling loop (magic.js:203-230), reading draws[d..]. */
  method DrawSample(img: Image, pts: seq<(nat, nat)>, useFallback: bool,
                    centerX: real, centerY: real, draws: seq<real>, d: nat)
    returns (x: real, y: real, z: real, r: real, g: real, b: real, d': nat, ghost k: nat)
    requires Wf(img) && img.width >= 1 && img.height >= 1
    requires forall k :: 0 <= k < |pts| ==> pts[k].0 < img.width && pts[k].1 < img.height
    requires !useFallback ==> |pts| >= 1
    requires d + 3 <= |draws|
    requires forall k :: 0 <= k < |draws| ==> 0.0 <= draws[k] < 1.0
    ensures d' == d + (if useFallback then 3 else 2)
    ensures OverCrop(img, x, y, r, g, b, centerX, centerY) && z == 0.0
    ensures !useFallback ==>
      k < |pts| && x == WorldX(pts[k].0 as real, img.width, centerX)
      && y == WorldY(pts[k].1 as real, img.height, centerY)
    ensures SampleFrom(img, pts, useFallback, centerX, centerY, draws, d, x, y, z)
  {
    var px, py;
    px, py, d', k := ChoosePixel(img, pts, useFallback, draws, d);
    z := (draws[d'] - 0.5) * ZJitter;
    d' := d' + 1;
    x := WorldX(px, img.width, centerX);
    y := WorldY(py, img.height, centerY);
    SampleOverCrop(img, px, py, centerX, centerY);
    r := ColourAt(img, px.Floor, py.Floor, 0);
    g := ColourAt(img, px.Floor, py.Floor, 1);
    b := ColourAt(img, px.Floor, py.Floor, 2);
  }

  /** The sampling loop of imageToPointTargets (magic.js:197-231): `count` samples, each
      drawn from the opaque list, or uniformly over the crop when the list holds fewer than
      50 pixels. Math.random() is the supply `draws`, read in call order: a pick (or an x and
      a y) and then a z jitter per sample. */
  method SampleTargets(img: Image, pts: seq<(nat, nat)>, count: nat,
                       centerX: real, centerY: real, draws: seq<real>)
    returns (targets: seq<real>, colors: seq<real>)
    requires Wf(img) && img.width >= 1 && img.height >= 1
    requires forall k :: 0 <= k < |pts| ==> pts[k].0 < img.width && pts[k].1 < img.height
    requires |draws| >= 3 * count
    requires forall k :: 0 <= k < |draws| ==> 0.0 <= draws[k] < 1.0
    ensures |targets| == 3 * count && |colors| == 3 * count
    ensures forall i :: 0 <= i < count ==>
      OverCrop(img, targets[3 * i], targets[3 * i + 1],
               colors[3 * i], colors[3 * i + 1], colors[3 * i + 2], centerX, centerY)
    ensures forall i :: 0 <= i < count ==> targets[3 * i + 2] == 0.0
    ensures |pts| >= MinOpaquePoints ==> forall i :: 0 <= i < count ==>
      AtOpaque(img, pts, targets[3 * i], targets[3 * i + 1], centerX, centerY)
    ensures forall i :: 0 <= i < count ==>
      SampleFrom(img, pts, |pts| < MinOpaquePoints, centerX, centerY, draws,
                 if |pts| < MinOpaquePoints then 3 * i else 2 * i,
                 targets[3 * i], targets[3 * i + 1], targets[3 * i + 2])
  {
    var useFallback := |pts| < MinOpaquePoints;
    targets, colors := [], [];
    ghost var picked: seq<nat> := [];
    var d := 0;
    var i := 0;
    while i < count
      invariant 0 <= i <= count
      invariant d == (if useFallback then 3 * i else 2 * i)
      invariant |targets| == 3 * i && |colors| == 3 * i && |picked| == i
      invariant forall j :: 0 <= j < i ==>
        OverCrop(img, targets[3 * j], targets[3 * j + 1],
                 colors[3 * j], colors[3 * j + 1], colors[3 * j + 2], centerX, centerY)
      invariant forall j :: 0 <= j < i ==> targets[3 * j + 2] == 0.0
      invariant !useFallback ==> forall j :: 0 <= j < i ==>
        picked[j] < |pts|
        && targets[3 * j] == WorldX(pts[picked[j]].0 as real, img.width, centerX)
        && targets[3 * j + 1] == WorldY(pts[picked[j]].1 as real, img.height, centerY)
      invariant forall j :: 0 <= j < i ==>
        SampleFrom(img, pts, useFallback, centerX, centerY, draws,
                   if useFallback then 3 * j else 2 * j,
                   targets[3 * j], targets[3 * j + 1], targets[3 * j + 2])
    {
      var x, y, z, r, g, b, d', k := DrawSample(img, pts, useFallback, centerX, centerY, draws, d);
      targets := targets + [x, y, z];
      colors := colors + [r, g, b];
      picked := picked + [k];
      d := d';
      i := i + 1;
    }
    if !useFallback {
      forall j | 0 <= j < count
        ensures AtOpaque(img, pts, targets[3 * j], targets[3 * j + 1], centerX, centerY)
      {
        var k := picked[j];
        assert 0 <= k < |pts|;
      }
    }
  }

  /** The image `im.src` resolves to, or the decode failure `im.onerror` reports. */
  datatype Decode = Decoded(image: WfImage) | DecodeError

  /** The single retry of the loader (magic.js:171-174): a URL starting with neither "./"
      nor "/" is tried again as "./" + url. */
  function RetryUrl(url: string): (alt: Option<string>)
    ensures alt.Some? <==> !("./" <= url) && !("/" <= url)
    ensures alt.Some? ==> alt.value == "./" + url && "./" <= alt.value
  {
    if !("./" <= url) && !("/" <= url) then Some("./" + url) else None
  }

  /** The URLs the loader hands to the image element, in order. */
  function Attempts(url: string, decode: string -> Decode): (tried: seq<string>)
    ensures 1 <= |tried| <= 2 && tried[0] == url
    ensures |tried| == 2 <==> decode(url).DecodeError? && !("./" <= url) && !("/" <= url)
    ensures |tried| == 2 ==> tried[1] == "./" + url
  {
    if decode(url).DecodeError? && RetryUrl(url).Some? then [url, RetryUrl(url).value]
    else [url]
  }

  /** The awaited image of imageToPointTargets (magic.js:164-179): None is the rejection. */
  function LoadImage(url: string, decode: string -> Decode): Option<WfImage>
  {
    match decode(url)
    case Decoded(img) => Some(img)
    case DecodeError =>
      match RetryUrl(url)
      case None => None
      case Some(alt) =>
        match decode(alt)
        case Decoded(img) => Some(img)
        case DecodeError => None
  }

  /** The load resolves with the image of the last URL tried, and rejects exactly when that
      last attempt fails too; a retried URL never qualifies for a second retry. */
  lemma LoadIsLastAttempt(url: string, decode: string -> Decode)
    ensures var tried := Attempts(url, decode);
            LoadImage(url, decode) ==
              match decode(tried[|tried| - 1])
              case Decoded(img) => Some(img)
              case DecodeError => None
    ensures RetryUrl(url).Some? ==> RetryUrl(RetryUrl(url).value).None?
  {
  }

  /** The points and colours imageToPointTargets resolves with, three numbers per sample. */
  datatype PointTargets = PointTargets(targets: seq<real>, colors: seq<real>)

  /** Samples over the pixels of a crop no larger than the image lie within the image's
      half extents of the center, and their colours are fractions in [0, 1]. */
  lemma SamplesWithinImage(img: Image, crop: Image, count: nat, centerX: real, centerY: real,
                           targets: seq<real>, colors: seq<real>)
    requires Wf(crop) && crop.width <= img.width && crop.height <= img.height
    requires |targets| == 3 * count && |colors| == 3 * count
    requires forall i :: 0 <= i < count ==>
      OverCrop(crop, targets[3 * i], targets[3 * i + 1],
               colors[3 * i], colors[3 * i + 1], colors[3 * i + 2], centerX, centerY)
    ensures forall i :: 0 <= i < count ==>
      && centerX - img.width as real / 2.0 * GalleryScale <= targets[3 * i]
      && targets[3 * i] < centerX + img.width as real / 2.0 * GalleryScale
      && centerY - img.height as real / 2.0 * GalleryScale < targets[3 * i + 1]
      && targets[3 * i + 1] <= centerY + img.height as real / 2.0 * GalleryScale
    ensures forall k :: 0 <= k < |colors| ==> 0.0 <= colors[k] <= 1.0
  {
    forall i | 0 <= i < count
      ensures centerX - img.width as real / 2.0 * GalleryScale <= targets[3 * i]
      ensures targets[3 * i] < centerX + img.width as real / 2.0 * GalleryScale
      ensures centerY - img.height as real / 2.0 * GalleryScale < targets[3 * i + 1]
      ensures targets[3 * i + 1] <= centerY + img.height as real / 2.0 * GalleryScale
    {
      var px := PixelX(targets[3 * i], crop.width, centerX);
      var py := PixelY(targets[3 * i + 1], crop.height, centerY);
      assert OverCrop(crop, targets[3 * i], targets[3 * i + 1],
                      colors[3 * i], colors[3 * i + 1], colors[3 * i + 2], centerX, centerY);
      assert 0.0 <= px < crop.width as real && 0.0 <= py < crop.height as real;
    }
    forall k | 0 <= k < |colors| ensures 0.0 <= colors[k] <= 1.0 {
      var i, ch := k / 3, k % 3;
      assert k == 3 * i + ch;
      assert OverCrop(crop, targets[3 * i], targets[3 * i + 1],
                      colors[3 * i], colors[3 * i + 1], colors[3 * i + 2], centerX, centerY);
    }
  }

  /** The crop cropAlphaBounds returns for an image with pixels, with the CONFIG threshold,
      pad and stride: the whole image when no strided pixel is opaque enough, else the
      padded crop of the opaque box. */
  ghost predicate DefaultCrop(img: Image, c: Cropped)
    requires Wf(img)
  {
    if AnyHit(img, AlphaThreshold, PixelStep) then PaddedCrop(img, AlphaThreshold, Pad, PixelStep, c)
    else c == Cropped(0, 0, img)
  }

  /** imageToPointTargets (magic.js:163-234) with the CONFIG threshold, pad and stride: load
      (with its retry), crop, collect, sample. None is a rejected promise: the image did not
      load, or it has no pixels, where getImageData throws. Every sample lands within the
      loaded image's width and height of the center, at z = 0; more precisely, it lies over
      a pixel of the crop `crop` of the loaded image and carries that pixel's colour. */
  method ImageToPointTargets(url: string, count: nat, centerX: real, centerY: real,
                             decode: string -> Decode, draws: seq<real>)
    returns (r: Option<PointTargets>, ghost crop: Cropped)
    requires |draws| >= 3 * count
    requires forall k :: 0 <= k < |draws| ==> 0.0 <= draws[k] < 1.0
    ensures r.Some? <==> (LoadImage(url, decode).Some?
      && LoadImage(url, decode).value.width >= 1 && LoadImage(url, decode).value.height >= 1)
    ensures r.Some? ==> |r.value.targets| == 3 * count && |r.value.colors| == 3 * count
    ensures r.Some? ==> forall i :: 0 <= i < count ==>
      var img := LoadImage(url, decode).value;
      && centerX - img.width as real / 2.0 * GalleryScale <= r.value.targets[3 * i]
      && r.value.targets[3 * i] < centerX + img.width as real / 2.0 * GalleryScale
      && centerY - img.height as real / 2.0 * GalleryScale < r.value.targets[3 * i + 1]
      && r.value.targets[3 * i + 1] <= centerY + img.height as real / 2.0 * GalleryScale
      && r.value.targets[3 * i + 2] == 0.0
    ensures r.Some? ==> forall k :: 0 <= k < |r.value.colors| ==> 0.0 <= r.value.colors[k] <= 1.0
    ensures r.Some? ==> DefaultCrop(LoadImage(url, decode).value, crop) && Wf(crop.image)
    ensures r.Some? ==> forall i :: 0 <= i < count ==>
      OverCrop(crop.image, r.value.targets[3 * i], r.value.targets[3 * i + 1],
               r.value.colors[3 * i], r.value.colors[3 * i + 1], r.value.colors[3 * i + 2],
               centerX, centerY)
  {
    crop := Cropped(0, 0, Image(0, 0, []));
    var loaded := LoadImage(url, decode);
    if loaded.None? {
      r := None;
      return;
    }
    var img := loaded.value;
    var cropped := CropAlphaBounds(img, AlphaThreshold, Pad, PixelStep);
    if cropped.None? {
      r := None;
      return;
    }
    var c := cropped.value;
    crop := c;
    assert Wf(c.image) && 1 <= c.image.width <= img.width && 1 <= c.image.height <= img.height;
    var pts := CollectOpaque(c.image, AlphaThreshold, PixelStep);
    var targets, colors := SampleTargets(c.image, pts, count, centerX, centerY, draws);
    r := Some(PointTargets(targets, colors));
    SamplesWithinImage(img, c.image, count, centerX, centerY, targets, colors);
  }
}
