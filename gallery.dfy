// The HEART gallery pool `groupGallery` (magic.js:524-570): its position, size and colour
// buffers, the per-particle image targets and image indices in its userData, and the
// in-place target build `buildGalleryTargets` (magic.js:573-644) with its busy and ready
// flags; plus the per-frame morph `updateGalleryPoints` (magic.js:752-796).
module Gallery {
  import opened Motion
  import opened Partition
  import Sampler
  import Pixels

  /** CONFIG.gallerySize: the size of a revealed gallery particle before its shimmer. */
  const GallerySize: real := 2.0

  /** The image a URL yields has pixels, so imageToPointTargets resolves for it. */
  predicate Loadable(url: string, decode: string -> Sampler.Decode)
  {
    var img := Sampler.LoadImage(url, decode);
    img.Some? && img.value.width >= 1 && img.value.height >= 1
  }

  /** The two write loops of buildGalleryTargets (magic.js:614-627): three numbers per
      particle from src into dst, starting at `at`; the rest of dst is left alone. */
  method CopyTriples(dst: array<real>, at: nat, src: seq<real>)
    requires |src| % 3 == 0 && at + |src| <= dst.Length
    modifies dst
    ensures forall m :: 0 <= m < dst.Length ==>
      dst[m] == if at <= m < at + |src| then src[m - at] else old(dst[m])
  {
    var j := 0;
    while j < |src| / 3
      invariant 0 <= j <= |src| / 3
      invariant forall m :: 0 <= m < dst.Length ==>
        dst[m] == if at <= m < at + 3 * j then src[m - at] else old(dst[m])
    {
      dst[at + 3 * j] := src[3 * j];
      dst[at + 3 * j + 1] := src[3 * j + 1];
      dst[at + 3 * j + 2] := src[3 * j + 2];
      j := j + 1;
    }
  }

  /** The target write loop of one block (magic.js:614-620): particles b..e-1 take the
      targets in t, in order, so each lands in the box t's points lie in; nothing outside
      the block changes. */
  method CopyTargets(dst: array<real>, b: nat, e: nat, t: seq<real>, cx: real,
                     ghost halfW: real, ghost halfH: real)
    requires b <= e && 3 * e <= dst.Length && |t| == 3 * (e - b)
    requires forall j :: 0 <= j < e - b ==>
      InBox(t[3 * j], t[3 * j + 1], t[3 * j + 2], cx, GalleryY, halfW, halfH)
    modifies dst
    ensures forall m :: 0 <= m < dst.Length && (m < 3 * b || 3 * e <= m) ==> dst[m] == old(dst[m])
    ensures forall j :: 0 <= j < |t| ==> dst[3 * b + j] == t[j]
    ensures forall p :: b <= p < e ==> InBox(dst[3 * p], dst[3 * p + 1], dst[3 * p + 2], cx, GalleryY, halfW, halfH)
  {
    CopyTriples(dst, 3 * b, t);
    forall p | b <= p < e
      ensures InBox(dst[3 * p], dst[3 * p + 1], dst[3 * p + 2], cx, GalleryY, halfW, halfH)
    {
      var j := p - b;
      assert dst[3 * p] == t[3 * j] && dst[3 * p + 1] == t[3 * j + 1] && dst[3 * p + 2] == t[3 * j + 2];
    }
  }

  /** Particles b..e-1 of the target array ft and the colour array cs hold the targets t
      and the colours c, in order; their targets lie in the box of half extents halfW, halfH
      around (cx, GalleryY), at z = 0, and their colours in [0, 1]. */
  ghost predicate BlockHolds(ft: array<real>, cs: array<real>, b: nat, e: nat,
                             t: seq<real>, c: seq<real>, cx: real, halfW: real, halfH: real)
    reads ft, cs
    requires b <= e && 3 * e <= ft.Length && 3 * e <= cs.Length
  {
    && |t| == 3 * (e - b) && |c| == 3 * (e - b)
    && (forall j :: 0 <= j < 3 * (e - b) ==> ft[3 * b + j] == t[j] && cs[3 * b + j] == c[j])
    && (forall p :: b <= p < e ==>
          InBox(ft[3 * p], ft[3 * p + 1], ft[3 * p + 2], cx, GalleryY, halfW, halfH))
    && (forall m :: 3 * b <= m < 3 * e ==> 0.0 <= cs[m] <= 1.0)
  }

  /** The two write loops of one block (magic.js:614-627) on the arrays themselves:
      particles b..e-1 take the loaded targets t and colours c, in order; nothing outside
      the block changes in either array. */
  method WriteArrays(ft: array<real>, cs: array<real>, b: nat, e: nat,
                     t: seq<real>, c: seq<real>, cx: real, ghost halfW: real, ghost halfH: real)
    requires ft != cs && b <= e && 3 * e <= ft.Length && 3 * e <= cs.Length
    requires |t| == 3 * (e - b) && |c| == 3 * (e - b)
    requires forall j :: 0 <= j < e - b ==>
      InBox(t[3 * j], t[3 * j + 1], t[3 * j + 2], cx, GalleryY, halfW, halfH)
    requires forall j :: 0 <= j < |c| ==> 0.0 <= c[j] <= 1.0
    modifies ft, cs
    ensures forall m :: 0 <= m < ft.Length && (m < 3 * b || 3 * e <= m) ==> ft[m] == old(ft[m])
    ensures forall m :: 0 <= m < cs.Length && (m < 3 * b || 3 * e <= m) ==> cs[m] == old(cs[m])
    ensures BlockHolds(ft, cs, b, e, t, c, cx, halfW, halfH)
  {
    CopyTargets(ft, b, e, t, cx, halfW, halfH);
    CopyTriples(cs, 3 * b, c);
    forall m | 3 * b <= m < 3 * e ensures 0.0 <= cs[m] <= 1.0 {
      assert cs[m] == c[m - 3 * b];
    }
  }

  /** The scatter copy of the HEART-entry reset (magic.js:970). */
  method CopyAll(dst: array<real>, src: seq<real>)
    requires |src| == dst.Length
    modifies dst
    ensures dst[..] == src
  {
    var k := 0;
    while k < dst.Length
      invariant 0 <= k <= dst.Length
      invariant forall m :: 0 <= m < k ==> dst[m] == src[m]
    {
      dst[k] := src[k];
      k := k + 1;
    }
  }

  /** The size reset of the HEART-entry reset (magic.js:971). */
  method ZeroAll(dst: array<real>)
    modifies dst
    ensures forall m :: 0 <= m < dst.Length ==> dst[m] == 0.0
  {
    var k := 0;
    while k < dst.Length
      invariant 0 <= k <= dst.Length
      invariant forall m :: 0 <= m < k ==> dst[m] == 0.0
    {
      dst[k] := 0.0;
      k := k + 1;
    }
  }

  /** The assignment loop of buildGalleryTargets (magic.js:586-589): every particle gets
      the image index Math.min(n - 1, Math.floor(i / per)) as a Uint8Array stores it. */
  method AssignImages(imageIndex: array<int>, n: nat, per: nat)
    requires n >= 1
    modifies imageIndex
    ensures forall i :: 0 <= i < imageIndex.Length ==> imageIndex[i] == StoredIndex(i, n, per)
    ensures forall i :: 0 <= i < imageIndex.Length ==> 0 <= imageIndex[i] < 256
  {
    var i := 0;
    while i < imageIndex.Length
      invariant 0 <= i <= imageIndex.Length
      invariant forall j :: 0 <= j < i ==> imageIndex[j] == StoredIndex(j, n, per) < 256
    {
      imageIndex[i] := StoredIndex(i, n, per);
      i := i + 1;
    }
  }

  /** Writing block k of a build over the prefix already written by its own images
      extends that prefix to the end of block k. */
  lemma {:induction false} BlockExtendsPrefix(w: seq<int>, w': seq<int>, n: nat, count: nat, k: nat)
    requires 1 <= n && k < n && |w| == count && |w'| == count
    requires BlockBegin(k, Per(count, n)) <= BlockEnd(k, n, Per(count, n), count) <= count
    requires forall i :: 0 <= i < count && i < BlockBegin(k, Per(count, n)) ==>
      w[i] == BlockOf(i, n, Per(count, n))
    requires forall i :: 0 <= i < count ==>
      w'[i] == if BlockBegin(k, Per(count, n)) <= i < BlockEnd(k, n, Per(count, n), count)
               then k else w[i]
    ensures forall i :: 0 <= i < count && i < BlockEnd(k, n, Per(count, n), count) ==>
      w'[i] == BlockOf(i, n, Per(count, n))
  {
    var per := Per(count, n);
    forall i | 0 <= i < count && i < BlockEnd(k, n, per, count)
      ensures w'[i] == BlockOf(i, n, per)
    {
      if BlockBegin(k, per) <= i {
        BlocksPartition(i, n, count);
      }
    }
  }

  /** Half the width and half the height, in world units, of the image a loadable URL
      yields: the extents of the box its targets land in. */
  function HalfWidth(url: string, decode: string -> Sampler.Decode): real
    requires Loadable(url, decode)
  {
    Sampler.LoadImage(url, decode).value.width as real / 2.0 * Sampler.GalleryScale
  }

  function HalfHeight(url: string, decode: string -> Sampler.Decode): real
    requires Loadable(url, decode)
  {
    Sampler.LoadImage(url, decode).value.height as real / 2.0 * Sampler.GalleryScale
  }

  /** The await of one block (magic.js:611-612): imageToPointTargets for the block's m
      particles around (cx, GalleryY), resolving exactly for a loadable URL, with m
      targets in the box of the loaded image. */
  method LoadBlock(url: string, m: nat, cx: real, decode: string -> Sampler.Decode, draws: seq<real>)
    returns (r: Sampler.Option<Sampler.PointTargets>, ghost crop: Sampler.Cropped)
    requires |draws| >= 3 * m && forall k :: 0 <= k < |draws| ==> 0.0 <= draws[k] < 1.0
    ensures r.Some? <==> Loadable(url, decode)
    ensures r.Some? ==> |r.value.targets| == 3 * m && |r.value.colors| == 3 * m
    ensures r.Some? ==> forall j :: 0 <= j < m ==>
      InBox(r.value.targets[3 * j], r.value.targets[3 * j + 1], r.value.targets[3 * j + 2],
            cx, GalleryY, HalfWidth(url, decode), HalfHeight(url, decode))
    ensures r.Some? ==> forall j :: 0 <= j < |r.value.colors| ==> 0.0 <= r.value.colors[j] <= 1.0
    ensures r.Some? ==> OverLoadedCrop(url, decode, crop, r.value, m, cx)
  {
    r, crop := Sampler.ImageToPointTargets(url, m, cx, GalleryY, decode, draws);
  }

  /** The m samples of `res` lie over pixels of `crop`, the crop cropAlphaBounds makes of
      the image loaded from url, around (cx, GalleryY), each with its pixel's colour. */
  ghost predicate OverLoadedCrop(url: string, decode: string -> Sampler.Decode, crop: Sampler.Cropped,
                                 res: Sampler.PointTargets, m: nat, cx: real)
  {
    && Loadable(url, decode)
    && Sampler.DefaultCrop(Sampler.LoadImage(url, decode).value, crop)
    && Pixels.Wf(crop.image)
    && |res.targets| == 3 * m && |res.colors| == 3 * m
    && forall j :: 0 <= j < m ==>
         Sampler.OverCrop(crop.image, res.targets[3 * j], res.targets[3 * j + 1],
                          res.colors[3 * j], res.colors[3 * j + 1], res.colors[3 * j + 2],
                          cx, GalleryY)
  }

  /** A target point lies in the box of half extents halfW, halfH around (cx, cy), at
      z = 0, with the image's pixel grid orientation: left and top edges included. */
  predicate InBox(x: real, y: real, z: real, cx: real, cy: real, halfW: real, halfH: real)
  {
    cx - halfW <= x < cx + halfW && cy - halfH < y <= cy + halfH && z == 0.0
  }

  class GalleryPool {
    const count: nat
    /** scatterTargets: where every particle rests before its image is revealed. */
    const scatter: seq<real>
    const positions: array<real>
    const sizes: array<real>
    const colors: array<real>
    /** userData.finalTargets: the image point each particle was assigned. */
    const finalTargets: array<real>
    /** userData.imageIndex, a Uint8Array: entries stay in [0, 256). */
    const imageIndex: array<int>

    /** galleryReady, kept equal to userData.ready. */
    var ready: bool
    /** galleryBuilding. */
    var building: bool
    // The build started last: its image count and block size, the block awaited, and the
    // URL being loaded for it. None is a block whose list entry is missing: the loader
    // then throws inside its error handler and the build never settles.
    var buildImages: nat
    var buildPer: nat
    var buildNext: nat
    var blockUrl: Sampler.Option<string>
    /** The image whose block last wrote each particle's target, -1 if none has. */
    ghost var writtenBy: seq<int>

    ghost function Repr(): set<object>
    {
      {positions, sizes, colors, finalTargets}
    }

    ghost predicate Shapes()
      reads this`writtenBy
    {
      && positions.Length == 3 * count && sizes.Length == count
      && colors.Length == 3 * count && finalTargets.Length == 3 * count
      && imageIndex.Length == count && |scatter| == 3 * count && |writtenBy| == count
      && positions != sizes && positions != colors && positions != finalTargets
      && sizes != colors && sizes != finalTargets && colors != finalTargets
    }

    /** imageIndex holds the assignment of the last build; while a build runs, every block
        before the awaited one has been written by its own image; `ready` means every
        block of the last build has been written. */
    ghost predicate Valid()
      reads this, imageIndex
    {
      && Shapes()
      && buildImages >= 1 && buildPer == Per(count, buildImages)
      && (forall i :: 0 <= i < count ==> imageIndex[i] == StoredIndex(i, buildImages, buildPer))
      && (building ==> !ready && buildNext < buildImages)
      && (building ==> forall i :: 0 <= i < count && i < BlockBegin(buildNext, buildPer) ==>
            writtenBy[i] == BlockOf(i, buildImages, buildPer))
      && (ready ==> forall i :: 0 <= i < count ==> writtenBy[i] == BlockOf(i, buildImages, buildPer))
    }

    /** Particle i shows its image: the image's index is below the reveal count. */
    predicate Revealed(i: nat, revealCount: nat)
      reads this, imageIndex
      requires Shapes() && i < count
    {
      imageIndex[i] < revealCount
    }

    /** Where coordinate c of particle i is heading: its image target once revealed, its
        scatter point before. */
    function Goal(i: nat, c: nat, revealCount: nat): real
      reads this, imageIndex, finalTargets
      requires Shapes() && i < count && c < 3
    {
      if Revealed(i, revealCount) then finalTargets[3 * i + c] else scatter[3 * i + c]
    }

    /** One run of updateGalleryPoints with the given reveal count and shimmer values. */
    twostate predicate Stepped(revealCount: nat, wave: seq<real>)
      reads this, imageIndex, finalTargets, positions, sizes
      requires Shapes() && |wave| == count
    {
      && (forall i, c :: 0 <= i < count && 0 <= c < 3 ==>
            positions[3 * i + c] ==
              Ease(old(positions[3 * i + c]), Goal(i, c, revealCount), GallerySpeed))
      && (forall i :: 0 <= i < count ==>
            sizes[i] == if Revealed(i, revealCount) then GallerySize * (0.85 + 0.15 * wave[i])
                        else 0.0)
    }

    /** Block k of the current build has been written with the targets t and colours c
        loaded from an image whose half extents in world units are halfW and halfH: its
        particles hold them as BlockHolds says, around the block's center, and record k as
        their writer; nothing outside the block changed. */
    twostate predicate WroteBlock(k: nat, t: seq<real>, c: seq<real>, halfW: real, halfH: real)
      reads this`writtenBy, this`buildImages, this`buildPer, finalTargets, colors
      requires Shapes() && old(Shapes()) && buildImages >= 1
    {
      var b, e := BlockBegin(k, buildPer), BlockEnd(k, buildImages, buildPer, count);
      && (forall p :: 0 <= p < count ==>
            writtenBy[p] == if b <= p < e then k as int else old(writtenBy[p]))
      && (forall m :: 0 <= m < 3 * count && (m < 3 * b || 3 * e <= m) ==>
            finalTargets[m] == old(finalTargets[m]) && colors[m] == old(colors[m]))
      && b <= e <= count
      && BlockHolds(finalTargets, colors, b, e, t, c, CenterX(k, buildImages), halfW, halfH)
    }

    /** createGalleryPoints (magic.js:524-570): scattered and invisible, not ready. */
    constructor (count: nat, scatter: seq<real>, base: (real, real, real))
      requires |scatter| == 3 * count
      ensures Valid() && fresh(Repr()) && fresh(imageIndex)
      ensures this.count == count && this.scatter == scatter
      ensures !ready && !building
      ensures positions[..] == scatter && forall i :: 0 <= i < count ==> sizes[i] == 0.0
    {
      this.count, this.scatter := count, scatter;
      positions := new real[3 * count](i requires 0 <= i < 3 * count => scatter[i]);
      sizes := new real[count](i => 0.0);
      colors := new real[3 * count](i => if i % 3 == 0 then base.0 else if i % 3 == 1 then base.1 else base.2);
      finalTargets := new real[3 * count](i => 0.0);
      imageIndex := new int[count](i => 0);
      ready, building := false, false;
      buildImages, buildPer, buildNext := 1, count, 0;
      blockUrl := Sampler.None;
      writtenBy := seq(count, i => -1);
      new;
      forall i | 0 <= i < count
        ensures imageIndex[i] == StoredIndex(i, 1, count)
      {
        DivInBlock(i, count, 0);
      }
    }

    /** The pool part of the HEART-entry reset (magic.js:963-974): every particle back to
        its scatter point, every size 0. */
    method ResetPool()
      requires Valid()
      modifies positions, sizes
      ensures positions[..] == scatter && forall i :: 0 <= i < count ==> sizes[i] == 0.0
    {
      CopyAll(positions, scatter);
      ZeroAll(sizes);
    }

    /** The body of updateGalleryPoints' loop for particle i (magic.js:768-786). */
    method StepParticle(i: nat, revealCount: nat, w: real)
      requires Valid() && i < count && -1.0 <= w <= 1.0
      modifies positions, sizes
      ensures forall c :: 0 <= c < 3 ==>
        positions[3 * i + c] == Ease(old(positions[3 * i + c]), Goal(i, c, revealCount), GallerySpeed)
        && Between(positions[3 * i + c], old(positions[3 * i + c]), Goal(i, c, revealCount))
      ensures forall m :: 0 <= m < 3 * count && (m < 3 * i || 3 * i + 3 <= m) ==>
        positions[m] == old(positions[m])
      ensures sizes[i] == (if Revealed(i, revealCount) then GallerySize * (0.85 + 0.15 * w) else 0.0)
      ensures Revealed(i, revealCount) ==> 1.4 <= sizes[i] <= GallerySize
      ensures forall j :: 0 <= j < count && j != i ==> sizes[j] == old(sizes[j])
    {
      var revealed := imageIndex[i] < revealCount;
      var tx := if revealed then finalTargets[3 * i] else scatter[3 * i];
      var ty := if revealed then finalTargets[3 * i + 1] else scatter[3 * i + 1];
      var tz := if revealed then finalTargets[3 * i + 2] else scatter[3 * i + 2];
      EaseStep(positions[3 * i], tx, GallerySpeed);
      EaseStep(positions[3 * i + 1], ty, GallerySpeed);
      EaseStep(positions[3 * i + 2], tz, GallerySpeed);
      positions[3 * i] := Ease(positions[3 * i], tx, GallerySpeed);
      positions[3 * i + 1] := Ease(positions[3 * i + 1], ty, GallerySpeed);
      positions[3 * i + 2] := Ease(positions[3 * i + 2], tz, GallerySpeed);
      if revealed {
        sizes[i] := GallerySize * (0.85 + 0.15 * w);
      } else {
        sizes[i] := 0.0;
      }
    }

    /** updateGalleryPoints (magic.js:752-796): nothing until the gallery is ready; then
        every particle takes a smoothing step toward its image target if its image is
        revealed and toward its scatter point otherwise, never overshooting, and only
        revealed particles have a size. wave[i] is Math.sin(time * 10 + i * 0.01). */
    method UpdatePoints(revealCount: nat, wave: seq<real>)
      requires Valid()
      requires |wave| == count && forall i :: 0 <= i < count ==> -1.0 <= wave[i] <= 1.0
      modifies positions, sizes
      ensures !ready ==> unchanged(positions, sizes)
      ensures ready ==> Stepped(revealCount, wave)
      ensures ready ==> forall i, c :: 0 <= i < count && 0 <= c < 3 ==>
        Between(positions[3 * i + c], old(positions[3 * i + c]), Goal(i, c, revealCount))
      ensures ready ==> forall i :: 0 <= i < count ==>
        (Revealed(i, revealCount) ==> 1.4 <= sizes[i] <= GallerySize)
        && (!Revealed(i, revealCount) ==> sizes[i] == 0.0)
    {
      if !ready {
        return;
      }
      var i := 0;
      while i < count
        invariant 0 <= i <= count
        invariant forall j, c :: 0 <= j < i && 0 <= c < 3 ==>
          positions[3 * j + c] == Ease(old(positions[3 * j + c]), Goal(j, c, revealCount), GallerySpeed)
          && Between(positions[3 * j + c], old(positions[3 * j + c]), Goal(j, c, revealCount))
        invariant forall m :: 3 * i <= m < 3 * count ==> positions[m] == old(positions[m])
        invariant forall j :: 0 <= j < i ==>
          sizes[j] == (if Revealed(j, revealCount) then GallerySize * (0.85 + 0.15 * wave[j]) else 0.0)
          && (Revealed(j, revealCount) ==> 1.4 <= sizes[j] <= GallerySize)
      {
        StepParticle(i, revealCount, wave[i]);
        i := i + 1;
      }
    }

    /** The upload handler's `galleryReady = false` (magic.js:1052-1053). */
    method Invalidate()
      requires Valid()
      modifies this
      ensures Valid() && !ready
      ensures building == old(building) && buildImages == old(buildImages)
      ensures buildPer == old(buildPer) && buildNext == old(buildNext)
      ensures blockUrl == old(blockUrl) && writtenBy == old(writtenBy)
    {
      ready := false;
    }

    /** buildGalleryTargets up to its first await (magic.js:573-609), with the gallery list
        `files`: nothing while a build runs; otherwise mark the build busy, assign every
        particle its image index, and start loading the first image. Both callers run it
        only while the gallery is not ready. */
    method BuildRequest(files: seq<string>)
      requires Valid() && !ready
      modifies this, imageIndex
      ensures Valid() && !ready
      ensures old(building) ==> unchanged(this, imageIndex)
      ensures !old(building) ==>
        && building && buildNext == 0
        && buildImages == ImageCount(files) && buildPer == Per(count, buildImages)
        && blockUrl == (if |files| > 0 then Sampler.Some(files[0]) else Sampler.None)
        && writtenBy == old(writtenBy)
      ensures forall i :: 0 <= i < count ==> 0 <= imageIndex[i] < 256
    {
      if building {
        return;
      }
      building := true;
      var n := ImageCount(files);
      var per := count / n;
      AssignImages(imageIndex, n, per);
      buildImages, buildPer, buildNext := n, per, 0;
      blockUrl := if |files| > 0 then Sampler.Some(files[0]) else Sampler.None;
    }

    /** One await of buildGalleryTargets settles (magic.js:606-642): the image of the
        awaited block loads or fails. A failure ends the build, not ready, with nothing of
        that block written. A success writes the block's targets and colours in place, at
        the block's particles only, and either finishes the build, ready, or starts loading
        the next image, read from the current list `files`. With no load in flight,
        nothing happens. */
    method BuildResume(files: seq<string>, decode: string -> Sampler.Decode, draws: seq<real>)
      returns (ghost loaded: Sampler.PointTargets)
      requires Valid()
      requires |draws| >= 3 * count && forall k :: 0 <= k < |draws| ==> 0.0 <= draws[k] < 1.0
      modifies this, finalTargets, colors
      ensures Valid()
      ensures buildImages == old(buildImages) && buildPer == old(buildPer)
      ensures !old(building) || old(blockUrl).None? ==> unchanged(this, finalTargets, colors)
      ensures old(building) && old(blockUrl).Some? && !Loadable(old(blockUrl).value, decode) ==>
        && !ready && !building && blockUrl.None?
        && buildNext == old(buildNext) && writtenBy == old(writtenBy)
        && unchanged(finalTargets, colors)
      ensures old(building) && old(blockUrl).Some? && Loadable(old(blockUrl).value, decode) ==>
        var k := old(buildNext);
        && buildNext == k + 1
        && WroteBlock(k, loaded.targets, loaded.colors,
                      HalfWidth(old(blockUrl).value, decode), HalfHeight(old(blockUrl).value, decode))
        && (k + 1 == buildImages ==> ready && !building && blockUrl.None?)
        && (k + 1 < buildImages ==>
              && building && !ready
              && blockUrl == if k + 1 < |files| then Sampler.Some(files[k + 1]) else Sampler.None)
    {
      loaded := Sampler.PointTargets([], []);
      if !building || blockUrl.None? {
        return;
      }
      var k, n := buildNext, buildImages;
      var ok;
      ghost var crop;
      ok, loaded, crop := AwaitBlock(decode, draws);
      if !ok {
        ready, building, blockUrl := false, false, Sampler.None;
        return;
      }
      buildNext := k + 1;
      if k + 1 == n {
        ready, building, blockUrl := true, false, Sampler.None;
      } else {
        blockUrl := if k + 1 < |files| then Sampler.Some(files[k + 1]) else Sampler.None;
      }
    }

    /** The await of block buildNext and, once it resolves, its two write loops
        (magic.js:606-627): ok tells whether the image loaded; only a load that succeeded
        writes the block, with the loaded targets and colours. The build's progress is left
        to the caller. */
    method AwaitBlock(decode: string -> Sampler.Decode, draws: seq<real>)
      returns (ok: bool, ghost loaded: Sampler.PointTargets, ghost crop: Sampler.Cropped)
      requires Valid() && building && blockUrl.Some?
      requires |draws| >= 3 * count && forall k :: 0 <= k < |draws| ==> 0.0 <= draws[k] < 1.0
      modifies this, finalTargets, colors
      ensures ready == old(ready) && building == old(building) && buildImages == old(buildImages)
      ensures buildPer == old(buildPer) && buildNext == old(buildNext) && blockUrl == old(blockUrl)
      ensures Shapes()
      ensures ok <==> Loadable(blockUrl.value, decode)
      ensures !ok ==> writtenBy == old(writtenBy) && unchanged(finalTargets, colors)
      ensures ok ==>
        && WroteBlock(buildNext, loaded.targets, loaded.colors,
                      HalfWidth(blockUrl.value, decode), HalfHeight(blockUrl.value, decode))
        && forall i :: 0 <= i < count && i < BlockEnd(buildNext, buildImages, buildPer, count) ==>
             writtenBy[i] == BlockOf(i, buildImages, buildPer)
      ensures ok ==>
        OverLoadedCrop(blockUrl.value, decode, crop, loaded,
                       BlockEnd(buildNext, buildImages, buildPer, count) - BlockBegin(buildNext, buildPer),
                       CenterX(buildNext, buildImages))
    {
      var k, n, per := buildNext, buildImages, buildPer;
      BlockWithinPool(k, n, count);
      var b := k * per;
      var e := if k == n - 1 then count else (k + 1) * per;
      var res;
      res, crop := LoadBlock(blockUrl.value, e - b, CenterX(k, n), decode, draws);
      loaded := Sampler.PointTargets([], []);
      ok := res.Some?;
      if ok {
        loaded := res.value;
        WriteBlock(k, b, e, res.value, HalfWidth(blockUrl.value, decode), HalfHeight(blockUrl.value, decode));
      }
    }

    /** The two write loops of one block (magic.js:614-627): the block's particles take the
        image's targets and colours, in order. */
    method WriteBlock(k: nat, b: nat, e: nat, res: Sampler.PointTargets, ghost halfW: real, ghost halfH: real)
      requires Valid() && building && k == buildNext
      requires b == BlockBegin(k, buildPer) && e == BlockEnd(k, buildImages, buildPer, count)
      requires b <= e <= count
      requires |res.targets| == 3 * (e - b) && |res.colors| == 3 * (e - b)
      requires forall j :: 0 <= j < e - b ==>
        InBox(res.targets[3 * j], res.targets[3 * j + 1], res.targets[3 * j + 2],
              CenterX(k, buildImages), GalleryY, halfW, halfH)
      requires forall j :: 0 <= j < |res.colors| ==> 0.0 <= res.colors[j] <= 1.0
      modifies this, finalTargets, colors
      ensures ready == old(ready) && building == old(building) && buildImages == old(buildImages)
      ensures buildPer == old(buildPer) && buildNext == old(buildNext) && blockUrl == old(blockUrl)
      ensures Shapes() && WroteBlock(k, res.targets, res.colors, halfW, halfH)
      ensures forall i :: 0 <= i < count && i < e ==> writtenBy[i] == BlockOf(i, buildImages, buildPer)
    {
      WriteArrays(finalTargets, colors, b, e, res.targets, res.colors, CenterX(k, buildImages), halfW, halfH);
      ghost var w := writtenBy;
      writtenBy := seq(count, p requires 0 <= p < count => if b <= p < e then k else w[p]);
      BlockExtendsPrefix(w, writtenBy, buildImages, count, k);
    }
  }

  /** With 1 <= n <= count and n <= 256 images, a ready gallery reveals particle i exactly
      when the image that wrote its target is among the first revealCount images: the
      stored index is that image. */
  lemma RevealFollowsBlocks(g: GalleryPool, i: nat, revealCount: nat)
    requires g.Valid() && g.ready && i < g.count
    requires g.buildImages <= g.count && g.buildImages <= 256
    ensures g.imageIndex[i] == g.writtenBy[i] < g.buildImages
    ensures g.Revealed(i, revealCount) <==> g.writtenBy[i] < revealCount
  {
    StoredIndexIsBlock(i, g.buildImages, g.count);
  }
}
