// How `buildGalleryTargets` splits the gallery pool among the images (magic.js:24-26,
// 584-604) and where it places each image (magic.js:592-596).
module Partition {
  import opened Arith

  /** Number of gallery images: Math.max(1, heartFiles.length). */
  function ImageCount(files: seq<string>): (n: nat)
    ensures n >= 1
    ensures n == if |files| == 0 then 1 else |files|
  {
    if |files| > 1 then |files| else 1
  }

  /** Particles per image, Math.floor(count / nImages). */
  function Per(count: nat, n: nat): nat
    requires n >= 1
  {
    count / n
  }

  /** First particle written for image k. */
  function BlockBegin(k: nat, per: nat): nat
  {
    k * per
  }

  /** One past the last particle written for image k: the last image takes the rest. */
  function BlockEnd(k: nat, n: nat, per: nat, count: nat): nat
  {
    if k == n - 1 then count else (k + 1) * per
  }

  /** The image whose block contains particle i: the block loop at magic.js:601-604 writes
      particle i for this image and no other. With per == 0 every block but the last is empty. */
  function BlockOf(i: nat, n: nat, per: nat): nat
    requires n >= 1
  {
    if per == 0 then n - 1 else Min(n - 1, i / per)
  }

  /** The value `imageIndex[i]` holds after the assignment loop (magic.js:586-589):
      Math.min(nImages - 1, Math.floor(i / per)) stored into a Uint8Array. With per == 0,
      0 / 0 is NaN, which Math.min propagates and the Uint8Array stores as 0, while i / 0 for
      i > 0 is Infinity, so Math.min gives nImages - 1. The store keeps the value modulo 256. */
  function StoredIndex(i: nat, n: nat, per: nat): nat
    requires n >= 1
  {
    if per == 0 && i == 0 then 0
    else BlockOf(i, n, per) % 256
  }

  lemma DivInBlock(i: nat, per: nat, k: nat)
    requires per > 0 && k * per <= i < (k + 1) * per
    ensures i / per == k
  {
    var q := i / per;
    assert q * per <= i < (q + 1) * per;
    MulCancel(q, k + 1, per);
    MulCancel(k, q + 1, per);
  }

  /** Every block lies inside the pool, in order: 0 <= begin <= end <= count. */
  lemma BlockWithinPool(k: nat, n: nat, count: nat)
    requires 1 <= n && k < n
    ensures BlockBegin(k, Per(count, n)) <= BlockEnd(k, n, Per(count, n), count) <= count
  {
    var per := Per(count, n);
    assert n * per <= count;
    MulMono(k, n - 1, per);
    if k < n - 1 {
      MulMono(k + 1, n, per);
      MulMono(k, k + 1, per);
    } else {
      MulMono(n - 1, n, per);
    }
  }

  /** The block of particle i (per > 0) contains it. */
  lemma InOwnBlock(i: nat, n: nat, count: nat)
    requires 1 <= n && i < count && Per(count, n) > 0
    ensures var per := Per(count, n); var k := BlockOf(i, n, per);
            k < n && BlockBegin(k, per) <= i < BlockEnd(k, n, per, count)
  {
    var per := Per(count, n);
    var q := i / per;
    assert q * per <= i < (q + 1) * per;
    if q >= n - 1 {
      MulMono(n - 1, q, per);
    }
  }

  /** A block that contains particle i (per > 0) is the block of i. */
  lemma OnlyOwnBlock(i: nat, n: nat, count: nat, k: nat)
    requires 1 <= n && i < count && Per(count, n) > 0 && k < n
    requires BlockBegin(k, Per(count, n)) <= i < BlockEnd(k, n, Per(count, n), count)
    ensures k == BlockOf(i, n, Per(count, n))
  {
    var per := Per(count, n);
    var q := i / per;
    assert q * per <= i < (q + 1) * per;
    if k < n - 1 {
      DivInBlock(i, per, k);
    } else {
      MulCancel(n - 1, q + 1, per);
    }
  }

  /** The blocks partition [0, count): particle i lies in the block of BlockOf(i) and in
      no other block. */
  lemma BlocksPartition(i: nat, n: nat, count: nat)
    requires 1 <= n && i < count
    ensures BlockOf(i, n, Per(count, n)) < n
    ensures var k := BlockOf(i, n, Per(count, n));
            BlockBegin(k, Per(count, n)) <= i < BlockEnd(k, n, Per(count, n), count)
    ensures forall k :: 0 <= k < n
              && BlockBegin(k, Per(count, n)) <= i < BlockEnd(k, n, Per(count, n), count)
              ==> k == BlockOf(i, n, Per(count, n))
  {
    var per := Per(count, n);
    if per > 0 {
      InOwnBlock(i, n, count);
      forall k | 0 <= k < n && BlockBegin(k, per) <= i < BlockEnd(k, n, per, count)
        ensures k == BlockOf(i, n, per)
      {
        OnlyOwnBlock(i, n, count, k);
      }
    }
  }

  /** With 1 <= n <= count and n <= 256, imageIndex[i] is exactly the block that writes
      particle i, and so lies in [0, n - 1]. */
  lemma StoredIndexIsBlock(i: nat, n: nat, count: nat)
    requires 1 <= n <= count && n <= 256 && i < count
    ensures StoredIndex(i, n, Per(count, n)) == BlockOf(i, n, Per(count, n)) < n
  {
    var per := Per(count, n);
    assert n * per <= count < n * (per + 1);
    assert per >= 1;
    BlocksPartition(i, n, count);
  }

  /** Block sizes: every block but the last holds exactly per particles; the last holds
      per + count % n, so it can be up to n - 1 larger than the others. */
  lemma BlockSizes(k: nat, n: nat, count: nat)
    requires 1 <= n && k < n
    ensures k < n - 1 ==>
      BlockEnd(k, n, Per(count, n), count) - BlockBegin(k, Per(count, n)) == Per(count, n)
    ensures k == n - 1 ==>
      BlockEnd(k, n, Per(count, n), count) - BlockBegin(k, Per(count, n))
        == Per(count, n) + count % n
  {
    var per := Per(count, n);
    assert count == n * per + count % n;
    if k == n - 1 {
      assert (n - 1) * per + per == n * per;
    } else {
      assert (k + 1) * per == k * per + per;
    }
  }

  /** The blocks are not equal-sized to within one: 10 particles over 4 images gives
      blocks of 2, 2, 2 and 4. */
  lemma UnevenLastBlock()
    ensures Per(10, 4) == 2
    ensures BlockEnd(0, 4, 2, 10) - BlockBegin(0, 2) == 2
    ensures BlockEnd(3, 4, 2, 10) - BlockBegin(3, 2) == 4
  {
  }

  /** More images than particles: per == 0, every block but the last is empty, the last
      block writes the whole pool, yet particle 0 is stored under image 0. */
  lemma MoreImagesThanParticles(n: nat, count: nat)
    requires 2 <= n && 1 <= count < n && n <= 256
    ensures Per(count, n) == 0
    ensures forall k :: 0 <= k < n - 1 ==> BlockEnd(k, n, 0, count) == BlockBegin(k, 0) == 0
    ensures BlockBegin(n - 1, 0) == 0 && BlockEnd(n - 1, n, 0, count) == count
    ensures StoredIndex(0, n, 0) == 0 != BlockOf(0, n, 0)
    ensures forall i :: 0 < i < count ==> StoredIndex(i, n, 0) == n - 1
  {
  }

  /** Past 256 images the Uint8Array wraps: the first particle of image 256 is stored as
      image 0, so it is revealed together with image 0. */
  lemma IndexWrapsPast256(n: nat, count: nat)
    requires 257 <= n <= count
    ensures var per := Per(count, n);
            BlockBegin(256, per) < count
            && BlockOf(BlockBegin(256, per), n, per) == 256
            && StoredIndex(BlockBegin(256, per), n, per) == 0
  {
    var per := Per(count, n);
    assert n * per <= count < n * (per + 1);
    assert per >= 1;
    MulMono(257, n, per);
    assert BlockBegin(256, per) < BlockBegin(257, per) <= count;
    DivInBlock(BlockBegin(256, per), per, 256);
  }

  /** Horizontal distance between neighbouring images. */
  const Spacing: real := 20.0
  /** Vertical position of every image (CONFIG.galleryY). */
  const GalleryY: real := 0.0

  /** x of image k's center: startX + k * spacing, startX = -spacing * ((n - 1) / 2). */
  function CenterX(k: nat, n: nat): real
  {
    -Spacing * ((n as real - 1.0) / 2.0) + k as real * Spacing
  }

  /** The row of centers is evenly spaced and symmetric about x = 0. */
  lemma CentersSymmetric(k: nat, n: nat)
    requires k < n
    ensures CenterX(k, n) + CenterX(n - 1 - k, n) == 0.0
    ensures k + 1 < n ==> CenterX(k + 1, n) - CenterX(k, n) == Spacing
  {
  }
}
