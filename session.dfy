// The module state of magic.js and the events that change it: the reveal sequencer's
// flags (magic.js:101-112, 646-679), the per-frame dispatch of `animate` (magic.js:800-905),
// the gesture handler (magic.js:949-999), one settling of the gallery build's await
// (magic.js:573-644) and the upload button (magic.js:1033-1059). Each browser callback is
// one atomic event; the gallery pool and the three static groups are objects of their own.
module Show {
  import opened States
  import opened Motion
  import opened Gesture
  import opened Partition
  import opened Reveal
  import opened Groups
  import opened Gallery
  import Sampler

  /** The gallery list before any upload (magic.js:21). */
  const DefaultFiles: seq<string> := ["./13.png"]

  class Session {
    // magic.js:21, 101-112
    var state: AppState
    var handX: real
    var heartFiles: seq<string>
    var revealCount: nat
    var timerArmed: bool
    var msgVisible: bool
    var msgShown: bool
    /** Message timeouts scheduled by a completed sequence that have not fired yet. */
    var pendingMsg: nat

    const gallery: GalleryPool
    const gold: ParticleGroup
    const red: ParticleGroup
    const gift: ParticleGroup

    /** The gallery list is never empty, the pool and the groups are well formed, and no
        two of them share a buffer. */
    ghost predicate Valid()
      reads this, gallery, gallery.imageIndex, gold, red, gift
    {
      && |heartFiles| >= 1
      && gallery.Valid() && gold.Valid() && red.Valid() && gift.Valid()
      && gold.Repr() !! red.Repr() && gold.Repr() !! gift.Repr() && red.Repr() !! gift.Repr()
      && gallery.Repr() !! gold.Repr() + red.Repr() + gift.Repr()
    }

    /** The sequencer's part of the state. */
    function Snapshot(): Sequence
      reads this
    {
      Sequence(revealCount, timerArmed, msgVisible, msgShown, pendingMsg)
    }

    twostate predicate SequenceKept()
      reads this
    {
      old(Snapshot()) == Snapshot()
    }

    twostate predicate InputKept()
      reads this
    {
      old(state) == state && old(handX) == handX && old(heartFiles) == heartFiles
    }

    /** Module start-up: state TREE, hand centred, the default gallery list, the gallery
        pool scattered and invisible, no sequence running. */
    constructor (count: nat, scatter: seq<real>, base: (real, real, real),
                 gold: ParticleGroup, red: ParticleGroup, gift: ParticleGroup)
      requires |scatter| == 3 * count
      requires gold.Valid() && red.Valid() && gift.Valid()
      requires gold.Repr() !! red.Repr() && gold.Repr() !! gift.Repr() && red.Repr() !! gift.Repr()
      ensures Valid()
      ensures state == TREE && handX == 0.5 && heartFiles == DefaultFiles
      ensures Snapshot() == Sequence(0, false, false, false, 0)
      ensures fresh(gallery) && !gallery.ready && !gallery.building
      ensures gallery.count == count && gallery.positions[..] == scatter
      ensures this.gold == gold && this.red == red && this.gift == gift
    {
      this.gold, this.red, this.gift := gold, red, gift;
      state, handX, heartFiles := TREE, 0.5, DefaultFiles;
      revealCount, timerArmed, msgVisible, msgShown, pendingMsg := 0, false, false, false, 0;
      gallery := new GalleryPool(count, scatter, base);
    }

    /** startGallerySequence (magic.js:646-670). */
    method StartGallerySequence()
      requires Valid()
      modifies this
      ensures Valid()
      ensures Snapshot() == Start(old(Snapshot()))
      ensures InputKept()
    {
      if timerArmed {
        return;
      }
      revealCount := 1;
      msgVisible := false;
      msgShown := false;
      timerArmed := true;
    }

    /** stopGallerySequence (magic.js:672-679). */
    method StopGallerySequence()
      requires Valid()
      modifies this
      ensures Valid()
      ensures Snapshot() == Stop(old(Snapshot()))
      ensures InputKept()
    {
      if timerArmed {
        timerArmed := false;
      }
      revealCount := 0;
      msgVisible := false;
    }

    /** One firing of the reveal interval (magic.js:654-669); the image count is read
        when the interval fires. */
    method IntervalFires()
      requires Valid()
      modifies this
      ensures Valid()
      ensures Snapshot() == Tick(old(Snapshot()), ImageCount(heartFiles))
      ensures old(timerArmed) ==> revealCount <= ImageCount(heartFiles)
      ensures InputKept()
    {
      if !timerArmed {
        return;
      }
      revealCount := revealCount + 1;
      var total := ImageCount(heartFiles);
      if revealCount >= total {
        revealCount := total;
        timerArmed := false;
        pendingMsg := pendingMsg + 1;
      }
    }

    /** A scheduled message timeout fires (magic.js:662-667). */
    method MessageTimeoutFires()
      requires Valid()
      modifies this
      ensures Valid()
      ensures Snapshot() == Fire(old(Snapshot()), state)
      ensures msgVisible && !old(msgVisible) ==> state == HEART
      ensures InputKept()
    {
      if pendingMsg == 0 {
        return;
      }
      pendingMsg := pendingMsg - 1;
      if state == HEART {
        msgVisible := true;
        msgShown := true;
      }
    }

    /** The reset on entering HEART (magic.js:955-974): the sequencer stops and forgets the
        message, and the gallery pool jumps back to its scatter points, invisible. */
    method ResetOnHeartEntry()
      requires Valid()
      modifies this, gallery.positions, gallery.sizes
      ensures Valid()
      ensures Snapshot() == Stop(old(Snapshot())).(msgShown := false)
      ensures gallery.positions[..] == gallery.scatter
      ensures forall i :: 0 <= i < gallery.count ==> gallery.sizes[i] == 0.0
      ensures InputKept()
    {
      StopGallerySequence();
      revealCount := 0;
      msgVisible := false;
      msgShown := false;
      gallery.ResetPool();
    }

    /** hands.onResults (magic.js:949-999): the new state is the gesture's classification;
        the reset runs only on the edge into HEART, so a repeated heart gesture changes
        nothing else; a hand that makes no heart steers the rotation through handX. */
    method OnHandResults(d: Detection)
      requires Valid()
      modifies this, gallery.positions, gallery.sizes
      ensures Valid()
      ensures state == Classify(d)
      ensures IsHeartGesture(d) && old(state) != HEART ==>
        && Snapshot() == Stop(old(Snapshot())).(msgShown := false)
        && gallery.positions[..] == gallery.scatter
        && forall i :: 0 <= i < gallery.count ==> gallery.sizes[i] == 0.0
      ensures !(IsHeartGesture(d) && old(state) != HEART) ==>
        SequenceKept() && unchanged(gallery.positions, gallery.sizes)
      ensures handX == if !IsHeartGesture(d) && |d.hands| > 0 then d.hands[0].palmX else old(handX)
      ensures heartFiles == old(heartFiles)
    {
      if IsHeartGesture(d) {
        if state != HEART {
          ResetOnHeartEntry();
        }
        state := HEART;
        return;
      }
      if |d.hands| > 0 {
        handX := d.hands[0].palmX;
        state := OneHandState(d.hands[0]);
      } else {
        state := TREE;
      }
    }

    /** The part of a frame outside HEART (magic.js:813-817, 822-835, 858-860, 888-890):
        every static group takes one smoothing step toward the layout of the state, and
        the sequencer stops. */
    method OtherFrame()
      requires Valid() && state != HEART
      modifies this, gold.Repr(), red.Repr(), gift.Repr()
      ensures Valid()
      ensures gold.Stepped(state, GroupSpeed) && red.Stepped(state, GroupSpeed)
      ensures gift.Stepped(state, GroupSpeed)
      ensures Snapshot() == Stop(old(Snapshot()))
      ensures InputKept()
    {
      gold.Update(state, GroupSpeed);
      red.Update(state, GroupSpeed);
      gift.Update(state, GroupSpeed);
      StopGallerySequence();
    }

    /** The HEART part of a frame (magic.js:837-855): start the build if the gallery is
        neither ready nor building; once it is ready, start the sequence (a no-op while it
        runs) and morph the pool. The build only becomes ready when its await settles, so
        one frame never does both. */
    method HeartFrame(wave: seq<real>)
      requires Valid() && state == HEART
      requires |wave| == gallery.count && forall i :: 0 <= i < gallery.count ==> -1.0 <= wave[i] <= 1.0
      modifies this, gallery, gallery.imageIndex, gallery.positions, gallery.sizes
      ensures Valid()
      ensures InputKept()
      ensures old(gallery.ready) ==>
        && Snapshot() == Start(old(Snapshot()))
        && unchanged(gallery, gallery.imageIndex)
        && gallery.Stepped(revealCount, wave)
      ensures !old(gallery.ready) ==>
        SequenceKept() && unchanged(gallery.positions, gallery.sizes) && !gallery.ready
      ensures !old(gallery.ready) && !old(gallery.building) ==>
        && gallery.building && gallery.buildNext == 0
        && gallery.buildImages == ImageCount(heartFiles)
        && gallery.blockUrl == Sampler.Some(heartFiles[0])
      ensures old(gallery.building) ==> unchanged(gallery, gallery.imageIndex)
    {
      if !gallery.ready && !gallery.building {
        gallery.BuildRequest(heartFiles);
      }
      if gallery.ready {
        StartGallerySequence();
        gallery.UpdatePoints(revealCount, wave);
      }
    }

    /** One frame of animate (magic.js:800-905), with the shimmer values `wave` the clock
        gives the gallery: outside HEART the static groups move and the sequence stops;
        in HEART the groups are hidden and left alone and the gallery builds or morphs. */
    method Frame(wave: seq<real>)
      requires Valid()
      requires |wave| == gallery.count && forall i :: 0 <= i < gallery.count ==> -1.0 <= wave[i] <= 1.0
      modifies this, gallery, gallery.imageIndex, gallery.positions, gallery.sizes
      modifies gold.Repr(), red.Repr(), gift.Repr()
      ensures Valid()
      ensures InputKept()
      ensures state != HEART ==>
        && gold.Stepped(state, GroupSpeed) && red.Stepped(state, GroupSpeed)
        && gift.Stepped(state, GroupSpeed)
        && Snapshot() == Stop(old(Snapshot()))
        && unchanged(gallery, gallery.imageIndex, gallery.positions, gallery.sizes)
      ensures state == HEART ==>
        && unchanged(gold.positions, gold.sizes, red.positions, red.sizes)
        && unchanged(gift.positions, gift.sizes)
        && (old(gallery.ready) ==>
              && Snapshot() == Start(old(Snapshot()))
              && unchanged(gallery, gallery.imageIndex)
              && gallery.Stepped(revealCount, wave))
        && (!old(gallery.ready) ==> SequenceKept() && unchanged(gallery.positions, gallery.sizes) && !gallery.ready)
        && (!old(gallery.ready) && !old(gallery.building) ==>
              && gallery.building && gallery.buildNext == 0
              && gallery.buildImages == ImageCount(heartFiles)
              && gallery.blockUrl == Sampler.Some(heartFiles[0]))
        && (old(gallery.building) ==> unchanged(gallery, gallery.imageIndex))
    {
      if state != HEART {
        OtherFrame();
      } else {
        HeartFrame(wave);
      }
    }

    /** The gallery build's pending await settles (magic.js:606-642), with the current
        gallery list: the sequencer and the input are untouched; the pool advances as
        GalleryPool.BuildResume states. */
    method BlockSettles(decode: string -> Sampler.Decode, draws: seq<real>)
      requires Valid()
      requires |draws| >= 3 * gallery.count && forall k :: 0 <= k < |draws| ==> 0.0 <= draws[k] < 1.0
      modifies gallery, gallery.finalTargets, gallery.colors
      ensures Valid()
      ensures old(gallery.building) && old(gallery.blockUrl).Some? ==>
        (gallery.buildNext == old(gallery.buildNext) + 1 <==> Loadable(old(gallery.blockUrl).value, decode))
      ensures gallery.ready ==> forall i :: 0 <= i < gallery.count ==>
        gallery.writtenBy[i] == BlockOf(i, gallery.buildImages, gallery.buildPer)
    {
      var _ := gallery.BuildResume(heartFiles, decode, draws);
    }

    /** The "use uploads" button (magic.js:1033-1059), with the data URLs the selected
        files were read into: with no file selected nothing changes; otherwise the list
        is replaced, the gallery stops being ready, and a build of the new list starts,
        unless one is still running. */
    method UseUploads(files: seq<string>)
      requires Valid()
      modifies this, gallery, gallery.imageIndex
      ensures Valid()
      ensures |files| == 0 ==> unchanged(this, gallery, gallery.imageIndex)
      ensures |files| > 0 ==>
        && heartFiles == files && !gallery.ready
        && state == old(state) && handX == old(handX) && SequenceKept()
      ensures |files| > 0 && !old(gallery.building) ==>
        && gallery.building && gallery.buildNext == 0
        && gallery.buildImages == ImageCount(files) && gallery.blockUrl == Sampler.Some(files[0])
      ensures |files| > 0 && old(gallery.building) ==>
        && gallery.building && gallery.buildImages == old(gallery.buildImages)
        && gallery.buildNext == old(gallery.buildNext) && gallery.blockUrl == old(gallery.blockUrl)
    {
      if |files| == 0 {
        return;
      }
      heartFiles := files;
      gallery.Invalidate();
      gallery.BuildRequest(files);
    }
  }
}
