// The gallery reveal sequencer, `startGallerySequence` and `stopGallerySequence`
// (magic.js:646-679), as a value and its events. The interval timer and the one-shot
// message timeout are discrete events here: a Tick is one firing of the interval, a Fire
// is one firing of a scheduled 350 ms timeout; their periods are not modelled.
module Reveal {
  import opened States

  /** The sequencer's state: how many images are revealed, whether the interval is armed,
      whether the closing message is visible and whether it has been shown, and how many
      message timeouts are scheduled but have not fired yet. */
  datatype Sequence = Sequence(count: nat, armed: bool, msgVisible: bool, msgShown: bool,
                               pending: nat)

  /** startGallerySequence: nothing while the interval runs; otherwise reveal the first
      image at once, hide the message and arm the interval. */
  function Start(q: Sequence): Sequence
  {
    if q.armed then q
    else q.(count := 1, msgVisible := false, msgShown := false, armed := true)
  }

  /** stopGallerySequence: disarm the interval, reveal nothing, hide the message. A
      scheduled message timeout is not cancelled. */
  function Stop(q: Sequence): Sequence
  {
    q.(armed := false, count := 0, msgVisible := false)
  }

  /** One firing of the interval, with n images: reveal one more; on reaching n, clamp,
      disarm and schedule the message. A disarmed interval never fires. */
  function Tick(q: Sequence, n: nat): Sequence
  {
    if !q.armed then q
    else if q.count + 1 >= n then q.(count := n, armed := false, pending := q.pending + 1)
    else q.(count := q.count + 1)
  }

  /** One scheduled message timeout fires: the message appears only if the state is
      HEART at that moment. */
  function Fire(q: Sequence, s: AppState): Sequence
  {
    if q.pending == 0 then q
    else if s == HEART then q.(pending := q.pending - 1, msgVisible := true, msgShown := true)
    else q.(pending := q.pending - 1)
  }

  /** k firings of the interval in a row. */
  function Ticks(q: Sequence, n: nat, k: nat): Sequence
    decreases k
  {
    if k == 0 then q else Ticks(Tick(q, n), n, k - 1)
  }

  /** What every event keeps: at most n images are revealed, and an armed interval has
      revealed at least one. */
  predicate Inv(q: Sequence, n: nat)
  {
    q.count <= n && (q.armed ==> 1 <= q.count)
  }

  /** Starting is a no-op while armed; otherwise it restarts from the first image. */
  lemma StartRestarts(q: Sequence)
    ensures q.armed ==> Start(q) == q
    ensures !q.armed ==>
              Start(q).count == 1 && Start(q).armed && !Start(q).msgVisible && !Start(q).msgShown
    ensures Start(q).pending == q.pending
  {
  }

  /** Stopping leaves the same state whatever the timer was doing, and stopping twice is
      stopping once. */
  lemma StopIdempotent(q: Sequence)
    ensures Stop(Stop(q)) == Stop(q)
    ensures !Stop(q).armed && Stop(q).count == 0 && !Stop(q).msgVisible
    ensures Stop(q.(armed := !q.armed)) == Stop(q)
  {
  }

  /** Every firing leaves at most n images revealed, whatever came before. */
  lemma TickBounded(q: Sequence, n: nat)
    requires q.armed
    ensures Tick(q, n).count <= n
    ensures !Tick(q, n).armed <==> q.count + 1 >= n
  {
  }

  /** Each event keeps Inv, for n >= 1 images. */
  lemma EventsKeepInv(q: Sequence, n: nat, s: AppState)
    requires n >= 1 && Inv(q, n)
    ensures Inv(Start(q), n) && Inv(Stop(q), n) && Inv(Tick(q, n), n) && Inv(Fire(q, s), n)
  {
  }

  /** The message becomes visible, or becomes shown, only through a timeout that fires
      while the state is HEART. */
  lemma MessageOnlyInHeart(q: Sequence, s: AppState)
    ensures Fire(q, s).msgVisible && !q.msgVisible ==> s == HEART && q.pending > 0
    ensures Fire(q, s).msgShown && !q.msgShown ==> s == HEART && q.pending > 0
    ensures s != HEART ==> Fire(q, s).msgVisible == q.msgVisible
  {
  }

  /** After a start from rest, k firings reveal min(1 + k, n) images; the interval stays
      armed exactly while fewer than n are revealed, and the message is scheduled once,
      by the firing that completes the sequence. */
  lemma {:induction false} Revealing(q: Sequence, n: nat, k: nat)
    requires n >= 1 && q.armed && q.count == 1
    ensures var r := Ticks(q, n, k);
            && r.count == (if 1 + k >= n && k >= 1 then n else 1 + k)
            && (r.armed <==> k == 0 || 1 + k < n)
            && r.pending == q.pending + (if k >= 1 && (1 + k >= n) then 1 else 0)
    decreases k
  {
    if k == 0 {
    } else if 2 >= n {
      var q1 := Tick(q, n);
      assert q1.count == n && !q1.armed && q1.pending == q.pending + 1;
      AtRest(q1, n, k - 1);
    } else {
      var q1 := Tick(q, n);
      assert q1.count == 2 && q1.armed && q1.pending == q.pending;
      RevealingFrom(q1, n, k - 1, 2);
    }
  }

  /** A disarmed interval ignores any number of firings. */
  lemma {:induction false} AtRest(q: Sequence, n: nat, k: nat)
    requires !q.armed
    ensures Ticks(q, n, k) == q
    decreases k
  {
    if k > 0 {
      AtRest(Tick(q, n), n, k - 1);
    }
  }

  /** The general step of Revealing, from c revealed images with the interval armed. */
  lemma {:induction false} RevealingFrom(q: Sequence, n: nat, k: nat, c: nat)
    requires 1 <= c < n && q.armed && q.count == c
    ensures var r := Ticks(q, n, k);
            && r.count == (if c + k >= n then n else c + k)
            && (r.armed <==> c + k < n)
            && r.pending == q.pending + (if c + k >= n then 1 else 0)
    decreases k
  {
    if k == 0 {
    } else if c + 1 >= n {
      var q1 := Tick(q, n);
      assert !q1.armed && q1.count == n;
      AtRest(q1, n, k - 1);
    } else {
      RevealingFrom(Tick(q, n), n, k - 1, c + 1);
    }
  }

  /** The sequence does not stay complete: once it has revealed all n images and
      disarmed, the next start (every HEART frame makes one) hides all but the first
      image and the message again. */
  lemma CompletedSequenceRestarts(q: Sequence, n: nat)
    requires n >= 2 && !q.armed && q.count == n
    ensures Start(q).count == 1 < n && !Start(q).msgVisible && Start(q).armed
  {
  }
}
