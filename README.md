# Christmas particle show: a verified model of its core

This project models the logic of `magic.js` in Dafny and proves properties about it. `magic.js` is the hand-gesture driven particle show of the Christmas page: a tree of gold lights, red lights and gifts, and a HEART gallery that morphs particles into the silhouettes of PNG images, one image after another. The project also models the word-by-word text reveal and the `rand`/`randInt` helpers of `main.js`.

The model covers these parts:

- **Alpha-silhouette sampler** (`Pixels`, `Sampler`):
  - An image is a width, a height and an RGBA byte buffer of length `4 * width * height`.
  - `cropAlphaBounds` is a strided row-major scan, split into `Visit`, `ScanRow` and `ScanBounds`. It finds the box of pixels whose alpha exceeds the threshold, then pads, clamps and crops it.
  - `imageToPointTargets` collects the opaque pixels of the crop in row-major order, falls back to uniform sampling when fewer than 50 are found, and maps every sample to world coordinates with a flipped y. It reads each sample's colour from the crop.
  - Image loading is a `decode` oracle from URL to image or error, together with the single `"./" + url` retry.
  - `Math.random()` is a supplied sequence of reals in [0, 1).
- **Gallery partition and build** (`Partition`, `Gallery`):
  - The image count is `max(1, heartFiles.length)`.
  - The pool is cut into blocks of `per = floor(count / n)` particles. The last block also takes the remainder.
  - `imageIndex` behaves as a `Uint8Array`, including NaN/Infinity when `per == 0` and wrap-around past 256.
  - The centre of each image is computed from the spacing.
  - The pool (`GalleryPool`) is a class whose buffers are arrays written in place.
  - `buildGalleryTargets` is two events:
    - `BuildRequest` runs up to the first `await`: the busy flag, the index assignment and the first URL.
    - `BuildResume` is one settling of that `await`: it writes one block of targets and colours, then moves to the next URL, or finishes, or fails.
  - A ghost record `writtenBy` keeps, for each particle, the image whose block wrote it.
- **Reveal sequencer and per-frame state machine** (`Reveal`, `Show`):
  - `Reveal.Sequence` is a value with its events: `Start`, `Stop`, `Tick` (one firing of the interval) and `Fire` (one firing of the 350 ms message timeout).
  - The lemmas about these events cover the whole sequence.
  - `Show.Session` is the module state: `state`, `handX`, `heartFiles`, the sequencer's fields, the gallery pool and the three static groups. Its methods are the browser callbacks, each one atomic event:
    - `OnHandResults`: the gesture handler with its HEART-entry reset.
    - `Frame`: one `animate` frame.
    - `IntervalFires` and `MessageTimeoutFires`: the two timers.
    - `BlockSettles`: one settling of the gallery build.
    - `UseUploads`: the upload button.
  - Each method is tied to the `Reveal` functions through `Snapshot()`.
  - The sequence is modelled as written. Once it completes, the interval clears its timer. A HEART frame calls `startGallerySequence` only while the gallery is ready (magic.js:846-853), and a frame on a gallery that is not ready only requests the build. So on a ready gallery, the next HEART frame after completion re-arms the timer, shows only the first image again and hides the message (`Reveal.CompletedSequenceRestarts`).
- **Layout selection and easing** (`States`, `Motion`, `Groups`, `Gallery.GalleryPool.UpdatePoints`):
  - Each state selects a target layout.
  - The smoothing step `p += (t - p) * speed` is modelled over reals.
  - `updateParticleGroup` is `ParticleGroup.Update`, over a group's position and size arrays. `animate` never calls it in HEART, but its HEART branch (every fifth particle at 60% size) is still modelled in `SizeFor`.
  - `updateGalleryPoints` moves particles toward their image targets or their scatter points, according to the reveal count.
- **Word reveal** (`WordReveal`):
  - `revealDescriptiveText` is a method over a `RevealContainer` object.
  - Its result is specified by `Schedule`:
    - one `Word(text, delay)` token per word;
    - one `Br` token after every line but the last;
    - a delay of `slot * wordDelay`, where each `Br` also takes a slot.
- **Random** (`Random`): `rand` and `randInt` for a given `r` in [0, 1).

The comment at magic.js:583 says each particle is assigned to one of the N images "evenly". The code at magic.js:584-604 gives every block `per = floor(count / n)` particles and gives the last one `per + count % n`, so the last block can have up to `n - 1` more than the others (`Partition.BlockSizes`, `Partition.UnevenLastBlock`). The model follows the code.

## Model

| member | source | states |
|---|---|---|
| Motion.Ease | magic.js:697 | Definition of one smoothing step `p + (t - p) * speed`; its properties are stated by Motion.EaseStep, Motion.EaseGap and Motion.EaseNMonotone. |
| States.TargetLayout | magic.js:693-694 | TREE selects the tree layout and HEART selects the heart layout. Exactly EXPLODE and PHOTO select the explode layout. |
| Motion.EaseStep | magic.js:697 | With 0 < speed <= 1, one smoothing step lands between the old coordinate and the target (no overshoot). The remaining gap is (1 - speed) times the old gap. |
| Motion.EaseGap | magic.js:697 | For any speed, the gap to the target after one step is (1 - speed) times the gap before it. |
| Motion.EaseExample | magic.js:697 | From 0 toward 10 at speed 0.1, one step gives 1. |
| Motion.EaseNMonotone | magic.js:775-777 | Repeated frames toward a fixed target stay between the start and the target. Each frame lies between the previous frame and the target. |
| Gesture.IsHeartGesture | magic.js:949-954 | Definition of the two-hand heart test (two hands, index and thumb distances both below 0.15); Gesture.Classify states that HEART is chosen exactly when it holds. |
| Gesture.OneHandState | magic.js:994-996 | Definition of the one-hand decision (fist, then pinch, then open); Gesture.Classify states its three cases as iffs. |
| Gesture.Classify | magic.js:949-999 | HEART iff two hands have index and thumb distances both below 0.15. Otherwise TREE iff there is no hand or the first hand's average distance is below 0.25. PHOTO iff there is a hand, it is not a fist, and its pinch is below 0.05. EXPLODE iff there is a hand that is neither a fist nor a pinch. |
| Gesture.TwoHandsWithoutHeart | magic.js:949-987 | Two hands that do not make the heart fall back to the first hand's decision, which is never HEART. |
| Random.Rand | main.js:29-31 | Definition of `rand(min, max)` for a given r; Random.RandInRange states its range. |
| Random.RandInt | main.js:33-35 | For min <= max and r in [0, 1), randInt(min, max) is an integer in [min, max]. |
| Random.RandInRange | main.js:29-31 | For min <= max, rand(min, max + 1) lies in [min, max + 1). |
| Random.RandIntCovers | main.js:33-35 | Every integer of [min, max] is the result for some r in [0, 1). |
| Partition.ImageCount | magic.js:24-26 | The image count is at least 1. It is 1 for an empty list and the list's length otherwise. |
| Partition.Per | magic.js:585 | Definition of `per = floor(count / n)`; Partition.BlockSizes states the block sizes it gives. |
| Partition.BlockOf | magic.js:587 | Definition of `min(n - 1, floor(i / per))`, with the per == 0 case as the last block; Partition.InOwnBlock, Partition.OnlyOwnBlock and Partition.BlocksPartition state that it names the block containing i. |
| Partition.StoredIndex | magic.js:587-588 | Definition of the Uint8Array store of BlockOf (NaN as 0, wrap-around mod 256); Partition.StoredIndexIsBlock, Partition.MoreImagesThanParticles and Partition.IndexWrapsPast256 state its values. |
| Partition.CenterX | magic.js:593-596 | Definition of the centre of image k; Partition.CentersSymmetric states its symmetry and spacing. |
| Partition.BlockWithinPool | magic.js:601-604 | Every block satisfies 0 <= begin <= end <= count. |
| Partition.InOwnBlock | magic.js:586-604 | With per > 0, the block a particle's index names contains that particle. |
| Partition.OnlyOwnBlock | magic.js:586-604 | With per > 0, any block that contains a particle is the block its index names. |
| Partition.BlocksPartition | magic.js:586-604 | The blocks are disjoint and cover [0, count). Each particle lies in exactly the block BlockOf names. |
| Partition.StoredIndexIsBlock | magic.js:586-589 | For 1 <= n <= count and n <= 256, imageIndex[i] (Uint8Array store of min(n - 1, floor(i / per))) is exactly the block that writes particle i, and it lies in [0, n - 1]. |
| Partition.BlockSizes | magic.js:601-604 | Every block but the last holds per particles. The last holds per + count % n. |
| Partition.UnevenLastBlock | magic.js:601-604 | 10 particles over 4 images give blocks of 2, 2, 2 and 4. |
| Partition.MoreImagesThanParticles | magic.js:585-604 | For n > count: per is 0 and every block but the last is empty. The last block writes the whole pool. Particle 0 stores index 0 (NaN stored as 0), though image n - 1 wrote it. Every other particle stores n - 1. |
| Partition.IndexWrapsPast256 | magic.js:586-589 | With more than 256 images, the first particle of image 256 is stored as index 0. |
| Partition.CentersSymmetric | magic.js:592-596 | The image centres are symmetric about x = 0 and spaced exactly gallerySpacing apart. |
| Pixels.OffsetBound | magic.js:130 | The four bytes of every in-range pixel lie inside the RGBA buffer. |
| Pixels.CropData | magic.js:152-159 | The cropped buffer holds exactly 4 * w * h bytes. |
| Pixels.CropPixel | magic.js:152-159 | Each byte of the crop equals the source byte at the same place in the cropped rectangle. |
| Sampler.Visit | magic.js:128-135 | Visiting one pixel keeps the scan invariant. Every hit scanned so far lies in the running box, and each edge of the box is attained by a hit. |
| Sampler.ScanRow | magic.js:129-137 | One row of strided columns keeps the scan invariant into the next strided row. |
| Sampler.ScanBounds | magic.js:126-137 | maxX < 0 iff no strided pixel is above the threshold. Otherwise the box is the tight box of all hits, and each edge is attained. |
| Sampler.PadScanned | magic.js:144-147 | Padding and clamping the scanned box gives the padded box of the hits, and 0 <= minX <= maxX < width (likewise for y). |
| Sampler.PadAndCrop | magic.js:144-160 | The crop is the padded, clamped box, with w = maxX - minX + 1 and h = maxY - minY + 1. It lies inside the image and holds the source pixels of that rectangle. |
| Sampler.CropAlphaBounds | magic.js:117-161 | Fails exactly for a zero-sized image. With no hit, the image is returned whole and uncropped. Otherwise it returns the padded crop as in PadAndCrop. |
| Sampler.CollectOpaque | magic.js:188-195 | The list holds exactly the strided pixels above the threshold: each one once, in strict row-major order. |
| Sampler.WorldX | magic.js:215 | Definition of the pixel-column-to-world-x map; Sampler.WorldRoundTrip states its inverse. |
| Sampler.WorldY | magic.js:216 | Definition of the flipped pixel-row-to-world-y map; Sampler.WorldRoundTrip states its inverse. |
| Sampler.WorldRoundTrip | magic.js:215-216 | The pixel-to-world map has an inverse, and it flips the vertical axis. |
| Sampler.Pick | magic.js:206-207 | `(r * n) \| 0` for r in [0, 1) indexes the list: 0 <= k < n. |
| Sampler.Scaled | magic.js:210-211 | A fallback coordinate r * n lies in [0, n). |
| Sampler.ColourAt | magic.js:224-228 | A colour channel read from the crop is a fraction in [0, 1]. Its index di..di+2 lies inside the crop's buffer. |
| Sampler.SampleOverCrop | magic.js:215-228 | A pixel position inside the crop maps to a world point that lies back over that pixel and carries its colour. |
| Sampler.SamplePixel | magic.js:205-213 | The pixel position the draws pick lies in the crop. Outside fallback it is a listed opaque pixel. |
| Sampler.ChoosePixel | magic.js:203-213 | The sample's pixel is SamplePixel of the draws: outside fallback, the opaque pixel at index Pick(draws[d], number of pixels); in fallback, (draws[d] * width, draws[d + 1] * height). It lies in the crop and consumes one draw, or two in fallback. |
| Sampler.DrawSample | magic.js:203-229 | One sample is the world image of SamplePixel, with z from the next draw (SampleFrom). It lies over a crop pixel and carries its colour, with z = 0. Outside fallback it is the world image of a listed opaque pixel. It consumes two draws, or three in fallback. |
| Sampler.SampleTargets | magic.js:197-231 | Both outputs have length 3 * count. Fallback is used iff fewer than 50 pixels are opaque, and sample i is SampleFrom the draws at 3 * i in fallback, else at 2 * i. Every sample lies over a crop pixel and has that pixel's colour and z = 0. With at least 50 opaque pixels, every sample is the image of an opaque pixel. |
| Sampler.RetryUrl | magic.js:171-174 | A retry URL exists iff the URL starts with neither "./" nor "/", and it is "./" + url. |
| Sampler.LoadImage | magic.js:164-179 | Definition of the loader's result: the first decode, or the "./" + url retry after a failed decode; Sampler.LoadIsLastAttempt states that it is the last attempt's outcome. |
| Sampler.Attempts | magic.js:164-179 | The loader tries the URL, and tries "./" + url second exactly when the first decode fails and the URL starts with neither "./" nor "/". |
| Sampler.LoadIsLastAttempt | magic.js:164-179 | The load resolves with the last attempt's image and rejects exactly when that attempt fails. A retried URL is never retried again. |
| Sampler.SamplesWithinImage | magic.js:215-228 | Samples over the pixels of a crop no larger than the image lie within the image's half extents of the centre, and their colours are in [0, 1]. |
| Sampler.ImageToPointTargets | magic.js:163-234 | Resolves iff the image loads and has pixels. Both outputs have length 3 * count. It also returns the crop cropAlphaBounds makes (DefaultCrop: the whole image with no opaque pixel, else the padded crop), and every sample lies over a pixel of that crop and carries its colour. So every target lies within the loaded image's half extents of the centre, at z = 0, and every colour is in [0, 1]. |
| Groups.ParticleGroup.Targets | magic.js:694 | TREE eases toward the tree layout, HEART toward the heart layout, and both EXPLODE and PHOTO toward the explode layout. In a valid group the layout has one number per position coordinate. |
| Groups.ParticleGroup.SizeFor | magic.js:703-740 | Outside HEART a particle has the base size. In HEART it is non-zero iff i % 5 == 0 (and the base size is non-zero). |
| Groups.ParticleGroup.Update | magic.js:685-750 | Every coordinate takes one smoothing step toward the selected layout, and every size is reset by SizeFor. With speed in (0, 1], no coordinate overshoots. |
| Gallery.CopyTriples | magic.js:612-627 | The block's slice of the buffer takes the source numbers in order. Every other entry is unchanged. |
| Gallery.CopyTargets | magic.js:612-618 | The block's entries become the loaded targets, in order, so targets lying in the image's box stay in that box. Entries outside the block are unchanged. |
| Gallery.WriteArrays | magic.js:612-627 | The block's targets and colours become the loaded ones, in order (BlockHolds): targets in the image's box, colours in [0, 1]. Nothing outside the block changes in either array. |
| Gallery.CopyAll | magic.js:970 | The position buffer becomes the scatter points. |
| Gallery.ZeroAll | magic.js:971 | Every size becomes 0. |
| Gallery.AssignImages | magic.js:586-589 | Every imageIndex entry becomes the Uint8Array-stored block index, which lies in [0, 256). |
| Gallery.BlockExtendsPrefix | magic.js:601-627 | Writing block k over a prefix that its own images already wrote extends that prefix to the end of block k. |
| Gallery.LoadBlock | magic.js:607-610 | The block's load resolves iff the URL is loadable, with 3 * m targets and colours, each target in the box of the loaded image around the block's centre and each colour in [0, 1]. Every sample lies over a pixel of the loaded image's crop, with that pixel's colour (OverLoadedCrop). |
| Gallery.GalleryPool.constructor | magic.js:525-570 | The pool starts at its scatter points with every size 0, not ready and not building. |
| Gallery.GalleryPool.ResetPool | magic.js:963-974 | Positions become the scatter points and every size becomes 0. |
| Gallery.GalleryPool.StepParticle | magic.js:768-786 | Each coordinate of particle i steps toward its image target if revealed, else toward its scatter point, without overshoot. Its size is the shimmer size in [1.4, 2] if revealed, else 0. No other particle changes. |
| Gallery.GalleryPool.UpdatePoints | magic.js:752-796 | Nothing changes unless the gallery is ready. Otherwise every particle steps toward its goal (revealed iff imageIndex < revealCount) without overshoot. Exactly the unrevealed particles have size 0. |
| Gallery.GalleryPool.Invalidate | magic.js:1052-1053 | Ready becomes false. The build state is unchanged. |
| Gallery.GalleryPool.BuildRequest | magic.js:573-608 | Nothing happens while a build runs. Otherwise the pool is busy, every index is assigned for n = ImageCount(files), and the first URL is loading. All imageIndex entries stay in [0, 256). |
| Gallery.GalleryPool.AwaitBlock | magic.js:606-627 | The await succeeds iff the URL is loadable. A failure writes nothing. A success writes block buildNext with the loaded targets and colours (WroteBlock), and those samples lie over the loaded image's crop with its colours (OverLoadedCrop). It also extends the written prefix to the block's end. The build's progress is unchanged. |
| Gallery.GalleryPool.BuildResume | magic.js:601-642 | A failed load ends the build: not ready, not busy, nothing written. A successful load writes exactly block k, whose particles then hold the loaded targets and colours in order (WroteBlock with the ghost result `loaded`): targets in the image's box around its centre, colours in [0, 1]. It then either finishes the build (ready, not busy, every particle written by its own block) or moves to the next URL. Nothing happens with no load in flight. |
| Gallery.GalleryPool.WriteBlock | magic.js:612-627 | The block's particles take the given targets and colours, in order, and nothing outside the block changes (WroteBlock). The written prefix grows to the block's end. |
| Gallery.RevealFollowsBlocks | magic.js:586-604 | For 1 <= n <= count and n <= 256, in a ready gallery a particle's stored index is the image that wrote its target. It is revealed iff that image is among the first revealCount images. |
| Reveal.Start | magic.js:646-652 | Definition of startGallerySequence on the sequencer state; Reveal.StartRestarts states its effect. |
| Reveal.Stop | magic.js:672-679 | Definition of stopGallerySequence; Reveal.StopIdempotent states its effect. |
| Reveal.Tick | magic.js:654-661 | Definition of one interval firing; Reveal.TickBounded and Reveal.Revealing state its effect. |
| Reveal.Fire | magic.js:662-667 | Definition of the 350 ms timeout firing; Reveal.MessageOnlyInHeart states its effect. |
| Reveal.StartRestarts | magic.js:646-652 | Start is a no-op while the timer is armed. Otherwise it reveals one image, hides the message, clears msgShown and arms the timer. |
| Reveal.StopIdempotent | magic.js:672-679 | Stop disarms, reveals nothing and hides the message, whatever the timer was doing. Stopping twice is stopping once. |
| Reveal.TickBounded | magic.js:654-661 | A firing never reveals more than n images, and it disarms exactly on reaching n. |
| Reveal.EventsKeepInv | magic.js:646-679 | Every event keeps revealCount in [0, n] and an armed timer at revealCount >= 1. |
| Reveal.MessageOnlyInHeart | magic.js:662-667 | The message becomes visible or shown only through a pending timeout that fires in HEART. |
| Reveal.Revealing | magic.js:646-670 | After a start, k firings reveal min(1 + k, n) images. The timer stays armed exactly while fewer than n are revealed. The message is scheduled exactly once. |
| Reveal.AtRest | magic.js:659-660 | A disarmed timer ignores any number of firings. |
| Reveal.RevealingFrom | magic.js:654-669 | From c armed images, k firings reveal min(c + k, n) images and schedule the message once on completion. |
| Reveal.CompletedSequenceRestarts | magic.js:646-652 | After completion (timer nulled), the next start shows only the first image again and hides the message. |
| Show.Session.constructor | magic.js:101-112 | The module starts in TREE with the hand centred, the default list, the sequencer idle and the gallery pool scattered, not ready and not building. |
| Show.Session.StartGallerySequence | magic.js:646-670 | The sequencer state becomes Start of the old one. The input is untouched. |
| Show.Session.StopGallerySequence | magic.js:672-679 | The sequencer state becomes Stop of the old one. The input is untouched. |
| Show.Session.IntervalFires | magic.js:654-669 | The sequencer state becomes Tick of the old one with the current image count, so an armed firing leaves revealCount <= n. |
| Show.Session.MessageTimeoutFires | magic.js:662-667 | The sequencer state becomes Fire of the old one in the current state, so the message appears only in HEART. |
| Show.Session.ResetOnHeartEntry | magic.js:955-974 | The sequencer stops and clears msgShown. The pool returns to its scatter points with every size 0. |
| Show.Session.OnHandResults | magic.js:949-999 | The new state is Classify(d). The reset runs exactly on the edge into HEART, and a repeated HEART changes nothing else. handX follows the first hand only when there is no heart. |
| Show.Session.OtherFrame | magic.js:813-890 | Outside HEART, each static group takes one smoothing step toward its layout and the sequencer stops. |
| Show.Session.HeartFrame | magic.js:837-855 | In HEART, a gallery that is neither ready nor building starts its build. A ready gallery starts the sequence and morphs. The sequencer and the pool stay untouched while it is not ready. |
| Show.Session.Frame | magic.js:800-905 | Outside HEART the groups move, the sequence stops and the gallery is untouched. In HEART the groups are untouched. A ready gallery starts the sequence and morphs. A gallery that is not ready keeps the sequencer and its particles, and if no build runs it starts one for the current list from its first URL. A running build is untouched. |
| Show.Session.BlockSettles | magic.js:601-642 | A settled load advances the build by one block iff its URL is loadable. A ready gallery has every particle written by its own block. |
| Show.Session.UseUploads | magic.js:1033-1059 | With no file nothing changes. Otherwise the list is replaced, the gallery is no longer ready, and a build of the new list starts unless one is running. |
| WordReveal.Split | main.js:159 | Splitting at every separator gives one more piece than there are separators. |
| WordReveal.SplitRoundTrip | main.js:159 | Putting the separators back between the pieces gives the original text. |
| WordReveal.SplitPiecesClean | main.js:159-162 | No piece contains a separator. |
| WordReveal.SplitKeepsText | main.js:159-162 | The pieces together hold exactly the non-separator characters, in order. |
| WordReveal.NonEmpty | main.js:162 | `.filter(Boolean)` keeps only non-empty pieces, each one of the originals. |
| WordReveal.NonEmptyKeepsText | main.js:162 | Dropping empty pieces does not change their concatenation. |
| WordReveal.Words | main.js:162 | No word is empty or contains whitespace. |
| WordReveal.WordsKeepText | main.js:162 | A line's words are its non-whitespace characters, in order. |
| WordReveal.Lines | main.js:159 | Definition of `split(/\n/)` as Split on newlines; WordReveal.Split, WordReveal.SplitRoundTrip and WordReveal.SplitPiecesClean state its properties. |
| WordReveal.LineWords | main.js:161-162 | Definition of every line's words; WordReveal.ScheduleTexts states what the schedule built from them holds. |
| WordReveal.EmittedTexts | main.js:161-180 | The emitted word spans carry the lines' words in order. One Br follows every processed line except the last. |
| WordReveal.EmittedDelays | main.js:163-178 | A word span at child position p is scheduled at p * wordDelay. |
| WordReveal.EmittedLength | main.js:161-180 | Before the last line, the children are the words so far plus one Br per line. |
| WordReveal.EmittedPrefix | main.js:161-180 | Processing more lines only appends children. |
| WordReveal.ScheduleTexts | main.js:159-180 | The container holds the text's words in order and exactly lines.length - 1 Br tokens. |
| WordReveal.EmittedWordAt | main.js:161-180 | Word j of line li sits at position WordsBefore + li + j. |
| WordReveal.ScheduleWordAt | main.js:160-178 | The k-th word overall, on line li, is scheduled at (k + li) * wordDelay. |
| WordReveal.DelaysIncrease | main.js:163-178 | With wordDelay > 0, word delays strictly increase in document order. |
| WordReveal.AppendWords | main.js:163-172 | One span per word is appended in order at consecutive slots, and the next free slot is returned. |
| WordReveal.Schedule | main.js:159-179 | Definition of the container's final children; WordReveal.ScheduleTexts, WordReveal.ScheduleWordAt and WordReveal.DelaysIncrease state its contents and delays. |
| WordReveal.RevealDescriptiveText | main.js:143-181 | With a container, it is emptied, activated and left holding exactly Schedule(text, wordDelay). |

## Left out

- Rendering is not modelled: the THREE.js scene, meshes, textures, canvases, visibility of meshes and groups, titles, star and photo meshes, and `renderer.render`. This includes `groupGallery.visible` in the upload handler and in `animate`.
- The photo orbit, lerps and `selectedIndex` of EXPLODE and PHOTO (magic.js:865-904) are not modelled. They are trigonometry with no contract beyond their look.
- The sin-driven brightness, colours, rotation and beat scale of the static groups are not modelled. The layouts of `createParticleSystem` and `randomCloudTargets` are not modelled either: scatter points and layouts are given values.
- The gallery shimmer `Math.sin(time * 10 + i * 0.01)` is a supplied value `wave[i]` in [-1, 1].
- `Math.hypot` is not modelled: the gesture decision receives the landmark distances already measured. MediaPipe, the camera and the music are foreign calls.
- Image decoding (`new Image`, `drawImage`, `getImageData`) is the `decode` oracle from URL to image or error. `FileReader` is not modelled: the upload handler receives the data URLs.
- `Math.random()` is a supplied sequence of reals in [0, 1), read in call order. The numbers are real, not Float32: rounding of the typed arrays is not modelled.
- Timer periods (`revealStepMs`, the 350 ms message timeout and `requestAnimationFrame`) are not modelled. The interval and the timeouts are discrete events, and every callback is atomic.
- Sampler.ImageToPointTargets: it ties each sample to the crop, but not to the draws it reads or to the opaque-pixel list. Those facts are stated by Sampler.SampleTargets.
- Gallery.GalleryPool.BuildResume: it states that the block holds the loaded values (WroteBlock), but not that they lie over the loaded image's crop. Gallery.GalleryPool.AwaitBlock, which produces them, states that.
- Sampler.SampleTargets: each sample is tied to the draws it reads, but nothing is stated about how the samples are distributed.
- Show.Session.BlockSettles: states only the build's progress and readiness. The full effect is GalleryPool.BuildResume's contract.
- Gallery.GalleryPool.BuildResume: a list entry that is missing when its block is reached is not loaded. The loader's error handler then throws and the promise never settles, so the build stays busy with no load in flight.
- WordReveal.RevealDescriptiveText:
  - The hero-image class changes (main.js:150-155) are not modelled.
  - `String(text)` coercion is not modelled: the text is a string.
  - `wordDelay` is an integer number of milliseconds, and always given: the default of 180 (main.js:143) is not modelled, since the only call passes 200 (main.js:197).
  - The `setTimeout` callbacks that add the `visible` class are the scheduled delays, not events.
- The rest of main.js is not modelled: shooting stars, the resize debounce and the intersection observer.
