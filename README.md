# VideoFromImages in Dafny

A model of the core of `VideoFromImages`, a Swift class that turns a sequence
of still images into an H.264 QuickTime movie at 24 frames per second. The
model has four parts:

- **Compositor** (`compositor.dfy`). This is the geometry of
  `fillPixelBufferFromImage`. It computes the ratio that fits or fills the
  canvas, the scaled size, and the centring offsets. The result is the
  rectangle the image is drawn into. CGFloat is idealised as `real`.
- **Timing** (`timing.dfy`). This covers CoreMedia's rational `CMTime` and the
  rule by which `addImage` stamps a frame from the frame counter.
- **TimeFormat** (`time_format.dfy`). This is `stringFromTimeInterval`. Whole
  seconds are split into hours, minutes and seconds with Swift's truncating
  `Int` division and remainder. The result is printed in one of three layouts
  with printf's `%0.2d`. A reader of such strings, `ParseTimeString`, serves
  as its inverse for non-negative `ti` and `ms`. A negative `ti` with a
  non-zero seconds part prints with a minus sign, which the reader refuses. A
  negative whole number of minutes has a zero seconds part and prints as
  "00." followed by the milliseconds, which the reader accepts as zero seconds:
  the sign is lost (`TimeFormat.NegativeWholeMinutesPrintUnsigned`).
- **Session** (`session.dfy`). This is the class `VideoFromImages` with its
  `start`, `addImage`, `appendPixelBufferForImage(AtURL)` and `finish`. The
  framework objects are replaced by what they answer:
  - whether `startWriting` succeeds;
  - the readiness flag as it is polled;
  - whether the pool hands out a buffer;
  - whether the encoder accepts it;
  - the writer's error text.

  The success and failure closures, and the hand-off to the photo album, are
  recorded in order as `callbacks`. Every buffer handed to the encoder is
  recorded with its rectangle, timestamp and answer in `submissions`.
  `EncodeImages` drives a whole session the way a caller does.

A uniform 24 fps clock would stamp frame n at n/24. The code instead computes
`CMTimeMake(frameCount, 24)` and adds one frame duration whenever
`frameCount > 0`. So frame 0 is at 0, frame 1 at 2/24 and frame n at
(n+1)/24, and the slot 1/24 is never used. The model follows the code.
`Timing.PresentationTimeAgainstUniform` states the difference against a
uniform additive clock.

## Model

| member | source | states |
|---|---|---|
| `Compositor.Min` | VideoFromImages.swift:210 | `min` returns a value no larger than either argument, and equal to one of them |
| `Compositor.Max` | VideoFromImages.swift:208 | `max` returns a value no smaller than either argument, and equal to one of them |
| `Compositor.CenteredOffset` | VideoFromImages.swift:217-218 | the offset is never negative; when the scaled length fits, the image is centred (`offset + scaled/2 == canvas/2`) and ends inside the canvas; when it overflows, the offset is 0 |
| `Compositor.FitBounds` | VideoFromImages.swift:202-215 | in aspect fit, and in every mode that falls to `default`, the scaled size fits within the canvas and equals it on at least one axis |
| `Compositor.FillBounds` | VideoFromImages.swift:202-215 | in aspect fill, the scaled size covers the canvas and equals it on at least one axis |
| `Compositor.AspectPreserved` | VideoFromImages.swift:215 | in every mode, the scaled size keeps the image's aspect ratio (`newW * h == newH * w`) |
| `Compositor.FitRatioIsLargest` | VideoFromImages.swift:202-210 | a ratio keeps the image inside the canvas if and only if it is at most the aspect-fit ratio |
| `Compositor.FillRatioIsSmallest` | VideoFromImages.swift:202-208 | a ratio makes the image cover the canvas if and only if it is at least the aspect-fill ratio |
| `Compositor.FitRectInsideCanvas` | VideoFromImages.swift:202-218 | for a non-fill mode on a positive canvas, the drawn rectangle is non-empty, lies inside the canvas, is centred on both axes, and spans the canvas on one axis |
| `Compositor.FillRectCoversCanvas` | VideoFromImages.swift:206-218 | in aspect fill, the drawn rectangle starts at the origin, covers the canvas, and matches it on one axis |
| `Compositor.OtherModesPlaceAsFit` | VideoFromImages.swift:209-212 | every content mode other than aspect fill draws exactly the aspect-fit rectangle |
| `Compositor.FitSquareOnPortraitCanvas` | VideoFromImages.swift:202-218 | a 640x640 image fitted to a 320x568 canvas is drawn at (0, 124), 320x320 |
| `Compositor.FillLandscapeOnPortraitCanvas` | VideoFromImages.swift:202-218 | a 1280x720 image filling a 320x568 canvas is drawn at (0, 0), 9088/9 x 568 |
| `Timing.CMTimeAddSeconds` | VideoFromImages.swift:123 | adding two times on one timescale keeps that timescale and adds their durations in seconds |
| `Timing.PresentationTimeInSeconds` | VideoFromImages.swift:118-123 | the timestamp of frame n is on the 24 fps timescale: 0 for n = 0, and (n+1)/24 seconds for n > 0 |
| `Timing.PresentationTimeStrictlyIncreasing` | VideoFromImages.swift:122-123 | a later frame always gets a strictly later timestamp, both as a CMTime value and in seconds |
| `Timing.PresentationTimeSpacing` | VideoFromImages.swift:118-123 | consecutive frames are 2/24 s apart after frame 0, and 1/24 s apart after that |
| `Timing.UniformTimeIsProduct` | VideoFromImages.swift:119 | adding the 1/24 frame duration n times from zero gives exactly n/24 |
| `Timing.PresentationTimeAgainstUniform` | VideoFromImages.swift:118-123 | against the uniform clock, frame 0 is at slot 0 and frame n > 0 at slot n+1; no frame is ever stamped 1/24 |
| `TimeFormat.TruncRem` | VideoFromImages.swift:229-231 | Swift's `%` satisfies `a == b*(a/b) + a%b` with truncating `/`; the remainder carries the dividend's sign and is smaller than the divisor in magnitude |
| `TimeFormat.DecomposeNonNegative` | VideoFromImages.swift:229-231 | for ti >= 0, seconds and minutes lie in [0, 60), hours >= 0, and `hours*3600 + minutes*60 + seconds == ti` |
| `TimeFormat.DecomposeNegative` | VideoFromImages.swift:227-231 | a negative ti splits as the negation of the split of -ti: no part is positive, seconds lie in (-60, 0], and the parts still add up to ti |
| `TimeFormat.Pad2` | VideoFromImages.swift:234-238 | `%0.2d` gives at least two characters and no separator: all digits for n >= 0, and a minus sign followed by digits for n < 0 |
| `TimeFormat.DecimalDigitsNoLeadingZero` | VideoFromImages.swift:234-238 | the digits printed for n have no leading zero: a single digit exactly when n < 10, and a leading '0' only for n = 0 |
| `TimeFormat.Pad2Width` | VideoFromImages.swift:234-238 | `%0.2d` prints exactly two digits for 0 <= n < 10 (a sign and two digits for -10 < n < 0), and no leading zero once the magnitude is 10 or more |
| `TimeFormat.Pad2RoundTrip` | VideoFromImages.swift:234-238 | the digits `%0.2d` prints read back as n, or as -n after the minus sign when n is negative |
| `TimeFormat.FormatFields` | VideoFromImages.swift:233-239 | the formatted string splits at ':' and '.' into exactly the padded hours, minutes, seconds and ms when hours > 0; into minutes, seconds and ms when only minutes > 0; and into seconds and ms otherwise |
| `TimeFormat.FormatLayout` | VideoFromImages.swift:226-239 | the hours layout is used exactly when ti >= 3600, the minutes layout exactly when 60 <= ti < 3600, and the seconds layout otherwise, including every negative ti |
| `TimeFormat.LayoutRoundTrip` | VideoFromImages.swift:233-239 | any of the three layouts filled with digit strings reads back as the total seconds and the last field's value |
| `TimeFormat.ClockRoundTrip` | VideoFromImages.swift:233-239 | a clock with no negative part, printed with a non-negative ms, reads back as its total seconds and ms |
| `TimeFormat.FormatRoundTrip` | VideoFromImages.swift:226-240 | for ti >= 0 and ms >= 0, `stringFromTimeInterval` reads back as exactly ti seconds and ms |
| `TimeFormat.FormatOneHourTwoMinutes` | VideoFromImages.swift:226-240 | 3725 s and 7 ms print as "01:02:05.07" |
| `TimeFormat.FormatNegativeShowsSecondsOnly` | VideoFromImages.swift:226-240 | -3700 s and 0 ms print as "-40.00": hours and minutes are negative, so only the seconds layout is used |
| `TimeFormat.NegativeWholeMinutesPrintUnsigned` | VideoFromImages.swift:229-238 | a negative ti whose seconds part is 0 prints as "00." followed by the padded ms, with no sign, and for ms >= 0 reads back as zero seconds |
| `Session.AwaitReady` | VideoFromImages.swift:120 | the busy-wait stops at the first poll that sees the input ready, and every earlier poll saw it not ready |
| `Session.AddImageKeepsConsistent` | VideoFromImages.swift:117-133 | one `addImage` keeps the invariant: at most one buffer per call, all on the 24 fps timescale, strictly increasing, earlier than the next frame's time, and a refused buffer always leaves an error on record |
| `Session.VideoFromImages.constructor` | VideoFromImages.swift:35-41 | a new session stores the filename and size, has no error, no URL and no writers, its frame counter is 0, and nothing has been submitted or called |
| `Session.VideoFromImages.Start` | VideoFromImages.swift:93-115 | sets the start time, the output URL and fresh writers; a refused `startWriting` records the start error; failure is called, with the recorded error, exactly when an error is on record afterwards; frames and the counter are untouched |
| `Session.VideoFromImages.AppendPixelBufferForImage` | VideoFromImages.swift:170-188 | on a session that is writing: with no pool buffer nothing is submitted and the result is true; otherwise one buffer, drawn aspect-fit at the given time, is submitted and the result is the encoder's answer |
| `Session.VideoFromImages.AppendPixelBufferForImageAtURL` | VideoFromImages.swift:145-168 | as above for an image loaded from a file; an image that does not load submits nothing and reports success |
| `Session.VideoFromImages.AddImage` | VideoFromImages.swift:117-133 | the frame is submitted at `PresentationTime(frameCount)`; the counter advances by exactly one whether or not the append succeeds; a refused buffer records the append error with the writer's error text or "(none)"; an earlier error is never cleared; no callback is made; the session invariant is kept |
| `Session.VideoFromImages.Finish` | VideoFromImages.swift:134-143 | marks the input finished; when no error is recorded, the video is saved to the album and success is called with the output URL, in that order, and every buffer submitted through `addImage` was accepted; failure is never called |
| `Session.RunSubmissionsOutcome` | VideoFromImages.swift:124-132 | a run of `addImage` calls hands the encoder at most one buffer per frame, exactly one per frame when the pool never runs dry, and all of them are accepted exactly when no frame is refused |
| `Session.AddImages` | VideoFromImages.swift:117-133 | adding a run of frames advances the counter by their number; the encoder receives, in call order, each frame's aspect-fit buffer stamped `PresentationTime(start + i)` when the pool has one (`RunSubmissions`); no callback is made; the error on record is the append error of the last refused frame, or the earlier one when no frame was refused (`RunError`), so one is on record exactly when there was one before or some frame's buffer was refused; filename, size, start time, URL and writers are unchanged |
| `Session.EncodeImages` | VideoFromImages.swift:93-143 | a refused start calls failure once and submits nothing; otherwise the encoder receives exactly `RunSubmissions(size, frames, 0)`, and the album save and success happen exactly when no buffer was refused; timestamps handed to the encoder are strictly increasing |

## Left out

- File creation and deletion in `createVideoFile`, including its `fatalError` paths (lines 44-60), is not modelled. This is file-system I/O. The output file is modelled as the pair (document directory, filename).
- `createVideoWriters` (lines 62-91) is not modelled: the writer, input and adaptor construction, the output settings and the `canAddInput` assertion. These are framework calls; the model keeps only a flag saying the writers exist.
- `startSessionAtSourceTime`, the pool assertion and `requestMediaDataWhenReadyOnQueue` (lines 102-105) are not modelled. They have no effect on the modelled state.
- The busy-wait on `readyForMoreMediaData` (line 120) polls a flag that another thread changes. It is modelled as a loop over the sequence of values the polls see. `AddImage` requires that the flag is seen true at some poll; an encoder that never becomes ready would make the source spin forever.
- Pixel writes (lines 194-200 and 220-222) are not modelled: buffer lock and unlock, the bitmap context, clearing, and drawing the image. Only the rectangle the image is drawn into is kept.
- Saving to the photo library (line 138) is recorded only as a `SavedToAlbum` event.
- The asynchronous completion handler of `finishWritingWithCompletionHandler` (line 136) is modelled as running at once, when `finish` is called.
- `print` and `NSLog` are not modelled.
- The floating-point split of an `NSTimeInterval` into `NSInteger(interval)` and `Int((interval % 1) * 1000)` (lines 227-228) is not modelled. Whole seconds `ti` and milliseconds `ms` are taken as integers.
- printf formatting other than `%0.2d` (at least two digits, zero-padded, with the sign before the padding) is not modelled.
- `frameCount` is an `Int64` in the source; the model uses an unbounded counter. Overflow after 2^63 frames is not modelled.
- `Timing.CMTimeAdd` adds only times on the same timescale, which is the only case `addImage` uses. CoreMedia's conversion between timescales is not modelled.
- CGFloat arithmetic is idealised as exact `real` arithmetic, so the bounds and the centring hold exactly rather than up to rounding.
- Session.VideoFromImages.AddImage: requires a positive image size, because the ratio divides by the image's width and height. It also requires that `startWriting` succeeded, because the source force-unwraps the adaptor's pixel-buffer pool, which exists only after a successful start. Finally it requires that `finish` has not run, because appending to a finished input is a framework error.
- Session.VideoFromImages.Finish: requires that `start` ran, because the source force-unwraps the writers and the output URL it creates. It also requires that `finish` has not run yet: a second call would send `markAsFinished` and `finishWritingWithCompletionHandler` to a writer that has already finished, which is a framework error.
- Session.VideoFromImages.AppendPixelBufferForImage: the adaptor parameter is dropped; the method always uses the session's own adaptor, which is what `addImage` passes. It requires that writing started, because the source force-unwraps the adaptor's pixel-buffer pool, which exists only after a successful `startWriting`; called before `start` or after a refused start, the source traps. It requires a positive image size, because the ratio divides by the image's width and height. A direct call, which the public method allows, is outside the session invariant `Valid()`: it adds a buffer without advancing the frame counter, and a refused buffer records no error (only `addImage` records one). So in the source, `finish` after a refused direct append still saves the video and calls success. The model does not cover that sequence: `AddImage` and `Finish` require `Valid()`, and `Finish`'s "no error means every buffer was accepted" holds only for buffers submitted through `addImage`.
- Session.VideoFromImages.AppendPixelBufferForImageAtURL: the adaptor parameter is dropped, and writing must have started, for the same reasons as `AppendPixelBufferForImage`. A loaded image must have a positive size, again because the ratio divides by it. Loading the image from a file is replaced by its outcome: the loaded size, or none. A direct call is outside the session invariant in the same way: a refused buffer records no error, and `finish` still reports success.
- TimeFormat.Pad2: prints the unbounded integer. In the source, `ti` and `hours` are 64-bit `NSInteger`s and `%0.2d` reads a 32-bit `int`, so an hours value outside the Int32 range (ti >= 2^31 * 3600 s) is printed from its low 32 bits. Neither that truncation nor the Int64 range of `ti` is modelled.
- Compositor.FitRectInsideCanvas: states non-emptiness and centring only for a positive canvas. A zero-sized canvas gives a zero ratio and an empty rectangle.
