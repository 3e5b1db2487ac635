/**
 * The VideoFromImages session: the frame counter, the sticky error and the
 * success/failure callbacks across `start`, `addImage`, the pixel-buffer
 * append and `finish`.
 *
 * The encoder (AVAssetWriter and its input), the pixel-buffer pool and the
 * clock are not modelled; what they answer is passed in as parameters. The
 * success and failure closures are recorded, in call order, in `callbacks`,
 * and every pixel buffer handed to the encoder is recorded in `submissions`.
 */
module Session {
  import opened Wrappers
  import opened Compositor
  import opened Timing

  const ErrorDomain: string := "VideoFromImages"
  const FailedToStartAssetWriterError: int := 0
  const FailedToAppendPixelBufferError: int := 1

  /** The userInfo keys and texts of the session's errors. */
  const DescriptionKey: string := "description"
  const RawErrorKey: string := "rawError"
  const StartFailedDescription: string := "AVAssetWriter failed to start writing"
  const AppendFailedDescription: string := "AVAssetWriterInputPixelBufferAdapter failed to append pixel buffer"
  const NoRawError: string := "(none)"

  /** An NSError: domain, code and a userInfo dictionary of strings. */
  datatype NSError = NSError(domain: string, code: int, userInfo: map<string, string>)

  /** The error `start` records when the writer refuses to start writing. */
  function StartWritingError(): NSError {
    NSError(ErrorDomain, FailedToStartAssetWriterError,
      map[DescriptionKey := StartFailedDescription])
  }

  /** The error `addImage` records when an append fails; `writerError` is the writer's own error, if any. */
  function AppendError(writerError: Option<string>): NSError {
    NSError(ErrorDomain, FailedToAppendPixelBufferError,
      map[DescriptionKey := AppendFailedDescription, RawErrorKey := writerError.GetOr(NoRawError)])
  }

  /** The output file: `filename` under the app's document directory. */
  datatype Url = Url(directory: string, filename: string)

  /** Calls out of the session, in the order they happen. */
  datatype Callback =
    | FailureCalled(error: NSError)
    | SavedToAlbum(video: Url)
    | SuccessCalled(video: Url)

  /** One pixel buffer handed to the encoder: where the image was drawn, its timestamp, and the encoder's answer. */
  datatype Submission = Submission(rect: Rect, time: CMTime, accepted: bool)

  /**
   * The busy-wait on `readyForMoreMediaData`. `observed` holds the values the
   * flag is seen to take, one per poll; the wait ends at the first true one.
   * An encoder that never becomes ready makes the source spin forever, which
   * the precondition rules out.
   */
  method AwaitReady(observed: seq<bool>) returns (polls: nat)
    requires true in observed
    ensures polls < |observed| && observed[polls]
    ensures forall k :: 0 <= k < polls ==> !observed[k]
  {
    polls := 0;
    while !observed[polls]
      invariant polls < |observed|
      invariant exists j :: polls <= j < |observed| && observed[j]
      invariant forall k :: 0 <= k < polls ==> !observed[k]
      decreases |observed| - polls
    {
      polls := polls + 1;
    }
  }

  /**
   * What the frames handed to the encoder satisfy after `frameCount` calls
   * of `addImage`: at most one per call, timestamps on the 24 fps timescale,
   * strictly increasing and all earlier than the one the next frame will
   * get; and a refused frame always leaves an error on record.
   */
  ghost predicate Consistent(submissions: seq<Submission>, frameCount: nat, errorRecorded: bool) {
    && |submissions| <= frameCount
    && (forall i :: 0 <= i < |submissions| ==>
          submissions[i].time.timescale == Fps &&
          submissions[i].time.value < PresentationTime(frameCount).value)
    && (forall i, j :: 0 <= i < j < |submissions| ==>
          submissions[i].time.value < submissions[j].time.value)
    && ((exists i :: 0 <= i < |submissions| && !submissions[i].accepted) ==> errorRecorded)
  }

  /** One `addImage` keeps the frames consistent: the new frame, if any, carries the next timestamp. */
  lemma AddImageKeepsConsistent(submissions: seq<Submission>, frameCount: nat, errorRecorded: bool,
                                 added: seq<Submission>, errorAfter: bool)
    requires Consistent(submissions, frameCount, errorRecorded)
    requires |added| <= 1
    requires forall k :: 0 <= k < |added| ==> added[k].time == PresentationTime(frameCount)
    requires errorRecorded ==> errorAfter
    requires (exists k :: 0 <= k < |added| && !added[k].accepted) ==> errorAfter
    ensures Consistent(submissions + added, frameCount + 1, errorAfter)
  {
    PresentationTimeStrictlyIncreasing(frameCount, frameCount + 1);
    var all := submissions + added;
    forall i | 0 <= i < |all|
      ensures all[i].time.timescale == Fps && all[i].time.value < PresentationTime(frameCount + 1).value
    {
      if i >= |submissions| {
        assert all[i] == added[i - |submissions|];
      }
    }
    forall i, j | 0 <= i < j < |all|
      ensures all[i].time.value < all[j].time.value
    {
      if j >= |submissions| {
        assert all[j] == added[j - |submissions|];
      }
    }
    if exists i :: 0 <= i < |all| && !all[i].accepted {
      var i :| 0 <= i < |all| && !all[i].accepted;
      if i >= |submissions| {
        assert added[i - |submissions|] == all[i];
      } else {
        assert submissions[i] == all[i];
      }
    }
  }

  class VideoFromImages {
    var filename: string
    /** The canvas: the size of every frame of the video. */
    var size: Size
    var startTime: Option<real>
    var videoOutputURL: Option<Url>
    /** The writer, its input and the pixel-buffer adaptor exist (they are created by `start`). */
    var writersCreated: bool
    /** The last `startWriting` succeeded, so the adaptor has a pixel-buffer pool. */
    var writing: bool
    /** `markAsFinished` was called on the current input. */
    var inputFinished: bool
    var frameCount: nat
    var error: Option<NSError>
    var submissions: seq<Submission>
    var callbacks: seq<Callback>

    /** The session's invariant; see `Consistent`. */
    ghost predicate Valid()
      reads this
    {
      && (writing ==> writersCreated)
      && (writersCreated ==> videoOutputURL.Some?)
      && Consistent(submissions, frameCount, error.Some?)
    }

    constructor (filename: string, size: Size)
      ensures Valid()
      ensures this.filename == filename && this.size == size
      ensures startTime == None && videoOutputURL == None
      ensures !writersCreated && !writing && !inputFinished
      ensures frameCount == 0 && error == None
      ensures submissions == [] && callbacks == []
    {
      this.filename := filename;
      this.size := size;
      startTime := None;
      videoOutputURL := None;
      writersCreated, writing, inputFinished := false, false, false;
      frameCount := 0;
      error := None;
      submissions := [];
      callbacks := [];
    }

    /**
     * `start`: records the start time, resolves the output file, creates
     * fresh writers and starts writing. A refused start records the start
     * error; the failure callback then runs whenever an error is on record,
     * whether from this start or from earlier.
     */
    method Start(now: real, documentDirectory: string, startWritingSucceeds: bool)
      requires Valid()
      modifies this
      ensures Valid()
      ensures startTime == Some(now)
      ensures videoOutputURL == Some(Url(documentDirectory, filename))
      ensures writersCreated && writing == startWritingSucceeds && !inputFinished
      ensures error == if startWritingSucceeds then old(error) else Some(StartWritingError())
      ensures callbacks == old(callbacks) + if error.Some? then [FailureCalled(error.value)] else []
      ensures filename == old(filename) && size == old(size)
      ensures frameCount == old(frameCount) && submissions == old(submissions)
    {
      startTime := Some(now);
      videoOutputURL := Some(Url(documentDirectory, filename));
      writersCreated, inputFinished := true, false;
      writing := startWritingSucceeds;
      if !startWritingSucceeds {
        error := Some(StartWritingError());
      }
      if error.Some? {
        callbacks := callbacks + [FailureCalled(error.value)];
      }
    }

    /**
     * `appendPixelBufferForImage`: takes a buffer from the pool, draws the
     * image into it aspect-fit and appends it at `presentationTime`. When the
     * pool hands out no buffer nothing is appended and the result is still
     * true; otherwise the result is the encoder's answer. The pool exists
     * only once writing has started (the source force-unwraps it).
     */
    method AppendPixelBufferForImage(image: Size, presentationTime: CMTime, poolHasBuffer: bool, encoderAccepts: bool)
      returns (appendSucceeded: bool)
      requires writing
      requires IsPositive(image)
      modifies this`submissions
      ensures appendSucceeded == (!poolHasBuffer || encoderAccepts)
      ensures submissions == old(submissions) +
        if poolHasBuffer then [Submission(DrawRect(size, image, ScaleAspectFit), presentationTime, encoderAccepts)] else []
    {
      appendSucceeded := true;
      if poolHasBuffer {
        var rect := DrawRect(size, image, ScaleAspectFit);
        appendSucceeded := encoderAccepts;
        submissions := submissions + [Submission(rect, presentationTime, encoderAccepts)];
      }
    }

    /**
     * `appendPixelBufferForImageAtURL`: the same append for an image loaded
     * from a file; an image that does not load appends nothing and also
     * reports success.
     */
    method AppendPixelBufferForImageAtURL(loaded: Option<Size>, presentationTime: CMTime, poolHasBuffer: bool, encoderAccepts: bool)
      returns (appendSucceeded: bool)
      requires writing
      requires loaded.Some? ==> IsPositive(loaded.value)
      modifies this`submissions
      ensures appendSucceeded == (loaded.None? || !poolHasBuffer || encoderAccepts)
      ensures submissions == old(submissions) +
        if loaded.Some? && poolHasBuffer
        then [Submission(DrawRect(size, loaded.value, ScaleAspectFit), presentationTime, encoderAccepts)]
        else []
    {
      appendSucceeded := true;
      if loaded.Some? {
        appendSucceeded := AppendPixelBufferForImage(loaded.value, presentationTime, poolHasBuffer, encoderAccepts);
      }
    }

    /** The timestamp `addImage` computes for the frame about to be added. */
    method NextPresentationTime() returns (presentationTime: CMTime)
      ensures presentationTime == PresentationTime(frameCount)
      ensures presentationTime.timescale == Fps
    {
      var fps := Fps;
      var frameDuration := CMTimeMake(1, fps);
      var lastFrameTime := CMTimeMake(frameCount, fps);
      presentationTime := if frameCount == 0 then lastFrameTime else CMTimeAdd(lastFrameTime, frameDuration);
    }

    /**
     * `addImage`: waits for the input to become ready, stamps the frame by
     * the presentation-time rule, appends it, records an append error when
     * the append reports failure, and advances the frame counter in every
     * case.
     */
    method AddImage(image: Size, readiness: seq<bool>, poolHasBuffer: bool, encoderAccepts: bool, writerError: Option<string>)
      requires Valid() && writing && !inputFinished
      requires IsPositive(image)
      requires true in readiness
      modifies this
      ensures Valid()
      ensures frameCount == old(frameCount) + 1
      ensures submissions == old(submissions) +
        if poolHasBuffer
        then [Submission(DrawRect(size, image, ScaleAspectFit), PresentationTime(old(frameCount)), encoderAccepts)]
        else []
      ensures error == if poolHasBuffer && !encoderAccepts then Some(AppendError(writerError)) else old(error)
      ensures old(error).Some? ==> error.Some?
      ensures callbacks == old(callbacks)
      ensures filename == old(filename) && size == old(size) && startTime == old(startTime)
      ensures videoOutputURL == old(videoOutputURL)
      ensures writersCreated == old(writersCreated) && writing == old(writing) && inputFinished == old(inputFinished)
    {
      var _ := AwaitReady(readiness);
      var presentationTime := NextPresentationTime();
      ghost var before, errorBefore := submissions, error.Some?;
      ghost var added :=
        if poolHasBuffer then [Submission(DrawRect(size, image, ScaleAspectFit), presentationTime, encoderAccepts)] else [];
      var appended := AppendPixelBufferForImage(image, presentationTime, poolHasBuffer, encoderAccepts);
      if !appended {
        error := Some(AppendError(writerError));
      }
      AddImageKeepsConsistent(before, frameCount, errorBefore, added, error.Some?);
      frameCount := frameCount + 1;
    }

    /**
     * `finish`: marks the input finished and finishes writing; the
     * completion, taken here as running at once, saves the video to the
     * photo album and calls success only when no error was ever recorded.
     * It never calls failure.
     */
    method Finish()
      requires Valid() && writersCreated && !inputFinished
      modifies this
      ensures Valid() && inputFinished
      ensures error == old(error) && frameCount == old(frameCount) && submissions == old(submissions)
      ensures filename == old(filename) && size == old(size) && startTime == old(startTime)
      ensures videoOutputURL == old(videoOutputURL) && videoOutputURL.Some?
      ensures writersCreated == old(writersCreated) && writing == old(writing)
      ensures callbacks == old(callbacks) +
        if error == None then [SavedToAlbum(videoOutputURL.value), SuccessCalled(videoOutputURL.value)] else []
      ensures error == None ==> forall i :: 0 <= i < |submissions| ==> submissions[i].accepted
    {
      inputFinished := true;
      if error == None {
        callbacks := callbacks + [SavedToAlbum(videoOutputURL.value)];
        callbacks := callbacks + [SuccessCalled(videoOutputURL.value)];
      }
    }
  }

  // ---------------------------------------------------------------------
  // A whole session, as a caller drives it
  // ---------------------------------------------------------------------

  /** What the collaborators answer while one image is added. */
  datatype FrameInput = FrameInput(
    image: Size, readiness: seq<bool>, poolHasBuffer: bool, encoderAccepts: bool, writerError: Option<string>)

  predicate Feasible(f: FrameInput) {
    IsPositive(f.image) && true in f.readiness
  }

  /** The encoder received this frame's buffer and refused it. */
  predicate Rejected(f: FrameInput) {
    f.poolHasBuffer && !f.encoderAccepts
  }

  /** The buffer `addImage` hands to the encoder for frame `f` when `index` frames came before it, if any. */
  function FrameSubmission(canvas: Size, f: FrameInput, index: nat): seq<Submission>
    requires Feasible(f)
  {
    if f.poolHasBuffer
    then [Submission(DrawRect(canvas, f.image, ScaleAspectFit), PresentationTime(index), f.encoderAccepts)]
    else []
  }

  /** The buffers a run of `addImage` calls hands to the encoder, in call order, the first frame having index `start`. */
  function RunSubmissions(canvas: Size, frames: seq<FrameInput>, start: nat): seq<Submission>
    requires forall i :: 0 <= i < |frames| ==> Feasible(frames[i])
    decreases |frames|
  {
    if frames == [] then []
    else
      var last := |frames| - 1;
      RunSubmissions(canvas, frames[..last], start) + FrameSubmission(canvas, frames[last], start + last)
  }

  /**
   * A run hands the encoder at most one buffer per frame, exactly one when
   * the pool never runs dry, and every buffer it hands over is accepted
   * exactly when no frame is refused.
   */
  lemma {:induction false} RunSubmissionsOutcome(canvas: Size, frames: seq<FrameInput>, start: nat)
    requires forall i :: 0 <= i < |frames| ==> Feasible(frames[i])
    ensures |RunSubmissions(canvas, frames, start)| <= |frames|
    ensures (forall i :: 0 <= i < |frames| ==> frames[i].poolHasBuffer) ==> |RunSubmissions(canvas, frames, start)| == |frames|
    ensures (forall k :: 0 <= k < |RunSubmissions(canvas, frames, start)| ==> RunSubmissions(canvas, frames, start)[k].accepted)
        <==> !(exists i :: 0 <= i < |frames| && Rejected(frames[i]))
    decreases |frames|
  {
    if frames != [] {
      var last := |frames| - 1;
      var init := frames[..last];
      RunSubmissionsOutcome(canvas, init, start);
      var before, added := RunSubmissions(canvas, init, start), FrameSubmission(canvas, frames[last], start + last);
      var all := before + added;
      assert all == RunSubmissions(canvas, frames, start);
      if exists i :: 0 <= i < |frames| && Rejected(frames[i]) {
        var i :| 0 <= i < |frames| && Rejected(frames[i]);
        if i < last {
          assert Rejected(init[i]);
          var k :| 0 <= k < |before| && !before[k].accepted;
          assert !all[k].accepted;
        } else {
          assert !all[|before|].accepted;
        }
      } else {
        forall k | 0 <= k < |all|
          ensures all[k].accepted
        {
          if k < |before| {
            assert all[k] == before[k];
          } else {
            assert !Rejected(frames[last]);
          }
        }
      }
    }
  }

  /** The error on record after a run of `addImage` calls: that of the last refused frame, else the one from before. */
  function RunError(frames: seq<FrameInput>, before: Option<NSError>): Option<NSError>
    decreases |frames|
  {
    if frames == [] then before
    else
      var last := frames[|frames| - 1];
      if Rejected(last) then Some(AppendError(last.writerError)) else RunError(frames[..|frames| - 1], before)
  }

  /** `addImage` for each frame in order, on a session that is writing. */
  method AddImages(session: VideoFromImages, frames: seq<FrameInput>)
    requires session.Valid() && session.writing && !session.inputFinished
    requires forall i :: 0 <= i < |frames| ==> Feasible(frames[i])
    modifies session
    ensures session.Valid() && session.writing && !session.inputFinished
    ensures session.frameCount == old(session.frameCount) + |frames|
    ensures session.submissions == old(session.submissions) + RunSubmissions(session.size, frames, old(session.frameCount))
    ensures session.callbacks == old(session.callbacks)
    ensures session.error == RunError(frames, old(session.error))
    ensures session.error.Some? <==> old(session.error).Some? || exists i :: 0 <= i < |frames| && Rejected(frames[i])
    ensures session.filename == old(session.filename) && session.size == old(session.size)
    ensures session.startTime == old(session.startTime) && session.videoOutputURL == old(session.videoOutputURL)
    ensures session.writersCreated == old(session.writersCreated)
  {
    var n := 0;
    while n < |frames|
      invariant 0 <= n <= |frames|
      invariant session.Valid() && session.writing && !session.inputFinished
      invariant session.frameCount == old(session.frameCount) + n
      invariant session.submissions == old(session.submissions) + RunSubmissions(session.size, frames[..n], old(session.frameCount))
      invariant session.callbacks == old(session.callbacks)
      invariant session.error == RunError(frames[..n], old(session.error))
      invariant session.error.Some? <==> old(session.error).Some? || exists i :: 0 <= i < n && Rejected(frames[i])
      invariant session.filename == old(session.filename) && session.size == old(session.size)
      invariant session.startTime == old(session.startTime) && session.videoOutputURL == old(session.videoOutputURL)
      invariant session.writersCreated == old(session.writersCreated)
    {
      var f := frames[n];
      session.AddImage(f.image, f.readiness, f.poolHasBuffer, f.encoderAccepts, f.writerError);
      assert frames[..n + 1][..n] == frames[..n];
      n := n + 1;
    }
    assert frames[..n] == frames;
  }

  /**
   * A caller's session: construct, `start`, then (only if writing started)
   * `addImage` for each frame in order, then `finish`. A refused start calls
   * failure once and nothing else; otherwise success is called exactly when
   * no frame was refused by the encoder; the encoder receives exactly the
   * buffers of `RunSubmissions`, with strictly increasing timestamps.
   */
  method EncodeImages(filename: string, size: Size, now: real, documentDirectory: string,
                      startWritingSucceeds: bool, frames: seq<FrameInput>)
    returns (callbacks: seq<Callback>, frameCount: nat, submissions: seq<Submission>)
    requires forall i :: 0 <= i < |frames| ==> Feasible(frames[i])
    ensures frameCount == if startWritingSucceeds then |frames| else 0
    ensures !startWritingSucceeds ==> callbacks == [FailureCalled(StartWritingError())] && submissions == []
    ensures startWritingSucceeds ==>
      var video := Url(documentDirectory, filename);
      callbacks == if exists i :: 0 <= i < |frames| && Rejected(frames[i]) then []
                   else [SavedToAlbum(video), SuccessCalled(video)]
    ensures startWritingSucceeds ==> submissions == RunSubmissions(size, frames, 0)
    ensures forall i, j :: 0 <= i < j < |submissions| ==> submissions[i].time.value < submissions[j].time.value
  {
    var session := new VideoFromImages(filename, size);
    session.Start(now, documentDirectory, startWritingSucceeds);
    if session.writing {
      AddImages(session, frames);
    }
    session.Finish();
    callbacks, frameCount, submissions := session.callbacks, session.frameCount, session.submissions;
  }
}
