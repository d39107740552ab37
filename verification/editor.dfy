/** src/editor/editor.py: the loudness map of the audio, the edit points that
    run-length encode its dilation, the fading of each stretched chunk, the running
    output clock of `execute` and the progress throttle. */
module Editor {
  import opened Wrappers
  import opened Numeric
  import opened Parameters
  import opened EditPoints
  import opened Segmentation

  /** The exceptions the editor's numpy and float arithmetic can raise. */
  datatype Error = IndexError | ValueError | ZeroDivisionError

  // ---------------------------------------------------------------------------
  // The loudness map (`get_loud_frame`)
  // ---------------------------------------------------------------------------

  /** `int(i * samples_per_frame)`: the first sample of video frame `i`. */
  function ChunkStart(p: InputParameter, i: nat): nat
    requires p.samplesPerFrame > 0.0
  {
    ProductNonNegative(i as real, p.samplesPerFrame);
    (i as real * p.samplesPerFrame).Floor
  }

  /** `min(int((i + 1) * samples_per_frame), audio_sample_count)`. */
  function ChunkEnd(p: InputParameter, i: nat): nat
    requires p.samplesPerFrame > 0.0
  {
    ProductNonNegative((i + 1) as real, p.samplesPerFrame);
    Min(((i + 1) as real * p.samplesPerFrame).Floor, p.audioSampleCount)
  }

  /** `audio_data[start:end]` for video frame `i`. */
  function Chunk(p: InputParameter, i: nat): seq<int>
    requires p.samplesPerFrame > 0.0
  {
    Slice(p.audioData, ChunkStart(p, i), ChunkEnd(p, i))
  }

  /** The chunk's peak relative to the whole audio's peak reaches the threshold. */
  predicate ChunkIsLoud(p: InputParameter, i: nat)
    requires p.samplesPerFrame > 0.0
  {
    var chunk := Chunk(p, i);
    |chunk| > 0 && p.maxAudioVolume != 0
    && GetMaxVolume(chunk) as real / p.maxAudioVolume as real >= p.config.silentThreshold
  }

  /** First frame of the keep-end window, `audio_frame_count - keep_frames_from_end`. */
  function CutEnd(p: InputParameter): int
  {
    p.audioFrameCount - p.config.keepFramesFromEnd
  }

  /** The exception the middle loop raises from frame `i` on, if any: `np.max` of an
      empty chunk, or the division by a zero global peak. */
  function MiddleFailure(p: InputParameter, i: nat): Option<Error>
    requires p.samplesPerFrame > 0.0
    decreases CutEnd(p) - i
  {
    if i >= CutEnd(p) then None
    else if |Chunk(p, i)| == 0 then Some(ValueError)
    else if p.maxAudioVolume == 0 then Some(ZeroDivisionError)
    else MiddleFailure(p, i + 1)
  }

  /** What `get_loud_frame` returns, or the exception it raises. The keep-start
      loop writes past the end when `keep_frames_from_start` exceeds the frame
      count; the keep-end loop starts at a negative index when
      `keep_frames_from_end` exceeds it, which numpy wraps, down to `-n`. */
  function LoudFrame(p: InputParameter): Result<seq<bool>, Error>
    requires p.samplesPerFrame > 0.0
  {
    var n := p.audioFrameCount;
    var ks := p.config.keepFramesFromStart;
    if ks > n then Failure(IndexError)
    else if MiddleFailure(p, ks).Some? then Failure(MiddleFailure(p, ks).value)
    else if CutEnd(p) < -(n as int) then Failure(IndexError)
    else Success(seq(n, i requires 0 <= i < n => i < ks || i >= CutEnd(p) || ChunkIsLoud(p, i)))
  }

  /** No middle frame from `i` on fails exactly when every chunk is non-empty and
      the global peak is not zero (or there is no such frame). */
  lemma {:induction false} MiddleFailureNone(p: InputParameter, i: nat)
    requires p.samplesPerFrame > 0.0
    ensures MiddleFailure(p, i).None? <==>
      (i >= CutEnd(p) || p.maxAudioVolume != 0) && forall j :: i <= j < CutEnd(p) ==> |Chunk(p, j)| > 0
    decreases CutEnd(p) - i
  {
    if i < CutEnd(p) {
      MiddleFailureNone(p, i + 1);
    }
  }

  /** The loud map has one entry per video frame; the keep windows are loud
      whatever the audio; a middle frame is loud exactly when its chunk's peak,
      relative to the global peak, reaches the threshold. */
  lemma LoudFrameContents(p: InputParameter)
    requires p.samplesPerFrame > 0.0 && LoudFrame(p).Success?
    ensures var m := LoudFrame(p).value;
      && |m| == p.audioFrameCount
      && (forall i :: 0 <= i < p.config.keepFramesFromStart && i < |m| ==> m[i])
      && (forall i :: CutEnd(p) <= i < |m| && 0 <= i ==> m[i])
      && (forall i :: p.config.keepFramesFromStart <= i < CutEnd(p) ==>
            |Chunk(p, i)| > 0 && p.maxAudioVolume != 0
            && (m[i] <==> GetMaxVolume(Chunk(p, i)) as real / p.maxAudioVolume as real >= p.config.silentThreshold))
  {
    MiddleFailureNone(p, p.config.keepFramesFromStart);
  }

  /** When `get_loud_frame` raises: a keep window longer than the audio (the end
      window may be up to twice as long), an empty chunk in the middle, or a silent
      recording with a non-empty middle. There is no guard for a zero peak. */
  lemma LoudFrameFails(p: InputParameter)
    requires p.samplesPerFrame > 0.0
    ensures var ks := p.config.keepFramesFromStart;
      LoudFrame(p).Failure? <==>
        || ks > p.audioFrameCount
        || (exists j :: ks <= j < CutEnd(p) && |Chunk(p, j)| == 0)
        || (ks < CutEnd(p) && p.maxAudioVolume == 0)
        || p.config.keepFramesFromEnd > 2 * p.audioFrameCount
  {
    MiddleFailureNone(p, p.config.keepFramesFromStart);
  }

  /** One step of the middle loop: `np.max` of the chunk's absolute values over
      the global peak, compared with the threshold. */
  method ChunkLoudness(p: InputParameter, i: nat) returns (r: Result<bool, Error>)
    requires p.samplesPerFrame > 0.0
    ensures |Chunk(p, i)| == 0 ==> r == Failure(ValueError)
    ensures |Chunk(p, i)| > 0 && p.maxAudioVolume == 0 ==> r == Failure(ZeroDivisionError)
    ensures |Chunk(p, i)| > 0 && p.maxAudioVolume != 0 ==> r == Success(ChunkIsLoud(p, i))
  {
    var audioChunks := Slice(p.audioData, ChunkStart(p, i), ChunkEnd(p, i));
    if |audioChunks| == 0 {
      return Failure(ValueError);
    }
    if p.maxAudioVolume == 0 {
      return Failure(ZeroDivisionError);
    }
    var maxChunksVolume := GetMaxVolume(audioChunks) as real / p.maxAudioVolume as real;
    return Success(maxChunksVolume >= p.config.silentThreshold);
  }

  /** The keep-start loop: frames `[0, keep_frames_from_start)` become loud, or
      the loop runs off the end of the array. */
  method KeepStart(hasLoudAudio: array<bool>, ks: nat) returns (ok: bool)
    requires forall t :: 0 <= t < hasLoudAudio.Length ==> !hasLoudAudio[t]
    modifies hasLoudAudio
    ensures ok <==> ks <= hasLoudAudio.Length
    ensures ok ==> forall t :: 0 <= t < hasLoudAudio.Length ==> hasLoudAudio[t] == (t < ks)
  {
    var i := 0;
    while i < ks
      invariant 0 <= i <= ks && i <= hasLoudAudio.Length
      invariant forall t :: 0 <= t < hasLoudAudio.Length ==> hasLoudAudio[t] == (t < i)
    {
      if i >= hasLoudAudio.Length {
        return false;
      }
      hasLoudAudio[i] := true;
      i := i + 1;
    }
    return true;
  }

  /** The last frame the content loop looks at, plus one. */
  function MiddleEnd(p: InputParameter): nat
  {
    Max(p.config.keepFramesFromStart, CutEnd(p))
  }

  /** The map after the keep-start loop and the content loop up to frame `i - 1`:
      a loud chunk sets its frame. */
  function MiddleState(p: InputParameter, i: nat): (m: seq<bool>)
    requires p.samplesPerFrame > 0.0
    requires p.config.keepFramesFromStart <= i <= p.audioFrameCount
    ensures |m| == p.audioFrameCount
    decreases i
  {
    var ks := p.config.keepFramesFromStart;
    if i == ks then seq(p.audioFrameCount, t => t < ks)
    else
      var m := MiddleState(p, i - 1);
      if ChunkIsLoud(p, i - 1) then m[i - 1 := true] else m
  }

  /** After the content loop up to frame `i - 1`, a frame is set exactly when it
      is in the keep-start window or is a loud frame already looked at. */
  lemma {:induction false} MiddleStateContents(p: InputParameter, i: nat)
    requires p.samplesPerFrame > 0.0
    requires p.config.keepFramesFromStart <= i <= p.audioFrameCount
    ensures forall t :: 0 <= t < p.audioFrameCount ==>
      MiddleState(p, i)[t] == (t < p.config.keepFramesFromStart
                               || (p.config.keepFramesFromStart <= t < i && ChunkIsLoud(p, t)))
    decreases i
  {
    if i > p.config.keepFramesFromStart {
      MiddleStateContents(p, i - 1);
    }
  }

  /** One iteration of the content loop at frame `i`: the exception it raises,
      or the map with frame `i` set when its chunk is loud. */
  method ContentStep(p: InputParameter, hasLoudAudio: array<bool>, i: nat) returns (err: Option<Error>)
    requires p.samplesPerFrame > 0.0
    requires p.config.keepFramesFromStart <= i < CutEnd(p)
    requires hasLoudAudio.Length == p.audioFrameCount
    requires hasLoudAudio[..] == MiddleState(p, i)
    modifies hasLoudAudio
    ensures err.Some? ==> err == MiddleFailure(p, i)
    ensures err.None? ==> MiddleFailure(p, i) == MiddleFailure(p, i + 1)
    ensures err.None? ==> hasLoudAudio[..] == MiddleState(p, i + 1)
  {
    var loud := ChunkLoudness(p, i);
    if loud.Failure? {
      return Some(loud.error);
    }
    if loud.value {
      hasLoudAudio[i] := true;
    }
    return None;
  }

  /** The content loop over `[keep_frames_from_start, frames_count_to_cut)`. */
  method CheckContent(p: InputParameter, hasLoudAudio: array<bool>) returns (err: Option<Error>)
    requires p.samplesPerFrame > 0.0
    requires hasLoudAudio.Length == p.audioFrameCount
    requires p.config.keepFramesFromStart <= p.audioFrameCount
    requires hasLoudAudio[..] == MiddleState(p, p.config.keepFramesFromStart)
    modifies hasLoudAudio
    ensures err == MiddleFailure(p, p.config.keepFramesFromStart)
    ensures err.None? ==> hasLoudAudio[..] == MiddleState(p, MiddleEnd(p))
  {
    var ks := p.config.keepFramesFromStart;
    var framesCountToCut := p.audioFrameCount - p.config.keepFramesFromEnd;
    var i := ks;
    while i < framesCountToCut
      invariant ks <= i <= MiddleEnd(p)
      invariant MiddleFailure(p, i) == MiddleFailure(p, ks)
      invariant hasLoudAudio[..] == MiddleState(p, i)
    {
      err := ContentStep(p, hasLoudAudio, i);
      if err.Some? {
        return err;
      }
      i := i + 1;
    }
    assert i == MiddleEnd(p);
    return None;
  }

  /** The keep-end loop from `frames_count_to_cut`, which may be negative: numpy
      counts a negative index from the end, and fails below `-n`. */
  method KeepEnd(hasLoudAudio: array<bool>, framesCountToCut: int) returns (ok: bool)
    requires framesCountToCut <= hasLoudAudio.Length
    modifies hasLoudAudio
    ensures ok <==> framesCountToCut >= -hasLoudAudio.Length
    ensures ok ==> forall t :: 0 <= t < hasLoudAudio.Length ==>
      hasLoudAudio[t] == (old(hasLoudAudio[t]) || t >= framesCountToCut)
  {
    var n := hasLoudAudio.Length;
    var i := framesCountToCut;
    while i < n
      invariant framesCountToCut <= i <= n
      invariant i > framesCountToCut ==> framesCountToCut >= -n
      invariant forall t :: 0 <= t < n ==>
        hasLoudAudio[t] == (old(hasLoudAudio[t]) || framesCountToCut <= t < i || framesCountToCut <= t - n < i)
    {
      if i < -n {
        return false;
      }
      var index := if i < 0 then i + n else i;
      hasLoudAudio[index] := true;
      i := i + 1;
    }
    return framesCountToCut >= -n;
  }

  /** `get_loud_frame`: three loops over a zero-filled array. */
  method GetLoudFrame(p: InputParameter) returns (r: Result<seq<bool>, Error>)
    requires p.samplesPerFrame > 0.0
    ensures r == LoudFrame(p)
  {
    var n := p.audioFrameCount;
    var hasLoudAudio := new bool[n](_ => false);
    var ok := KeepStart(hasLoudAudio, p.config.keepFramesFromStart);
    if !ok {
      return Failure(IndexError);
    }
    assert hasLoudAudio[..] == MiddleState(p, p.config.keepFramesFromStart);
    var err := CheckContent(p, hasLoudAudio);
    if err.Some? {
      return Failure(err.value);
    }
    ok := KeepEnd(hasLoudAudio, CutEnd(p));
    if !ok {
      return Failure(IndexError);
    }
    MiddleStateContents(p, MiddleEnd(p));
    r := Success(hasLoudAudio[..]);
    assert r.value == LoudFrame(p).value;
  }

  // ---------------------------------------------------------------------------
  // Dilation and run-length encoding (`get_edit_points`)
  // ---------------------------------------------------------------------------

  /** `int(max(0, i - frame_margin))`. */
  function WindowStart(i: nat, margin: nat): nat
  {
    Max(0, i - margin)
  }

  /** `int(min(audio_frame_count, i + 1 + frame_margin))`. */
  function WindowEnd(i: nat, margin: nat, n: nat): nat
  {
    Min(n, i + 1 + margin)
  }

  /** `np.max` of a 0/1 window: some frame of it is loud. */
  function AnyLoud(window: seq<bool>): bool
  {
    window != [] && (window[0] || AnyLoud(window[1..]))
  }

  lemma {:induction false} AnyLoudIn(window: seq<bool>)
    ensures AnyLoud(window) <==> true in window
  {
    if window != [] {
      AnyLoudIn(window[1..]);
      assert window == [window[0]] + window[1..];
    }
  }

  /** `should_include_frame`: frame `i` is included when any loud frame lies within
      `margin` frames of it. */
  function Dilate(loud: seq<bool>, margin: nat): (included: seq<bool>)
    ensures |included| == |loud|
  {
    seq(|loud|, i requires 0 <= i < |loud| => AnyLoud(loud[WindowStart(i, margin)..WindowEnd(i, margin, |loud|)]))
  }

  /** Frame `i` is included exactly when some frame at most `margin` away is loud. */
  lemma DilateWindows(loud: seq<bool>, margin: nat, i: nat)
    requires i < |loud|
    ensures Dilate(loud, margin)[i] <==> exists t :: i - margin <= t <= i + margin && 0 <= t < |loud| && loud[t]
  {
    var w := loud[WindowStart(i, margin)..WindowEnd(i, margin, |loud|)];
    AnyLoudIn(w);
    if Dilate(loud, margin)[i] {
      var k :| 0 <= k < |w| && w[k];
      assert loud[WindowStart(i, margin) + k];
    }
    if exists t :: i - margin <= t <= i + margin && 0 <= t < |loud| && loud[t] {
      var t :| i - margin <= t <= i + margin && 0 <= t < |loud| && loud[t];
      assert w[t - WindowStart(i, margin)];
    }
  }

  /** With no margin the included frames are exactly the loud ones. */
  lemma DilateZeroMargin(loud: seq<bool>)
    ensures Dilate(loud, 0) == loud
  {
    var d := Dilate(loud, 0);
    forall i | 0 <= i < |loud|
      ensures d[i] == loud[i]
    {
      assert WindowStart(i, 0) == i && WindowEnd(i, 0, |loud|) == i + 1;
      assert loud[i..i + 1] == [loud[i]];
      AnyLoudIn([loud[i]]);
    }
  }

  /** A loud frame is always included, and so is every frame within the margin of it. */
  lemma DilateKeepsLoud(loud: seq<bool>, margin: nat, i: nat, t: nat)
    requires i < |loud| && t < |loud| && loud[t] && i - margin <= t <= i + margin
    ensures Dilate(loud, margin)[i]
  {
    DilateWindows(loud, margin, i);
  }

  /** `np.max(has_loud_audio[start:end])` over the window of frame `i`. */
  method WindowMax(hasLoudAudio: seq<bool>, i: nat, margin: nat) returns (included: bool)
    requires i < |hasLoudAudio|
    ensures included == Dilate(hasLoudAudio, margin)[i]
  {
    var window := hasLoudAudio[WindowStart(i, margin)..WindowEnd(i, margin, |hasLoudAudio|)];
    included := true in window;
    AnyLoudIn(window);
  }

  /** One iteration of the loop of `get_edit_points` at frame `i`: the window
      maximum is stored, and a point is appended when the classification flips. */
  method ScanFrame(hasLoudAudio: seq<bool>, margin: nat, shouldIncludeFrame: array<bool>, i: nat,
                   editPoints: seq<EditPoint>) returns (next: seq<EditPoint>)
    requires shouldIncludeFrame.Length == |hasLoudAudio| && i < |hasLoudAudio| && |editPoints| >= 1
    requires shouldIncludeFrame[..i] == Dilate(hasLoudAudio, margin)[..i]
    modifies shouldIncludeFrame
    ensures shouldIncludeFrame[..] == old(shouldIncludeFrame[..])[i := Dilate(hasLoudAudio, margin)[i]]
    ensures next == ScanStep(editPoints, Dilate(hasLoudAudio, margin), i)
  {
    ghost var included := Dilate(hasLoudAudio, margin);
    assert i >= 1 ==> shouldIncludeFrame[i - 1] == shouldIncludeFrame[..i][i - 1];
    shouldIncludeFrame[i] := WindowMax(hasLoudAudio, i, margin);
    next := editPoints;
    if i >= 1 && shouldIncludeFrame[i] != shouldIncludeFrame[i - 1] {
      next := editPoints + [EditPoint(editPoints[|editPoints| - 1].endFrame, i, shouldIncludeFrame[i - 1])];
    }
  }

  /** The loop of `get_edit_points` over a zero-filled `should_include_frame`:
      the array ends up holding the dilated map, and the points are the scan of it. */
  method ScanFrames(hasLoudAudio: seq<bool>, margin: nat, shouldIncludeFrame: array<bool>)
    returns (editPoints: seq<EditPoint>)
    requires shouldIncludeFrame.Length == |hasLoudAudio|
    modifies shouldIncludeFrame
    ensures editPoints == ScanPrefix(Dilate(hasLoudAudio, margin), |hasLoudAudio|)
    ensures shouldIncludeFrame[..] == Dilate(hasLoudAudio, margin)
  {
    ghost var included := Dilate(hasLoudAudio, margin);
    editPoints := [EditPoint(0, 0, false)];
    for i := 0 to |hasLoudAudio|
      invariant editPoints == ScanPrefix(included, i)
      invariant shouldIncludeFrame[..i] == included[..i]
    {
      ghost var before := shouldIncludeFrame[..];
      editPoints := ScanFrame(hasLoudAudio, margin, shouldIncludeFrame, i, editPoints);
      assert shouldIncludeFrame[..i + 1] == before[..i] + [included[i]];
    }
    assert shouldIncludeFrame[..] == shouldIncludeFrame[..|hasLoudAudio|];
  }

  /** `get_edit_points`. The sentinel `EditPoint(0, 0, 0)` seeds the list and is
      dropped; an empty map fails at `should_include_frame[-1]`. */
  method GetEditPoints(p: InputParameter, hasLoudAudio: seq<bool>) returns (r: Result<seq<EditPoint>, Error>)
    requires |hasLoudAudio| == p.audioFrameCount
    ensures r.Failure? <==> p.audioFrameCount == 0
    ensures r.Success? ==> IsSegmentation(r.value, Dilate(hasLoudAudio, p.config.frameMargin))
    ensures r.Success? ==> r.value == Runs(Dilate(hasLoudAudio, p.config.frameMargin), 0)
  {
    var n := p.audioFrameCount;
    var shouldIncludeFrame := new bool[n](_ => false);
    var editPoints := ScanFrames(hasLoudAudio, p.config.frameMargin, shouldIncludeFrame);
    if n == 0 {
      return Failure(IndexError);
    }
    ScanPrefixScanned(Dilate(hasLoudAudio, p.config.frameMargin), n);
    assert shouldIncludeFrame[n - 1] == Dilate(hasLoudAudio, p.config.frameMargin)[n - 1];
    ScanClose(editPoints, Dilate(hasLoudAudio, p.config.frameMargin), shouldIncludeFrame[n - 1]);
    editPoints := editPoints + [EditPoint(editPoints[|editPoints| - 1].endFrame, n, shouldIncludeFrame[n - 1])];
    r := Success(editPoints[1..]);
  }

  /** The map `[0, 0, 1, 1, 0, 0]` with no margin gives a silent, a loud and a
      silent span of two frames each. */
  lemma ExampleEditPoints()
    ensures Runs(Dilate([false, false, true, true, false, false], 0), 0)
         == [EditPoint(0, 2, false), EditPoint(2, 4, true), EditPoint(4, 6, false)]
  {
    var loud := [false, false, true, true, false, false];
    DilateZeroMargin(loud);
    var expected := [EditPoint(0, 2, false), EditPoint(2, 4, true), EditPoint(4, 6, false)];
    assert SegmentsFrom(expected, loud, 0);
    SegmentationIsRuns(expected, loud, 0);
  }

  // ---------------------------------------------------------------------------
  // Shaping the stretched audio (`fade_out_silence` and the short-chunk rule)
  // ---------------------------------------------------------------------------

  /** `audio_data[:e] *= arange(e) / e`: sample `t` of the first `e` is scaled by `t / e`. */
  function FadeIn(a: seq<real>, e: nat): (r: seq<real>)
    requires 0 < e <= |a|
    ensures |r| == |a|
  {
    FadingIn(a, e, e)
  }

  /** `audio_data[-e:] *= 1 - arange(e) / e`: sample `k` of the last `e` is scaled by
      `1 - k / e`. */
  function FadeOut(a: seq<real>, e: nat): (r: seq<real>)
    requires 0 < e <= |a|
    ensures |r| == |a|
  {
    FadingOut(a, e, e)
  }

  /** `fade_out_silence`: the fade-in, then the fade-out over the faded samples. */
  function Faded(a: seq<real>, e: nat): (r: seq<real>)
    requires 0 < e <= |a|
    ensures |r| == |a|
  {
    FadeOut(FadeIn(a, e), e)
  }

  /** The rule in `execute`: a chunk shorter than the envelope is silenced, any
      other is faded. */
  function Shaped(a: seq<real>, e: nat): (r: seq<real>)
    requires 0 < e
    ensures |r| == |a|
  {
    if |a| < e then seq(|a|, _ => 0.0) else Faded(a, e)
  }

  /** A chunk shorter than the envelope comes out silent. */
  lemma ShortChunkSilent(a: seq<real>, e: nat)
    requires 0 < e && |a| < e
    ensures forall t :: 0 <= t < |a| ==> Shaped(a, e)[t] == 0.0
  {
  }

  /** Fading touches the first and last `e` samples only, and the first sample
      becomes silent. */
  lemma FadeTouchesEnds(a: seq<real>, e: nat)
    requires 0 < e <= |a|
    ensures forall t :: e <= t < |a| - e ==> Shaped(a, e)[t] == a[t]
    ensures Shaped(a, e)[0] == 0.0
  {
    assert InFactor(0, e) == 0.0;
    assert FadeIn(a, e)[0] == 0.0;
  }

  /** The envelope ramps: inside the first `e` samples, and away from the last `e`,
      sample `t` is scaled by exactly `t / e`. */
  lemma FadeInRamp(a: seq<real>, e: nat, t: nat)
    requires 0 < e <= |a| && t < e && t < |a| - e
    ensures Shaped(a, e)[t] == a[t] * (t as real / e as real)
  {
  }

  /** The fade-in factor of sample `t` of an envelope of `e` samples. */
  function InFactor(t: nat, e: nat): real
    requires 0 < e
  {
    t as real / e as real
  }

  /** The fade-out factor of sample `k` of the last `e` samples. */
  function OutFactor(k: nat, e: nat): real
    requires 0 < e
  {
    1.0 - k as real / e as real
  }

  /** The first loop of `fade_out_silence` after `k` of its `e` steps. */
  function FadingIn(a: seq<real>, e: nat, k: nat): (r: seq<real>)
    requires 0 < e
    ensures |r| == |a|
  {
    seq(|a|, t requires 0 <= t < |a| => if t < k then a[t] * InFactor(t, e) else a[t])
  }

  /** The second loop of `fade_out_silence` after `k` of its `e` steps. */
  function FadingOut(a: seq<real>, e: nat, k: nat): (r: seq<real>)
    requires 0 < e <= |a|
    ensures |r| == |a|
  {
    seq(|a|, t requires 0 <= t < |a| =>
      if |a| - e <= t < |a| - e + k then a[t] * OutFactor(t - (|a| - e), e) else a[t])
  }

  lemma FadingInStep(a: seq<real>, e: nat, k: nat)
    requires 0 < e && k < |a|
    ensures FadingIn(a, e, k)[k := a[k] * InFactor(k, e)] == FadingIn(a, e, k + 1)
  {
    var u := FadingIn(a, e, k)[k := a[k] * InFactor(k, e)];
    forall t | 0 <= t < |a|
      ensures u[t] == FadingIn(a, e, k + 1)[t]
    {
    }
  }

  lemma FadingOutStep(a: seq<real>, e: nat, k: nat, t: nat)
    requires 0 < e <= |a| && k < e && t == |a| - e + k
    ensures FadingOut(a, e, k)[t := a[t] * OutFactor(k, e)] == FadingOut(a, e, k + 1)
  {
    var u := FadingOut(a, e, k)[t := a[t] * OutFactor(k, e)];
    forall j | 0 <= j < |a|
      ensures u[j] == FadingOut(a, e, k + 1)[j]
    {
    }
  }

  /** One sample of an in-place `*=`. */
  method ScaleSample(audio: array<real>, t: nat, factor: real)
    requires t < audio.Length
    modifies audio
    ensures audio[t] == old(audio[t]) * factor
    ensures audio[..] == old(audio[..])[t := audio[t]]
  {
    audio[t] := audio[t] * factor;
  }

  /** `audio_data[:e] *= arange(e) / e` on the array in place. */
  method FadeInPlace(audio: array<real>, e: nat)
    requires 0 < e <= audio.Length
    modifies audio
    ensures audio[..] == FadeIn(old(audio[..]), e)
  {
    ghost var a := audio[..];
    for k := 0 to e
      invariant audio[..] == FadingIn(a, e, k)
    {
      ghost var before := audio[..];
      assert audio[k] == a[k];
      ScaleSample(audio, k, InFactor(k, e));
      assert audio[k] == a[k] * InFactor(k, e);
      assert audio[..] == before[k := audio[k]];
      FadingInStep(a, e, k);
    }
  }

  /** `audio_data[-e:] *= 1 - arange(e) / e` on the array in place. */
  method FadeOutPlace(audio: array<real>, e: nat)
    requires 0 < e <= audio.Length
    modifies audio
    ensures audio[..] == FadeOut(old(audio[..]), e)
  {
    ghost var a := audio[..];
    var n := audio.Length;
    for k := 0 to e
      invariant audio[..] == FadingOut(a, e, k)
    {
      var t := n - e + k;
      assert t == |a| - e + k;
      ghost var before := audio[..];
      assert audio[t] == a[t];
      ScaleSample(audio, t, OutFactor(k, e));
      assert audio[t] == a[t] * OutFactor(k, e);
      assert audio[..] == before[t := audio[t]];
      FadingOutStep(a, e, k, t);
    }
  }

  /** `fade_out_silence` on the array in place: the two loops over the envelope. */
  method FadeOutSilence(audio: array<real>, e: nat)
    requires 0 < e <= audio.Length
    modifies audio
    ensures audio[..] == Faded(old(audio[..]), e)
  {
    FadeInPlace(audio, e);
    FadeOutPlace(audio, e);
  }

  /** Lines 87-91 of `execute`: `altered_audio_data[:] = 0` for a short chunk, else
      `fade_out_silence`. */
  method ShapeChunk(audio: array<real>, e: nat)
    requires 0 < e
    modifies audio
    ensures audio[..] == Shaped(old(audio[..]), e)
  {
    if audio.Length < e {
      for k := 0 to audio.Length
        invariant forall t :: 0 <= t < k ==> audio[t] == 0.0
      {
        audio[k] := 0.0;
      }
      assert audio[..] == seq(audio.Length, _ => 0.0);
    } else {
      FadeOutSilence(audio, e);
    }
  }

  // ---------------------------------------------------------------------------
  // Progress reporting (`print_progress`)
  // ---------------------------------------------------------------------------

  /** What one progress line shows: the bar length `int(progress / 5)`, the
      counts, and whether it ends the line. The float formatting is not modelled. */
  datatype ProgressLine = ProgressLine(bars: int, current: int, total: int, final: bool)

  /** `current * 100 / total`. */
  function Progress(current: int, total: int): real
    requires total != 0
  {
    current as real * 100.0 / total as real
  }

  /** The state machine of `print_progress`: the new `last_progress` and the line
      written, if any. */
  function ProgressStep(lastProgress: real, current: int, total: int): (r: (real, Option<ProgressLine>))
    requires total != 0
  {
    var progress := Progress(current, total);
    if progress - lastProgress > 1.0 then
      (progress, Some(ProgressLine(Trunc(progress / 5.0), current, total, false)))
    else if current == total then
      (progress, Some(ProgressLine(Trunc(progress / 5.0), current, total, true)))
    else (lastProgress, None)
  }

  /** `last_progress` moves exactly when a line is written, which happens when the
      progress gained more than one point or the work is complete; it then holds
      the current progress. */
  lemma ProgressThrottle(lastProgress: real, current: int, total: int)
    requires total != 0
    ensures var (next, line) := ProgressStep(lastProgress, current, total);
      && (line.Some? <==> Progress(current, total) - lastProgress > 1.0 || current == total)
      && (line.Some? ==> next == Progress(current, total))
      && (line.None? ==> next == lastProgress)
      && (line.Some? ==> (line.value.final <==> Progress(current, total) - lastProgress <= 1.0))
  {
  }

  /** The last step of a run, `current == total`, always leaves 100. */
  lemma ProgressCompletes(lastProgress: real, total: int)
    requires total != 0
    ensures ProgressStep(lastProgress, total, total).0 == 100.0
    ensures ProgressStep(lastProgress, total, total).1.Some?
  {
    assert total as real * 100.0 / total as real == 100.0;
  }

  // ---------------------------------------------------------------------------
  // The output clock (`execute`)
  // ---------------------------------------------------------------------------

  /** `audio_data[int(start_frame * spf):int(end_frame * spf)]`. */
  function PointSamples(p: InputParameter, point: EditPoint): seq<int>
    requires p.samplesPerFrame > 0.0
  {
    Slice(p.audioData, ChunkStart(p, point.startFrame), ChunkStart(p, point.endFrame))
  }

  /** The time-stretched audio of a point, at the point's speed, shaped. */
  function Altered(p: InputParameter, stretch: (seq<int>, real) -> seq<real>, point: EditPoint): (a: seq<real>)
    requires Entered(p)
    ensures |a| == |stretch(PointSamples(p, point), SpeedOf(p.config, point.shouldKeep))|
  {
    Shaped(stretch(PointSamples(p, point), SpeedOf(p.config, point.shouldKeep)), p.config.audioFadeEnvelopeSize)
  }

  /** The audio `execute` produces for each point, as one function. */
  function Alteration(p: InputParameter, stretch: (seq<int>, real) -> seq<real>): (alter: EditPoint -> seq<real>)
    requires Entered(p)
    ensures forall point :: alter(point) == Altered(p, stretch, point)
  {
    point => Altered(p, stretch, point)
  }

  /** The sample cursor `start_frame` after the given points: the lengths of
      their audio summed. */
  function Cursor(alter: EditPoint -> seq<real>, points: seq<EditPoint>): nat
  {
    if points == [] then 0
    else Cursor(alter, points[..|points| - 1]) + |alter(points[|points| - 1])|
  }

  /** `int(math.ceil(cursor / samples_per_frame))`. */
  function OutputFrame(samplesPerFrame: real, cursor: nat): int
    requires samplesPerFrame > 0.0
  {
    Ceil(cursor as real / samplesPerFrame)
  }

  /** The call `execute` makes for `point` once the points `done` are behind it. */
  function EventAfter(samplesPerFrame: real, alter: EditPoint -> seq<real>, done: seq<EditPoint>, point: EditPoint): EditEvent
    requires samplesPerFrame > 0.0
  {
    var start := Cursor(alter, done);
    var audio := alter(point);
    EditEvent(point, audio, OutputFrame(samplesPerFrame, start), OutputFrame(samplesPerFrame, start + |audio|))
  }

  /** The `apply_edit_point` calls `execute` makes for the given points: call `k`
      is the one for point `k` once the points before it are behind it. */
  function Events(samplesPerFrame: real, alter: EditPoint -> seq<real>, points: seq<EditPoint>): (events: seq<EditEvent>)
    requires samplesPerFrame > 0.0
    ensures |events| == |points|
  {
    seq(|points|, k requires 0 <= k < |points| => EventAfter(samplesPerFrame, alter, points[..k], points[k]))
  }

  lemma DivideMonotone(a: real, b: real, s: real)
    requires a <= b && s > 0.0
    ensures a / s <= b / s
  {
    assert b / s - a / s == (b - a) / s;
    QuotientSign(b - a, s);
  }

  /** The cursor after point `k` is the cursor before it plus the length of its audio. */
  lemma CursorStep(alter: EditPoint -> seq<real>, points: seq<EditPoint>, k: nat)
    requires k < |points|
    ensures Cursor(alter, points[..k + 1]) == Cursor(alter, points[..k]) + |alter(points[k])|
  {
    assert points[..k + 1][..k] == points[..k];
  }

  /** One more point adds one call at the end and leaves the earlier ones alone. */
  lemma EventsAppend(samplesPerFrame: real, alter: EditPoint -> seq<real>, points: seq<EditPoint>, i: nat)
    requires samplesPerFrame > 0.0 && i < |points|
    ensures Events(samplesPerFrame, alter, points[..i + 1])
         == Events(samplesPerFrame, alter, points[..i]) + [EventAfter(samplesPerFrame, alter, points[..i], points[i])]
  {
    var longer := Events(samplesPerFrame, alter, points[..i + 1]);
    var shorter := Events(samplesPerFrame, alter, points[..i]);
    forall k | 0 <= k < i
      ensures longer[k] == shorter[k]
    {
      assert points[..i + 1][..k] == points[..k] == points[..i][..k];
    }
    assert points[..i + 1][..i] == points[..i];
  }

  /** The output clock starts at frame 0. */
  lemma OutputClockStarts(samplesPerFrame: real, alter: EditPoint -> seq<real>, points: seq<EditPoint>)
    requires samplesPerFrame > 0.0 && points != []
    ensures Events(samplesPerFrame, alter, points)[0].startOutputFrame == 0
  {
    assert points[..0] == [];
    QuotientSign(0.0, samplesPerFrame);
  }

  /** Every event starts at the output frame where the previous one ended. */
  lemma OutputClockChains(samplesPerFrame: real, alter: EditPoint -> seq<real>, points: seq<EditPoint>, k: nat)
    requires samplesPerFrame > 0.0 && k + 1 < |points|
    ensures Events(samplesPerFrame, alter, points)[k].endOutputFrame
         == Events(samplesPerFrame, alter, points)[k + 1].startOutputFrame
  {
    CursorStep(alter, points, k);
  }

  /** No event runs backwards on the output clock. */
  lemma OutputClockForward(samplesPerFrame: real, alter: EditPoint -> seq<real>, points: seq<EditPoint>, k: nat)
    requires samplesPerFrame > 0.0 && k < |points|
    ensures Events(samplesPerFrame, alter, points)[k].startOutputFrame
         <= Events(samplesPerFrame, alter, points)[k].endOutputFrame
  {
    var before := Cursor(alter, points[..k]);
    var after := before + |alter(points[k])|;
    DivideMonotone(before as real, after as real, samplesPerFrame);
    CeilMonotone(before as real / samplesPerFrame, after as real / samplesPerFrame);
  }

  /** The body of the loop in `execute` for one point: its samples, stretched at
      its speed, shaped, and the output frames of the cursor before and after. */
  method StretchPoint(p: InputParameter, stretch: (seq<int>, real) -> seq<real>, editPoint: EditPoint, startFrame: nat)
    returns (event: EditEvent, endFrame: nat)
    requires Entered(p)
    ensures endFrame == startFrame + |Altered(p, stretch, editPoint)|
    ensures event == EditEvent(editPoint, Altered(p, stretch, editPoint),
                               OutputFrame(p.samplesPerFrame, startFrame), OutputFrame(p.samplesPerFrame, endFrame))
  {
    var audioChunk := Slice(p.audioData, ChunkStart(p, editPoint.startFrame), ChunkStart(p, editPoint.endFrame));
    var altered := stretch(audioChunk, SpeedOf(p.config, editPoint.shouldKeep));
    var audio := new real[|altered|](k requires 0 <= k < |altered| => altered[k]);
    assert audio[..] == altered;
    ShapeChunk(audio, p.config.audioFadeEnvelopeSize);
    endFrame := startFrame + audio.Length;
    var startOutputFrame := Ceil(startFrame as real / p.samplesPerFrame);
    var endOutputFrame := Ceil(endFrame as real / p.samplesPerFrame);
    event := EditEvent(editPoint, audio[..], startOutputFrame, endOutputFrame);
  }

  /** The editor: the parameters it runs on and the progress it last reported. */
  class Editor {
    const parameter: InputParameter
    var lastProgress: real

    constructor(parameter: InputParameter)
      ensures this.parameter == parameter && lastProgress == 0.0
    {
      this.parameter := parameter;
      lastProgress := 0.0;
    }

    /** `print_progress`. */
    method PrintProgress(current: int, total: int) returns (line: Option<ProgressLine>)
      requires total != 0
      modifies this
      ensures (lastProgress, line) == ProgressStep(old(lastProgress), current, total)
    {
      var progress := current as real * 100.0 / total as real;
      line := None;
      if progress - lastProgress > 1.0 {
        lastProgress := progress;
        line := Some(ProgressLine(Trunc(progress / 5.0), current, total, false));
      } else if current == total {
        lastProgress := progress;
        line := Some(ProgressLine(Trunc(progress / 5.0), current, total, true));
      }
    }

    /** The loop of `execute` over the edit points: each point's audio, the cursor
        advanced by its length, and the progress reported at the point's end frame. */
    method ApplyEditPoints(stretch: (seq<int>, real) -> seq<real>, editPoints: seq<EditPoint>)
      returns (events: seq<EditEvent>)
      requires Entered(parameter) && editPoints != []
      requires editPoints[|editPoints| - 1].endFrame == parameter.audioFrameCount
      modifies this
      ensures events == Events(parameter.samplesPerFrame, Alteration(parameter, stretch), editPoints)
      ensures lastProgress == 100.0
    {
      var p := parameter;
      ghost var alter := Alteration(p, stretch);
      var startFrame := 0;
      events := [];
      for i := 0 to |editPoints|
        invariant startFrame == Cursor(alter, editPoints[..i])
        invariant events == Events(p.samplesPerFrame, alter, editPoints[..i])
        invariant i == |editPoints| ==> lastProgress == 100.0
      {
        var event, endFrame := StretchPoint(p, stretch, editPoints[i], startFrame);
        EventsAppend(p.samplesPerFrame, alter, editPoints, i);
        CursorStep(alter, editPoints, i);
        events := events + [event];
        ghost var before := lastProgress;
        var _ := PrintProgress(editPoints[i].endFrame, p.audioFrameCount);
        if i == |editPoints| - 1 {
          ProgressCompletes(before, p.audioFrameCount);
        }
        startFrame := endFrame;
      }
      assert editPoints[..|editPoints|] == editPoints;
    }

    /** `execute`: the loud map, the edit points, then one `apply_edit_point` per
        point with the cursor advanced by the stretched length. The calls are
        returned in order; `stretch` is the phase vocoder. */
    method Execute(stretch: (seq<int>, real) -> seq<real>) returns (r: Result<seq<EditEvent>, Error>)
      requires Entered(parameter)
      modifies this
      ensures r.Failure? <==> LoudFrame(parameter).Failure? || parameter.audioFrameCount == 0
      ensures r.Success? ==>
        r.value == Events(parameter.samplesPerFrame, Alteration(parameter, stretch),
                          Runs(Dilate(LoudFrame(parameter).value, parameter.config.frameMargin), 0))
      ensures r.Success? ==> lastProgress == 100.0
    {
      var p := parameter;
      var hasLoudAudio := GetLoudFrame(p);
      if hasLoudAudio.Failure? {
        return Failure(hasLoudAudio.error);
      }
      var found := GetEditPoints(p, hasLoudAudio.value);
      if found.Failure? {
        return Failure(found.error);
      }
      RunsEnd(Dilate(hasLoudAudio.value, p.config.frameMargin), 0);
      var events := ApplyEditPoints(stretch, found.value);
      r := Success(events);
    }
  }
}
