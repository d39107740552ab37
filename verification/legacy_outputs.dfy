/** outputs.py, the older top-level copy of the sinks. Its `BaseOutput` does
    nothing with an edit point (no mapping file), its `EdlOutput` numbers the
    same entries as the newer one, and its `VideoOutput` gathers the
    normalised audio and copies, for every output frame, the extracted source
    frame the speed maps it to, or the last one that existed when that one is
    missing. The frame files are the `extracted` predicate; copying a file is a
    `FrameCopy` record. */
module LegacyOutputs {
  import opened Wrappers
  import opened Numeric
  import opened EditPoints
  import opened Outputs

  /** `EdlOutput` of outputs.py: the same entries as the newer sink, with no
      mapping lines. */
  class LegacyEdlOutput {
    const frameRate: real
    var index: nat
    var entries: seq<EdlEntry>
    ghost var history: seq<EditEvent>

    ghost predicate Valid()
      reads this
    {
      entries == EdlEntries(history, frameRate) && index == |entries| + 1
    }

    constructor(frameRate: real)
      ensures Valid() && history == [] && index == 1 && this.frameRate == frameRate
    {
      this.frameRate := frameRate;
      index := 1;
      entries := [];
      history := [];
    }

    /** `EdlOutput.apply_edit_point`: an entry numbered `index` when the output
        spans more than one frame. */
    method ApplyEditPoint(e: EditEvent)
      requires Valid()
      modifies this
      ensures Valid() && history == old(history) + [e]
      ensures Written(e) ==> entries == old(entries) + [EntryOf(e, old(index), frameRate)] && index == old(index) + 1
      ensures !Written(e) ==> entries == old(entries) && index == old(index)
    {
      if (e.endOutputFrame + 1) - (e.startOutputFrame + 1) > 1 {
        var motion := MotionLine(e, frameRate);
        entries := entries + [EdlEntry(index, e.point.startFrame + 1, e.point.endFrame + 1,
                                       e.startOutputFrame + 1, e.endOutputFrame + 1, motion)];
        index := index + 1;
      }
      history := history + [e];
      assert history[..|history| - 1] == old(history);
    }
  }

  /** `audio_data / max_audio_volume`. */
  function Normalised(audio: seq<real>, peak: int): (r: seq<real>)
    requires peak > 0
    ensures |r| == |audio|
    ensures forall k :: 0 <= k < |r| ==> r[k] * peak as real == audio[k]
  {
    seq(|audio|, k requires 0 <= k < |audio| => audio[k] / peak as real)
  }

  /** `int(start_frame + speed * j)`. */
  function SourceFrame(point: EditPoint, speed: real, j: int): int
  {
    Trunc(point.startFrame as real + speed * j as real)
  }

  /** The source frame of each output frame of the span: output frame
      `start_output_frame + j` shows source frame `int(start_frame + speed * j)`. */
  function Sources(point: EditPoint, speed: real, startOutputFrame: int, endOutputFrame: int): (s: seq<int>)
    ensures |s| == Max(0, endOutputFrame - startOutputFrame)
  {
    seq(Max(0, endOutputFrame - startOutputFrame), j => SourceFrame(point, speed, j))
  }

  /** Source frame `j` of the span is `start_frame + speed * j` truncated toward
      zero, the way `int()` truncates. */
  lemma SourcesTruncate(point: EditPoint, speed: real, startOutputFrame: int, endOutputFrame: int)
    ensures var s := Sources(point, speed, startOutputFrame, endOutputFrame);
      forall j :: 0 <= j < |s| ==> TruncatesTo(point.startFrame as real + speed * j as real, s[j])
  {
  }

  /** The last frame of `s` that was extracted, `prior` when none was: the value
      `last_existing_frame` holds after trying the frames of `s` in order. */
  function LastExisting(s: seq<int>, extracted: int -> bool, prior: Option<int>): Option<int>
  {
    if s == [] then prior
    else if extracted(s[|s| - 1]) then Some(s[|s| - 1])
    else LastExisting(s[..|s| - 1], extracted, prior)
  }

  /** With no frame of `s` extracted, `LastExisting` is the prior value. */
  lemma {:induction false} LastExistingNone(s: seq<int>, extracted: int -> bool, prior: Option<int>)
    requires forall k :: 0 <= k < |s| ==> !extracted(s[k])
    ensures LastExisting(s, extracted, prior) == prior
  {
    if s != [] {
      LastExistingNone(s[..|s| - 1], extracted, prior);
    }
  }

  /** Once frame `i` of `s` was extracted, `LastExisting` is an extracted frame
      of `s` at or after `i`, after which none is. */
  lemma {:induction false} LastExistingIsLatest(s: seq<int>, extracted: int -> bool, prior: Option<int>, i: nat)
    requires i < |s| && extracted(s[i])
    ensures exists k :: (i <= k < |s| && extracted(s[k]) && LastExisting(s, extracted, prior) == Some(s[k])
                         && forall j :: k < j < |s| ==> !extracted(s[j]))
  {
    if !extracted(s[|s| - 1]) {
      var init := s[..|s| - 1];
      assert init[i] == s[i];
      LastExistingIsLatest(init, extracted, prior, i);
      var k :| i <= k < |init| && extracted(init[k]) && LastExisting(init, extracted, prior) == Some(init[k])
        && forall j :: k < j < |init| ==> !extracted(init[j]);
      assert s[k] == init[k];
      assert forall j :: k < j < |s| ==> !extracted(s[j]) by {
        forall j | k < j < |s|
          ensures !extracted(s[j])
        {
          if j < |s| - 1 {
            assert s[j] == init[j];
          }
        }
      }
    }
  }

  /** Trying the frames of `a` and then those of `b` ends where trying `b` from
      the outcome of `a` ends. */
  lemma {:induction false} LastExistingAppend(a: seq<int>, b: seq<int>, extracted: int -> bool, prior: Option<int>)
    ensures LastExisting(a + b, extracted, prior) == LastExisting(b, extracted, LastExisting(a, extracted, prior))
  {
    if b == [] {
      assert a + b == a;
    } else {
      assert (a + b)[..|a + b| - 1] == a + b[..|b| - 1];
      LastExistingAppend(a, b[..|b| - 1], extracted, prior);
    }
  }

  /** Copying `input`'s frame file to output frame `output`. */
  datatype FrameCopy = FrameCopy(input: int, output: int)

  /** The copies the loop over the output frames makes, the `last_existing_frame`
      it leaves, and whether it stopped on `None + 1` (TypeError): a missing
      source frame before any frame existed. */
  datatype CopyRun = CopyRun(copies: seq<FrameCopy>, last: Option<int>, failed: bool)

  /** The loop of `VideoOutput.apply_edit_point` over `sources`, output frames
      numbered from `firstOutput`: a frame that exists is copied and remembered,
      a missing one is replaced by the remembered one. The remembered frame always
      exists, so that fallback copy always succeeds. */
  function Run(sources: seq<int>, firstOutput: int, extracted: int -> bool, prior: Option<int>): CopyRun
    requires prior.None? || extracted(prior.value)
  {
    if sources == [] then CopyRun([], prior, false)
    else
      var next := if extracted(sources[0]) then Some(sources[0]) else prior;
      if next.None? then CopyRun([], None, true)
      else
        var rest := Run(sources[1..], firstOutput + 1, extracted, next);
        CopyRun([FrameCopy(next.value, firstOutput)] + rest.copies, rest.last, rest.failed)
  }

  /** The frame output frame `j` of the run is copied from: the last extracted
      one among the first `j + 1` sources. */
  function CopiedFrom(sources: seq<int>, j: nat, extracted: int -> bool, prior: Option<int>): Option<int>
    requires j < |sources|
  {
    LastExisting(sources[..j + 1], extracted, prior)
  }

  /** The loop stops only on its first frame, when that frame is missing and no
      frame has existed before; otherwise it copies one frame per output frame,
      output frame `firstOutput + j` getting the frame `CopiedFrom` names, and it
      leaves the
      last extracted source remembered. */
  lemma {:induction false} RunCopies(sources: seq<int>, firstOutput: int, extracted: int -> bool, prior: Option<int>)
    requires prior.None? || extracted(prior.value)
    ensures var run := Run(sources, firstOutput, extracted, prior);
      && (run.failed <==> sources != [] && prior.None? && !extracted(sources[0]))
      && (run.failed ==> run.copies == [])
      && (!run.failed ==>
        && |run.copies| == |sources|
        && run.last == LastExisting(sources, extracted, prior)
        && forall j :: 0 <= j < |sources| ==>
          CopiedFrom(sources, j, extracted, prior).Some?
          && run.copies[j] == FrameCopy(CopiedFrom(sources, j, extracted, prior).value, firstOutput + j))
  {
    if sources != [] {
      var next := if extracted(sources[0]) then Some(sources[0]) else prior;
      assert LastExisting([sources[0]], extracted, prior) == next by {
        assert [sources[0]][..0] == [];
      }
      if next.Some? {
        var tail := sources[1..];
        RunCopies(tail, firstOutput + 1, extracted, next);
        var run := Run(sources, firstOutput, extracted, prior);
        var rest := Run(tail, firstOutput + 1, extracted, next);
        assert sources == [sources[0]] + tail;
        LastExistingAppend([sources[0]], tail, extracted, prior);
        assert run.copies == [FrameCopy(next.value, firstOutput)] + rest.copies;
        if !rest.failed {
          forall j | 0 <= j < |sources|
            ensures CopiedFrom(sources, j, extracted, prior).Some?
            ensures run.copies[j] == FrameCopy(CopiedFrom(sources, j, extracted, prior).value, firstOutput + j)
          {
            if j == 0 {
              assert sources[..1] == [sources[0]];
            } else {
              assert sources[..j + 1] == [sources[0]] + tail[..j];
              LastExistingAppend([sources[0]], tail[..j], extracted, prior);
              var k := j - 1;
              assert run.copies[j] == rest.copies[k];
              assert tail[..j] == tail[..k + 1];
              assert CopiedFrom(tail, k, extracted, next).Some?;
            }
          }
          assert |run.copies| == |sources|;
          assert run.last == LastExisting(sources, extracted, prior);
        }
      }
    }
  }

  /** The source a copy reads: the frame itself when it was extracted, the last
      extracted frame before it otherwise. */
  lemma CopySource(sources: seq<int>, j: nat, extracted: int -> bool, prior: Option<int>)
    requires j < |sources|
    ensures CopiedFrom(sources, j, extracted, prior)
      == if extracted(sources[j]) then Some(sources[j]) else LastExisting(sources[..j], extracted, prior)
  {
    assert sources[..j + 1][..j] == sources[..j];
  }

  /** The failure of `copy_frame(None, output_frame)`: `None + 1`. */
  datatype CopyError = NoFrameYet

  /** `VideoOutput`. `speeds` is `new_speed`, `peak` is `max_audio_volume` and
      `extracted` tells which source frames `ffmpeg` extracted into the
      temporary folder. */
  class VideoOutput {
    const speeds: seq<real>
    const peak: int
    const extracted: int -> bool
    var lastExistingFrame: Option<int>
    var outputAudio: seq<real>
    var copies: seq<FrameCopy>

    ghost predicate Valid()
      reads this
    {
      |speeds| == 2 && peak > 0 && (lastExistingFrame.None? || extracted(lastExistingFrame.value))
    }

    constructor(speeds: seq<real>, peak: int, extracted: int -> bool)
      requires |speeds| == 2 && peak > 0
      ensures Valid() && lastExistingFrame == None && outputAudio == [] && copies == []
      ensures this.speeds == speeds && this.peak == peak && this.extracted == extracted
    {
      this.speeds := speeds;
      this.peak := peak;
      this.extracted := extracted;
      lastExistingFrame := None;
      outputAudio := [];
      copies := [];
    }

    /** `VideoOutput.apply_edit_point`: the audio is appended, then each output
        frame of the span gets its copy, as `Run` describes; on TypeError the
        copies made so far stay and the remembered frame is unchanged. */
    method ApplyEditPoint(point: EditPoint, audio: seq<real>, startOutputFrame: int, endOutputFrame: int)
      returns (r: Result<(), CopyError>)
      requires Valid()
      modifies this
      ensures Valid()
      ensures outputAudio == old(outputAudio) + Normalised(audio, peak)
      ensures |outputAudio| == |old(outputAudio)| + |audio|
      ensures var run := Run(Sources(point, speeds[if point.shouldKeep then 1 else 0], startOutputFrame, endOutputFrame),
                             startOutputFrame, extracted, old(lastExistingFrame));
        && copies == old(copies) + run.copies
        && (r.Failure? <==> run.failed)
        && lastExistingFrame == (if run.failed then old(lastExistingFrame) else run.last)
    {
      outputAudio := outputAudio + Normalised(audio, peak);
      var speed := speeds[if point.shouldKeep then 1 else 0];
      r := CopyFrames(point, speed, startOutputFrame, endOutputFrame);
    }

    /** The loop over the output frames of the span. */
    method CopyFrames(point: EditPoint, speed: real, startOutputFrame: int, endOutputFrame: int)
      returns (r: Result<(), CopyError>)
      requires Valid()
      modifies this
      ensures Valid() && outputAudio == old(outputAudio)
      ensures var run := Run(Sources(point, speed, startOutputFrame, endOutputFrame),
                             startOutputFrame, extracted, old(lastExistingFrame));
        && copies == old(copies) + run.copies
        && (r.Failure? <==> run.failed)
        && lastExistingFrame == (if run.failed then old(lastExistingFrame) else run.last)
    {
      ghost var sources := Sources(point, speed, startOutputFrame, endOutputFrame);
      ghost var target := Run(sources, startOutputFrame, extracted, lastExistingFrame);
      ghost var done: seq<FrameCopy> := [];
      var outputFrame := startOutputFrame;
      while outputFrame < endOutputFrame
        invariant startOutputFrame <= outputFrame && outputFrame - startOutputFrame <= |sources|
        invariant Valid() && copies == old(copies) + done && outputAudio == old(outputAudio)
        invariant old(lastExistingFrame).Some? ==> lastExistingFrame.Some?
        invariant Resumes(done, sources, outputFrame - startOutputFrame, startOutputFrame, extracted, lastExistingFrame, target)
        decreases endOutputFrame - outputFrame
      {
        var i := outputFrame - startOutputFrame;
        var inputFrame := InputFrame(point, speed, startOutputFrame, endOutputFrame, outputFrame);
        ResumeStep(done, sources, i, startOutputFrame, extracted, lastExistingFrame, target);
        ghost var next := if extracted(inputFrame) then Some(inputFrame) else lastExistingFrame;
        var copied := CopyOutputFrame(inputFrame, outputFrame);
        if !copied {
          return Failure(NoFrameYet);
        }
        assert lastExistingFrame == next && inputFrame == sources[i];
        done := done + [FrameCopy(next.value, outputFrame)];
        outputFrame := outputFrame + 1;
        assert Resumes(done, sources, i + 1, startOutputFrame, extracted, next, target);
      }
      ResumeEnd(done, sources, startOutputFrame, extracted, lastExistingFrame, target);
      r := Success(());
    }

    /** `int(start_frame + speed * (output_frame - start_output_frame))`. */
    method InputFrame(point: EditPoint, speed: real, startOutputFrame: int, endOutputFrame: int, outputFrame: int)
      returns (inputFrame: int)
      requires startOutputFrame <= outputFrame < endOutputFrame
      ensures inputFrame == Sources(point, speed, startOutputFrame, endOutputFrame)[outputFrame - startOutputFrame]
    {
      inputFrame := SourceFrame(point, speed, outputFrame - startOutputFrame);
    }

    /** The body of the loop: `copy_frame(input_frame, output_frame)`, which
        succeeds when the source frame was extracted, and otherwise
        `copy_frame(last_existing_frame, output_frame)`; false on `None + 1`. */
    method CopyOutputFrame(inputFrame: int, outputFrame: int) returns (copied: bool)
      requires Valid()
      modifies this
      ensures Valid() && outputAudio == old(outputAudio)
      ensures var next := if extracted(inputFrame) then Some(inputFrame) else old(lastExistingFrame);
        && (copied <==> next.Some?)
        && (copied ==> copies == old(copies) + [FrameCopy(next.value, outputFrame)] && lastExistingFrame == next)
        && (!copied ==> copies == old(copies) && lastExistingFrame == old(lastExistingFrame))
    {
      if extracted(inputFrame) {
        copies := copies + [FrameCopy(inputFrame, outputFrame)];
        lastExistingFrame := Some(inputFrame);
        return true;
      } else if lastExistingFrame.None? {
        return false;
      } else {
        copies := copies + [FrameCopy(lastExistingFrame.value, outputFrame)];
        return true;
      }
    }
  }

  /** The copies made so far followed by the run over the frames still to come. */
  function Then(done: seq<FrameCopy>, rest: CopyRun): CopyRun
  {
    CopyRun(done + rest.copies, rest.last, rest.failed)
  }

  lemma ThenStep(done: seq<FrameCopy>, c: FrameCopy, rest: CopyRun)
    ensures Then(done + [c], rest) == Then(done, Then([c], rest))
  {
    assert done + [c] + rest.copies == done + ([c] + rest.copies);
  }

  /** The loop state after `i` frames: the copies `done` so far, followed by the
      run over the remaining sources from the remembered frame `last`, make up
      the whole run `target`. */
  ghost predicate Resumes(done: seq<FrameCopy>, sources: seq<int>, i: nat, firstOutput: int,
                          extracted: int -> bool, last: Option<int>, target: CopyRun)
  {
    i <= |sources| && (last.None? || extracted(last.value))
    && Then(done, Run(sources[i..], firstOutput + i, extracted, last)) == target
  }

  /** One frame of the loop: a missing frame with nothing remembered ends the
      whole run failed after `done`; otherwise the state moves on by one copy. */
  lemma ResumeStep(done: seq<FrameCopy>, sources: seq<int>, i: nat, firstOutput: int,
                   extracted: int -> bool, last: Option<int>, target: CopyRun)
    requires Resumes(done, sources, i, firstOutput, extracted, last, target) && i < |sources|
    ensures var next := if extracted(sources[i]) then Some(sources[i]) else last;
      && (next.None? ==> target == CopyRun(done, None, true))
      && (next.Some? ==> Resumes(done + [FrameCopy(next.value, firstOutput + i)], sources, i + 1,
                                 firstOutput, extracted, next, target))
  {
    StepRun(sources, i, firstOutput, extracted, last);
    var next := if extracted(sources[i]) then Some(sources[i]) else last;
    if next.Some? {
      ThenStep(done, FrameCopy(next.value, firstOutput + i), Run(sources[i + 1..], firstOutput + i + 1, extracted, next));
    }
  }

  /** Once every source is done, the whole run is the copies made. */
  lemma ResumeEnd(done: seq<FrameCopy>, sources: seq<int>, firstOutput: int,
                  extracted: int -> bool, last: Option<int>, target: CopyRun)
    requires Resumes(done, sources, |sources|, firstOutput, extracted, last, target)
    ensures target == CopyRun(done, last, false)
  {
    assert sources[|sources|..] == [];
  }

  /** One step of the loop: the run over `sources[i..]` is this frame's copy
      followed by the run over `sources[i + 1..]`. */
  lemma StepRun(sources: seq<int>, i: nat, firstOutput: int, extracted: int -> bool, last: Option<int>)
    requires i < |sources| && (last.None? || extracted(last.value))
    ensures var next := if extracted(sources[i]) then Some(sources[i]) else last;
      Run(sources[i..], firstOutput + i, extracted, last)
        == if next.None? then CopyRun([], None, true)
           else Then([FrameCopy(next.value, firstOutput + i)], Run(sources[i + 1..], firstOutput + i + 1, extracted, next))
  {
    assert sources[i..][0] == sources[i];
    assert sources[i..][1..] == sources[i + 1..];
  }
}
