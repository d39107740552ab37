/** src/editor/outputs.py: the sinks `execute` hands every edit point to. Each
    keeps what it will write out: `BaseOutput` the lines of the mapping file,
    `EdlOutput` the numbered entries of an edit decision list, and
    `DirectVideoOutput` the frame and time ranges its ffmpeg filter script cuts,
    the frame count that remains, and the chapters moved by the cuts. Frame
    numbers are what `Timecode(rate, frames=n + 1)` holds, `n + 1`; rendering
    them as text and the files themselves are outside the model. */
module Outputs {
  import opened Wrappers
  import opened Strings
  import opened EditPoints
  import opened Sections
  import opened ShellUtils

  /** One line of the mapping file: the source end and the output end. */
  datatype Mapping = Mapping(sourceEnd: int, outputEnd: int)

  function MappingOf(e: EditEvent): Mapping
  {
    Mapping(e.point.endFrame + 1, e.endOutputFrame + 1)
  }

  /** The mapping lines after the events, when a mapping file is asked for. */
  function Mappings(mapping: string, events: seq<EditEvent>): seq<Mapping>
  {
    if events == [] || mapping == [] then []
    else Mappings(mapping, events[..|events| - 1]) + [MappingOf(events[|events| - 1])]
  }

  /** Exactly one mapping line per event, pairing its source end with its output
      end, when a mapping file is set; none otherwise. */
  lemma {:induction false} MappingsOnePerEvent(mapping: string, events: seq<EditEvent>)
    ensures mapping == [] ==> Mappings(mapping, events) == []
    ensures mapping != [] ==> |Mappings(mapping, events)| == |events|
    ensures mapping != [] ==> forall k :: 0 <= k < |events| ==>
      Mappings(mapping, events)[k] == Mapping(events[k].point.endFrame + 1, events[k].endOutputFrame + 1)
  {
    if events != [] && mapping != [] {
      MappingsOnePerEvent(mapping, events[..|events| - 1]);
    }
  }

  /** `BaseOutput`: `mapping` is the mapping file's name, empty when none. */
  class BaseOutput {
    const mapping: string
    var mappings: seq<Mapping>
    ghost var history: seq<EditEvent>

    ghost predicate Valid()
      reads this
    {
      mappings == Mappings(mapping, history)
    }

    constructor(mapping: string)
      ensures Valid() && history == [] && this.mapping == mapping
    {
      this.mapping := mapping;
      mappings := [];
      history := [];
    }

    /** `BaseOutput.apply_edit_point`. */
    method ApplyEditPoint(e: EditEvent)
      requires Valid()
      modifies this
      ensures Valid() && history == old(history) + [e]
      ensures mappings == old(mappings) + (if mapping != [] then [MappingOf(e)] else [])
    {
      if mapping != [] {
        mappings := mappings + [MappingOf(e)];
      }
      history := history + [e];
      assert history[..|history| - 1] == old(history);
    }
  }

  /** One event of the edit decision list: its number, the source span, the
      output span and, for a point played at another speed, the frame rate of
      its M2 motion line. */
  datatype EdlEntry = EdlEntry(
    index: nat, sourceStart: int, sourceEnd: int, outputStart: int, outputEnd: int,
    motion: Option<real>)

  /** An event gets an entry when its output spans more than one frame, which
      leaves a frame to spare for a motion effect. */
  predicate Written(e: EditEvent)
  {
    (e.endOutputFrame + 1) - (e.startOutputFrame + 1) > 1
  }

  function OutputLength(e: EditEvent): int
  {
    (e.endOutputFrame + 1) - (e.startOutputFrame + 1)
  }

  function OriginalLength(e: EditEvent): int
  {
    (e.point.endFrame + 1) - (e.point.startFrame + 1)
  }

  /** The M2 line: only for a dropped point whose output length differs from its
      source length, at the rate that plays the source frames in the output
      length less one frame. */
  function Motion(e: EditEvent, frameRate: real): Option<real>
    requires Written(e)
  {
    if !e.point.shouldKeep && OutputLength(e) != OriginalLength(e) then
      Some(OriginalLength(e) as real / (OutputLength(e) - 1) as real * frameRate)
    else None
  }

  /** The motion line is there exactly for a dropped point whose lengths differ,
      and its rate makes the output length less one frame hold the whole source
      span: rate times (output length - 1) is source length times frame rate. */
  lemma MotionRate(e: EditEvent, frameRate: real)
    requires Written(e)
    ensures Motion(e, frameRate).Some? <==> !e.point.shouldKeep && OutputLength(e) != OriginalLength(e)
    ensures OutputLength(e) - 1 >= 1
    ensures Motion(e, frameRate).Some? ==>
      Motion(e, frameRate).value * (OutputLength(e) - 1) as real == OriginalLength(e) as real * frameRate
  {
    if Motion(e, frameRate).Some? {
      var d := (OutputLength(e) - 1) as real;
      var n := OriginalLength(e) as real;
      assert d > 0.0;
      DivideBack(n, d, frameRate);
    }
  }

  lemma DivideBack(n: real, d: real, f: real)
    requires d > 0.0
    ensures n / d * f * d == n * f
  {
    assert n / d * d == n;
    assert n / d * f * d == (n / d * d) * f;
  }

  function EntryOf(e: EditEvent, index: nat, frameRate: real): EdlEntry
    requires Written(e)
  {
    EdlEntry(index, e.point.startFrame + 1, e.point.endFrame + 1,
             e.startOutputFrame + 1, e.endOutputFrame + 1, Motion(e, frameRate))
  }

  /** The part of `apply_edit_point` that decides on the M2 line and computes
      its rate. */
  method MotionLine(e: EditEvent, frameRate: real) returns (motion: Option<real>)
    requires Written(e)
    ensures motion == Motion(e, frameRate)
  {
    motion := None;
    if !e.point.shouldKeep {
      var outputLength := (e.endOutputFrame + 1) - (e.startOutputFrame + 1);
      var originalLength := (e.point.endFrame + 1) - (e.point.startFrame + 1);
      assert outputLength == OutputLength(e) && originalLength == OriginalLength(e);
      if outputLength != originalLength {
        var rate := originalLength as real / (outputLength - 1) as real * frameRate;
        motion := Some(rate);
        assert Motion(e, frameRate).Some? && Motion(e, frameRate).value == rate;
      }
    }
  }

  /** The entries `EdlOutput` has written after the events, numbered as the
      running `index` numbers them. */
  function EdlEntries(events: seq<EditEvent>, frameRate: real): seq<EdlEntry>
  {
    if events == [] then []
    else
      var prior := EdlEntries(events[..|events| - 1], frameRate);
      var e := events[|events| - 1];
      if Written(e) then prior + [EntryOf(e, |prior| + 1, frameRate)] else prior
  }

  /** The events that get an entry, in order. */
  function WrittenEvents(events: seq<EditEvent>): (w: seq<EditEvent>)
    ensures forall k :: 0 <= k < |w| ==> Written(w[k])
  {
    if events == [] then []
    else
      var prior := WrittenEvents(events[..|events| - 1]);
      if Written(events[|events| - 1]) then prior + [events[|events| - 1]] else prior
  }

  /** An event is among the written ones exactly when it is one of the events and
      spans more than one output frame. */
  lemma {:induction false} WrittenEventsExactly(events: seq<EditEvent>, e: EditEvent)
    ensures e in WrittenEvents(events) <==> e in events && Written(e)
  {
    if events != [] {
      WrittenEventsExactly(events[..|events| - 1], e);
      assert events == events[..|events| - 1] + [events[|events| - 1]];
    }
  }

  /** The entries are the written events numbered 1, 2, 3, ... without gaps. */
  lemma {:induction false} EdlEntriesNumbered(events: seq<EditEvent>, frameRate: real)
    ensures |EdlEntries(events, frameRate)| == |WrittenEvents(events)|
    ensures forall k :: 0 <= k < |WrittenEvents(events)| ==>
      EdlEntries(events, frameRate)[k] == EntryOf(WrittenEvents(events)[k], k + 1, frameRate)
  {
    if events != [] {
      EdlEntriesNumbered(events[..|events| - 1], frameRate);
    }
  }

  /** `EdlOutput`. The file is left out; `entries` is what it receives. */
  class EdlOutput {
    const base: BaseOutput
    const frameRate: real
    var index: nat
    var entries: seq<EdlEntry>
    ghost var history: seq<EditEvent>

    ghost predicate Valid()
      reads this, base
    {
      && base.Valid() && base.history == history
      && entries == EdlEntries(history, frameRate)
      && index == |entries| + 1
    }

    constructor(mapping: string, frameRate: real)
      ensures Valid() && history == [] && index == 1 && fresh(base)
      ensures this.frameRate == frameRate && base.mapping == mapping
    {
      base := new BaseOutput(mapping);
      this.frameRate := frameRate;
      index := 1;
      entries := [];
      history := [];
    }

    /** `EdlOutput.apply_edit_point`: the mapping line, then an entry numbered
        `index` when the output spans more than one frame. */
    method ApplyEditPoint(e: EditEvent)
      requires Valid()
      modifies this, base
      ensures Valid() && history == old(history) + [e]
      ensures Written(e) ==> entries == old(entries) + [EntryOf(e, old(index), frameRate)] && index == old(index) + 1
      ensures !Written(e) ==> entries == old(entries) && index == old(index)
      ensures base.mappings == old(base.mappings) + (if base.mapping != [] then [MappingOf(e)] else [])
    {
      base.ApplyEditPoint(e);
      if (e.endOutputFrame + 1) - (e.startOutputFrame + 1) > 1 {
        var motion := MotionLine(e, frameRate);
        entries := entries + [EdlEntry(index, e.point.startFrame + 1, e.point.endFrame + 1,
                                       e.startOutputFrame + 1, e.endOutputFrame + 1, motion)];
        index := index + 1;
      }
      history := history + [e];
      assert history[..|history| - 1] == old(history);
      assert EdlEntries(history, frameRate)
        == old(entries) + (if Written(e) then [EntryOf(e, old(index), frameRate)] else []);
    }
  }

  /** `between(n, start, end - 1)`: the source frames the video filter drops. */
  datatype VideoCut = VideoCut(first: int, last: int)

  /** `between(t, start.float, end.float)`: the audio filter drops the time of
      these frames; the conversion to seconds is the timecode library's. */
  datatype AudioCut = AudioCut(startFrame: int, endFrame: int)

  /** An event is cut from the video when its output spans at most one frame. */
  predicate IsCut(e: EditEvent)
  {
    (e.endOutputFrame + 1) - (e.startOutputFrame + 1) <= 1
  }

  /** The direct video output cuts exactly the events the edit decision list
      leaves out. */
  lemma CutIsNotWritten(e: EditEvent)
    ensures IsCut(e) <==> !Written(e)
  {
  }

  /** The edit points of the cut events, in order. */
  function CutPoints(events: seq<EditEvent>): seq<EditPoint>
  {
    if events == [] then []
    else
      var prior := CutPoints(events[..|events| - 1]);
      if IsCut(events[|events| - 1]) then prior + [events[|events| - 1].point] else prior
  }

  function VideoCuts(points: seq<EditPoint>): seq<VideoCut>
  {
    seq(|points|, k requires 0 <= k < |points| => VideoCut(points[k].startFrame + 1, points[k].endFrame + 1 - 1))
  }

  function AudioCuts(points: seq<EditPoint>): seq<AudioCut>
  {
    seq(|points|, k requires 0 <= k < |points| => AudioCut(points[k].startFrame + 1, points[k].endFrame + 1))
  }

  /** The source frames the cut points span together. */
  function CutFrames(points: seq<EditPoint>): int
  {
    if points == [] then 0 else CutFrames(points[..|points| - 1]) + points[|points| - 1].Span()
  }

  /** What the cut points move a section starting at `start` back by, together. */
  function TotalShift(points: seq<EditPoint>, start: int): int
  {
    if points == [] then 0 else TotalShift(points[..|points| - 1], start) + Shift(points[|points| - 1], start)
  }

  /** A section is moved back by the number of frames the cuts remove before it
      (for cuts that do not overlap one another). */
  lemma {:induction false} TotalShiftCountsRemovedFrames(points: seq<EditPoint>, start: int)
    requires forall k :: 0 <= k < |points| ==> points[k].startFrame <= points[k].endFrame
    requires forall i, j :: 0 <= i < j < |points| ==> points[i].endFrame <= points[j].startFrame
    ensures TotalShift(points, start) == |RemovedBeforeAll(points, start)|
  {
    if points != [] {
      var init := points[..|points| - 1];
      var p := points[|points| - 1];
      assert forall k :: 0 <= k < |init| ==> init[k] == points[k];
      TotalShiftCountsRemovedFrames(init, start);
      ShiftCountsRemovedFrames(p, start);
      assert forall k :: 0 <= k < |init| ==> init[k].endFrame <= p.startFrame;
      RemovedBeforeAllBelow(init, start, p.startFrame);
      FramesMembers(p.startFrame, p.endFrame);
      var a, b := RemovedBeforeAll(init, start), RemovedBefore(p, start);
      assert forall f :: f in b ==> f >= p.startFrame;
      assert a * b == {};
      assert |a + b| == |a| + |b|;
    }
  }

  /** The frames before `start` that any of the points removes. */
  function RemovedBeforeAll(points: seq<EditPoint>, start: int): set<int>
  {
    if points == [] then {}
    else RemovedBeforeAll(points[..|points| - 1], start) + RemovedBefore(points[|points| - 1], start)
  }

  lemma {:induction false} RemovedBeforeAllBelow(points: seq<EditPoint>, start: int, bound: int)
    requires forall k :: 0 <= k < |points| ==> points[k].endFrame <= bound
    ensures forall f :: f in RemovedBeforeAll(points, start) ==> f < bound
  {
    if points != [] {
      RemovedBeforeAllBelow(points[..|points| - 1], start, bound);
      FramesMembers(points[|points| - 1].startFrame, points[|points| - 1].endFrame);
    }
  }

  /** What one more event adds to the cut points and their totals. */
  lemma CutsAppend(events: seq<EditEvent>, e: EditEvent)
    ensures CutPoints(events + [e]) == CutPoints(events) + (if IsCut(e) then [e.point] else [])
    ensures VideoCuts(CutPoints(events + [e]))
      == VideoCuts(CutPoints(events)) + (if IsCut(e) then [VideoCut(e.point.startFrame + 1, e.point.endFrame)] else [])
    ensures AudioCuts(CutPoints(events + [e]))
      == AudioCuts(CutPoints(events)) + (if IsCut(e) then [AudioCut(e.point.startFrame + 1, e.point.endFrame + 1)] else [])
    ensures CutFrames(CutPoints(events + [e])) == CutFrames(CutPoints(events)) + (if IsCut(e) then e.point.Span() else 0)
    ensures forall start :: (TotalShift(CutPoints(events + [e]), start)
      == TotalShift(CutPoints(events), start) + (if IsCut(e) then Shift(e.point, start) else 0))
  {
    assert (events + [e])[..|events|] == events;
    var prior := CutPoints(events);
    if IsCut(e) {
      assert (prior + [e.point])[..|prior|] == prior;
    }
  }

  /** `cut_section`: every section is moved back by one cut point. */
  method ForwardCut(sections: seq<Section>, point: EditPoint)
    requires Distinct(sections)
    modifies set s | s in sections
    ensures forall k :: 0 <= k < |sections| ==>
      && sections[k].editOffset == old(sections[k].editOffset) - Shift(point, sections[k].startFrame)
      && sections[k].startFrame == old(sections[k].startFrame)
      && sections[k].endFrame == old(sections[k].endFrame)
  {
    for i := 0 to |sections|
      invariant forall k :: 0 <= k < i ==>
        && sections[k].editOffset == old(sections[k].editOffset) - Shift(point, sections[k].startFrame)
        && sections[k].startFrame == old(sections[k].startFrame)
        && sections[k].endFrame == old(sections[k].endFrame)
      invariant forall k :: i <= k < |sections| ==>
        && sections[k].editOffset == old(sections[k].editOffset)
        && sections[k].startFrame == old(sections[k].startFrame)
        && sections[k].endFrame == old(sections[k].endFrame)
    {
      assert forall k :: 0 <= k < |sections| && k != i ==> sections[k] != sections[i];
      sections[i].ApplyEditPoint(point);
    }
  }

  /** `DirectVideoOutput`. The sections are the ones `Section.parse` read from
      the sections file, none when there is no such file. */
  class DirectVideoOutput {
    const base: BaseOutput
    ghost const videoFrameCount: int
    var outputVideoFrameCount: int
    var videoEditConfig: seq<VideoCut>
    var audioEditConfig: seq<AudioCut>
    const sections: seq<Section>
    ghost var history: seq<EditEvent>

    ghost predicate Valid()
      reads this, base, set s | s in sections
    {
      base.Valid() && base.history == history && Tracks()
    }

    /** The cut lists and the frame count follow from the cut points, and every
        section has been moved back by the cuts so far. */
    ghost predicate Tracks()
      reads this, set s | s in sections
    {
      && Distinct(sections)
      && videoEditConfig == VideoCuts(CutPoints(history))
      && audioEditConfig == AudioCuts(CutPoints(history))
      && outputVideoFrameCount == videoFrameCount - CutFrames(CutPoints(history))
      && forall k :: 0 <= k < |sections| ==>
        sections[k].editOffset == -TotalShift(CutPoints(history), sections[k].startFrame)
    }

    constructor(mapping: string, videoFrameCount: int, sections: seq<Section>)
      requires Distinct(sections)
      requires forall k :: 0 <= k < |sections| ==> sections[k].editOffset == 0
      ensures Valid() && history == [] && fresh(base)
      ensures outputVideoFrameCount == videoFrameCount && this.sections == sections
      ensures videoEditConfig == [] && audioEditConfig == []
    {
      base := new BaseOutput(mapping);
      this.videoFrameCount := videoFrameCount;
      outputVideoFrameCount := videoFrameCount;
      videoEditConfig := [];
      audioEditConfig := [];
      this.sections := sections;
      history := [];
    }

    /** `DirectVideoOutput.apply_edit_point`: the mapping line, then the cut. */
    method ApplyEditPoint(e: EditEvent)
      requires Valid()
      modifies this, base, set s | s in sections
      ensures Valid() && history == old(history) + [e]
      ensures IsCut(e) ==>
        && outputVideoFrameCount == old(outputVideoFrameCount) - e.point.Span()
        && videoEditConfig == old(videoEditConfig) + [VideoCut(e.point.startFrame + 1, e.point.endFrame)]
        && audioEditConfig == old(audioEditConfig) + [AudioCut(e.point.startFrame + 1, e.point.endFrame + 1)]
      ensures !IsCut(e) ==>
        && outputVideoFrameCount == old(outputVideoFrameCount)
        && videoEditConfig == old(videoEditConfig) && audioEditConfig == old(audioEditConfig)
      ensures forall k :: 0 <= k < |sections| ==>
        && sections[k].editOffset == old(sections[k].editOffset) - (if IsCut(e) then Shift(e.point, sections[k].startFrame) else 0)
        && sections[k].startFrame == old(sections[k].startFrame)
        && sections[k].endFrame == old(sections[k].endFrame)
      ensures base.mappings == old(base.mappings) + (if base.mapping != [] then [MappingOf(e)] else [])
    {
      base.ApplyEditPoint(e);
      ApplyCut(e);
    }

    /** The rest of `apply_edit_point`: for an event whose output spans at most
        one frame, the two cut ranges, the frame count lowered by the source
        span and every section moved back by the point. */
    method ApplyCut(e: EditEvent)
      requires Tracks()
      modifies this, set s | s in sections
      ensures Tracks() && history == old(history) + [e]
      ensures IsCut(e) ==>
        && outputVideoFrameCount == old(outputVideoFrameCount) - e.point.Span()
        && videoEditConfig == old(videoEditConfig) + [VideoCut(e.point.startFrame + 1, e.point.endFrame)]
        && audioEditConfig == old(audioEditConfig) + [AudioCut(e.point.startFrame + 1, e.point.endFrame + 1)]
      ensures !IsCut(e) ==>
        && outputVideoFrameCount == old(outputVideoFrameCount)
        && videoEditConfig == old(videoEditConfig) && audioEditConfig == old(audioEditConfig)
      ensures forall k :: 0 <= k < |sections| ==>
        && sections[k].editOffset == old(sections[k].editOffset) - (if IsCut(e) then Shift(e.point, sections[k].startFrame) else 0)
        && sections[k].startFrame == old(sections[k].startFrame)
        && sections[k].endFrame == old(sections[k].endFrame)
    {
      CutsAppend(history, e);
      if (e.endOutputFrame + 1) - (e.startOutputFrame + 1) <= 1 {
        var start, end := e.point.startFrame + 1, e.point.endFrame + 1;
        videoEditConfig := videoEditConfig + [VideoCut(start, end - 1)];
        audioEditConfig := audioEditConfig + [AudioCut(start, end)];
        outputVideoFrameCount := outputVideoFrameCount - (end - start);
        MoveSections(e);
      }
      assert videoEditConfig == VideoCuts(CutPoints(history + [e]));
      assert audioEditConfig == AudioCuts(CutPoints(history + [e]));
      assert outputVideoFrameCount == videoFrameCount - CutFrames(CutPoints(history + [e]));
      history := history + [e];
    }

    /** `cut_section` over the sections of the output: each is moved back by the
        cut point, which keeps its offset at minus the total shift of the cuts. */
    method MoveSections(e: EditEvent)
      requires IsCut(e) && Distinct(sections)
      requires forall k :: 0 <= k < |sections| ==>
        sections[k].editOffset == -TotalShift(CutPoints(history), sections[k].startFrame)
      modifies set s | s in sections
      ensures forall k :: 0 <= k < |sections| ==>
        && sections[k].editOffset == -TotalShift(CutPoints(history + [e]), sections[k].startFrame)
        && sections[k].editOffset == old(sections[k].editOffset) - Shift(e.point, sections[k].startFrame)
        && sections[k].startFrame == old(sections[k].startFrame)
        && sections[k].endFrame == old(sections[k].endFrame)
    {
      CutsAppend(history, e);
      if sections != [] {
        ForwardCut(sections, e.point);
      }
    }
  }

  /** Running out of lines before the `------` separator (StopIteration from
      `take_until`), or an encoder line `V....D` with no name after it
      (IndexError). */
  datatype EncoderError = NoSeparator | MissingName

  predicate IsSeparator(line: string)
  {
    Strip(line) == "------"
  }

  /** `line.strip().split(' ', 2)[:2]`: the first piece always, the second when
      there is one. */
  function Pieces(line: string): (p: seq<string>)
    ensures 1 <= |p| <= 2
  {
    var all := Split(Strip(line), ' ');
    if |all| >= 2 then all[..2] else all
  }

  /** What one line after the separator contributes: its name when it starts
      with the `V....D` flags and the name contains "264", nothing otherwise. */
  function LineName(line: string): Result<seq<string>, EncoderError>
  {
    var encoder := Pieces(line);
    if encoder[0] != "V....D" then Success([])
    else if |encoder| < 2 then Failure(MissingName)
    else if Contains(encoder[1], "264") then Success([encoder[1]])
    else Success([])
  }

  /** The comprehension over lines: the contributions of the lines in order, or
      the error of the first line that raises one. */
  function Gather(lines: seq<string>, f: string -> Result<seq<string>, EncoderError>): Result<seq<string>, EncoderError>
  {
    if lines == [] then Success([])
    else
      match f(lines[0])
      case Failure(e) => Failure(e)
      case Success(head) =>
        match Gather(lines[1..], f)
        case Failure(e) => Failure(e)
        case Success(rest) => Success(head + rest)
  }

  /** The names of the h264 encoders in the lines after the separator. */
  function H264Names(lines: seq<string>): Result<seq<string>, EncoderError>
  {
    Gather(lines, LineName)
  }

  /** A line listing a video encoder with the given name. */
  predicate EncoderLine(line: string, name: string)
  {
    var p := Pieces(line);
    |p| == 2 && p[0] == "V....D" && p[1] == name
  }

  lemma LineNameListed(line: string)
    requires LineName(line).Success?
    ensures |LineName(line).value| <= 1
    ensures forall n :: n in LineName(line).value ==> Contains(n, "264") && EncoderLine(line, n)
  {
  }

  /** Every name gathered is one a single line contributes, every name a line
      contributes is gathered, and the gathering fails exactly when some line
      fails. */
  lemma {:induction false} GatherFromLines(lines: seq<string>, f: string -> Result<seq<string>, EncoderError>)
    ensures Gather(lines, f).Success? ==> forall n :: n in Gather(lines, f).value ==>
      exists line :: line in lines && f(line).Success? && n in f(line).value
    ensures Gather(lines, f).Success? ==> forall line, n ::
      line in lines && f(line).Success? && n in f(line).value ==> n in Gather(lines, f).value
    ensures Gather(lines, f).Success? <==> forall line :: line in lines ==> f(line).Success?
  {
    if lines != [] {
      GatherFromLines(lines[1..], f);
      assert forall line :: line in lines <==> line == lines[0] || line in lines[1..];
      if Gather(lines, f).Success? {
        var head := f(lines[0]).value;
        var rest := Gather(lines[1..], f).value;
        assert Gather(lines, f).value == head + rest;
      }
    }
  }

  /** Every name listed contains "264" and is the name on one of the lines of a
      video encoder. */
  lemma H264NamesAreH264(lines: seq<string>)
    requires H264Names(lines).Success?
    ensures forall n :: n in H264Names(lines).value ==>
      Contains(n, "264") && exists line :: line in lines && EncoderLine(line, n)
  {
    GatherFromLines(lines, LineName);
    forall n | n in H264Names(lines).value
      ensures Contains(n, "264") && exists line :: line in lines && EncoderLine(line, n)
    {
      var line :| line in lines && LineName(line).Success? && n in LineName(line).value;
      LineNameListed(line);
    }
  }

  /** Conversely, the name on every video encoder line after the separator is
      listed when it contains "264". */
  lemma H264NamesComplete(lines: seq<string>, line: string, n: string)
    requires H264Names(lines).Success? && line in lines
    requires EncoderLine(line, n) && Contains(n, "264")
    ensures n in H264Names(lines).value
  {
    GatherFromLines(lines, LineName);
    assert LineName(line) == Success([n]);
  }

  /** NVENC is chosen exactly when a video encoder line names it. */
  lemma NvencChosenIffListed(lines: seq<string>)
    requires H264Names(lines).Success?
    ensures var names := H264Names(lines).value;
      (names != [] && Preferred(names) == "h264_nvenc")
      <==> exists line :: line in lines && EncoderLine(line, "h264_nvenc")
  {
    var names := H264Names(lines).value;
    assert OccursAt("h264_nvenc", "264", 1);
    H264NamesAreH264(lines);
    if exists line :: line in lines && EncoderLine(line, "h264_nvenc") {
      var line :| line in lines && EncoderLine(line, "h264_nvenc");
      H264NamesComplete(lines, line, "h264_nvenc");
    }
    if names != [] {
      PreferredIsListed(names);
    }
  }

  /** The h264 encoders `ffmpeg -encoders` lists. */
  function H264Encoders(listing: string): Result<seq<string>, EncoderError>
  {
    var lines := SplitLines(listing);
    match FirstMatch(lines, IsSeparator)
    case None => Failure(NoSeparator)
    case Some(i) => H264Names(lines[i + 1..])
  }

  /** The for/else over `['h264_nvenc', 'libx264']`. */
  function Preferred(encoders: seq<string>): string
    requires encoders != []
  {
    if "h264_nvenc" in encoders then "h264_nvenc"
    else if "libx264" in encoders then "libx264"
    else encoders[0]
  }

  /** The choice is always one of the listed encoders: NVENC whenever it is
      listed, libx264 when it is listed and NVENC is not, the first listed one
      when neither is. */
  lemma PreferredIsListed(encoders: seq<string>)
    requires encoders != []
    ensures Preferred(encoders) in encoders
    ensures Preferred(encoders) == "h264_nvenc" <==> "h264_nvenc" in encoders
    ensures "h264_nvenc" !in encoders && "libx264" in encoders ==> Preferred(encoders) == "libx264"
    ensures "h264_nvenc" !in encoders && "libx264" !in encoders ==> Preferred(encoders) == encoders[0]
  {
  }

  /** What `select_encoder` returns, or the error it raises. */
  function EncoderOption(useHardwareAcc: bool, listing: string): Result<string, EncoderError>
  {
    if !useHardwareAcc then Success("")
    else
      match H264Encoders(listing)
      case Failure(e) => Failure(e)
      case Success(encoders) => Success(if encoders == [] then "" else "-c:v " + Preferred(encoders))
  }

  /** `select_encoder`, given the text `ffmpeg -encoders` prints. */
  method SelectEncoder(useHardwareAcc: bool, listing: string) returns (r: Result<string, EncoderError>)
    ensures r == EncoderOption(useHardwareAcc, listing)
  {
    if !useHardwareAcc {
      return Success("");
    }
    var lines := SplitLines(listing);
    var after, _ := TakeUntil(lines, IsSeparator);
    if after.Failure? {
      assert FirstMatch(lines, IsSeparator).None?;
      return Failure(NoSeparator);
    }
    var names := H264Names(after.value);
    assert H264Encoders(listing) == names;
    if names.Failure? {
      return Failure(names.error);
    }
    var encoders := names.value;
    if encoders == [] {
      return Success("");
    }
    var preferredEncoders := ["h264_nvenc", "libx264"];
    var selected: string;
    var k := 0;
    while k < |preferredEncoders|
      invariant 0 <= k <= |preferredEncoders|
      invariant k >= 1 ==> "h264_nvenc" !in encoders
      invariant k >= 2 ==> "libx264" !in encoders
    {
      if preferredEncoders[k] in encoders {
        selected := preferredEncoders[k];
        break;
      }
      k := k + 1;
    }
    if k == |preferredEncoders| {
      // the `else` of the for loop: no preferred encoder is listed
      selected := encoders[0];
    }
    return Success("-c:v " + selected);
  }
}
