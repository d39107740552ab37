/** src/editor/section.py: the chapters of the output video. A section starts at
    a source frame; every cut applied before it moves it earlier by the frames
    the cut removes before its start (`edit_offset`), and `compute_frames`
    finally sorts the sections, folds the offsets into the starts and chains
    each section's end to the next section's start. `parse` reads the sections
    file, one "start title" line per section. */
module Sections {
  import opened Wrappers
  import opened Numeric
  import opened Strings
  import opened EditPoints
  import opened TimecodeUtils
  import opened Parameters

  /** What `apply_edit_point` subtracts from the offset of a section starting
      at `start`: the whole span of a point ending before the start, the part
      before the start of a point straddling it, nothing for a point starting at
      or after it. */
  function Shift(point: EditPoint, start: int): int
  {
    if point.endFrame < start then point.endFrame - point.startFrame
    else if point.startFrame < start then start - point.startFrame
    else 0
  }

  /** The frames `a` up to but not including `b`. */
  function Frames(a: int, b: int): set<int>
    decreases b - a
  {
    if b <= a then {} else Frames(a, b - 1) + {b - 1}
  }

  lemma {:induction false} FramesMembers(a: int, b: int)
    ensures forall f :: f in Frames(a, b) <==> a <= f < b
    ensures |Frames(a, b)| == Max(0, b - a)
    decreases b - a
  {
    if a < b {
      FramesMembers(a, b - 1);
    }
  }

  /** The source frames the point covers that come before `start`. */
  function RemovedBefore(point: EditPoint, start: int): set<int>
  {
    Frames(point.startFrame, point.endFrame) * Frames(0, start)
  }

  /** A cut moves a section back by exactly the number of its frames that lie
      before the section's start. */
  lemma ShiftCountsRemovedFrames(point: EditPoint, start: int)
    requires point.startFrame <= point.endFrame
    ensures Shift(point, start) == |RemovedBefore(point, start)|
    ensures 0 <= Shift(point, start) <= point.Span()
  {
    var top := Min(point.endFrame, start);
    FramesMembers(point.startFrame, point.endFrame);
    FramesMembers(0, start);
    FramesMembers(point.startFrame, top);
    forall f
      ensures f in RemovedBefore(point, start) <==> f in Frames(point.startFrame, top)
    {
    }
    assert RemovedBefore(point, start) == Frames(point.startFrame, top);
  }

  /** A section at frame 100 and a cut of frames 50 to 70 before it: the section
      ends up at frame 80. */
  lemma ShiftExample()
    ensures 100 - Shift(EditPoint(50, 70, false), 100) == 80
    ensures Shift(EditPoint(100, 120, false), 100) == 0
    ensures Shift(EditPoint(90, 120, false), 100) == 10
  {
  }

  class Section {
    var startFrame: int
    var endFrame: int
    const title: string
    var editOffset: int

    /** `Section(start_frame, title)`: no end yet and nothing cut. */
    constructor(startFrame: int, title: string)
      ensures this.startFrame == startFrame && this.title == title
      ensures endFrame == -1 && editOffset == 0
    {
      this.startFrame := startFrame;
      this.endFrame := -1;
      this.title := title;
      this.editOffset := 0;
    }

    /** `apply_edit_point`: a cut moves the section back by `Shift`; its start and
        end stay as they are until `compute_frames`. */
    method ApplyEditPoint(editPoint: EditPoint)
      modifies this
      ensures editOffset == old(editOffset) - Shift(editPoint, startFrame)
      ensures startFrame == old(startFrame) && endFrame == old(endFrame)
    {
      if editPoint.endFrame < startFrame {
        editOffset := editOffset - (editPoint.endFrame - editPoint.startFrame);
      } else if editPoint.startFrame < startFrame {
        editOffset := editOffset - (startFrame - editPoint.startFrame);
      }
    }

    /** `frame_count`. */
    function FrameCount(): int
      reads this
    {
      endFrame - startFrame
    }

    /** `consume_edit` inside `compute_frames`. */
    method ConsumeEdit()
      modifies this
      ensures startFrame == old(startFrame + editOffset) && editOffset == 0
      ensures endFrame == old(endFrame)
    {
      startFrame := startFrame + editOffset;
      editOffset := 0;
    }
  }

  predicate Distinct<T(==)>(s: seq<T>)
  {
    forall i, j :: 0 <= i < j < |s| ==> s[i] != s[j]
  }

  predicate SortedByStart(s: seq<Section>)
    reads set x | x in s
  {
    forall i, j :: 0 <= i < j < |s| ==> s[i].startFrame <= s[j].startFrame
  }

  /** Each section ends where the next one starts. */
  predicate Chained(s: seq<Section>)
    reads set x | x in s
  {
    forall k :: 0 <= k < |s| - 1 ==> s[k].endFrame == s[k + 1].startFrame
  }

  /** The frames of all the sections together. */
  function TotalFrames(s: seq<Section>): int
    reads set x | x in s
  {
    if s == [] then 0 else s[0].FrameCount() + TotalFrames(s[1..])
  }

  /** Chained sections tile the frames from the first start to the last end. */
  lemma {:induction false} ChainedTotal(s: seq<Section>)
    requires s != [] && Chained(s)
    ensures TotalFrames(s) == s[|s| - 1].endFrame - s[0].startFrame
  {
    if |s| > 1 {
      assert Chained(s[1..]) by {
        forall k | 0 <= k < |s[1..]| - 1
          ensures s[1..][k].endFrame == s[1..][k + 1].startFrame
        {
          assert s[1..][k] == s[k + 1] && s[1..][k + 1] == s[k + 2];
        }
      }
      ChainedTotal(s[1..]);
      assert s[0].endFrame == s[1].startFrame;
    }
  }

  /** One step of the stable sort: `s` goes after every section whose start is
      not later than its own. */
  method InsertByStart(sorted: seq<Section>, s: Section) returns (r: seq<Section>)
    requires SortedByStart(sorted) && Distinct(sorted) && s !in sorted
    ensures SortedByStart(r) && Distinct(r)
    ensures multiset(r) == multiset(sorted) + multiset{s}
  {
    var i := 0;
    while i < |sorted| && sorted[i].startFrame <= s.startFrame
      invariant 0 <= i <= |sorted|
      invariant forall k :: 0 <= k < i ==> sorted[k].startFrame <= s.startFrame
    {
      i := i + 1;
    }
    r := sorted[..i] + [s] + sorted[i..];
    InsertedSorted(sorted, s, i);
    InsertedDistinct(sorted, s, i);
    assert sorted == sorted[..i] + sorted[i..];
  }

  lemma InsertedSorted(sorted: seq<Section>, s: Section, i: nat)
    requires i <= |sorted| && SortedByStart(sorted)
    requires forall k :: 0 <= k < i ==> sorted[k].startFrame <= s.startFrame
    requires i < |sorted| ==> s.startFrame < sorted[i].startFrame
    ensures SortedByStart(sorted[..i] + [s] + sorted[i..])
  {
    var r := sorted[..i] + [s] + sorted[i..];
    forall a, b | 0 <= a < b < |r|
      ensures r[a].startFrame <= r[b].startFrame
    {
      if b < i {
        assert r[a] == sorted[a] && r[b] == sorted[b];
      } else if b == i {
        assert r[a] == sorted[a] && r[b] == s;
      } else if a < i {
        assert r[a] == sorted[a] && r[b] == sorted[b - 1];
      } else if a == i {
        assert r[a] == s && r[b] == sorted[b - 1];
      } else {
        assert r[a] == sorted[a - 1] && r[b] == sorted[b - 1];
      }
    }
  }

  lemma InsertedDistinct<T>(sorted: seq<T>, s: T, i: nat)
    requires i <= |sorted| && Distinct(sorted) && s !in sorted
    ensures Distinct(sorted[..i] + [s] + sorted[i..])
  {
    var r := sorted[..i] + [s] + sorted[i..];
    forall a, b | 0 <= a < b < |r|
      ensures r[a] != r[b]
    {
      var x := if a < i then sorted[a] else if a == i then s else sorted[a - 1];
      var y := if b < i then sorted[b] else if b == i then s else sorted[b - 1];
      assert r[a] == x && r[b] == y;
    }
  }

  /** `sections.sort(key=lambda s: s.start_frame)`, returning the reordered list. */
  method SortByStart(sections: seq<Section>) returns (sorted: seq<Section>)
    requires Distinct(sections)
    ensures multiset(sorted) == multiset(sections)
    ensures forall k :: 0 <= k < |sorted| ==> sorted[k] in sections
    ensures SortedByStart(sorted) && Distinct(sorted)
  {
    sorted := [];
    for k := 0 to |sections|
      invariant SortedByStart(sorted) && Distinct(sorted)
      invariant multiset(sorted) == multiset(sections[..k])
    {
      assert sections[k] !in sections[..k];
      assert sections[k] !in multiset(sorted);
      sorted := InsertByStart(sorted, sections[k]);
      assert sections[..k + 1] == sections[..k] + [sections[k]];
    }
    assert sections[..|sections|] == sections;
    assert forall k :: 0 <= k < |sorted| ==> sorted[k] in multiset(sections);
  }

  /** `compute_frames`. Nothing happens to an empty list. Otherwise the sections
      come back ordered by their start before the offsets are applied, each start
      moved by its offset, every offset cleared, each end the next section's new
      start and the last end `total_frame_count + 1`, so that the sections tile
      the frames from the first start to `total_frame_count + 1`. */
  method ComputeFrames(sections: seq<Section>, totalFrameCount: int) returns (sorted: seq<Section>)
    requires Distinct(sections)
    modifies set s | s in sections
    ensures sections == [] ==> sorted == []
    ensures multiset(sorted) == multiset(sections)
    ensures forall k :: 0 <= k < |sorted| ==> sorted[k] in sections
    ensures old(SortedByStart(sorted))
    ensures forall i :: 0 <= i < |sorted| ==>
      sorted[i].startFrame == old(sorted[i].startFrame + sorted[i].editOffset) && sorted[i].editOffset == 0
    ensures Chained(sorted)
    ensures sorted != [] ==> sorted[|sorted| - 1].endFrame == totalFrameCount + 1
    ensures sorted != [] ==> TotalFrames(sorted) == totalFrameCount + 1 - sorted[0].startFrame
  {
    if sections == [] {
      return [];
    }
    sorted := SortByStart(sections);
    assert sorted != [] by {
      assert sections[0] in multiset(sections);
    }
    FinishFrames(sorted, totalFrameCount);
  }

  /** The `reduce` over the sorted sections and the end of the last one. */
  method FinishFrames(sorted: seq<Section>, totalFrameCount: int)
    requires sorted != [] && Distinct(sorted)
    modifies set s | s in sorted
    ensures forall i :: 0 <= i < |sorted| ==>
      sorted[i].startFrame == old(sorted[i].startFrame + sorted[i].editOffset) && sorted[i].editOffset == 0
    ensures Chained(sorted)
    ensures sorted[|sorted| - 1].endFrame == totalFrameCount + 1
    ensures TotalFrames(sorted) == totalFrameCount + 1 - sorted[0].startFrame
  {
    ghost var adjusted := AdjustedStarts(sorted);
    sorted[0].ConsumeEdit();
    assert forall k :: 1 <= k < |sorted| ==> sorted[k] != sorted[0];
    for i := 1 to |sorted|
      invariant ConsumedUpTo(sorted, adjusted, i)
    {
      ConsumeNext(sorted, adjusted, i);
    }
    EndLast(sorted, adjusted, totalFrameCount);
  }

  /** `sections[-1].end_frame = total_frame_count + 1` once the `reduce` is done. */
  method EndLast(s: seq<Section>, ghost adjusted: seq<int>, totalFrameCount: int)
    requires Distinct(s) && ConsumedUpTo(s, adjusted, |s|)
    modifies s[|s| - 1]
    ensures forall k :: 0 <= k < |s| ==> s[k].startFrame == adjusted[k] && s[k].editOffset == 0
    ensures Chained(s)
    ensures s[|s| - 1].endFrame == totalFrameCount + 1
    ensures TotalFrames(s) == totalFrameCount + 1 - s[0].startFrame
  {
    assert forall k :: 0 <= k < |s| - 1 ==> s[k] != s[|s| - 1];
    s[|s| - 1].endFrame := totalFrameCount + 1;
    ChainedTotal(s);
  }

  /** The state of the `reduce` once it has reached section `i`: the sections
      before `i` have their new starts and no offset, each but the last of them
      ends at the next one's new start, and the sections from `i` on are as they
      were. */
  predicate ConsumedUpTo(s: seq<Section>, adjusted: seq<int>, i: int)
    reads set x | x in s
  {
    && |adjusted| == |s| && 1 <= i <= |s|
    && (forall k :: 0 <= k < i ==> s[k].startFrame == adjusted[k] && s[k].editOffset == 0)
    && (forall k :: i <= k < |s| ==> s[k].startFrame + s[k].editOffset == adjusted[k])
    && (forall k :: 0 <= k < i - 1 ==> s[k].endFrame == adjusted[k + 1])
  }

  /** One step of the `reduce`: `consume_edit` on section `i`, then
      `apply_end_frame` ends section `i - 1` at its new start. */
  method ConsumeNext(s: seq<Section>, ghost adjusted: seq<int>, i: nat)
    requires Distinct(s) && i < |s| && ConsumedUpTo(s, adjusted, i)
    modifies s[i - 1], s[i]
    ensures ConsumedUpTo(s, adjusted, i + 1)
  {
    assert forall k :: 0 <= k < |s| && k != i ==> s[k] != s[i];
    assert forall k :: 0 <= k < |s| && k != i - 1 ==> s[k] != s[i - 1];
    s[i].ConsumeEdit();
    s[i - 1].endFrame := s[i].startFrame;
  }

  /** The starts the sections will have once their offsets are applied. */
  function AdjustedStarts(s: seq<Section>): seq<int>
    reads set x | x in s
  {
    seq(|s|, k requires 0 <= k < |s| reads s => s[k].startFrame + s[k].editOffset)
  }

  /** The line has no whitespace to split at: unpacking `re.split`'s one piece
      into two names raises ValueError. */
  datatype ParseError = NotEnoughValues | BadTimecode(TimecodeError)

  /** Index of the first whitespace character, or `|s|`. */
  function FirstSpace(s: string): (i: nat)
    ensures i <= |s|
    ensures forall k :: 0 <= k < i ==> !IsSpace(s[k])
    ensures i < |s| ==> IsSpace(s[i])
  {
    if s == [] || IsSpace(s[0]) then 0 else 1 + FirstSpace(s[1..])
  }

  /** Index of the first character at or after `i` that is not whitespace, or `|s|`. */
  function SpaceRunEnd(s: string, i: nat): (j: nat)
    requires i <= |s|
    ensures i <= j <= |s|
    ensures forall k :: i <= k < j ==> IsSpace(s[k])
    ensures j < |s| ==> !IsSpace(s[j])
    decreases |s| - i
  {
    if i == |s| || !IsSpace(s[i]) then i else SpaceRunEnd(s, i + 1)
  }

  /** `re.split(r"\s+", line, maxsplit=1)` unpacked into the start and the title:
      the split is at the first run of whitespace, taken whole. */
  function SplitSectionLine(line: string): Result<(string, string), ParseError>
  {
    var i := FirstSpace(line);
    if i == |line| then Failure(NotEnoughValues)
    else Success((line[..i], line[SpaceRunEnd(line, i)..]))
  }

  /** The split fails exactly on a line without whitespace; otherwise the line is
      the start, a non-empty run of whitespace and the title, where the start has
      no whitespace and the title does not begin with any. */
  lemma SplitSectionLineParts(line: string)
    ensures SplitSectionLine(line).Failure? <==> forall k :: 0 <= k < |line| ==> !IsSpace(line[k])
    ensures SplitSectionLine(line).Success? ==>
      var start := SplitSectionLine(line).value.0;
      var title := SplitSectionLine(line).value.1;
      && |start| + |title| < |line|
      && line == start + line[|start|..|line| - |title|] + title
      && (forall k :: |start| <= k < |line| - |title| ==> IsSpace(line[k]))
      && (forall k :: 0 <= k < |start| ==> !IsSpace(start[k]))
      && (title == [] || !IsSpace(title[0]))
  {
    var i := FirstSpace(line);
    if i < |line| {
      var j := SpaceRunEnd(line, i + 1);
      assert SpaceRunEnd(line, i) == j;
      assert line == line[..i] + line[i..j] + line[j..];
    }
  }

  /** Those properties pin the split down: a line made of a start without
      whitespace, a non-empty run of whitespace and a title that does not begin
      with whitespace splits into exactly that start and title. */
  lemma SplitSectionLineUnique(start: string, run: string, title: string)
    requires forall k :: 0 <= k < |start| ==> !IsSpace(start[k])
    requires run != [] && forall k :: 0 <= k < |run| ==> IsSpace(run[k])
    requires title == [] || !IsSpace(title[0])
    ensures SplitSectionLine(start + run + title) == Success((start, title))
  {
    var line := start + run + title;
    assert forall k :: 0 <= k < |start| ==> line[k] == start[k];
    FirstSpaceAt(line, |start|);
    SpaceRunEndAt(line, |start|, |start| + |run|);
    assert line[..|start|] == start;
    assert line[|start| + |run|..] == title;
  }

  lemma {:induction false} FirstSpaceAt(s: string, i: nat)
    requires i < |s| && IsSpace(s[i])
    requires forall k :: 0 <= k < i ==> !IsSpace(s[k])
    ensures FirstSpace(s) == i
  {
    if i > 0 {
      FirstSpaceAt(s[1..], i - 1);
    }
  }

  lemma {:induction false} SpaceRunEndAt(s: string, i: nat, j: nat)
    requires i <= j <= |s|
    requires forall k :: i <= k < j ==> IsSpace(s[k])
    requires j < |s| ==> !IsSpace(s[j])
    ensures SpaceRunEnd(s, i) == j
    decreases j - i
  {
    if i < j {
      SpaceRunEndAt(s, i + 1, j);
    }
  }

  /** `parse_section`: the start frame the timecode library computes from the
      normalised start time, and the title. */
  function ParseLine(line: string, toFrames: string -> int): Result<(int, string), ParseError>
  {
    match SplitSectionLine(line)
    case Failure(e) => Failure(e)
    case Success(parts) =>
      match Normalized(parts.0)
      case Failure(e) => Failure(BadTimecode(e))
      case Success(timecode) => Success((toFrames(timecode), parts.1))
  }

  /** `list(map(parse_section, lines))`: every line parsed in order, or the
      error of the first line that fails. */
  function ParseLines(lines: seq<string>, toFrames: string -> int): (r: Result<seq<(int, string)>, ParseError>)
    ensures r.Success? ==> |r.value| == |lines|
  {
    if lines == [] then Success([])
    else
      match ParseLine(lines[0], toFrames)
      case Failure(e) => Failure(e)
      case Success(first) =>
        match ParseLines(lines[1..], toFrames)
        case Failure(e) => Failure(e)
        case Success(rest) => Success([first] + rest)
  }

  /** The lines parse exactly when every line does, and each parsed line is that
      line's start frame and title. */
  lemma {:induction false} ParseLinesEach(lines: seq<string>, toFrames: string -> int)
    ensures ParseLines(lines, toFrames).Success? <==>
      forall k :: 0 <= k < |lines| ==> ParseLine(lines[k], toFrames).Success?
    ensures ParseLines(lines, toFrames).Success? ==>
      forall k :: 0 <= k < |lines| ==> ParseLines(lines, toFrames).value[k] == ParseLine(lines[k], toFrames).value
  {
    if lines != [] {
      ParseLinesEach(lines[1..], toFrames);
      assert forall k :: 1 <= k < |lines| ==> lines[1..][k - 1] == lines[k];
    }
  }

  /** `Section.parse(text, frame_rate)`, where `toFrames` is the frame number the
      timecode library gives a normalised timecode at that frame rate. A line that
      cannot be parsed raises; otherwise each line becomes a new section. */
  method Parse(text: string, toFrames: string -> int) returns (r: Result<seq<Section>, ParseError>)
    ensures r.Failure? ==> ParseLines(SplitLines(text), toFrames) == Failure(r.error)
    ensures r.Success? ==> ParseLines(SplitLines(text), toFrames).Success?
    ensures r.Success? ==>
      var parsed := ParseLines(SplitLines(text), toFrames).value;
      && |r.value| == |parsed| && Distinct(r.value)
      && (forall k :: 0 <= k < |parsed| ==> fresh(r.value[k]))
      && forall k :: 0 <= k < |parsed| ==>
        && r.value[k].startFrame == parsed[k].0 && r.value[k].title == parsed[k].1
        && r.value[k].endFrame == -1 && r.value[k].editOffset == 0
  {
    var parsed := ParseLines(SplitLines(text), toFrames);
    if parsed.Failure? {
      return Failure(parsed.error);
    }
    var sections := NewSections(parsed.value);
    r := Success(sections);
  }

  /** One new section per parsed line, in order. */
  method NewSections(parsed: seq<(int, string)>) returns (sections: seq<Section>)
    ensures |sections| == |parsed| && Distinct(sections)
    ensures forall k :: 0 <= k < |parsed| ==> fresh(sections[k])
    ensures forall k :: 0 <= k < |parsed| ==>
      && sections[k].startFrame == parsed[k].0 && sections[k].title == parsed[k].1
      && sections[k].endFrame == -1 && sections[k].editOffset == 0
  {
    sections := [];
    for i := 0 to |parsed|
      invariant |sections| == i && Distinct(sections)
      invariant forall k :: 0 <= k < i ==> fresh(sections[k])
      invariant forall k :: 0 <= k < i ==>
        && sections[k].startFrame == parsed[k].0 && sections[k].title == parsed[k].1
        && sections[k].endFrame == -1 && sections[k].editOffset == 0
    {
      var section := new Section(parsed[i].0, parsed[i].1);
      sections := sections + [section];
    }
  }

  /** As written, `detect_sections` puts the end time between the start and the
      title, and `parse` splits at the first whitespace only: the parsed title
      begins with the end time. */
  lemma ChapterTitleCarriesEnd(ch: Chapter)
    ensures SplitSectionLine(ChapterLine(ch))
      == Success((ChapterTime(ch.startTime), ChapterTime(ch.endTime) + " " + ch.title))
    ensures SplitSectionLine(ChapterLine(ch)).value.1 != ch.title
  {
    var start := ChapterTime(ch.startTime);
    var rest := ChapterTime(ch.endTime) + " " + ch.title;
    assert ChapterLine(ch) == start + " " + rest;
    NoSpaceInChapterTime(ch.startTime);
    SplitSectionLineUnique(start, " ", rest);
    assert |rest| > |ch.title|;
  }

  lemma NoSpaceInChapterTime(t: real)
    ensures forall k :: 0 <= k < |ChapterTime(t)| ==> !IsSpace(ChapterTime(t)[k])
    ensures ';' !in ChapterTime(t) && '.' !in ChapterTime(t)
  {
    var s := ChapterTime(t);
    assert forall k :: 0 <= k < |s| ==> s[k] in s;
  }

  /** A title the sections file can carry: no line break inside it and no
      whitespace at its start. */
  predicate WritableTitle(title: string)
  {
    (title == [] || !IsSpace(title[0])) && forall k :: 0 <= k < |title| ==> !IsLineBreak(title[k])
  }

  /** What parsing the sections file gives: each chapter's start frame and title. */
  function ParsedChapters(chapters: seq<Chapter>, toFrames: string -> int): seq<(int, string)>
  {
    if chapters == [] then []
    else
      NoSpaceInChapterTime(chapters[0].startTime);
      IllegalExactly(ChapterTime(chapters[0].startTime));
      [(toFrames(Normalized(ChapterTime(chapters[0].startTime)).value), chapters[0].title)]
      + ParsedChapters(chapters[1..], toFrames)
  }

  /** With one "start title" line per chapter, `parse` reads every chapter back:
      its start time, normalised, and its title exactly. */
  lemma {:induction false} SectionsFileRoundTrip(chapters: seq<Chapter>, toFrames: string -> int)
    requires forall k :: 0 <= k < |chapters| ==> WritableTitle(chapters[k].title)
    ensures ParseLines(SplitLines(SectionsFile(chapters)), toFrames) == Success(ParsedChapters(chapters, toFrames))
  {
    if chapters != [] {
      var line := SectionLine(chapters[0]);
      var restFile := SectionsFile(chapters[1..]);
      assert SectionsFile(chapters) == line + "\n" + restFile;
      ParseSectionLine(chapters[0], toFrames);
      SplitLinesCons(line, restFile);
      var lines := SplitLines(restFile);
      assert SplitLines(SectionsFile(chapters)) == [line] + lines;
      SectionsFileRoundTrip(chapters[1..], toFrames);
      var first := ParsedChapters(chapters, toFrames)[0];
      var rest := ParsedChapters(chapters[1..], toFrames);
      assert ParseLines(lines, toFrames) == Success(rest);
      assert ParseLine(line, toFrames) == Success(first);
      assert ([line] + lines)[0] == line && ([line] + lines)[1..] == lines;
      assert ParseLines([line] + lines, toFrames) == Success([first] + rest);

    }
  }

  /** One "start title" line holds no line break and parses back into the
      chapter's start frame and title. */
  lemma ParseSectionLine(ch: Chapter, toFrames: string -> int)
    requires WritableTitle(ch.title)
    ensures forall k :: 0 <= k < |SectionLine(ch)| ==> !IsLineBreak(SectionLine(ch)[k])
    ensures ParseLine(SectionLine(ch), toFrames)
      == Success((toFrames(Normalized(ChapterTime(ch.startTime)).value), ch.title))
  {
    var start := ChapterTime(ch.startTime);
    var line := SectionLine(ch);
    NoSpaceInChapterTime(ch.startTime);
    IllegalExactly(start);
    SplitSectionLineUnique(start, " ", ch.title);
    forall k | 0 <= k < |line|
      ensures !IsLineBreak(line[k])
    {
      if k < |start| {
        assert line[k] == start[k];
      } else if k > |start| {
        assert line[k] == ch.title[k - |start| - 1];
      }
    }
  }

  /** A line without line breaks followed by a newline is the first line. */
  lemma SplitLinesCons(line: string, rest: string)
    requires forall k :: 0 <= k < |line| ==> !IsLineBreak(line[k])
    ensures SplitLines(line + "\n" + rest) == [line] + SplitLines(rest)
  {
    var s := line + "\n" + rest;
    LineEndAt(s, |line|);
    assert s[..|line|] == line;
    assert s[|line| + 1..] == rest;
  }

  lemma {:induction false} LineEndAt(s: string, i: nat)
    requires i < |s| && IsLineBreak(s[i])
    requires forall k :: 0 <= k < i ==> !IsLineBreak(s[k])
    ensures LineEnd(s) == i
  {
    if i > 0 {
      LineEndAt(s[1..], i - 1);
    }
  }
}
