# jumpcutter2, modelled in Dafny

jumpcutter2 speeds up the silent parts of a video. It reads the audio track and
marks every video frame loud or silent: a frame is loud when its chunk of
samples peaks at a given fraction of the whole track's peak, or when it lies in
a window kept at either end. It widens the loud frames by a margin. It then
cuts the frame sequence into alternating kept and dropped spans ("edit
points"). Each span is time-stretched at its own speed, and the spans go one by
one to an output:

- an edit decision list with numbered entries and motion lines;
- a direct video output that collects ffmpeg cut ranges, counts the frames
  left and moves the chapters back by the cuts;
- in the older top-level copy, a frame-copying video output.

The project models that pipeline:

- **Settings and probing** (`parameters.dfy`, `legacy_parameters.dfy`):
  - the settings `InputParameter.__init__` resolves;
  - what `__enter__` derives from the extracted audio and from ffmpeg's
    output: the peak, the frame rate, the samples per frame and the frame count;
  - the chapter lines `detect_sections` writes.
- **The loudness map and edit points** (`editor.dfy`, with the run-length
  encoding in `segmentation.dfy`): `get_loud_frame`, `get_edit_points` and
  `fade_out_silence`, plus the running sample cursor and output clock of
  `execute` and the `print_progress` throttle.
- **Chapters** (`section.dfy`): their offsets under cuts, `compute_frames`, and
  `Section.parse` of the sections file.
- **Outputs** (`outputs.dfy`, `legacy_outputs.dfy`):
  - the mapping lines, EDL entries, motion rates, cut ranges, frame count and
    chapter forwarding of the outputs;
  - the encoder choice of `select_encoder`;
  - the frame copying of the older `VideoOutput`.
- **Utilities**: the timecode normaliser `format_timecode`
  (`timecode_utils.dfy`) and `take_until` (`shell_utils.dfy`).

**How each part is modelled:**

- Code that updates state step by step is a Dafny `class` or `method` over
  `array`s and fields, with loop invariants. Each method is proved against a
  pure function that states what it computes, and lemmas state the
  properties of that function.
- Outside effects are parameters of the model, not calls it makes:
  - ffmpeg and ffprobe runs, the file system and the phase vocoder;
  - the timecode library's conversion of a timecode to frames;
  - the download of a url.
- Python semantics are written out where they matter:
  - `x or default` treats `None`, `0` and `""` as false;
  - `int()` truncates toward zero;
  - `math.ceil` rounds up;
  - numpy's negative indices count from the end;
  - `None + 1` raises a TypeError;
  - `float('')` raises a ValueError;
  - `for … else` runs its `else` only when the loop did not break.

**Where the code and its documented intent differ, the model follows the
code:**

- No guard protects a zero global peak. The division raises, and the model
  returns `ZeroDivisionError`.
- A loud map of length 1 is accepted. Only an empty map fails, at
  `should_include_frame[-1]`.
- The sections are sorted by their original start, before the offsets are
  applied.
- The last section ends at `total_frame_count + 1`.
- When no duration line matches, `__enter__` raises an AttributeError, not its
  RuntimeError. The model returns `MissingDuration`.
- Both `__init__`s download `args.url`, the command-line url, even when the
  url was passed as a keyword.

## Model

| member | source | states |
|---|---|---|
| ShellUtils.FirstMatch | src/utils/shell_utils.py:26-28 | the index found is the first element satisfying the condition; None means no element satisfies it |
| ShellUtils.TakeUntil | src/utils/shell_utils.py:24-31 | succeeds iff some element matches, returning exactly the elements after the first match (a proper suffix, the tail when the first element matches); the condition is evaluated on the elements up to and including the first match only; with no match it raises StopIteration after probing every element (the final `return elements` is unreachable) |
| TimecodeUtils.SplitDelimited | src/utils/timecode_utils.py:2-10 | the for/else over ";" then "." yields what `Delimit` specifies: the first delimiter that splits in two gives time and frames, a split in more than two is illegal, neither gives frames "00" |
| TimecodeUtils.PadFields | src/utils/timecode_utils.py:13-14 | inserting "00" at the front until there are four fields gives `Pad`: zeros then the original fields, never truncated |
| TimecodeUtils.FormatTimecode | src/utils/timecode_utils.py:1-16 | the method returns exactly `Normalized`, the error included |
| TimecodeUtils.IllegalExactly | src/utils/timecode_utils.py:3-6 | the timecode is rejected iff it has more than one ";", or no ";" and more than one "." |
| TimecodeUtils.SemicolonFirst | src/utils/timecode_utils.py:3-8 | with exactly one ";" the dots are never looked at: the fields are the time part split on ":" and the part after ";" |
| TimecodeUtils.NoDelimiterMeansZeroFrames | src/utils/timecode_utils.py:9-10 | with neither delimiter the frames field is "00" and the time part is the whole string |
| TimecodeUtils.PaddedShape | src/utils/timecode_utils.py:12-16 | the result has max(4, n) fields, the original fields in order as its suffix and only "00" before them |
| TimecodeUtils.SecondsOnly | src/utils/timecode_utils.py:21 | "SS" normalises to "00:00:SS:00" (the `"12"` example) |
| TimecodeUtils.DotFrames | src/utils/timecode_utils.py:20 | "SS.FF" normalises to "00:00:SS:FF" (the `"00.12"` example) |
| TimecodeUtils.SemicolonFrames | src/utils/timecode_utils.py:23 | "HH:MM:SS;FF" normalises to "HH:MM:SS:FF" (the `"00:01:20;12"` example) |
| TimecodeUtils.MinutesDotFrames | src/utils/timecode_utils.py:22 | "MM:SS.FF" normalises to "00:MM:SS:FF" (the shape of the `"00:00.12"` example) |
| TimecodeUtils.ExampleDot | src/utils/timecode_utils.py:20 | `format_timecode("00.12")` is "00:00:00:12" |
| TimecodeUtils.ExampleSeconds | src/utils/timecode_utils.py:21 | `format_timecode("12")` is "00:00:12:00" |
| Numeric.Ceil | src/editor/editor.py:94-95 | `math.ceil`: the least integer not below its argument |
| Numeric.Trunc | outputs.py:97-98 | `int()` of a float truncates toward zero: for a non-negative argument the result is at most it and more than it minus one, for a negative one at least it and less than it plus one |
| Numeric.Slice | src/editor/editor.py:31 | numpy slicing `s[a:b]`: clipped to the sequence, empty when `a >= b`, element k is `s[a + k]` |
| Parameters.MaxOfIsMaximum | src/parameters.py:18 | `np.max` is an element and no element exceeds it |
| Parameters.MinOfIsMinimum | src/parameters.py:19 | `np.min` is an element and no element is below it |
| Parameters.PeakIsLargestMagnitude | src/parameters.py:17-20 | `get_max_volume` bounds the magnitude of every sample and is the magnitude of one of them |
| Parameters.PeakZeroIffSilent | src/parameters.py:17-20 | the peak is zero iff every sample is zero (the case the editor's division does not guard) |
| Parameters.Configure | src/parameters.py:94-128 | fails iff no input file is given; otherwise keeps the input file, `new_speed` has two entries, `replace` holds iff the output type is not "edl" and no output file is given, the frame rate is kept, the keep windows are `KeepFrames` of the frame rate and the seconds, the fade envelope is 400 |
| Parameters.KeepFrames | src/parameters.py:125-126 | the frames kept at one end are a whole number: exactly rate times seconds for the int default rate, and rate times seconds truncated for a float rate |
| Parameters.GivenFrameRateBreaksRange | src/parameters.py:75 | a frame rate given on the command line makes the keep-frame bounds floats that `range()` (src/editor/editor.py:23-28) refuses, `--frame_rate 30` with nothing kept included; the default rate gives ints; the corrected count equals the int product and truncates the float one |
| Parameters.SpeedIndexing | src/parameters.py:101 | index 0 of `new_speed` is the silent speed and index 1 the sounded speed |
| Parameters.LastMatch | src/parameters.py:148-161 | a field overwritten on every matching line ends up None iff no line matches, and otherwise holds the value of a line after which none matches |
| Parameters.ScanProbe | src/parameters.py:148-161 | the loop over the probe lines leaves the duration of the last duration line and the stream of the last stream line |
| Parameters.AudioFrameCount | src/parameters.py:175 | `ceil(count / spf)` frames of `spf` samples cover all samples and one frame fewer does not |
| Parameters.CeilScaled | src/parameters.py:175 | `ceil(n / s)` is non-negative, and times `s` it reaches `n` while one less falls short |
| Parameters.Enter | src/parameters.py:137-183 | each failure of `__enter__` in order (no samples, zero frame rate, zero samples per frame, no duration line, each stated as the exact failure it produces), success iff none applies, and every derived field: peak, detected frame rate, `samples_per_frame = rate / frame rate`, frame count, video frame count, audio-only flag and sections file |
| Parameters.ChapterTime | src/parameters.py:209-212 | a chapter time is written as digits, "-" and ":", starting with no whitespace |
| Parameters.ChapterTimeReadBack | src/parameters.py:209-210 | for a non-negative time the text splits at ":" into exactly two runs of digits; read back, the seconds are below 60 and minutes times 60 plus seconds is the truncated time |
| Editor.LoudFrameContents | src/editor/editor.py:19-40 | the loud map has one entry per video frame, both keep windows are loud whatever the audio, and a middle frame is loud iff its chunk's peak over the global peak reaches the threshold |
| Editor.LoudFrameFails | src/editor/editor.py:20-38 | `get_loud_frame` raises iff the start window is longer than the frame count, a middle chunk is empty, the peak is zero with a non-empty middle, or the end window is more than twice the frame count (numpy's negative indices) |
| Editor.ChunkLoudness | src/editor/editor.py:29-34 | one middle frame: ValueError on an empty chunk, ZeroDivisionError on a zero peak, otherwise whether the chunk is loud |
| Editor.KeepStart | src/editor/editor.py:23-24 | the first loop sets exactly the frames below `keep_frames_from_start`, and fails iff the window is longer than the array |
| Editor.MiddleStateContents | src/editor/editor.py:28-34 | after the middle loop reaches frame i, a frame is set iff it is in the start window or is a loud frame already looked at |
| Editor.ContentStep | src/editor/editor.py:29-34 | one iteration of the middle loop either raises the loop's first exception or sets frame i iff it is loud |
| Editor.CheckContent | src/editor/editor.py:27-34 | the middle loop raises exactly `MiddleFailure` and otherwise leaves the map of the loud frames |
| Editor.KeepEnd | src/editor/editor.py:37-38 | the last loop sets every frame from `frames_count_to_cut` on (wrapping negative indices as numpy does) and fails iff that start is below `-n` |
| Editor.GetLoudFrame | src/editor/editor.py:19-40 | the three loops over the zero-filled array return exactly `LoudFrame` |
| Editor.Dilate | src/editor/editor.py:44-48 | the included map has one entry per frame |
| Editor.DilateWindows | src/editor/editor.py:46-48 | a frame is included iff some loud frame lies at most `frame_margin` away |
| Editor.DilateZeroMargin | src/editor/editor.py:46-48 | with no margin the included map is the loud map |
| Editor.DilateKeepsLoud | src/editor/editor.py:46-48 | a loud frame, and every frame within the margin of it, is included |
| Editor.WindowMax | src/editor/editor.py:48 | `np.max` of the window is the dilated value of the frame |
| Editor.ScanFrame | src/editor/editor.py:46-50 | one iteration stores the window maximum and appends a point exactly when the classification flips |
| Editor.ScanFrames | src/editor/editor.py:45-50 | the loop leaves the dilated map in `should_include_frame` and the scanned points |
| Editor.GetEditPoints | src/editor/editor.py:42-54 | fails iff there are no frames; otherwise the points are contiguous from 0 to the frame count, non-empty, alternating, each labelled with its frames' classification, and equal to the reference encoding `Runs` (sentinel dropped) |
| Editor.ExampleEditPoints | src/editor/editor.py:42-54 | the map `[0,0,1,1,0,0]` with no margin gives `(0,2,F),(2,4,T),(4,6,F)` |
| Editor.ShortChunkSilent | src/editor/editor.py:88-89 | a chunk shorter than the envelope comes out all zeros |
| Editor.FadeTouchesEnds | src/editor/editor.py:60-64 | fading leaves every sample between the first and last envelope untouched and silences the first sample |
| Editor.FadeInRamp | src/editor/editor.py:61-63 | inside the first envelope (and clear of the last) sample t is scaled by exactly t / e |
| Editor.FadeInPlace | src/editor/editor.py:63 | the in-place `*= arange(e) / e` over the first e samples gives `FadeIn` |
| Editor.FadeOutPlace | src/editor/editor.py:64 | the in-place `*= 1 - arange(e) / e` over the last e samples gives `FadeOut` |
| Editor.FadeOutSilence | src/editor/editor.py:60-64 | `fade_out_silence` on the array gives the fade-in followed by the fade-out |
| Editor.ShapeChunk | src/editor/editor.py:87-91 | the array becomes silent when shorter than the envelope and faded otherwise |
| Editor.ProgressThrottle | src/editor/editor.py:104-113 | a line is written iff progress gained more than one point or the work is complete; `last_progress` then becomes the current progress and otherwise stays; the line ends the output line iff it came from the completion branch, that is, progress gained at most one point |
| Editor.ProgressCompletes | src/editor/editor.py:110-111 | the step with `current == total` always writes a line and leaves 100 |
| Editor.Editor.constructor | src/editor/editor.py:15-17 | a new editor has reported no progress |
| Editor.Editor.PrintProgress | src/editor/editor.py:104-113 | the field and the line written follow `ProgressStep` |
| Editor.Altered | src/editor/editor.py:75-91 | a point's audio is as long as the stretched samples, at the point's speed |
| Editor.Events | src/editor/editor.py:72-100 | one `apply_edit_point` call per point |
| Editor.OutputClockStarts | src/editor/editor.py:72 | the first call starts at output frame 0 |
| Editor.OutputClockChains | src/editor/editor.py:92-100 | every call starts at the output frame where the previous one ended |
| Editor.OutputClockForward | src/editor/editor.py:94-95 | no call ends before it starts |
| Editor.StretchPoint | src/editor/editor.py:75-95 | one point: its samples stretched at its speed, shaped, the cursor advanced by their length and both output frames `ceil(cursor / spf)` |
| Editor.Editor.ApplyEditPoints | src/editor/editor.py:74-100 | the loop makes exactly the calls `Events` lists, in order, and leaves the progress at 100 |
| Editor.Editor.Execute | src/editor/editor.py:66-102 | `execute` fails iff the loud map fails or there are no frames, and otherwise makes the calls of the reference encoding of the dilated loud map |
| Segmentation.NextFlip | src/editor/editor.py:49 | the end of a run is the first later frame classified differently, or the end of the map |
| Segmentation.RunsSegment | src/editor/editor.py:42-54 | the reference encoding is contiguous, non-empty, alternating and correctly labelled |
| Segmentation.RunsEnd | src/editor/editor.py:52-53 | the encoding of a non-empty map ends at the frame count |
| Segmentation.SegmentationIsRuns | src/editor/editor.py:42-54 | any encoding with those four properties is the reference one, so the properties determine the points |
| Segmentation.ScanStepKeeps | src/editor/editor.py:49-50 | one scan step keeps the invariant: the closed points followed by the encoding from the open run are the whole encoding |
| Segmentation.ScanClose | src/editor/editor.py:52-54 | closing the open run after the scan and dropping the sentinel gives the reference encoding |
| Sections.ShiftCountsRemovedFrames | src/editor/section.py:19-23 | the offset change is the number of frames the point removes before the section's start, at most the point's span |
| Sections.ShiftExample | src/editor/section.py:19-23 | a section at 100 with cut (50,70) ends up at 80; a cut starting at the section leaves it; a straddling cut (90,120) moves it by 10 |
| Sections.Section.constructor | src/editor/section.py:12-17 | a new section has `end_frame = -1` and `edit_offset = 0` |
| Sections.Section.ApplyEditPoint | src/editor/section.py:19-23 | `edit_offset` drops by the shift of the point and nothing else changes |
| Sections.Section.ConsumeEdit | src/editor/section.py:48-51 | the offset is folded into the start and reset to 0 |
| Sections.ChainedTotal | src/editor/section.py:25-27 | the frame counts of chained sections sum to the last end minus the first start |
| Sections.InsertByStart | src/editor/section.py:42 | inserting keeps the list sorted by start and adds exactly one section |
| Sections.SortByStart | src/editor/section.py:42 | the sort returns a permutation of the sections sorted by start |
| Sections.ComputeFrames | src/editor/section.py:38-55 | nothing happens to an empty list; otherwise the result is a permutation sorted by original start, each start has its offset folded in and offset 0, each end is the next start, the last end is `total_frame_count + 1`, and the frame counts sum to that minus the first start |
| Sections.FinishFrames | src/editor/section.py:48-55 | the reduce and the last assignment fold every offset and chain every end |
| Sections.SplitSectionLineParts | src/editor/section.py:32 | the split fails iff the line has no whitespace; otherwise the line is the start, a non-empty whitespace run and the title, with no whitespace in the start and none at the title's head |
| Sections.SplitSectionLineUnique | src/editor/section.py:32 | splitting a start, a whitespace run and a title gives back that start and title |
| Sections.ParseLinesEach | src/editor/section.py:36 | parsing the lines succeeds iff every line parses, and then gives one section per line in order |
| Sections.Parse | src/editor/section.py:29-36 | `parse` returns the failure of the first bad line, or one new distinct section per line with its start frame, its title, end -1 and offset 0 |
| Sections.NewSections | src/editor/section.py:34 | one fresh section per parsed line with those fields |
| Sections.NoSpaceInChapterTime | src/parameters.py:209-212 | a written chapter time has no whitespace, no ";" and no "." |
| Sections.ChapterTitleCarriesEnd | src/parameters.py:208-214 | a chapter line as written reads back with the end time inside its title |
| Sections.ParseSectionLine | src/editor/section.py:31-34 | a "start title" line parses to the start's frame and the title |
| Sections.SectionsFileRoundTrip | src/parameters.py:208-214 | a sections file of "start title" lines parses back to every chapter's start frame and title |
| Outputs.MappingsOnePerEvent | src/editor/outputs.py:29-36 | with a mapping file there is exactly one mapping line per event, pairing source end + 1 with output end + 1; without one there are none |
| Outputs.BaseOutput.constructor | src/editor/outputs.py:27 | the mapping list starts empty |
| Outputs.BaseOutput.ApplyEditPoint | src/editor/outputs.py:29-36 | appends the event's mapping line when a mapping file is set and nothing otherwise |
| Outputs.MotionRate | src/editor/outputs.py:75-83 | the M2 line is written iff the point is dropped and its output length differs from its source length; the divisor `output_length - 1` is at least 1; the rate times that divisor is the source length times the frame rate |
| Outputs.MotionLine | src/editor/outputs.py:75-89 | the branch computes exactly `Motion` |
| Outputs.WrittenEvents | src/editor/outputs.py:66 | every event kept is one spanning more than one output frame |
| Outputs.WrittenEventsExactly | src/editor/outputs.py:66 | an event gets an entry iff it is one of the events and spans more than one output frame |
| Outputs.EdlEntriesNumbered | src/editor/outputs.py:58-92 | the entries are the written events numbered 1, 2, 3, ... without gaps |
| Outputs.EdlOutput.constructor | src/editor/outputs.py:58 | the index starts at 1 with no entries |
| Outputs.EdlOutput.ApplyEditPoint | src/editor/outputs.py:60-92 | the mapping line, then for an event spanning more than one output frame an entry numbered `index` and the index increased by one; nothing otherwise |
| Outputs.CutIsNotWritten | src/editor/outputs.py:125 | the direct video output cuts exactly the events the EDL output leaves out |
| Outputs.TotalShiftCountsRemovedFrames | src/editor/outputs.py:133-135 | a section is moved back by the number of frames the cuts remove before it |
| Outputs.ForwardCut | src/editor/outputs.py:133-135 | every section is moved back by the cut point once, and nothing else of it changes |
| Outputs.DirectVideoOutput.MoveSections | src/editor/outputs.py:133-135 | moving every section back by a cut keeps each offset at minus the total shift of all cuts so far, start and end unchanged |
| Outputs.DirectVideoOutput.constructor | src/editor/outputs.py:109-116 | the frame count starts at the video's, the cut lists empty |
| Outputs.DirectVideoOutput.ApplyEditPoint | src/editor/outputs.py:118-135 | the mapping line, then for an event spanning at most one output frame: both cut ranges appended, the frame count lowered by the source span and each section's offset moved back, its start and end unchanged; nothing otherwise |
| Outputs.DirectVideoOutput.ApplyCut | src/editor/outputs.py:125-135 | keeps the cut lists, frame count and section offsets equal to functions of the cut points so far, while making the updates above |
| Outputs.Pieces | src/editor/outputs.py:141 | `strip().split(' ', 2)[:2]` has one or two pieces |
| Outputs.LineNameListed | src/editor/outputs.py:140-143 | a line contributes at most one name, which contains "264" and stands after the `V....D` flags on that line |
| Outputs.GatherFromLines | src/editor/outputs.py:140-143 | the comprehension succeeds iff every line does; every name gathered comes from one line, and every name a line yields is gathered |
| Outputs.H264NamesAreH264 | src/editor/outputs.py:140-143 | every encoder listed contains "264" and is the name on a video encoder line |
| Outputs.H264NamesComplete | src/editor/outputs.py:140-143 | conversely, the name on every video encoder line that contains "264" is listed |
| Outputs.NvencChosenIffListed | src/editor/outputs.py:140-159 | "h264_nvenc" is selected iff some video encoder line names it |
| Outputs.PreferredIsListed | src/editor/outputs.py:152-159 | the choice is a listed encoder: `h264_nvenc` iff it is listed, else `libx264` when listed, else the first one |
| Outputs.SelectEncoder | src/editor/outputs.py:137-163 | returns exactly `EncoderOption`: "" without hardware acceleration or with no h264 encoder, the errors of `take_until` and of a nameless encoder line, otherwise `-c:v` and the preferred encoder |
| LegacyParameters.Init | parameters.py:66-90 | stops (help and exit) iff no input file results; otherwise keeps that file, two speeds and the 400-sample envelope |
| LegacyParameters.NewSpeedIndexing | parameters.py:72 | `new_speed[int(should_keep)]` is the silent speed for a dropped point and the sounded speed for a kept one |
| LegacyParameters.InputFileWithoutUrl | parameters.py:73-82 | without a url, an input file passed by keyword is kept; failing that, the command line's is used, and the program exits iff there is none |
| Strings.DigitsRoundTrip | parameters.py:108 | reading the decimal digits of a number back gives the number |
| LegacyParameters.LastLineOverrides | parameters.py:104-110 | the rate of the last matching line wins over the configured one unless it is zero |
| LegacyParameters.NoMatchKeepsConfigured | parameters.py:104-110 | with no matching line the configured frame rate stays |
| LegacyParameters.DetectFrameRate | parameters.py:104-108 | the loop returns `AutoDetected`: `float('')` fails, otherwise the last match's rate |
| LegacyParameters.Enter | parameters.py:98-113 | each failure of `__enter__` in order (no samples, empty digits, zero frame rate, zero samples per frame), success iff none applies, and the peak, frame rate, samples per frame and frame count |
| LegacyOutputs.LegacyEdlOutput.constructor | outputs.py:41 | the index starts at 1 |
| LegacyOutputs.LegacyEdlOutput.ApplyEditPoint | outputs.py:43-73 | an entry numbered `index` and the index increased by one iff the output spans more than one frame, with the M2 rule of the newer sink; no mapping line |
| LegacyOutputs.Normalised | outputs.py:93-94 | the chunk keeps its length and each sample, times the peak, is the original |
| LegacyOutputs.Sources | outputs.py:96-98 | one source frame per output frame of the span, none when the span is empty or reversed |
| LegacyOutputs.SourcesTruncate | outputs.py:96-98 | the source frame of output frame `start + j` is `start_frame + speed * j` truncated toward zero, bounded on both sides as `int()` truncates |
| LegacyOutputs.LastExistingNone | outputs.py:99-103 | with no source frame extracted the remembered frame does not change |
| LegacyOutputs.LastExistingIsLatest | outputs.py:99-101 | once a frame was extracted, the remembered frame is an extracted one after which none is |
| LegacyOutputs.RunCopies | outputs.py:96-103 | the loop stops (TypeError) iff its first frame is missing with nothing remembered; otherwise it makes one copy per output frame, from the last extracted source so far, and remembers the last extracted one |
| LegacyOutputs.CopySource | outputs.py:99-103 | a copy reads the frame itself when it exists and the last earlier extracted frame otherwise |
| LegacyOutputs.VideoOutput.constructor | outputs.py:89-90 | nothing remembered, no audio and no copies yet |
| LegacyOutputs.VideoOutput.ApplyEditPoint | outputs.py:92-103 | the audio grows by the normalised chunk, exactly its length; the copies grow by the run of the span; the call fails iff the run does; the remembered frame follows the run |
| LegacyOutputs.VideoOutput.CopyFrames | outputs.py:96-103 | the loop over the output frames makes the run's copies and leaves the audio alone |
| LegacyOutputs.VideoOutput.CopyOutputFrame | outputs.py:99-113 | copies the frame when it exists and remembers it; otherwise copies the remembered one; fails (`None + 1`) when there is none, changing nothing |

## Left out

- Stereo audio: samples are one `int` channel. `get_max_volume` over all
  channels equals the peak of the flattened samples, and the mask of
  `fade_out_silence` scales every channel alike.
- The phase vocoder (`audiotsm`) is the parameter `stretch`. Only the length of
  what it returns matters to the output clock.
- Floating point: thresholds, speeds, fade factors, the progress percentage and
  the motion rate are exact reals. The `05.1f` and `.1f` formatting is not
  modelled.
- The `timecode` library:
  - `Timecode(rate, frames=n).frames` is `n`;
  - rendering as "HH:MM:SS:FF", the `.float` seconds of the audio cut ranges
    and the conversion of a start timecode to frames are not modelled;
  - that conversion is the parameter `toFrames` of `Sections.Parse`;
  - the duration's frame count is `durationFrames` of `Parameters.Enter`.
- ffmpeg, ffprobe and the shell:
  - the listing of `ffmpeg -encoders` and the lines of `ffmpeg -i` are
    inputs;
  - the regular expressions of `__enter__` are modelled by what they capture
    (`ProbeLine`, and the digits in `LegacyMedia.captures`), not by regular
    expression matching;
  - which frame files exist is the predicate `extracted`.
- Files: the EDL file, the mapping file, the filter script, the wav files and
  the sections file are modelled as the records they receive. `close` of every
  output is not modelled, and neither are the EDL title line, the
  `* FROM CLIP NAME` line and the output file names derived from the input
  file's name.
- `print` and progress output text: `ProgressLine` records what a progress line
  shows. The "time-altered frames saved" message of `copy_frame` is dropped.
- `Editor.get_output`: `Execute` returns the `apply_edit_point` calls in order,
  and each output is modelled on its own over such calls.
- `DirectVideoOutput.__init__` reading the sections file: the constructor takes
  the parsed sections.
- `list.sort` reorders the caller's list in place. `Sections.SortByStart` and
  `Sections.ComputeFrames` return the sorted sequence instead, and the
  sections' fields are updated in place.
- `Sections.SortByStart`: it is a stable insertion sort. Python's sort is
  stable as well, but the model proves only sortedness and permutation, not
  stability.
- `Outputs.TotalShiftCountsRemovedFrames` needs cuts that do not overlap,
  which edit points never do. The offsets themselves are stated for any cuts.
- Settings no model reads: `bit_rate` beyond its resolution, `frame_quality`,
  `temp_folder`, the temporary directory and `__exit__`.
- `Parameters.Configure` takes `frame_margin` and the keep-start and keep-end
  seconds as `nat`, so negative values are not modelled. argparse accepts them
  (`--keep_start` and `--keep_end` are `type=int`, `--frame_margin` is
  `type=float`). With a negative keep, `get_loud_frame` indexes from a negative
  frame and wraps around. With a negative margin, `get_edit_points` takes
  `np.max` of an empty window and raises ValueError. `Editor.Editor.Execute`
  does not show either. A fractional margin is not modelled either.
- `Parameters.Configure` and `Editor.GetLoudFrame`: the main model uses the
  corrected whole keep-frame counts of `Parameters.KeepFrames`. With a frame
  rate given on the command line the source computes float bounds and
  `get_loud_frame` raises TypeError; only `Parameters.GivenFrameRateBreaksRange`
  captures that (see Findings). A negative `--frame_rate` is not modelled.
- `Parameters.Configure` starts from the arguments after `x or args.x` has
  been resolved. The legacy `LegacyParameters.Init` models that resolution
  itself.
- `LegacyParameters.Enter`: the frame count is stated as `AudioFrameCount`
  only when `samples_per_frame` is positive. A negative frame rate from the
  settings gives a negative `samples_per_frame`, for which the model states no
  frame count.
- `LegacyOutputs.VideoOutput.constructor` requires a positive peak. A silent
  track makes numpy divide by zero, giving inf or nan samples, which exact
  reals cannot hold.
- `io_utils.download_file` is the parameter `download`.
- `jumpcutter.py`, `main.py`, `test.py`, `link.py`, `io_utils.py` and the root
  `shell_utils.py`: orchestration, installation and scratch scripts.
  src/editor/edit_point.py is not part of this model; its three fields are
  `EditPoints.EditPoint`.

## Findings

| source | as written | input that shows it | evidently intended | confidence | as-written member | corrected member |
|---|---|---|---|---|---|---|
| src/parameters.py:208-214 | `detect_sections` writes "start end title" per chapter, but `Section.parse` (src/editor/section.py:32) splits each line at its first whitespace run, so the end time becomes part of the title | `Chapter(65.0, 130.0, "Intro")` gives the line "1:5 2:10 Intro", which parses to the title "2:10 Intro" | one "start title" line per chapter, parsed back to the title "Intro" | not executed | Sections.ChapterTitleCarriesEnd | Sections.SectionsFileRoundTrip |
| src/parameters.py:123-126 | `--frame_rate` has `type=float` (line 75), so a given rate is a float and `keep_frames_from_start` and `keep_frames_from_end` are floats; `range()` in `get_loud_frame` (src/editor/editor.py:23-28) raises TypeError on them. Only the int default 30 works | `--frame_rate 30` with the default keep of 0 seconds: the bound is `30.0 * 0 == 0.0` and `range(0, 0.0)` fails | whole frame counts, `int(frame_rate * keep)` | not executed | Parameters.GivenFrameRateBreaksRange | Parameters.KeepFrames |
