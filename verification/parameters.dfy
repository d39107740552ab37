/** src/parameters.py: the peak magnitude of the audio, the settings resolved in
    `InputParameter.__init__`, the quantities derived in `__enter__` from the
    extracted audio and the probe of the video, and the chapter lines
    `detect_sections` writes. Command-line parsing, ffmpeg and ffprobe runs and the
    file system are outside the model: their results arrive as parameters. */
module Parameters {
  import opened Wrappers
  import opened Numeric
  import opened Strings

  /** `np.max(s)`. */
  function MaxOf(s: seq<int>): int
    requires |s| > 0
  {
    if |s| == 1 then s[0]
    else
      var rest := MaxOf(s[1..]);
      if s[0] >= rest then s[0] else rest
  }

  /** `np.max(s)` is an element of `s` and no element exceeds it. */
  lemma {:induction false} MaxOfIsMaximum(s: seq<int>)
    requires |s| > 0
    ensures MaxOf(s) in s && forall x :: x in s ==> x <= MaxOf(s)
  {
    if |s| > 1 {
      MaxOfIsMaximum(s[1..]);
      assert forall x :: x in s ==> x == s[0] || x in s[1..];
    }
  }

  /** `np.min(s)`. */
  function MinOf(s: seq<int>): int
    requires |s| > 0
  {
    if |s| == 1 then s[0]
    else
      var rest := MinOf(s[1..]);
      if s[0] <= rest then s[0] else rest
  }

  /** `np.min(s)` is an element of `s` and no element is below it. */
  lemma {:induction false} MinOfIsMinimum(s: seq<int>)
    requires |s| > 0
    ensures MinOf(s) in s && forall x :: x in s ==> MinOf(s) <= x
  {
    if |s| > 1 {
      MinOfIsMinimum(s[1..]);
      assert forall x :: x in s ==> x == s[0] || x in s[1..];
    }
  }

  /** `get_max_volume(s)`: `max(np.max(s), -np.min(s))`. `np.max` of an empty
      array raises, hence the precondition (callers check it). */
  function GetMaxVolume(s: seq<int>): int
    requires |s| > 0
  {
    Max(MaxOf(s), -MinOf(s))
  }

  /** The peak bounds every sample's magnitude and is the magnitude of one of them. */
  lemma PeakIsLargestMagnitude(s: seq<int>)
    requires |s| > 0
    ensures forall x :: x in s ==> -GetMaxVolume(s) <= x <= GetMaxVolume(s)
    ensures GetMaxVolume(s) in s || -GetMaxVolume(s) in s
  {
    MaxOfIsMaximum(s);
    MinOfIsMinimum(s);
  }

  /** The peak is zero exactly when the audio is silent throughout. */
  lemma {:induction false} PeakZeroIffSilent(s: seq<int>)
    requires |s| > 0
    ensures GetMaxVolume(s) == 0 <==> forall x :: x in s ==> x == 0
  {
    var v := GetMaxVolume(s);
    PeakIsLargestMagnitude(s);
    if v == 0 {
      assert forall x :: x in s ==> -v <= x <= v;
    } else {
      assert v in s || -v in s;
    }
  }

  /** `audio_fade_envelope_size`. */
  const AudioFadeEnvelopeSize: nat := 400

  /** A non-negative number of frames or seconds per second. */
  type Rate = x: real | x >= 0.0

  /** The frame rate after `frame_rate or args.frame_rate`. `parse_args` passes
      only a value given with `--frame_rate` through `type=float`: the default 30
      stays an int. */
  datatype FrameRate = WholeRate(n: nat) | FloatRate(x: Rate)

  function RateValue(rate: FrameRate): (v: real)
    ensures v >= 0.0
    ensures rate.WholeRate? ==> v == rate.n as real
    ensures rate.FloatRate? ==> v == rate.x
  {
    match rate
    case WholeRate(n) => n as real
    case FloatRate(x) => x
  }

  /** The frame rate `parse_args` yields when no keyword overrides it: the
      default, or the value `--frame_rate` gives, converted to a float. */
  function CommandLineFrameRate(given: Option<Rate>): FrameRate
  {
    if given.None? then WholeRate(30) else FloatRate(given.value)
  }

  /** A Python number: an int or a float. */
  datatype PyNumber = PyInt(i: int) | PyFloat(x: real)

  /** `self.frame_rate * (keep_start or args.keep_start)` as written: an int rate
      gives an int, a float rate a float, whole or not. */
  function KeepFramesAsWritten(rate: FrameRate, seconds: nat): PyNumber
  {
    match rate
    case WholeRate(n) => PyInt(n * seconds)
    case FloatRate(x) => PyFloat(x * seconds as real)
  }

  /** `range(a, b)` raises TypeError unless its bounds are ints; a float that
      happens to be whole is refused too. */
  predicate RangeAccepts(bound: PyNumber)
  {
    bound.PyInt?
  }

  /** The frames to keep at one end of the audio as `get_loud_frame` needs them: a
      whole number, the product of the rate and the seconds truncated as `int()`
      truncates. */
  function KeepFrames(rate: FrameRate, seconds: nat): (n: nat)
    ensures rate.WholeRate? ==> n == rate.n * seconds
    ensures n as real <= RateValue(rate) * seconds as real < n as real + 1.0
  {
    match rate
    case WholeRate(n) => n * seconds
    case FloatRate(x) => Trunc(x * seconds as real)
  }

  /** With a frame rate given on the command line the keep-frame bounds are floats,
      `range()` refuses them and `get_loud_frame` raises TypeError, even for
      `--frame_rate 30` with nothing kept; with the default rate it accepts them.
      The corrected count agrees with the as-written product wherever that is an
      int, and otherwise is its truncation. */
  lemma GivenFrameRateBreaksRange(given: Rate, seconds: nat)
    ensures !RangeAccepts(KeepFramesAsWritten(CommandLineFrameRate(Some(given)), seconds))
    ensures KeepFramesAsWritten(CommandLineFrameRate(Some(30.0)), 0) == PyFloat(0.0)
    ensures RangeAccepts(KeepFramesAsWritten(CommandLineFrameRate(None), seconds))
    ensures forall rate: FrameRate :: KeepFramesAsWritten(rate, seconds).PyInt? ==>
      KeepFramesAsWritten(rate, seconds).i == KeepFrames(rate, seconds)
    ensures forall rate: FrameRate :: KeepFramesAsWritten(rate, seconds).PyFloat? ==>
      KeepFrames(rate, seconds) == Trunc(KeepFramesAsWritten(rate, seconds).x)
  {
  }

  /** The options after each `x or args.x` has been resolved. The seconds to keep
      at either end are whole numbers (`type=int`). */
  datatype Arguments = Arguments(
    inputFile: string, inputSections: string, outputType: string, outputFile: string,
    mapping: string, silentThreshold: real, soundedSpeed: real, silentSpeed: real,
    frameMargin: nat, sampleRate: real, frameRate: FrameRate, bitRate: real,
    keepStart: nat, keepEnd: nat, useHardwareAcc: bool)

  /** The fields `__init__` sets. */
  datatype Config = Config(
    inputFile: string, inputSections: string, outputType: string, outputFile: string,
    mapping: string, silentThreshold: real, newSpeed: seq<real>, frameMargin: nat,
    sampleRate: real, frameRate: FrameRate, bitRate: real, replace: bool,
    keepFramesFromStart: nat, keepFramesFromEnd: nat, audioFadeEnvelopeSize: nat,
    useHardwareAcc: bool)

  datatype ConfigError = InputFileRequired

  /** `InputParameter.__init__` after argument parsing, with the keep-frame counts
      made whole numbers as `get_loud_frame` needs them. */
  function Configure(a: Arguments): (r: Result<Config, ConfigError>)
    ensures r.Failure? <==> a.inputFile == []
    ensures r.Success? ==> r.value.inputFile == a.inputFile && |r.value.newSpeed| == 2
    ensures r.Success? ==> (r.value.replace <==> a.outputType != "edl" && a.outputFile == [])
    ensures r.Success? ==> r.value.frameRate == a.frameRate
    ensures r.Success? ==> r.value.keepFramesFromStart == KeepFrames(a.frameRate, a.keepStart)
    ensures r.Success? ==> r.value.keepFramesFromEnd == KeepFrames(a.frameRate, a.keepEnd)
    ensures r.Success? ==> r.value.audioFadeEnvelopeSize == 400 && Configured(r.value)
  {
    if a.inputFile == [] then Failure(InputFileRequired)
    else
      Success(Config(
        a.inputFile, a.inputSections, a.outputType, a.outputFile, a.mapping,
        a.silentThreshold, [a.silentSpeed, a.soundedSpeed], a.frameMargin,
        a.sampleRate, a.frameRate, a.bitRate,
        a.outputType != "edl" && a.outputFile == [],
        KeepFrames(a.frameRate, a.keepStart), KeepFrames(a.frameRate, a.keepEnd),
        AudioFadeEnvelopeSize, a.useHardwareAcc))
  }

  /** What `__init__` guarantees of every configuration it builds. */
  predicate Configured(c: Config)
  {
    |c.newSpeed| == 2 && c.audioFadeEnvelopeSize == AudioFadeEnvelopeSize
  }

  /** `new_speed[int(should_keep)]`. */
  function SpeedOf(c: Config, shouldKeep: bool): real
    requires |c.newSpeed| == 2
  {
    c.newSpeed[if shouldKeep then 1 else 0]
  }

  /** Index 0 of `new_speed` is the silent speed and index 1 the sounded speed. */
  lemma SpeedIndexing(a: Arguments)
    requires a.inputFile != []
    ensures SpeedOf(Configure(a).value, false) == a.silentSpeed
    ensures SpeedOf(Configure(a).value, true) == a.soundedSpeed
  {
  }

  /** What the video stream pattern captures from a line of `ffmpeg -i`: four runs
      of digits. */
  datatype StreamInfo = StreamInfo(width: nat, height: nat, bitRate: nat, frameRate: nat)

  /** A line of `ffmpeg -i` output, as the two patterns classify it; the duration
      pattern is tried first and the stream pattern only on lines it misses. */
  datatype ProbeLine = DurationLine(duration: string) | StreamLine(info: StreamInfo) | OtherLine

  function DurationOf(line: ProbeLine): Option<string>
  {
    if line.DurationLine? then Some(line.duration) else None
  }

  function StreamOf(line: ProbeLine): Option<StreamInfo>
  {
    if line.StreamLine? then Some(line.info) else None
  }

  /** The value the last line with a match yields: what a loop that overwrites a
      field on every match leaves behind. */
  function Last<T, U>(s: seq<T>, f: T -> Option<U>): Option<U>
  {
    if s == [] then None
    else if f(s[|s| - 1]).Some? then f(s[|s| - 1])
    else Last(s[..|s| - 1], f)
  }

  /** Nothing is left behind exactly when no line matches; otherwise it is the
      value of a line after which no line matches. */
  lemma {:induction false} LastMatch<T, U>(s: seq<T>, f: T -> Option<U>)
    ensures Last(s, f).None? <==> forall k :: 0 <= k < |s| ==> f(s[k]).None?
    ensures Last(s, f).Some? ==> exists k :: 0 <= k < |s| && f(s[k]) == Last(s, f)
                                          && forall j :: k < j < |s| ==> f(s[j]).None?
  {
    if s != [] && f(s[|s| - 1]).None? {
      var init := s[..|s| - 1];
      LastMatch(init, f);
      assert forall k :: 0 <= k < |init| ==> init[k] == s[k];
      if Last(init, f).Some? {
        var k :| 0 <= k < |init| && f(init[k]) == Last(init, f)
                 && forall j :: k < j < |init| ==> f(init[j]).None?;
        assert f(s[k]) == Last(s, f);
      }
    }
  }

  /** The loop over the probe lines in `__enter__`. */
  method ScanProbe(lines: seq<ProbeLine>) returns (duration: Option<string>, stream: Option<StreamInfo>)
    ensures duration == Last(lines, DurationOf)
    ensures stream == Last(lines, StreamOf)
  {
    duration := None;
    stream := None;
    var i := 0;
    while i < |lines|
      invariant 0 <= i <= |lines|
      invariant duration == Last(lines[..i], DurationOf)
      invariant stream == Last(lines[..i], StreamOf)
    {
      assert lines[..i + 1][..i] == lines[..i];
      match lines[i] {
        case DurationLine(d) =>
          duration := Some(d);
        case StreamLine(info) =>
          stream := Some(info);
        case OtherLine =>
      }
      i := i + 1;
    }
    assert lines[..|lines|] == lines;
  }

  /** `x or default` for an optional number: None and zero are both falsy. */
  function OrReal(x: Option<real>, default: real): real
  {
    if x.Some? && x.value != 0.0 then x.value else default
  }

  /** The frame rate `__enter__` settles on: the one the last stream line reports,
      unless there is none or it is zero. */
  function DetectedFrameRate(c: Config, lines: seq<ProbeLine>): real
  {
    var stream := Last(lines, StreamOf);
    OrReal(if stream.Some? then Some(stream.value.frameRate as real) else None, RateValue(c.frameRate))
  }

  /** `int(math.ceil(sample_count / samples_per_frame))`. */
  function AudioFrameCount(sampleCount: nat, samplesPerFrame: real): (n: nat)
    requires samplesPerFrame > 0.0
    ensures n as real * samplesPerFrame >= sampleCount as real
    ensures n > 0 ==> (n - 1) as real * samplesPerFrame < sampleCount as real
  {
    CeilScaled(sampleCount as real, samplesPerFrame);
    Ceil(sampleCount as real / samplesPerFrame)
  }

  /** `ceil(n / s)` frames of `s` samples cover `n` samples, one frame fewer does not. */
  lemma CeilScaled(n: real, s: real)
    requires n >= 0.0 && s > 0.0
    ensures Ceil(n / s) >= 0
    ensures Ceil(n / s) as real * s >= n
    ensures (Ceil(n / s) - 1) as real * s < n
  {
    var q := n / s;
    assert q * s == n;
    CeilBounds(q, s, n, Ceil(q));
  }

  /** `k` whole frames of `s` samples, where `k` is the least integer at or above
      `q = n / s`, hold `n` samples and `k - 1` do not. */
  lemma CeilBounds(q: real, s: real, n: real, k: int)
    requires q * s == n && s > 0.0
    requires q <= k as real < q + 1.0
    ensures k as real * s >= n
    ensures (k - 1) as real * s < n
  {
    ScaleAbove(q, k as real, s, n);
    ScaleBelow((k - 1) as real, q, s, n);
  }

  lemma ScaleAbove(a: real, b: real, c: real, n: real)
    requires a <= b && c > 0.0 && a * c == n
    ensures b * c >= n
  {
    ProductNonNegative(b - a, c);
    assert b * c == a * c + (b - a) * c;
  }

  lemma ScaleBelow(a: real, b: real, c: real, n: real)
    requires a < b && c > 0.0 && b * c == n
    ensures a * c < n
  {
    ProductPositive(b - a, c);
    assert b * c == a * c + (b - a) * c;
  }

  lemma QuotientSign(a: real, b: real)
    requires a >= 0.0 && b > 0.0
    ensures a / b >= 0.0
    ensures a / b == 0.0 <==> a == 0.0
  {
    assert a / b * b == a;
  }

  /** What `__enter__` reads from the outside world. */
  datatype Media = Media(sampleRate: nat, samples: seq<int>, probe: seq<ProbeLine>)

  /** The fields the editor and the outputs read once `__enter__` has run. */
  datatype InputParameter = InputParameter(
    config: Config, audioSampleRate: nat, audioData: seq<int>, audioSampleCount: nat,
    maxAudioVolume: int, frameRate: real, bitRate: real, videoWidth: nat,
    audioOnly: bool, inputSections: string, samplesPerFrame: real,
    audioFrameCount: nat, videoFrameCount: int)

  /** What `__enter__` guarantees of the parameters it completes. */
  predicate Entered(p: InputParameter)
  {
    && Configured(p.config)
    && |p.audioData| > 0 && p.audioSampleCount == |p.audioData|
    && p.maxAudioVolume == GetMaxVolume(p.audioData)
    && p.samplesPerFrame > 0.0
    && p.audioFrameCount == AudioFrameCount(|p.audioData|, p.samplesPerFrame)
  }

  datatype EnterError =
    | EmptyAudio          // `np.max` of an empty array raises ValueError
    | ZeroFrameRate       // `audio_sample_rate / frame_rate` divides by zero
    | ZeroSamplesPerFrame // `audio_sample_count / samples_per_frame` divides by zero
    | MissingDuration     // no line matched: `self.duration` was never set

  /** `InputParameter.__enter__`. `detectedSections` is the sections file
      `detect_sections` settles on when none was configured, and `durationFrames`
      the frame count the timecode library computes for a duration. */
  method Enter(c: Config, m: Media, detectedSections: string, durationFrames: (real, string) -> int)
    returns (r: Result<InputParameter, EnterError>)
    requires Configured(c)
    ensures r.Success? ==> Entered(r.value)
    ensures |m.samples| == 0 ==> r == Failure(EmptyAudio)
    ensures |m.samples| > 0 && DetectedFrameRate(c, m.probe) == 0.0 ==> r == Failure(ZeroFrameRate)
    ensures |m.samples| > 0 && DetectedFrameRate(c, m.probe) != 0.0 && m.sampleRate == 0
      ==> r == Failure(ZeroSamplesPerFrame)
    ensures (|m.samples| > 0 && DetectedFrameRate(c, m.probe) != 0.0 && m.sampleRate != 0
             && Last(m.probe, DurationOf).None?) ==> r == Failure(MissingDuration)
    ensures r.Success? <==> (|m.samples| > 0 && DetectedFrameRate(c, m.probe) != 0.0
                             && m.sampleRate != 0 && Last(m.probe, DurationOf).Some?)
    ensures r.Success? ==>
      var p := r.value;
      && p.audioSampleCount == |m.samples| && p.audioData == m.samples
      && p.maxAudioVolume == GetMaxVolume(m.samples)
      && p.frameRate == DetectedFrameRate(c, m.probe)
      && p.samplesPerFrame == m.sampleRate as real / p.frameRate
      && p.samplesPerFrame > 0.0
      && p.audioFrameCount == AudioFrameCount(|m.samples|, p.samplesPerFrame)
      && p.videoFrameCount == durationFrames(p.frameRate, Last(m.probe, DurationOf).value)
      && (p.audioOnly <==> Last(m.probe, StreamOf).None? || Last(m.probe, StreamOf).value.width == 0)
      && p.inputSections == (if p.audioOnly then [] else if c.inputSections != [] then c.inputSections else detectedSections)
      && p.config == c
  {
    if |m.samples| == 0 {
      return Failure(EmptyAudio);
    }
    var peak := GetMaxVolume(m.samples);
    var duration, stream := ScanProbe(m.probe);
    var width: nat := if stream.Some? then stream.value.width else 0;
    var audioOnly := width == 0;
    var sections := c.inputSections;
    if audioOnly {
      sections := [];
    } else if sections == [] {
      sections := detectedSections;
    }
    var bitRate := OrReal(if stream.Some? then Some(stream.value.bitRate as real) else None, c.bitRate);
    var frameRate := OrReal(if stream.Some? then Some(stream.value.frameRate as real) else None, RateValue(c.frameRate));
    if frameRate == 0.0 {
      return Failure(ZeroFrameRate);
    }
    var samplesPerFrame := m.sampleRate as real / frameRate;
    assert frameRate > 0.0;
    QuotientSign(m.sampleRate as real, frameRate);
    if samplesPerFrame == 0.0 {
      return Failure(ZeroSamplesPerFrame);
    }
    var audioFrameCount := AudioFrameCount(|m.samples|, samplesPerFrame);
    if duration.None? {
      return Failure(MissingDuration);
    }
    var videoFrameCount := durationFrames(frameRate, duration.value);
    r := Success(InputParameter(
      c, m.sampleRate, m.samples, |m.samples|, peak, frameRate, bitRate, width,
      audioOnly, sections, samplesPerFrame, audioFrameCount, videoFrameCount));
  }

  /** The start and end times of a chapter as ffprobe reports them, and its title. */
  datatype Chapter = Chapter(startTime: real, endTime: real, title: string)

  /** `f'{secs // 60}:{secs % 60}'` with `secs = int(float(t))`. For a positive
      divisor Python's `//` and `%` agree with Dafny's `/` and `%`. */
  function ChapterTime(t: real): (s: string)
    ensures s != [] && !IsSpace(s[0])
    ensures forall c :: c in s ==> c == ':' || c == '-' || '0' <= c <= '9'
  {
    var secs := Trunc(t);
    IntString(secs / 60) + ":" + IntString(secs % 60)
  }

  /** Reading a chapter start back: for a non-negative time the text splits at
      its one ':' into two runs of digits, minutes and seconds, the seconds below
      60 and minutes times 60 plus seconds equal to the truncated time. */
  lemma ChapterTimeReadBack(t: real)
    requires t >= 0.0
    ensures var fields := Split(ChapterTime(t), ':');
      && |fields| == 2
      && fields[0] != [] && (forall c :: c in fields[0] ==> '0' <= c <= '9')
      && fields[1] != [] && (forall c :: c in fields[1] ==> '0' <= c <= '9')
      && DigitsValue(fields[1]) < 60
      && 60 * DigitsValue(fields[0]) + DigitsValue(fields[1]) == Trunc(t)
  {
    var secs := Trunc(t);
    var minutes, seconds := DecimalString(secs / 60), DecimalString(secs % 60);
    assert ChapterTime(t) == minutes + ":" + seconds;
    var s := minutes + ":" + seconds;
    assert s[|minutes|] == ':' && s[..|minutes|] == minutes && s[|minutes| + 1..] == seconds;
    assert ':' !in minutes && ':' !in seconds;
    SplitFirst(s, ':', |minutes|);
    SplitNone(seconds, ':');
    assert Split(s, ':') == [minutes, seconds];
    DigitsRoundTrip(secs / 60);
    DigitsRoundTrip(secs % 60);
  }

  /** One line of the `.sec` file `detect_sections` writes, as written. */
  function ChapterLine(ch: Chapter): string
  {
    ChapterTime(ch.startTime) + " " + ChapterTime(ch.endTime) + " " + ch.title
  }

  /** The line `detect_sections` evidently means to write for a chapter: its
      start and its title, the shape `Section.parse` reads. */
  function SectionLine(ch: Chapter): string
  {
    ChapterTime(ch.startTime) + " " + ch.title
  }

  /** The sections file: one line per chapter, each ended by a newline. */
  function SectionsFile(chapters: seq<Chapter>): string
  {
    if chapters == [] then [] else SectionLine(chapters[0]) + "\n" + SectionsFile(chapters[1..])
  }
}
