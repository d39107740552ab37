/** parameters.py, the older top-level copy of the parameters: the settings
    `InputParameter.__init__` resolves from keyword arguments and the command
    line, and what `__enter__` derives from the extracted audio and from the
    lines `ffmpeg -i` prints. Its `get_max_volume` is the same expression as the
    one in src/parameters.py and is `Parameters.GetMaxVolume`. Argument parsing,
    ffmpeg, downloading and the temporary folder are outside the model: their
    results arrive as parameters. */
module LegacyParameters {
  import opened Wrappers
  import opened Numeric
  import opened Strings
  import opened Parameters

  /** `x or default` for an optional string: None and the empty string are both
      falsy. */
  function OrString(x: Option<string>, default: Option<string>): Option<string>
  {
    if x.Some? && x.value != [] then x else default
  }

  /** The keyword arguments of `InputParameter(...)`; None where the caller
      passed none. */
  datatype Keywords = Keywords(
    inputFile: Option<string>, url: Option<string>, outputType: Option<string>,
    outputFile: Option<string>, silentThreshold: Option<real>, soundedSpeed: Option<real>,
    silentSpeed: Option<real>, frameMargin: Option<real>, sampleRate: Option<real>,
    frameRate: Option<real>)

  /** What `parser.parse_args()` returns: the defaults where the command line
      gives nothing; `input_file` and `url` have no default. */
  datatype CommandLine = CommandLine(
    inputFile: Option<string>, url: Option<string>, outputType: string, outputFile: string,
    silentThreshold: real, soundedSpeed: real, silentSpeed: real, frameMargin: real,
    sampleRate: real, frameRate: real)

  /** The fields `__init__` sets. */
  datatype LegacyConfig = LegacyConfig(
    inputFile: string, outputType: string, outputFile: string, silentThreshold: real,
    newSpeed: seq<real>, frameMargin: real, sampleRate: real, frameRate: real,
    audioFadeEnvelopeSize: nat)

  /** `parser.print_help(); sys.exit(-1)` when no input file is given. */
  datatype InitError = HelpAndExit

  /** The input file `__init__` settles on. `download` is
      `io_utils.download_file`; it is handed the command line's url even when the
      url came as a keyword. */
  function InputFileOf(kw: Keywords, args: CommandLine, download: Option<string> -> string): Option<string>
  {
    var url := OrString(kw.url, args.url);
    if url.Some? && url.value != [] then Some(download(args.url))
    else OrString(kw.inputFile, args.inputFile)
  }

  /** `InputParameter.__init__`: it stops when no input file is given, and
      otherwise keeps the input file and resolves every other setting. */
  function Init(kw: Keywords, args: CommandLine, download: Option<string> -> string): (r: Result<LegacyConfig, InitError>)
    ensures r.Failure? <==> InputFileOf(kw, args, download).None? || InputFileOf(kw, args, download).value == []
    ensures r.Success? ==> r.value.inputFile == InputFileOf(kw, args, download).value
    ensures r.Success? ==> |r.value.newSpeed| == 2 && r.value.audioFadeEnvelopeSize == 400
  {
    var inputFile := InputFileOf(kw, args, download);
    if inputFile.None? || inputFile.value == [] then Failure(HelpAndExit)
    else
      Success(LegacyConfig(
        inputFile.value,
        OrString(kw.outputType, Some(args.outputType)).value,
        OrString(kw.outputFile, Some(args.outputFile)).value,
        OrReal(kw.silentThreshold, args.silentThreshold),
        [OrReal(kw.silentSpeed, args.silentSpeed), OrReal(kw.soundedSpeed, args.soundedSpeed)],
        OrReal(kw.frameMargin, args.frameMargin),
        OrReal(kw.sampleRate, args.sampleRate),
        OrReal(kw.frameRate, args.frameRate),
        AudioFadeEnvelopeSize))
  }

  /** `new_speed[int(should_keep)]` picks the silent speed for a dropped point
      and the sounded speed for a kept one. */
  lemma NewSpeedIndexing(kw: Keywords, args: CommandLine, download: Option<string> -> string, shouldKeep: bool)
    requires Init(kw, args, download).Success?
    ensures Init(kw, args, download).value.newSpeed[if shouldKeep then 1 else 0]
      == if shouldKeep then OrReal(kw.soundedSpeed, args.soundedSpeed) else OrReal(kw.silentSpeed, args.silentSpeed)
  {
  }

  /** An input file given by keyword or on the command line is kept as it is when
      there is no url. */
  lemma InputFileWithoutUrl(kw: Keywords, args: CommandLine, download: Option<string> -> string)
    requires OrString(kw.url, args.url).None? || OrString(kw.url, args.url).value == []
    ensures kw.inputFile.Some? && kw.inputFile.value != [] ==>
      Init(kw, args, download).Success? && Init(kw, args, download).value.inputFile == kw.inputFile.value
    ensures (kw.inputFile.None? || kw.inputFile.value == []) ==>
      (Init(kw, args, download).Success? <==> args.inputFile.Some? && args.inputFile.value != [])
  {
  }

  /** `float('')`: the pattern matched with an empty run of digits. */
  predicate Unparsable(capture: Option<string>)
  {
    capture.Some? && capture.value == []
  }

  /** The rate a line reports: None for a line the pattern misses. */
  function CaptureRate(capture: Option<string>): Option<real>
  {
    if capture.Some? then Some(DigitsValue(capture.value) as real) else None
  }

  /** The `__enter__` failures: `np.max` of no samples (ValueError), `float('')`
      (ValueError), a zero frame rate and a zero `samples_per_frame`
      (ZeroDivisionError). */
  datatype StartError = NoSamples | NotANumber | NoFrameRate | NoSamplesPerFrame

  /** `auto_detected_frame_rate` after the loop: the rate of the last line the
      pattern matches, unless a matching line captured no digits. */
  function AutoDetected(captures: seq<Option<string>>): Result<Option<real>, StartError>
  {
    if exists k :: 0 <= k < |captures| && Unparsable(captures[k]) then Failure(NotANumber)
    else Success(Last(captures, CaptureRate))
  }

  /** `auto_detected_frame_rate or self.frame_rate`. */
  function FrameRateOf(c: LegacyConfig, captures: seq<Option<string>>): real
    requires AutoDetected(captures).Success?
  {
    OrReal(AutoDetected(captures).value, c.frameRate)
  }

  /** The rate of the last line with a match wins over the configured one, unless
      it is zero; with no match the configured rate stays. */
  lemma LastLineOverrides(c: LegacyConfig, captures: seq<Option<string>>, k: nat)
    requires AutoDetected(captures).Success?
    requires k < |captures| && captures[k].Some?
    requires forall j :: k < j < |captures| ==> captures[j].None?
    ensures FrameRateOf(c, captures)
      == if DigitsValue(captures[k].value) != 0 then DigitsValue(captures[k].value) as real else c.frameRate
  {
    LastMatch(captures, CaptureRate);
    var i :| 0 <= i < |captures| && CaptureRate(captures[i]) == Last(captures, CaptureRate)
             && forall j :: i < j < |captures| ==> CaptureRate(captures[j]).None?;
    assert i == k;
  }

  lemma NoMatchKeepsConfigured(c: LegacyConfig, captures: seq<Option<string>>)
    requires forall k :: 0 <= k < |captures| ==> captures[k].None?
    ensures AutoDetected(captures).Success? && FrameRateOf(c, captures) == c.frameRate
  {
    LastMatch(captures, CaptureRate);
  }

  /** What `__enter__` reads from the outside world: the sample rate and samples
      of the extracted audio, and for each line `ffmpeg -i` prints the digits the
      pattern `Stream #.*Video.* ([0-9]*) fps` captures, None where it does not
      match. */
  datatype LegacyMedia = LegacyMedia(sampleRate: nat, samples: seq<int>, captures: seq<Option<string>>)

  /** The fields the editor and the outputs read once `__enter__` has run. */
  datatype LegacyInputParameter = LegacyInputParameter(
    config: LegacyConfig, audioSampleRate: nat, audioData: seq<int>, audioSampleCount: nat,
    maxAudioVolume: int, frameRate: real, samplesPerFrame: real, audioFrameCount: int)

  /** The loop over the lines of `ffmpeg -i`. */
  method DetectFrameRate(captures: seq<Option<string>>) returns (r: Result<Option<real>, StartError>)
    ensures r == AutoDetected(captures)
  {
    var detected: Option<real> := None;
    for i := 0 to |captures|
      invariant detected == Last(captures[..i], CaptureRate)
      invariant forall k :: 0 <= k < i ==> !Unparsable(captures[k])
    {
      assert captures[..i + 1][..i] == captures[..i];
      var m := captures[i];
      if m.Some? {
        if m.value == [] {
          return Failure(NotANumber);
        }
        detected := Some(DigitsValue(m.value) as real);
      }
    }
    assert captures[..|captures|] == captures;
    return Success(detected);
  }

  /** `InputParameter.__enter__`. */
  method Enter(c: LegacyConfig, m: LegacyMedia) returns (r: Result<LegacyInputParameter, StartError>)
    ensures |m.samples| == 0 ==> r == Failure(NoSamples)
    ensures |m.samples| > 0 && AutoDetected(m.captures).Failure? ==> r == Failure(NotANumber)
    ensures |m.samples| > 0 && AutoDetected(m.captures).Success? && FrameRateOf(c, m.captures) == 0.0
      ==> r == Failure(NoFrameRate)
    ensures (|m.samples| > 0 && AutoDetected(m.captures).Success? && FrameRateOf(c, m.captures) != 0.0
             && m.sampleRate == 0) ==> r == Failure(NoSamplesPerFrame)
    ensures r.Success? <==>
      (|m.samples| > 0 && AutoDetected(m.captures).Success?
       && FrameRateOf(c, m.captures) != 0.0 && m.sampleRate != 0)
    ensures r.Success? ==>
      var p := r.value;
      && p.config == c && p.audioData == m.samples && p.audioSampleCount == |m.samples|
      && p.maxAudioVolume == GetMaxVolume(m.samples)
      && p.frameRate == FrameRateOf(c, m.captures)
      && p.samplesPerFrame == m.sampleRate as real / p.frameRate
      && (p.samplesPerFrame > 0.0 ==> p.audioFrameCount == AudioFrameCount(|m.samples|, p.samplesPerFrame))
  {
    if |m.samples| == 0 {
      return Failure(NoSamples);
    }
    var peak := GetMaxVolume(m.samples);
    var detected := DetectFrameRate(m.captures);
    if detected.Failure? {
      return Failure(detected.error);
    }
    var frameRate := OrReal(detected.value, c.frameRate);
    if frameRate == 0.0 {
      return Failure(NoFrameRate);
    }
    var samplesPerFrame := m.sampleRate as real / frameRate;
    assert samplesPerFrame * frameRate == m.sampleRate as real;
    if samplesPerFrame == 0.0 {
      return Failure(NoSamplesPerFrame);
    }
    var audioFrameCount := Ceil(|m.samples| as real / samplesPerFrame);
    r := Success(LegacyInputParameter(
      c, m.sampleRate, m.samples, |m.samples|, peak, frameRate, samplesPerFrame, audioFrameCount));
  }
}
