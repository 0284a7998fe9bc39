/** The speech-to-text service (`app/services/stt_service.py`): loading and
    checking an audio file, the Whisper call on a preprocessed copy, and
    the shaping of its result. The decoders, the preprocessing and the
    Whisper pipeline are outside the model: their outcomes are
    parameters. */
module SttService {
  import opened Wrappers
  import opened Strings
  import opened Paths
  import opened Files
  import opened Exceptions
  import opened ModelManagement

  /** The shortest and longest audio `_process_audio_file` accepts, in seconds. */
  const MIN_DURATION: real := 0.1
  const MAX_DURATION: real := 300.0

  /** The language used when no request is given. */
  const DEFAULT_LANGUAGE: string := "ar"

  /** The text of Python's `ZeroDivisionError`. */
  const DIVISION_BY_ZERO: string := "division by zero"

  const TOO_SHORT: string := "Audio too short"
  const TOO_LONG: string := "Audio too long (max 5 minutes)"

  // ------------------------------------------------------------ schemas

  /** `TranscriptionRequest`. */
  datatype TranscriptionRequest = TranscriptionRequest(language: string, model: Option<string>)

  /** `TranscriptionResponse`. */
  datatype TranscriptionResponse = TranscriptionResponse(
    text: string, language: string, confidence: Option<real>, duration: Option<real>, processingTime: Option<real>)

  /** The field bounds pydantic enforces on a `TranscriptionResponse`. */
  predicate ValidConfidence(confidence: Option<real>)
  {
    confidence.Some? ==> 0.0 <= confidence.value <= 1.0
  }

  predicate ValidTranscriptionResponse(r: TranscriptionResponse)
  {
    && ValidConfidence(r.confidence)
    && (r.duration.Some? ==> r.duration.value >= 0.0)
    && (r.processingTime.Some? ==> r.processingTime.value >= 0.0)
  }

  /** `AudioInfo`. */
  datatype AudioInfo = AudioInfo(
    filename: string, fileSize: int, duration: Option<real>, sampleRate: Option<int>, channels: Option<int>, format: Option<string>)

  // ------------------------------------------------------------ loading

  /** What a decoder returned: the number of frames, the sample rate, and
      for soundfile the second dimension of the data (`None` when the data
      is one-dimensional). */
  datatype Sound = Sound(frames: nat, rate: nat, width: Option<nat>)

  /** The duration, sample rate and channel count read from an audio file. */
  datatype Loaded = Loaded(duration: real, rate: nat, channels: nat)

  /** The duration a decoder's output implies; a zero sample rate raises
      `ZeroDivisionError`. */
  function DurationOf(s: Sound): (r: Result<real, string>)
    ensures r.Ok? <==> s.rate != 0
    ensures r.Ok? ==> r.value >= 0.0 && r.value * (s.rate as real) == s.frames as real
  {
    if s.rate == 0 then Err(DIVISION_BY_ZERO) else Ok(s.frames as real / s.rate as real)
  }

  /** Loading in `_process_audio_file`: soundfile first (`sf`), librosa
      second (`lib`); an exception in either attempt, the division
      included, moves on. Soundfile reports the data's channel count,
      librosa always one. When both fail, the error carries both texts. */
  function LoadAudio(sf: Result<Sound, string>, lib: Result<Sound, string>): (r: Result<Loaded, Exception>)
    ensures sf.Ok? && sf.value.rate != 0 ==>
      r == Ok(Loaded(sf.value.frames as real / sf.value.rate as real, sf.value.rate, sf.value.width.GetOr(1)))
    ensures !(sf.Ok? && sf.value.rate != 0) && lib.Ok? && lib.value.rate != 0 ==>
      r == Ok(Loaded(lib.value.frames as real / lib.value.rate as real, lib.value.rate, 1))
    ensures r.Err? <==> !(sf.Ok? && sf.value.rate != 0) && !(lib.Ok? && lib.value.rate != 0)
    ensures r.Err? ==>
      && r.error.Custom? && r.error == Raise(AudioProcessing, "audio loading", Some(r.error.details))
      && |r.error.details| == 2 && r.error.details[0].0 == "soundfile_error" && r.error.details[1].0 == "librosa_error"
  {
    var first := if sf.Err? then Err(sf.error) else DurationOf(sf.value);
    match first
    case Ok(d) => Ok(Loaded(d, sf.value.rate, if sf.value.width.Some? then sf.value.width.value else 1))
    case Err(sfError) =>
      var second := if lib.Err? then Err(lib.error) else DurationOf(lib.value);
      match second
      case Ok(d) => Ok(Loaded(d, lib.value.rate, 1))
      case Err(libError) =>
        Err(Raise(AudioProcessing, "audio loading", Some([("soundfile_error", sfError), ("librosa_error", libError)])))
  }

  /** `os.stat` of a path that does not exist. The path is shown as
      Python's `repr` shows it; this is its form for a path without a
      single quote (one holding `'` but no `"` is shown in double quotes,
      and backslashes and unprintable characters are escaped, which the
      model does not spell out). */
  function NoSuchFile(path: string): string
  {
    "[Errno 2] No such file or directory: '" + path + "'"
  }

  /** The duration checks; both bounds are accepted. */
  predicate DurationAccepted(d: real)
  {
    MIN_DURATION <= d <= MAX_DURATION
  }

  /** `_process_audio_file(path)`: the file's size, the loaded audio and the
      duration checks. A missing file fails `os.stat` and is reported as
      an audio-processing error for "processing"; the loading and
      duration errors pass through as they are. */
  function ProcessAudioFile(disk: Disk, path: string, sf: Result<Sound, string>, lib: Result<Sound, string>)
    : (r: Result<AudioInfo, Exception>)
    ensures r.Ok? <==> path in disk && LoadAudio(sf, lib).Ok? && DurationAccepted(LoadAudio(sf, lib).value.duration)
    ensures r.Ok? ==>
      var l := LoadAudio(sf, lib).value;
      r.value == AudioInfo(Name(path), |disk[path]|, Some(l.duration), Some(l.rate), Some(l.channels), Some(Suffix(path)))
    ensures r.Err? ==> r.error.Custom? && r.error.cls == AudioProcessing
    ensures path !in disk ==> r == Err(Raise(AudioProcessing, "processing", Some([("error", NoSuchFile(path))])))
    ensures path in disk && LoadAudio(sf, lib).Ok? && LoadAudio(sf, lib).value.duration < MIN_DURATION ==>
      r == Err(Raise(AudioProcessing, "validation", Some([("reason", TOO_SHORT)])))
    ensures path in disk && LoadAudio(sf, lib).Ok? && LoadAudio(sf, lib).value.duration > MAX_DURATION ==>
      r == Err(Raise(AudioProcessing, "validation", Some([("reason", TOO_LONG)])))
  {
    if path !in disk then Err(Raise(AudioProcessing, "processing", Some([("error", Str(Other(NoSuchFile(path))))])))
    else
      match LoadAudio(sf, lib)
      case Err(e) => Err(e)
      case Ok(l) =>
        if l.duration < MIN_DURATION then Err(Raise(AudioProcessing, "validation", Some([("reason", TOO_SHORT)])))
        else if l.duration > MAX_DURATION then Err(Raise(AudioProcessing, "validation", Some([("reason", TOO_LONG)])))
        else Ok(AudioInfo(Name(path), |disk[path]|, Some(l.duration), Some(l.rate), Some(l.channels), Some(Suffix(path))))
  }

  /** Soundfile's channel count wins whenever soundfile reads the file; the
      librosa fallback always reports mono. */
  lemma ChannelsOfLoad(disk: Disk, path: string, sf: Result<Sound, string>, lib: Result<Sound, string>)
    requires ProcessAudioFile(disk, path, sf, lib).Ok?
    ensures sf.Ok? && sf.value.rate != 0 && sf.value.width.None? ==> ProcessAudioFile(disk, path, sf, lib).value.channels == Some(1)
    ensures sf.Ok? && sf.value.rate != 0 && sf.value.width.Some? ==>
      ProcessAudioFile(disk, path, sf, lib).value.channels == Some(sf.value.width.value as int)
    ensures !(sf.Ok? && sf.value.rate != 0) ==> ProcessAudioFile(disk, path, sf, lib).value.channels == Some(1)
  {
  }

  /** The duration bounds are inclusive: exactly 0.1 s and exactly 300 s of
      audio are accepted, and a frame fewer than 0.1 s is refused. */
  lemma DurationBoundsAccepted(disk: Disk, path: string, rate: nat, lib: Result<Sound, string>)
    requires path in disk && rate > 0
    ensures ProcessAudioFile(disk, path, Ok(Sound(rate / 10, rate, None)), lib).Ok? <==> rate % 10 == 0
    ensures ProcessAudioFile(disk, path, Ok(Sound(300 * rate, rate, None)), lib).Ok?
  {
    var n := rate / 10;
    assert LoadAudio(Ok(Sound(n, rate, None)), lib).value.duration == n as real / rate as real;
    if rate % 10 == 0 {
      TenthOf(n, rate);
    } else {
      BelowTenth(n, rate);
    }
    assert LoadAudio(Ok(Sound(300 * rate, rate, None)), lib).value.duration == (300 * rate) as real / rate as real;
    Multiple(300, rate);
  }

  /** A tenth of a count divided by the count is 0.1. */
  lemma TenthOf(n: nat, rate: nat)
    requires rate > 0 && n * 10 == rate
    ensures n as real / rate as real == 0.1
  {
    assert rate as real == 10.0 * n as real;
    assert n > 0;
  }

  /** Less than a tenth of a count, divided by the count, is below 0.1. */
  lemma BelowTenth(n: nat, rate: nat)
    requires rate > 0 && n * 10 < rate
    ensures n as real / rate as real < 0.1
  {
    var q := n as real / rate as real;
    assert q * rate as real == n as real;
    if q >= 0.1 {
      ScaleUp(q, 0.1, rate as real);
      assert false;
    }
  }

  lemma ScaleUp(a: real, b: real, c: real)
    requires a >= b && c > 0.0
    ensures a * c >= b * c
  {
    assert a * c - b * c == (a - b) * c;
  }

  /** `k * rate` frames at `rate` last `k` seconds. */
  lemma Multiple(k: nat, rate: nat)
    requires rate > 0
    ensures (k * rate) as real / rate as real == k as real
  {
    assert (k * rate) as real == k as real * rate as real;
  }

  // ------------------------------------------------------- transcription

  /** What the Whisper pipeline returned: its text and, when the result
      carries one as an attribute or a key, its confidence. */
  datatype WhisperOutput = WhisperOutput(text: string, confidence: Option<real>)

  /** `_perform_transcription`'s result. */
  datatype Transcript = Transcript(text: string, confidence: Option<real>)

  /** The file Whisper is given: the preprocessed copy, or the original when
      preprocessing failed. */
  function ProcessedPath(path: string, preprocessed: Option<(string, seq<byte>)>): string
  {
    if preprocessed.Some? then preprocessed.value.0 else path
  }

  /** `_perform_transcription(path, language)`. `preprocessed` is the
      temporary file `_preprocess_audio` wrote (path and contents), or
      `None` when preprocessing raised; `whisper` is the pipeline's
      outcome on a file and a language. A preprocessed copy distinct from
      the original is unlinked once Whisper has returned. */
  function PerformTranscription(disk: Disk, path: string, language: string, preprocessed: Option<(string, seq<byte>)>,
                                whisper: (string, string) -> Result<WhisperOutput, string>)
    : (r: (Disk, Result<Transcript, Exception>))
    ensures var out := whisper(ProcessedPath(path, preprocessed), language);
      && (r.1.Ok? <==> out.Ok?)
      && (r.1.Ok? ==> r.1.value == Transcript(Strip(out.value.text), out.value.confidence))
      && (r.1.Err? ==> r.1.error == Raise(AudioProcessing, "whisper transcription", Some([("error", out.error)])))
    ensures preprocessed.None? ==> r.0 == disk
    ensures preprocessed.Some? && preprocessed.value.0 != path && r.1.Ok? ==> r.0 == disk - {preprocessed.value.0}
    ensures preprocessed.Some? && r.1.Err? ==> r.0 == disk[preprocessed.value.0 := preprocessed.value.1]
  {
    var processed := ProcessedPath(path, preprocessed);
    var written := if preprocessed.Some? then disk[preprocessed.value.0 := preprocessed.value.1] else disk;
    match whisper(processed, language)
    case Err(t) => (written, Err(Raise(AudioProcessing, "whisper transcription", Some([("error", t)]))))
    case Ok(out) =>
      var cleaned := if processed != path then written - {processed} else written;
      assert preprocessed.Some? && processed != path ==> cleaned == disk - {processed} by {
        if preprocessed.Some? {
          WriteThenRemove(disk, processed, preprocessed.value.1);
        }
      }
      (cleaned, Ok(Transcript(Strip(out.text), out.confidence)))
  }

  /** A preprocessed copy that was not on the disk before is gone again
      after a successful transcription. */
  lemma PreprocessedCopyRemoved(disk: Disk, path: string, language: string, tmp: string, bytes: seq<byte>,
                                whisper: (string, string) -> Result<WhisperOutput, string>)
    requires tmp !in disk && tmp != path
    requires whisper(tmp, language).Ok?
    ensures PerformTranscription(disk, path, language, Some((tmp, bytes)), whisper).0 == disk
  {
    RemoveAbsent(disk, tmp);
  }

  /** When Whisper raises, the preprocessed copy is left behind. */
  lemma FailedTranscriptionKeepsCopy(disk: Disk, path: string, language: string, tmp: string, bytes: seq<byte>,
                                     whisper: (string, string) -> Result<WhisperOutput, string>)
    requires whisper(tmp, language).Err?
    ensures var r := PerformTranscription(disk, path, language, Some((tmp, bytes)), whisper);
      tmp in r.0 && r.0[tmp] == bytes
  {
  }

  /** The language a transcription uses and reports. */
  function LanguageOf(request: Option<TranscriptionRequest>): string
  {
    if request.Some? then request.value.language else DEFAULT_LANGUAGE
  }

  /** `transcribe_audio(path, request)`. `elapsed` is the measured
      processing time and `invalidText` the text of pydantic's refusal
      when the model's confidence falls outside [0, 1]. Every failure,
      the missing Whisper model included, reaches the caller as an
      audio-processing error for "transcription" whose details carry the
      inner error's text. */
  function TranscribeAudio(disk: Disk, m: Manager, path: string, request: Option<TranscriptionRequest>, elapsed: real,
                           sf: Result<Sound, string>, lib: Result<Sound, string>,
                           preprocessed: Option<(string, seq<byte>)>,
                           whisper: (string, string) -> Result<WhisperOutput, string>, invalidText: string)
    : (r: (Disk, Result<TranscriptionResponse, Exception>))
    requires elapsed >= 0.0
    ensures var out := whisper(ProcessedPath(path, preprocessed), LanguageOf(request));
      r.1.Ok? <==>
        && IsModelAvailable(m, Whisper)
        && ProcessAudioFile(disk, path, sf, lib).Ok?
        && out.Ok? && ValidConfidence(out.value.confidence)
    ensures r.1.Err? ==> r.1.error.Custom? && r.1.error.cls == AudioProcessing
    ensures r.1.Err? ==> ArgumentOf(AudioProcessing, r.1.error.message) == "transcription"
    ensures !IsModelAvailable(m, Whisper) ==>
      r == (disk, Err(Raise(AudioProcessing, "transcription",
                            Some([("error", Str(Raise(ModelLoad, "Whisper", Some([("reason", "Model not loaded")]))))]))))
    ensures IsModelAvailable(m, Whisper) && ProcessAudioFile(disk, path, sf, lib).Err? ==>
      r == (disk, Err(Raise(AudioProcessing, "transcription", Some([("error", Str(ProcessAudioFile(disk, path, sf, lib).error))]))))
    ensures r.1.Ok? ==>
      var out := whisper(ProcessedPath(path, preprocessed), LanguageOf(request)).value;
      && r.1.value == TranscriptionResponse(Strip(out.text), LanguageOf(request), out.confidence,
                                            ProcessAudioFile(disk, path, sf, lib).value.duration, Some(elapsed))
      && ValidTranscriptionResponse(r.1.value)
    ensures r.1.Ok? ==> r.0 == PerformTranscription(disk, path, LanguageOf(request), preprocessed, whisper).0
    ensures preprocessed.None? ==> r.0 == disk
  {
    var language := LanguageOf(request);
    var inner: (Disk, Result<TranscriptionResponse, Exception>) :=
      if !IsModelAvailable(m, Whisper) then (disk, Err(Raise(ModelLoad, "Whisper", Some([("reason", "Model not loaded")]))))
      else
        match ProcessAudioFile(disk, path, sf, lib)
        case Err(e) => (disk, Err(e))
        case Ok(info) =>
          var t := PerformTranscription(disk, path, language, preprocessed, whisper);
          match t.1
          case Err(e) => (t.0, Err(e))
          case Ok(tr) =>
            if ValidConfidence(tr.confidence) then
              (t.0, Ok(TranscriptionResponse(tr.text, language, tr.confidence, info.duration, Some(elapsed))))
            else (t.0, Err(Other(invalidText)));
    match inner.1
    case Err(e) =>
      ArgumentRoundTrip(AudioProcessing, "transcription", Some([("error", Str(e))]));
      (inner.0, Err(Raise(AudioProcessing, "transcription", Some([("error", Str(e))]))))
    case Ok(resp) => (inner.0, Ok(resp))
  }

  /** The language of the request is the one Whisper is asked for and the
      one reported back; without a request both are Arabic. */
  lemma TranscriptionLanguage(disk: Disk, m: Manager, path: string, request: Option<TranscriptionRequest>, elapsed: real,
                              sf: Result<Sound, string>, lib: Result<Sound, string>,
                              preprocessed: Option<(string, seq<byte>)>,
                              whisper: (string, string) -> Result<WhisperOutput, string>, invalidText: string)
    requires elapsed >= 0.0
    requires TranscribeAudio(disk, m, path, request, elapsed, sf, lib, preprocessed, whisper, invalidText).1.Ok?
    ensures request.None? ==>
      TranscribeAudio(disk, m, path, request, elapsed, sf, lib, preprocessed, whisper, invalidText).1.value.language == "ar"
    ensures request.Some? ==>
      TranscribeAudio(disk, m, path, request, elapsed, sf, lib, preprocessed, whisper, invalidText).1.value.language
        == request.value.language
  {
  }

  /** When preprocessing fails, the original file is what Whisper hears. */
  lemma PreprocessingFallsBack(disk: Disk, path: string, language: string,
                               whisper: (string, string) -> Result<WhisperOutput, string>)
    ensures PerformTranscription(disk, path, language, None, whisper).1.Ok? <==> whisper(path, language).Ok?
    ensures whisper(path, language).Ok? ==>
      PerformTranscription(disk, path, language, None, whisper).1.value.text == Strip(whisper(path, language).value.text)
  {
  }

  // ------------------------------------------------------------- formats

  /** `get_supported_formats()`. */
  const AUDIO_FORMATS: seq<string> := [".wav", ".mp3", ".m4a", ".ogg", ".flac", ".webm"]

  /** `validate_audio_format(filename)`: the lower-cased `Path.suffix` is
      one of the supported formats. */
  function ValidateAudioFormat(filename: string): (r: bool)
    ensures r ==> 4 <= |Suffix(filename)| <= 5 && Suffix(filename)[0] == '.'
  {
    var ext := Lower(Suffix(filename));
    if ext in AUDIO_FORMATS then
      AudioFormatShape(ext);
      true
    else false
  }

  /** Each supported format is a dot and three or four letters. */
  lemma AudioFormatShape(ext: string)
    requires ext in AUDIO_FORMATS
    ensures 4 <= |ext| <= 5 && ext[0] == '.'
  {
  }

  /** The format check ignores the case of the file name. */
  lemma AudioFormatIgnoresCase(filename: string)
    ensures ValidateAudioFormat(Lower(filename)) == ValidateAudioFormat(filename)
  {
    LowerSuffixOfLower(filename);
  }

  /** `get_audio_info(path)`: `_process_audio_file` with every error
      re-raised as an audio-processing error for "audio info". */
  function GetAudioInfo(disk: Disk, path: string, sf: Result<Sound, string>, lib: Result<Sound, string>)
    : (r: Result<AudioInfo, Exception>)
    ensures r.Ok? <==> ProcessAudioFile(disk, path, sf, lib).Ok?
    ensures r.Ok? ==> r.value == ProcessAudioFile(disk, path, sf, lib).value
    ensures r.Err? ==>
      && r.error.Custom? && r.error.cls == AudioProcessing
      && ArgumentOf(AudioProcessing, r.error.message) == "audio info"
      && r.error.details == [("error", Str(ProcessAudioFile(disk, path, sf, lib).error))]
  {
    match ProcessAudioFile(disk, path, sf, lib)
    case Ok(info) => Ok(info)
    case Err(e) =>
      ArgumentRoundTrip(AudioProcessing, "audio info", Some([("error", Str(e))]));
      Err(Raise(AudioProcessing, "audio info", Some([("error", Str(e))])))
  }
}
