/** The speech-to-text endpoints (`app/api/v1/endpoints/stt.py`):
    `POST /transcribe`, `POST /audio-info` and `POST /validate`. The
    Whisper guard runs before `/transcribe`'s body; the form's language
    pattern is enforced by the framework, so requests arrive within it. */
module SttApi {
  import opened Wrappers
  import opened Strings
  import opened Paths
  import opened Files
  import opened Exceptions
  import opened ModelManagement
  import opened Deps
  import opened Uploads
  import opened SttService

  const MAX_TRANSCRIBE_SIZE: int := 25 * 1024 * 1024
  const MAX_VALIDATE_SIZE: int := 50 * 1024 * 1024

  /** The transcribe endpoint's own allow-list (the same six as the service's). */
  const ALLOWED_EXTENSIONS: set<string> := {".wav", ".mp3", ".m4a", ".ogg", ".flac", ".webm"}

  /** The values the `language` form field's pattern admits. */
  const FORM_LANGUAGES: set<string> := {"ar", "en", "fr", "es", "de", "auto"}

  const NO_FILENAME: string := "No filename provided"
  const FILE_TOO_LARGE: string := "File size exceeds 25MB limit. Please upload a smaller file."
  const UNAVAILABLE: string := "Speech recognition service is temporarily unavailable. Please try again later."
  const INFO_PREFIX: string := "Audio analysis failed: "

  /** `str()` of the service's format list. */
  const FORMAT_LIST: string := "['.wav', '.mp3', '.m4a', '.ogg', '.flac', '.webm']"

  /** The extension `/transcribe` checks: `os.path.splitext` of the
      lower-cased name. */
  function UploadExtension(filename: string): string
  {
    SplitExt(Lower(filename)).1
  }

  /** The three `/transcribe` checks in order; the first that fails decides
      the 400. `listing` is the allowed set joined with ", ", in the
      iteration order Python's string hashing gives it. */
  function TranscribeLadder(filename: Option<string>, size: int, listing: string): (r: Option<Exception>)
    ensures r.None? <==>
      && filename.Some? && filename.value != ""
      && size <= MAX_TRANSCRIBE_SIZE
      && UploadExtension(filename.value) in ALLOWED_EXTENSIONS
    ensures r.Some? ==> r.value.Http? && r.value.status == HTTP_400
    ensures (filename.None? || filename == Some("")) ==> r == Some(Http(HTTP_400, NO_FILENAME))
    ensures filename.Some? && filename.value != "" && size > MAX_TRANSCRIBE_SIZE ==> r == Some(Http(HTTP_400, FILE_TOO_LARGE))
    ensures filename.Some? && filename.value != "" && size <= MAX_TRANSCRIBE_SIZE
            && UploadExtension(filename.value) !in ALLOWED_EXTENSIONS ==>
      StartsWith(r.value.detail, "Unsupported audio format '" + UploadExtension(filename.value) + "'")
  {
    if filename.None? || filename.value == "" then Some(Http(HTTP_400, NO_FILENAME))
    else if size > MAX_TRANSCRIBE_SIZE then Some(Http(HTTP_400, FILE_TOO_LARGE))
    else if UploadExtension(filename.value) !in ALLOWED_EXTENSIONS then
      var p := "Unsupported audio format '" + UploadExtension(filename.value) + "'";
      StartsWithAppend(p, ". Supported formats: " + listing);
      Some(Http(HTTP_400, p + (". Supported formats: " + listing)))
    else None
  }

  /** The language the service is asked for: "auto" becomes Arabic. */
  function ServiceLanguage(language: string): (r: string)
    ensures r != "auto"
    ensures language != "auto" ==> r == language
  {
    if language != "auto" then language else DEFAULT_LANGUAGE
  }

  /** `POST /transcribe`: the Whisper guard and the ladder, then the upload
      is written to the temporary file `tempPath` and transcribed; the
      file is removed on every exit once written. The service's
      audio-processing error becomes a 400 carrying its message. */
  function TranscribeEndpoint(disk: Disk, m: Manager, filename: Option<string>, content: seq<byte>, language: string,
                              model: Option<string>, listing: string, tempPath: string, elapsed: real,
                              sf: Result<Sound, string>, lib: Result<Sound, string>,
                              preprocessed: Option<(string, seq<byte>)>,
                              whisper: (string, string) -> Result<WhisperOutput, string>, invalidText: string)
    : (r: (Disk, Result<TranscriptionResponse, Exception>))
    requires language in FORM_LANGUAGES && elapsed >= 0.0
    ensures RequireWhisperModel(m).Err? ==> r == (disk, Err(Http(HTTP_503, WHISPER_UNAVAILABLE)))
    ensures RequireWhisperModel(m).Ok? && TranscribeLadder(filename, |content|, listing).Some? ==>
      r == (disk, Err(TranscribeLadder(filename, |content|, listing).value))
    ensures RequireWhisperModel(m).Ok? && TranscribeLadder(filename, |content|, listing).None? ==>
      var request := TranscriptionRequest(ServiceLanguage(language), model);
      var out := TranscribeAudio(disk[tempPath := content], m, tempPath, Some(request), elapsed, sf, lib, preprocessed,
                                 whisper, invalidText);
      && r.0 == out.0 - {tempPath}
      && (r.1.Ok? <==> out.1.Ok?)
      && (r.1.Ok? ==> r.1.value == out.1.value)
      && (r.1.Err? ==> r.1.error == Http(HTTP_400, out.1.error.message))
    ensures r.1.Err? ==> r.1.error.Http? && (r.1.error.status == HTTP_400 || r.1.error.status == HTTP_503)
  {
    match RequireWhisperModel(m)
    case Err(e) => (disk, Err(e))
    case Ok(_) =>
      match TranscribeLadder(filename, |content|, listing)
      case Some(e) => (disk, Err(MapServiceError(e, AudioProcessing, UNAVAILABLE)))
      case None =>
        var written := disk[tempPath := content];
        var request := TranscriptionRequest(ServiceLanguage(language), model);
        var out := TranscribeAudio(written, m, tempPath, Some(request), elapsed, sf, lib, preprocessed, whisper, invalidText);
        var cleaned := out.0 - {tempPath};
        match out.1
        case Ok(resp) => (cleaned, Ok(resp))
        case Err(e) => (cleaned, Err(MapServiceError(e, AudioProcessing, UNAVAILABLE)))
  }

  /** Past the guard, the service never produces the 503: every failure of
      a transcription is a 400 naming "transcription". */
  lemma TranscriptionFailureIs400(disk: Disk, m: Manager, filename: Option<string>, content: seq<byte>, language: string,
                                  model: Option<string>, listing: string, tempPath: string, elapsed: real,
                                  sf: Result<Sound, string>, lib: Result<Sound, string>,
                                  preprocessed: Option<(string, seq<byte>)>,
                                  whisper: (string, string) -> Result<WhisperOutput, string>, invalidText: string)
    requires language in FORM_LANGUAGES && elapsed >= 0.0
    requires IsModelAvailable(m, Whisper) && TranscribeLadder(filename, |content|, listing).None?
    ensures var r := TranscribeEndpoint(disk, m, filename, content, language, model, listing, tempPath, elapsed,
                                        sf, lib, preprocessed, whisper, invalidText);
      r.1.Err? ==> r.1.error.status == HTTP_400 && ArgumentOf(AudioProcessing, r.1.error.detail) == "transcription"
  {
  }

  /** "auto" is transcribed, and reported, as Arabic. */
  lemma AutoIsArabic(disk: Disk, m: Manager, filename: Option<string>, content: seq<byte>,
                     model: Option<string>, listing: string, tempPath: string, elapsed: real,
                     sf: Result<Sound, string>, lib: Result<Sound, string>,
                     preprocessed: Option<(string, seq<byte>)>,
                     whisper: (string, string) -> Result<WhisperOutput, string>, invalidText: string)
    requires elapsed >= 0.0
    ensures var r := TranscribeEndpoint(disk, m, filename, content, "auto", model, listing, tempPath, elapsed,
                                        sf, lib, preprocessed, whisper, invalidText);
      r.1.Ok? ==> r.1.value.language == "ar" && whisper(ProcessedPath(tempPath, preprocessed), "ar").Ok?
  {
  }

  /** The upload does not outlive the request: with no preprocessed copy,
      or with a fresh one after a successful transcription, the disk ends
      as it began. */
  lemma TranscribeCleansUp(disk: Disk, m: Manager, filename: Option<string>, content: seq<byte>, language: string,
                           model: Option<string>, listing: string, tempPath: string, elapsed: real,
                           sf: Result<Sound, string>, lib: Result<Sound, string>,
                           preprocessed: Option<(string, seq<byte>)>,
                           whisper: (string, string) -> Result<WhisperOutput, string>, invalidText: string)
    requires language in FORM_LANGUAGES && elapsed >= 0.0
    requires tempPath !in disk
    requires preprocessed.Some? ==> preprocessed.value.0 !in disk && preprocessed.value.0 != tempPath
    ensures var r := TranscribeEndpoint(disk, m, filename, content, language, model, listing, tempPath, elapsed,
                                        sf, lib, preprocessed, whisper, invalidText);
      (preprocessed.None? || r.1.Ok?) ==> r.0 == disk
  {
    var written := disk[tempPath := content];
    assert written - {tempPath} == disk by {
      WriteThenRemove(disk, tempPath, content);
      RemoveAbsent(disk, tempPath);
    }
    if preprocessed.Some? {
      var tmp := preprocessed.value.0;
      assert written - {tmp} - {tempPath} == disk;
    }
  }

  /** `POST /audio-info`: the format check, then the upload is written to
      the temporary file `tempPath` and analysed, and the file is removed.
      The handler's own 400 is caught by its catch-all and becomes a 500;
      a missing file name fails `Path(None)` the same way. */
  function AudioInfoEndpoint(disk: Disk, filename: Option<string>, content: seq<byte>, tempPath: string,
                             sf: Result<Sound, string>, lib: Result<Sound, string>)
    : (r: (Disk, Result<AudioInfo, Exception>))
    ensures filename.None? ==> r == (disk, Err(Http(HTTP_500, INFO_PREFIX + NONE_PATH_ERROR)))
    ensures filename.Some? && !ValidateAudioFormat(filename.value) ==>
      r == (disk, Err(Http(HTTP_500, INFO_PREFIX + Str(Http(HTTP_400, "Unsupported audio format. Supported: " + FORMAT_LIST)))))
    ensures filename.Some? && ValidateAudioFormat(filename.value) ==> r.0 == disk - {tempPath}
    ensures r.1.Ok? <==>
      filename.Some? && ValidateAudioFormat(filename.value) && ProcessAudioFile(disk[tempPath := content], tempPath, sf, lib).Ok?
    ensures r.1.Ok? ==> r.1.value.filename == Name(tempPath) && r.1.value.fileSize == |content|
    ensures r.1.Err? ==> r.1.error.Http? && (r.1.error.status == HTTP_500 || r.1.error.status == HTTP_422)
    ensures filename.Some? && ValidateAudioFormat(filename.value) && r.1.Err? ==>
      r.1.error.status == HTTP_422 && ArgumentOf(AudioProcessing, r.1.error.detail) == "audio info"
  {
    if filename.None? then (disk, Err(MapProcessingError(Other(NONE_PATH_ERROR), AudioProcessing, INFO_PREFIX)))
    else if !ValidateAudioFormat(filename.value) then
      var e := Http(HTTP_400, "Unsupported audio format. Supported: " + FORMAT_LIST);
      (disk, Err(MapProcessingError(e, AudioProcessing, INFO_PREFIX)))
    else
      var written := disk[tempPath := content];
      var cleaned := written - {tempPath};
      assert cleaned == disk - {tempPath} by {
        WriteThenRemove(disk, tempPath, content);
      }
      match GetAudioInfo(written, tempPath, sf, lib)
      case Ok(info) => (cleaned, Ok(info))
      case Err(e) => (cleaned, Err(MapProcessingError(e, AudioProcessing, INFO_PREFIX)))
  }

  /** The report describes the temporary file, not the upload: two accepted
      uploads with the same bytes get the same answer whatever their names. */
  lemma AudioInfoIgnoresUploadName(disk: Disk, a: string, b: string, content: seq<byte>, tempPath: string,
                                   sf: Result<Sound, string>, lib: Result<Sound, string>)
    requires ValidateAudioFormat(a) && ValidateAudioFormat(b)
    ensures AudioInfoEndpoint(disk, Some(a), content, tempPath, sf, lib) == AudioInfoEndpoint(disk, Some(b), content, tempPath, sf, lib)
  {
  }

  /** `POST /validate`: valid iff the service accepts the format and the
      file is at most 50 MiB. */
  function ValidateEndpoint(filename: Option<string>, size: nat): (r: Result<ValidationReport, Exception>)
    ensures r.Err? <==> filename.None?
    ensures r.Ok? ==> (r.value.valid <==> ValidateAudioFormat(filename.value) && size <= MAX_VALIDATE_SIZE)
  {
    ValidateUpload(filename, size, ValidateAudioFormat, MAX_VALIDATE_SIZE)
  }

  /** `/validate` calls a file of 25 to 50 MiB valid that `/transcribe`
      refuses as too large. */
  lemma ValidateAcceptsWhatTranscribeRefuses(filename: string, size: nat, listing: string)
    requires filename != "" && ValidateAudioFormat(filename)
    requires MAX_TRANSCRIBE_SIZE < size <= MAX_VALIDATE_SIZE
    ensures ValidateEndpoint(Some(filename), size).value.valid
    ensures TranscribeLadder(Some(filename), size, listing) == Some(Http(HTTP_400, FILE_TOO_LARGE))
  {
  }

  /** The endpoint's set and the service's list name the same formats. */
  lemma FormatListsAgree(ext: string)
    ensures ext in ALLOWED_EXTENSIONS <==> ext in AUDIO_FORMATS
  {
  }

  /** `/transcribe` and the service apply different extension rules, which
      agree on names whose final component neither starts nor ends with
      a dot. */
  lemma FormatRulesAgree(filename: string)
    requires |Name(filename)| > 0 ==> Name(filename)[0] != '.' && Name(filename)[|Name(filename)| - 1] != '.'
    ensures UploadExtension(filename) in ALLOWED_EXTENSIONS <==> ValidateAudioFormat(filename)
  {
    var ext := Lower(Suffix(filename));
    assert UploadExtension(filename) == ext by {
      SplitExtOfLower(filename);
      SuffixAgreesWithSplitExt(filename);
    }
    assert ValidateAudioFormat(filename) == (ext in AUDIO_FORMATS);
    FormatListsAgree(ext);
  }
}
