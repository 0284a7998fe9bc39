/** The text-to-speech endpoints (`app/api/v1/endpoints/tts.py`):
    `POST /synthesize`, `GET /audio/{filename}` and `POST /quick-speech`.
    The TTS guard runs before a handler's body. */
module TtsApi {
  import opened Wrappers
  import opened Strings
  import opened Paths
  import opened Files
  import opened Exceptions
  import opened ModelManagement
  import opened Deps
  import opened TtsService

  const LANGUAGES: set<string> := {"ar", "en"}

  const EMPTY_TEXT: string := "Text cannot be empty"
  const TEXT_TOO_LONG: string := "Text exceeds 1000 character limit. Please split into smaller segments."
  const BAD_SPEED: string := "Speed must be between 0.5 and 2.0"
  const UNAVAILABLE: string := "Text-to-speech service is temporarily unavailable. Please try again later."
  const AUDIO_NOT_FOUND: string := "Audio file not found"

  /** Python truthiness of the optional speed: present and non-zero. */
  predicate SpeedGiven(speed: Option<real>)
  {
    speed.Some? && speed.value != 0.0
  }

  /** The detail of the unsupported-language 400. */
  function LanguageMessage(language: string): string
  {
    "Language '" + language + "' not supported. Use 'ar' for Arabic or 'en' for English."
  }

  /** The four checks of `POST /synthesize` in order; the first that fails
      decides the 400. The length is measured before stripping. */
  function SynthesizeLadder(request: TtsRequest): (r: Option<Exception>)
    ensures r.None? <==>
      && Strip(request.text) != ""
      && |request.text| <= MAX_TEXT
      && request.language in LANGUAGES
      && !(SpeedGiven(request.speed) && (request.speed.value < MIN_SPEED || request.speed.value > MAX_SPEED))
    ensures r.Some? ==> r.value.Http? && r.value.status == HTTP_400
    ensures Strip(request.text) == "" ==> r == Some(Http(HTTP_400, EMPTY_TEXT))
    ensures Strip(request.text) != "" && |request.text| > MAX_TEXT ==> r == Some(Http(HTTP_400, TEXT_TOO_LONG))
    ensures Strip(request.text) != "" && |request.text| <= MAX_TEXT && request.language !in LANGUAGES ==>
      r == Some(Http(HTTP_400, LanguageMessage(request.language)))
  {
    if Strip(request.text) == "" then Some(Http(HTTP_400, EMPTY_TEXT))
    else if |request.text| > MAX_TEXT then Some(Http(HTTP_400, TEXT_TOO_LONG))
    else if request.language !in LANGUAGES then Some(Http(HTTP_400, LanguageMessage(request.language)))
    else if SpeedGiven(request.speed) && (request.speed.value < MIN_SPEED || request.speed.value > MAX_SPEED) then
      Some(Http(HTTP_400, BAD_SPEED))
    else None
  }

  /** On a request the schema accepted, the length and speed checks never
      fire: only blank text or an unsupported language is refused. */
  lemma SchemaLeavesTwoChecks(request: TtsRequest)
    requires ValidTtsRequest(request)
    ensures SynthesizeLadder(request).Some? <==> Strip(request.text) == "" || request.language !in LANGUAGES
    ensures SynthesizeLadder(request).Some? ==>
      SynthesizeLadder(request) == Some(Http(HTTP_400, EMPTY_TEXT))
      || SynthesizeLadder(request) == Some(Http(HTTP_400, LanguageMessage(request.language)))
  {
  }

  /** `POST /synthesize`: the TTS guard, the ladder, then the service,
      whose audio-processing error becomes a 400 carrying its message. */
  function SynthesizeEndpoint(disk: Disk, m: Manager, request: TtsRequest, uuidHex: string, elapsed: real,
                              speakerExists: bool, engine: Result<Samples, string>, stretched: Option<Samples>,
                              wav: Samples -> seq<byte>, readBack: bool)
    : (r: (Disk, Result<TtsResponse, Exception>))
    requires elapsed >= 0.0
    ensures RequireTtsModel(m).Err? ==> r == (disk, Err(Http(HTTP_503, TTS_UNAVAILABLE)))
    ensures RequireTtsModel(m).Ok? && SynthesizeLadder(request).Some? ==> r == (disk, Err(SynthesizeLadder(request).value))
    ensures r.1.Ok? <==> IsModelAvailable(m, Tts) && SynthesizeLadder(request).None? && speakerExists && engine.Ok?
    ensures r.1.Err? ==> r.0 == disk && r.1.error.Http? && (r.1.error.status == HTTP_400 || r.1.error.status == HTTP_503)
    ensures r.1.Ok? ==>
      r == SynthesizeSpeech(disk, m, request, uuidHex, elapsed, speakerExists, engine, stretched, wav, readBack)
  {
    match RequireTtsModel(m)
    case Err(e) => (disk, Err(e))
    case Ok(_) =>
      match SynthesizeLadder(request)
      case Some(e) => (disk, Err(MapServiceError(e, AudioProcessing, UNAVAILABLE)))
      case None =>
        var out := SynthesizeSpeech(disk, m, request, uuidHex, elapsed, speakerExists, engine, stretched, wav, readBack);
        match out.1
        case Ok(resp) => (out.0, Ok(resp))
        case Err(e) => (out.0, Err(MapServiceError(e, AudioProcessing, UNAVAILABLE)))
  }

  /** Once the guard and the checks pass, every failure of the synthesis
      reaches the client as the same 400: a missing speaker file and an
      engine error cannot be told apart. */
  lemma SynthesisFailureIsOpaque(disk: Disk, m: Manager, request: TtsRequest, uuidHex: string, elapsed: real,
                                 speakerExists: bool, engine: Result<Samples, string>, stretched: Option<Samples>,
                                 wav: Samples -> seq<byte>, readBack: bool)
    requires elapsed >= 0.0
    requires IsModelAvailable(m, Tts) && SynthesizeLadder(request).None?
    requires !(speakerExists && engine.Ok?)
    ensures SynthesizeEndpoint(disk, m, request, uuidHex, elapsed, speakerExists, engine, stretched, wav, readBack).1 ==
      Err(Http(HTTP_400, MessagePrefix(AudioProcessing) + "TTS synthesis"))
  {
  }

  /** `GET /audio/{filename}`: the file under the output directory, if it
      exists. The 404 for a missing file is caught by the handler's own
      catch-all and becomes a 500. */
  function GetAudioFile(disk: Disk, filename: string): (r: Result<string, Exception>)
    ensures r.Ok? <==> JoinPath(OUTPUT_DIR, filename) in disk
    ensures r.Ok? ==> r.value == JoinPath(OUTPUT_DIR, filename)
    ensures r.Err? ==> r.error == Http(HTTP_500, "Failed to serve audio: " + Str(Http(HTTP_404, AUDIO_NOT_FOUND)))
  {
    var path := JoinPath(OUTPUT_DIR, filename);
    if path in disk then Ok(path)
    else Err(Http(HTTP_500, "Failed to serve audio: " + Str(Http(HTTP_404, AUDIO_NOT_FOUND))))
  }

  /** A missing audio file is reported as a 500 whose detail still shows
      the inner 404. */
  lemma MissingAudioIs500(disk: Disk, filename: string)
    requires JoinPath(OUTPUT_DIR, filename) !in disk
    ensures GetAudioFile(disk, filename).error.status == HTTP_500
    ensures StartsWith(GetAudioFile(disk, filename).error.detail, "Failed to serve audio: " + IntToString(HTTP_404) + ": ")
  {
    InnerHttpBecomes500(HTTP_404, AUDIO_NOT_FOUND, AudioProcessing, "Failed to serve audio: ");
  }

  /** The URL a successful synthesis returns names a file that
      `GET /audio/{filename}` then serves, holding the written audio. */
  lemma SynthesizedAudioIsServed(disk: Disk, m: Manager, request: TtsRequest, uuidHex: string, elapsed: real,
                                 speakerExists: bool, engine: Result<Samples, string>, stretched: Option<Samples>,
                                 wav: Samples -> seq<byte>, readBack: bool)
    requires elapsed >= 0.0 && '/' !in uuidHex
    ensures var r := SynthesizeEndpoint(disk, m, request, uuidHex, elapsed, speakerExists, engine, stretched, wav, readBack);
      r.1.Ok? ==>
        && r.1.value.audioUrl.Some?
        && var served := GetAudioFile(r.0, Name(r.1.value.audioUrl.value));
        && served.Ok?
        && r.0[served.value] == wav(AdjustSpeed(engine.value, request.speed, stretched))
  {
    var f := OutputFilename(uuidHex);
    var url := "/audio/" + f;
    assert url[|url| - |f|..] == f;
    NameOfSuffix(url, f);
  }

  /** `POST /quick-speech`: the TTS guard, then a `TTSRequest` built from
      the query parameters (pydantic's refusal, whose text is
      `invalidText`, included) and the service; every failure becomes a
      500. No language check is made. */
  function QuickSpeech(disk: Disk, m: Manager, text: string, language: string, speed: real, invalidText: string,
                       uuidHex: string, elapsed: real, speakerExists: bool, engine: Result<Samples, string>,
                       stretched: Option<Samples>, wav: Samples -> seq<byte>, readBack: bool)
    : (r: (Disk, Result<TtsResponse, Exception>))
    requires elapsed >= 0.0
    ensures RequireTtsModel(m).Err? ==> r == (disk, Err(Http(HTTP_503, TTS_UNAVAILABLE)))
    ensures r.1.Ok? <==> IsModelAvailable(m, Tts) && ValidTtsRequest(TtsRequest(text, language, None, Some(speed)))
                         && speakerExists && engine.Ok?
    ensures IsModelAvailable(m, Tts) && r.1.Err? ==>
      r.0 == disk && r.1.error.Http? && r.1.error.status == HTTP_500 && StartsWith(r.1.error.detail, "Quick synthesis failed: ")
    ensures IsModelAvailable(m, Tts) && !ValidTtsRequest(TtsRequest(text, language, None, Some(speed))) ==>
      r == (disk, Err(Http(HTTP_500, "Quick synthesis failed: " + invalidText)))
  {
    match RequireTtsModel(m)
    case Err(e) => (disk, Err(e))
    case Ok(_) =>
      var request := TtsRequest(text, language, None, Some(speed));
      var p := "Quick synthesis failed: ";
      if !ValidTtsRequest(request) then
        assert (p + invalidText)[..|p|] == p;
        (disk, Err(Http(HTTP_500, p + invalidText)))
      else
        var out := SynthesizeSpeech(disk, m, request, uuidHex, elapsed, speakerExists, engine, stretched, wav, readBack);
        match out.1
        case Ok(resp) => (out.0, Ok(resp))
        case Err(e) =>
          assert (p + Str(e))[..|p|] == p;
          (out.0, Err(Http(HTTP_500, p + Str(e))))
  }

  /** Quick speech accepts a language `POST /synthesize` refuses. */
  lemma QuickSpeechSkipsLanguageCheck(disk: Disk, m: Manager, text: string, speed: real, invalidText: string,
                                      uuidHex: string, elapsed: real, engine: Samples, stretched: Option<Samples>,
                                      wav: Samples -> seq<byte>, readBack: bool)
    requires elapsed >= 0.0 && IsModelAvailable(m, Tts)
    requires ValidTtsRequest(TtsRequest(text, "fr", None, Some(speed)))
    ensures QuickSpeech(disk, m, text, "fr", speed, invalidText, uuidHex, elapsed, true, Ok(engine), stretched, wav, readBack).1.Ok?
    ensures SynthesizeEndpoint(disk, m, TtsRequest(text, "fr", None, Some(speed)), uuidHex, elapsed, true, Ok(engine),
                               stretched, wav, readBack).1.Err?
  {
    var request := TtsRequest(text, "fr", None, Some(speed));
    assert "fr" !in LANGUAGES;
    assert SynthesizeLadder(request).Some?;
  }
}
