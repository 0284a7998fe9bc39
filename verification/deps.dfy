/** The FastAPI dependencies that guard each endpoint family on a model
    flag (`app/api/deps.py`). Each either passes the manager through or
    raises a 503 `HTTPException`. */
module Deps {
  import opened Wrappers
  import opened Exceptions
  import opened ModelManagement

  /** The 503 details of the guards. */
  const WHISPER_UNAVAILABLE: string := "Whisper speech recognition model is not available. Please check model loading."
  const TTS_UNAVAILABLE: string := "TTS model is not available. Please check model loading."
  const YOLO_UNAVAILABLE: string := "YOLO detection model is not available. Please check model loading."
  const TRACKER_UNAVAILABLE: string := "BoostTrack tracking model is not available. Please check model loading."
  const OLLAMA_UNAVAILABLE: string := "Ollama service is not available. Please check Ollama server status."

  /** The guard for one flag with the given 503 detail. */
  function Require(m: Manager, name: ModelName, detail: string): (r: Result<Manager, Exception>)
    ensures r.Ok? <==> IsModelAvailable(m, name)
    ensures r.Ok? ==> r.value == m
    ensures r.Err? ==> r.error == Http(HTTP_503, detail)
  {
    if IsModelAvailable(m, name) then Ok(m) else Err(Http(HTTP_503, detail))
  }

  function RequireWhisperModel(m: Manager): (r: Result<Manager, Exception>)
    ensures r.Ok? <==> IsModelAvailable(m, Whisper)
    ensures r.Err? ==> r.error == Http(HTTP_503, WHISPER_UNAVAILABLE)
  {
    Require(m, Whisper, WHISPER_UNAVAILABLE)
  }

  function RequireTtsModel(m: Manager): (r: Result<Manager, Exception>)
    ensures r.Ok? <==> IsModelAvailable(m, Tts)
    ensures r.Err? ==> r.error == Http(HTTP_503, TTS_UNAVAILABLE)
  {
    Require(m, Tts, TTS_UNAVAILABLE)
  }

  /** Yolo is checked first, so with both missing the Yolo message wins. */
  function RequireTrackingModels(m: Manager): (r: Result<Manager, Exception>)
    ensures r.Ok? <==> IsModelAvailable(m, Yolo) && IsModelAvailable(m, Tracker)
    ensures r.Ok? ==> r.value == m
    ensures !IsModelAvailable(m, Yolo) ==>
      r == Err(Http(HTTP_503, YOLO_UNAVAILABLE))
    ensures IsModelAvailable(m, Yolo) && !IsModelAvailable(m, Tracker) ==>
      r == Err(Http(HTTP_503, TRACKER_UNAVAILABLE))
  {
    match Require(m, Yolo, YOLO_UNAVAILABLE)
    case Err(e) => Err(e)
    case Ok(m1) => Require(m1, Tracker, TRACKER_UNAVAILABLE)
  }

  function RequireOllamaService(m: Manager): (r: Result<Manager, Exception>)
    ensures r.Ok? <==> IsModelAvailable(m, Ollama)
    ensures r.Err? ==> r.error == Http(HTTP_503, OLLAMA_UNAVAILABLE)
  {
    Require(m, Ollama, OLLAMA_UNAVAILABLE)
  }

  /** After start-up the tracking endpoints are open exactly when the Yolo
      weights exist, load, and the tracker object builds. */
  lemma TrackingOpenAfterStartup(m: Manager, o: LoadOutcomes)
    ensures RequireTrackingModels(InitializeAllModels(m, o)).Ok?
      <==> o.yoloFileExists && o.yoloLoads && o.trackerBuilds
  {
    InitializeAllModelsFlags(m, o);
  }
}
