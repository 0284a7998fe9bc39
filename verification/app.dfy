/** The two application-level endpoints of `app/main.py`: `/` (the service
    directory) and `/health` (aggregation of the model flags). */
module App {
  import opened Wrappers
  import opened Strings
  import opened Exceptions
  import opened ModelManagement
  import Deps

  /** `settings.API_V1_STR`. */
  const API_V1_STR: string := "/api/v1"

  /** The `services` entries of `/`: name and endpoint, in order. */
  function RootServices(apiPrefix: string): (r: seq<(string, string)>)
    ensures |r| == 5
    ensures r[0].0 == "chat" && r[1].0 == "stt" && r[2].0 == "tts" && r[3].0 == "tracking" && r[4].0 == "status"
    ensures forall i :: 0 <= i < |r| ==> StartsWith(r[i].1, apiPrefix) && r[i].1 == apiPrefix + "/" + r[i].0
    ensures forall i, j :: 0 <= i < j < |r| ==> r[i].1 != r[j].1
  {
    [("chat", apiPrefix + "/chat"),
     ("stt", apiPrefix + "/stt"),
     ("tts", apiPrefix + "/tts"),
     ("tracking", apiPrefix + "/tracking"),
     ("status", apiPrefix + "/status")]
  }

  /** The `models_loaded` block. */
  datatype ModelsLoaded = ModelsLoaded(whisper: bool, tts: bool, ollama: bool, yolo: bool, tracker: bool)

  /** The `services` block. */
  datatype Services = Services(chat: bool, stt: bool, tts: bool, tracking: bool, statusAnalysis: bool)

  datatype Health = Health(
    status: string,
    device: string,
    gpuAvailable: bool,
    cudaDeviceCount: int,
    modelsLoaded: ModelsLoaded,
    services: Services)

  /** `/health`; `failure` stands for an exception raised while the report
      is assembled, which is answered with 503. */
  function HealthCheck(m: Manager, failure: bool): (r: Result<Health, Exception>)
    ensures failure <==> r.Err?
    ensures r.Err? ==> r.error == Http(HTTP_503, "Health check failed")
    ensures r.Ok? ==> r.value.gpuAvailable == (m.device == "cuda")
    ensures r.Ok? ==> r.value.cudaDeviceCount == (if m.device == "cuda" then 1 else 0)
    ensures r.Ok? ==> r.value.modelsLoaded == ModelsLoaded(
      IsModelAvailable(m, Whisper), IsModelAvailable(m, Tts), IsModelAvailable(m, Ollama),
      IsModelAvailable(m, Yolo), IsModelAvailable(m, Tracker))
  {
    if failure then Err(Http(HTTP_503, "Health check failed"))
    else
      var loaded := ModelsLoaded(
        IsModelAvailable(m, Whisper), IsModelAvailable(m, Tts), IsModelAvailable(m, Ollama),
        IsModelAvailable(m, Yolo), IsModelAvailable(m, Tracker));
      var all := loaded.whisper && loaded.tts && loaded.ollama && loaded.yolo && loaded.tracker;
      Ok(Health(
        if all then "healthy" else "degraded",
        m.device,
        m.device == "cuda",
        if m.device == "cuda" then 1 else 0,
        loaded,
        Services(loaded.ollama, loaded.whisper, loaded.tts, loaded.yolo && loaded.tracker, loaded.ollama)))
  }

  /** Each service the health report calls up is exactly one whose
      dependency guard lets requests through, and the system is "healthy"
      exactly when every guard does. */
  lemma HealthMatchesGuards(m: Manager)
    requires HealthCheck(m, false).Ok?
    ensures var h := HealthCheck(m, false).value;
      && (h.services.chat <==> Deps.RequireOllamaService(m).Ok?)
      && (h.services.statusAnalysis <==> Deps.RequireOllamaService(m).Ok?)
      && (h.services.stt <==> Deps.RequireWhisperModel(m).Ok?)
      && (h.services.tts <==> Deps.RequireTtsModel(m).Ok?)
      && (h.services.tracking <==> Deps.RequireTrackingModels(m).Ok?)
      && (h.status == "healthy" <==>
            Deps.RequireOllamaService(m).Ok? && Deps.RequireWhisperModel(m).Ok?
            && Deps.RequireTtsModel(m).Ok? && Deps.RequireTrackingModels(m).Ok?)
  {
    var h := HealthCheck(m, false).value;
    var loaded := h.modelsLoaded;
    assert "degraded" != "healthy" by { assert "degraded"[0] != "healthy"[0]; }
    assert h.status == "healthy" <==> loaded.whisper && loaded.tts && loaded.ollama && loaded.yolo && loaded.tracker;
  }
}
