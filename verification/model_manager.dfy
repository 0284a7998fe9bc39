/** `ModelManager`: the availability flags of the five AI back-ends and the
    loaders that set them. The loaders' interaction with the model
    libraries is replaced by the outcome each library call would have. */
module ModelManagement {
  import opened Wrappers

  /** The five keys the code ever writes into `_model_status`. */
  datatype ModelName = Whisper | Tts | Ollama | Yolo | Tracker

  /** The string each key is stored under. */
  function NameOf(n: ModelName): string
  {
    match n
    case Whisper => "whisper"
    case Tts => "tts"
    case Ollama => "ollama"
    case Yolo => "yolo"
    case Tracker => "tracker"
  }

  /** The key a string denotes, if it is one of the five. */
  function KeyOf(name: string): (r: Option<ModelName>)
    ensures r.Some? ==> NameOf(r.value) == name
  {
    if name == "whisper" then Some(Whisper)
    else if name == "tts" then Some(Tts)
    else if name == "ollama" then Some(Ollama)
    else if name == "yolo" then Some(Yolo)
    else if name == "tracker" then Some(Tracker)
    else None
  }

  /** The five stored names are distinct and each reads back as its key. */
  lemma KeyOfNameOf(n: ModelName)
    ensures KeyOf(NameOf(n)) == Some(n)
  {
    match n
    case Whisper =>
    case Tts => assert "tts"[0] != "whisper"[0];
    case Ollama => assert "ollama"[0] != "whisper"[0] && "ollama"[0] != "tts"[0];
    case Yolo => assert "yolo"[0] != "whisper"[0] && "yolo"[0] != "tts"[0] && "yolo"[0] != "ollama"[0];
    case Tracker =>
      assert "tracker"[0] != "whisper"[0] && "tracker"[1] != "tts"[1];
      assert "tracker"[0] != "ollama"[0] && "tracker"[0] != "yolo"[0];
  }

  /** `_model_status`: the flag recorded under each of the five keys, if any.
      The code writes no other key, so the dictionary is a record of five
      optional flags. */
  datatype Flags = Flags(whisper: Option<bool>, tts: Option<bool>, ollama: Option<bool>, yolo: Option<bool>, tracker: Option<bool>)
  {
    /** `_model_status.get(name)`. */
    function Get(n: ModelName): Option<bool>
    {
      match n
      case Whisper => whisper
      case Tts => tts
      case Ollama => ollama
      case Yolo => yolo
      case Tracker => tracker
    }

    /** `_model_status[name] = b`. */
    function Set(n: ModelName, b: bool): (f: Flags)
      ensures f.Get(n) == Some(b)
      ensures SameExcept(f, this, {n})
    {
      match n
      case Whisper => this.(whisper := Some(b))
      case Tts => this.(tts := Some(b))
      case Ollama => this.(ollama := Some(b))
      case Yolo => this.(yolo := Some(b))
      case Tracker => this.(tracker := Some(b))
    }
  }

  /** The flags `a` and `b` agree on every key outside `changed`. */
  predicate SameExcept(a: Flags, b: Flags, changed: set<ModelName>)
  {
    && (Whisper !in changed ==> a.whisper == b.whisper)
    && (Tts !in changed ==> a.tts == b.tts)
    && (Ollama !in changed ==> a.ollama == b.ollama)
    && (Yolo !in changed ==> a.yolo == b.yolo)
    && (Tracker !in changed ==> a.tracker == b.tracker)
  }

  /** `{}`: no flag recorded. */
  const NO_FLAGS: Flags := Flags(None, None, None, None, None)

  /** The manager's state: the chosen device, the `_model_status` flags,
      which model objects are held and whether Ollama answered. */
  datatype Manager = Manager(
    device: string,
    status: Flags,
    hasWhisper: bool,
    hasTts: bool,
    hasStreamer: bool,
    hasYolo: bool,
    hasTracker: bool,
    ollamaAvailable: bool)

  /** How the Ollama probe ended: an HTTP status, or an exception (timeout,
      refused connection). */
  datatype Probe = Answered(code: int) | Unreachable

  /** The device chosen at construction. */
  function Device(cudaAvailable: bool, useGpu: bool): (d: string)
    ensures d == "cuda" <==> cudaAvailable && useGpu
    ensures d == "cuda" || d == "cpu"
  {
    if cudaAvailable && useGpu then "cuda" else "cpu"
  }

  /** `ModelManager()`: nothing loaded, no flag recorded. */
  function NewManager(cudaAvailable: bool, useGpu: bool): (m: Manager)
    ensures m.status == NO_FLAGS
    ensures m.device == Device(cudaAvailable, useGpu)
    ensures !m.hasWhisper && !m.hasTts && !m.hasStreamer && !m.hasYolo && !m.hasTracker && !m.ollamaAvailable
  {
    Manager(Device(cudaAvailable, useGpu), NO_FLAGS, false, false, false, false, false, false)
  }

  /** `is_model_available(name)` for one of the five keys: the recorded
      flag, false if never recorded. */
  function IsModelAvailable(m: Manager, name: ModelName): (r: bool)
    ensures m.status.Get(name).None? ==> !r
  {
    m.status.Get(name) == Some(true)
  }

  /** `is_model_available(name)` for an arbitrary string: a name that is
      not one of the five keys is never recorded, so it reads as false. */
  function IsNameAvailable(m: Manager, name: string): (r: bool)
    ensures KeyOf(name).None? ==> !r
    ensures KeyOf(name).Some? ==> r == IsModelAvailable(m, KeyOf(name).value)
  {
    match KeyOf(name)
    case None => false
    case Some(n) => IsModelAvailable(m, n)
  }

  /** `_load_whisper_model`, where `constructs` says whether the pipeline
      constructor returned. Returns the exception it hands back, if any. */
  function LoadWhisper(m: Manager, constructs: bool): (r: (Manager, bool))
    ensures IsModelAvailable(r.0, Whisper) == constructs && r.0.hasWhisper == (m.hasWhisper || constructs)
    ensures r.1 == !constructs
    ensures SameExcept(r.0.status, m.status, {Whisper})
    ensures r.0.status.Get(Whisper).Some? && r.0.device == m.device
  {
    (m.(hasWhisper := m.hasWhisper || constructs, status := m.status.(whisper := Some(constructs))), !constructs)
  }

  /** `_load_tts_model`: the streamer is attached only when the speaker
      reference file exists; the flag records whether the model constructed. */
  function LoadTts(m: Manager, constructs: bool, speakerExists: bool): (r: (Manager, bool))
    ensures IsModelAvailable(r.0, Tts) == constructs
    ensures r.0.hasStreamer == (m.hasStreamer || (constructs && speakerExists))
    ensures r.1 == !constructs
    ensures SameExcept(r.0.status, m.status, {Tts})
    ensures r.0.status.Get(Tts).Some? && r.0.device == m.device
  {
    (m.(hasTts := m.hasTts || constructs,
        hasStreamer := m.hasStreamer || (constructs && speakerExists),
        status := m.status.(tts := Some(constructs))),
     !constructs)
  }

  /** `_check_ollama_availability`: available only on a 200 answer. */
  function CheckOllama(m: Manager, probe: Probe): (r: (Manager, bool))
    ensures IsModelAvailable(r.0, Ollama) == r.0.ollamaAvailable
    ensures r.0.ollamaAvailable <==> probe == Answered(200)
    ensures r.1 == !r.0.ollamaAvailable
    ensures SameExcept(r.0.status, m.status, {Ollama})
    ensures r.0.status.Get(Ollama).Some? && r.0.device == m.device
  {
    var ok := probe.Answered? && probe.code == 200;
    (m.(ollamaAvailable := ok, status := m.status.(ollama := Some(ok))), !ok)
  }

  /** `_load_tracking_models`: without the Yolo weights file nothing is
      loaded; otherwise Yolo is loaded and the tracker object built, and
      both flags record whether both steps succeeded. */
  function LoadTracking(m: Manager, yoloFileExists: bool, yoloLoads: bool, trackerBuilds: bool): (r: (Manager, bool))
    ensures IsModelAvailable(r.0, Yolo) == IsModelAvailable(r.0, Tracker)
    ensures IsModelAvailable(r.0, Yolo) <==> yoloFileExists && yoloLoads && trackerBuilds
    ensures !yoloFileExists ==> r.0.hasYolo == m.hasYolo && r.0.hasTracker == m.hasTracker
    ensures r.1 == !IsModelAvailable(r.0, Yolo)
    ensures SameExcept(r.0.status, m.status, {Yolo, Tracker})
    ensures r.0.status.Get(Yolo).Some? && r.0.status.Get(Tracker).Some? && r.0.device == m.device
  {
    // The YOLO model object is kept once it has loaded, even when building
    // the tracker then fails; both flags record whether every step succeeded.
    var loaded := yoloFileExists && yoloLoads;
    var ok := loaded && trackerBuilds;
    (m.(hasYolo := m.hasYolo || loaded, hasTracker := m.hasTracker || ok,
        status := m.status.(yolo := Some(ok), tracker := Some(ok))),
     !ok)
  }

  /** The outcome of every library call `initialize_all_models` makes. */
  datatype LoadOutcomes = LoadOutcomes(
    whisperConstructs: bool,
    ttsConstructs: bool,
    speakerExists: bool,
    ollamaProbe: Probe,
    yoloFileExists: bool,
    yoloLoads: bool,
    trackerBuilds: bool)

  /** `initialize_all_models`: the three independent loaders, then the
      tracking loader. Nothing is raised. */
  function InitializeAllModels(m: Manager, o: LoadOutcomes): (r: Manager)
  {
    LoadTracking(LoadIndependent(m, o), o.yoloFileExists, o.yoloLoads, o.trackerBuilds).0
  }

  /** The `gather` of the Whisper, TTS and Ollama loaders (their interleaving
      does not matter, as each writes its own flag), followed by the loop
      that records each returned exception as a false flag. */
  function LoadIndependent(m: Manager, o: LoadOutcomes): (r: Manager)
  {
    var (m1, e1) := LoadWhisper(m, o.whisperConstructs);
    var (m2, e2) := LoadTts(m1, o.ttsConstructs, o.speakerExists);
    var (m3, e3) := CheckOllama(m2, o.ollamaProbe);
    m3.(status := MarkFailed(MarkFailed(MarkFailed(m3.status, Whisper, e1), Tts, e2), Ollama, e3))
  }

  /** After the independent loaders, their three flags are recorded and say
      whether each loader succeeded; re-recording a failure as false changes
      nothing, as the loader already recorded it. */
  lemma LoadIndependentFlags(m: Manager, o: LoadOutcomes)
    ensures var r := LoadIndependent(m, o);
      && r.status.Get(Whisper).Some? && r.status.Get(Tts).Some? && r.status.Get(Ollama).Some?
      && IsModelAvailable(r, Whisper) == o.whisperConstructs
      && IsModelAvailable(r, Tts) == o.ttsConstructs
      && IsModelAvailable(r, Ollama) == (o.ollamaProbe == Answered(200))
      && IsModelAvailable(r, Yolo) == IsModelAvailable(m, Yolo)
      && IsModelAvailable(r, Tracker) == IsModelAvailable(m, Tracker)
      && r.device == m.device
  {
    var (m1, e1) := LoadWhisper(m, o.whisperConstructs);
    var (m2, e2) := LoadTts(m1, o.ttsConstructs, o.speakerExists);
    var (m3, e3) := CheckOllama(m2, o.ollamaProbe);
    assert LoadIndependent(m, o) == m3 by {
      assert MarkFailed(MarkFailed(MarkFailed(m3.status, Whisper, e1), Tts, e2), Ollama, e3) == m3.status;
    }
    assert IsModelAvailable(m3, Whisper) == o.whisperConstructs;
    assert IsModelAvailable(m3, Tts) == o.ttsConstructs;
    assert IsModelAvailable(m3, Yolo) == IsModelAvailable(m, Yolo);
    assert IsModelAvailable(m3, Tracker) == IsModelAvailable(m, Tracker);
  }

  /** `self._model_status[name] = False` when the loader's result is an exception. */
  function MarkFailed(status: Flags, name: ModelName, failed: bool): (r: Flags)
    ensures failed ==> r.Get(name) == Some(false)
    ensures SameExcept(r, status, if failed then {name} else {})
  {
    if failed then status.Set(name, false) else status
  }

  /** Every one of the five keys has a recorded flag. */
  predicate AllRecorded(m: Manager)
  {
    && m.status.whisper.Some? && m.status.tts.Some? && m.status.ollama.Some?
    && m.status.yolo.Some? && m.status.tracker.Some?
  }

  /** After start-up every flag is recorded, and each says exactly whether
      its loader succeeded. */
  lemma InitializeAllModelsFlags(m: Manager, o: LoadOutcomes)
    ensures var r := InitializeAllModels(m, o);
      && AllRecorded(r)
      && IsModelAvailable(r, Whisper) == o.whisperConstructs
      && IsModelAvailable(r, Tts) == o.ttsConstructs
      && IsModelAvailable(r, Ollama) == (o.ollamaProbe == Answered(200))
      && IsModelAvailable(r, Yolo) == (o.yoloFileExists && o.yoloLoads && o.trackerBuilds)
      && IsModelAvailable(r, Tracker) == IsModelAvailable(r, Yolo)
      && r.device == m.device
  {
    LoadIndependentFlags(m, o);
  }
}
