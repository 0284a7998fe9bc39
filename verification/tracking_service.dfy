/** `TrackingService` (`app/services/tracking_service.py`) around the frame
    loop: upload validation, the session registry and its lifecycle, the
    summary counters and the format allow-list. The registry and the files
    the service writes are values threaded through each operation; session
    ids and clock readings are parameters. */
module TrackingService {
  import opened Wrappers
  import opened Strings
  import opened Paths
  import opened OrderedDicts
  import opened Files
  import opened Exceptions
  import opened ModelManagement
  import opened TrackingSchema
  import opened TrackingPipeline

  /** `active_sessions`, keyed by session id. */
  type Registry = Dict<string, TrackingSession>

  const UPLOAD_DIR: string := "uploads/videos"

  /** Longest accepted video, in seconds. */
  const MAX_DURATION: real := 600.0

  const CANNOT_OPEN: string := "Cannot open video file"
  const NO_FRAMES: string := "No frames in video"
  const INVALID_FPS: string := "Invalid FPS"
  const TOO_LONG: string := "Video too long (max 10 minutes)"

  /** `get_supported_formats()`. */
  const SUPPORTED_FORMATS: seq<string> := [".mp4", ".avi", ".mov", ".mkv", ".webm", ".flv"]

  /** `VideoProcessingError(operation, {key: text})`. */
  function VideoFailure(operation: string, key: string, text: string): (e: Exception)
    ensures e.Custom? && e.cls == VideoProcessing && e.statusCode == HTTP_422
    ensures ArgumentOf(VideoProcessing, Str(e)) == operation
    ensures e.details == [(key, text)]
  {
    ArgumentRoundTrip(VideoProcessing, operation, Some([(key, text)]));
    Raise(VideoProcessing, operation, Some([(key, text)]))
  }

  /** Every stored session is stored under its own id. */
  predicate Consistent(reg: Registry)
  {
    forall k :: k in reg.entries ==> reg.entries[k].sessionId == k
  }

  // ---------------------------------------------------------------- upload

  /** The videos the validation lets through: openable, a non-zero frame
      count, a positive frame rate and at most ten minutes of frames
      (the frame count is at most ten minutes' worth at that rate). */
  predicate AcceptableVideo(v: Video)
  {
    v.isOpen && v.frameCount != 0 && v.fps > 0.0 && v.frameCount as real <= MAX_DURATION * v.fps
  }

  /** At a positive rate, the duration `frame_count / fps` is within a
      bound exactly when the frame count is within that bound times the
      rate. */
  lemma DurationWithin(frameCount: int, fps: real, bound: real)
    requires fps > 0.0
    ensures frameCount as real / fps <= bound <==> frameCount as real <= bound * fps
  {
    var d := frameCount as real / fps;
    assert d * fps == frameCount as real;
    if d <= bound {
      assert d * fps <= bound * fps;
    } else {
      assert d * fps > bound * fps;
    }
  }

  /** `_validate_video_file`: `None` when the video passes, else the error
      of the first check that fails. */
  function ValidateVideoFile(v: Video): (r: Option<Exception>)
    ensures r.None? <==> AcceptableVideo(v)
    ensures !v.isOpen ==> r == Some(VideoFailure("validation", "reason", CANNOT_OPEN))
    ensures v.isOpen && v.frameCount == 0 ==> r == Some(VideoFailure("validation", "reason", NO_FRAMES))
    ensures v.isOpen && v.frameCount != 0 && v.fps <= 0.0 ==> r == Some(VideoFailure("validation", "reason", INVALID_FPS))
    ensures v.isOpen && v.frameCount != 0 && v.fps > 0.0 && !AcceptableVideo(v) ==> r == Some(VideoFailure("validation", "reason", TOO_LONG))
  {
    if !v.isOpen then Some(VideoFailure("validation", "reason", CANNOT_OPEN))
    else if v.frameCount == 0 then Some(VideoFailure("validation", "reason", NO_FRAMES))
    else if v.fps <= 0.0 then Some(VideoFailure("validation", "reason", INVALID_FPS))
    else if v.frameCount as real / v.fps > MAX_DURATION then Some(VideoFailure("validation", "reason", TOO_LONG))
    else
      DurationWithin(v.frameCount, v.fps, MAX_DURATION);
      None
  }

  /** A negative frame count is let through: the length check only bounds
      the duration from above. */
  lemma NegativeFrameCountAccepted()
    ensures ValidateVideoFile(Video(true, 30.0, -1, 640, 480, [])).None?
  {
  }

  /** Where `upload_video` stores the file for session `id`. */
  function UploadPath(id: string, filename: string): (p: string)
    ensures '/' !in id + "_" + filename ==> Name(p) == id + "_" + filename
  {
    JoinPath(UPLOAD_DIR, id + "_" + filename)
  }

  /** `upload_video(file_content, filename)` with `freshId` the minted
      session id, `now` the clock, `video` what OpenCV reads from the
      written file, and `writeError` the text of the error `open` raises
      when the file cannot be created (a name holding a separator, one the
      filesystem finds too long), if it does. The file is written before
      it is validated. */
  function UploadVideo(reg: Registry, disk: Disk, content: seq<byte>, filename: string, freshId: string, now: int,
                       video: Video, writeError: Option<string>)
    : (r: (Registry, Disk, Result<TrackingSession, Exception>))
    requires reg.Valid()
    ensures r.0.Valid()
    ensures writeError.Some? ==> r == (reg, disk, Err(VideoFailure("video upload", "error", writeError.value)))
    ensures writeError.None? ==> r.1 == disk[UploadPath(freshId, filename) := content]
    ensures r.2.Ok? <==> writeError.None? && AcceptableVideo(video)
    ensures r.2.Err? ==> r.0 == reg
    ensures writeError.None? && r.2.Err? ==>
      r.2.error == VideoFailure("video upload", "error", Str(ValidateVideoFile(video).value))
    ensures r.2.Ok? ==> r.0 == reg.Put(freshId, r.2.value)
    ensures r.2.Ok? ==> r.2.value.sessionId == freshId && r.2.value.status == Uploaded
    ensures r.2.Ok? ==> r.2.value.videoFilename == Some(filename) && r.2.value.createdAt == now
    ensures forall k :: k != freshId ==> r.0.Get(k) == reg.Get(k)
  {
    if writeError.Some? then (reg, disk, Err(VideoFailure("video upload", "error", writeError.value)))
    else
      var disk' := disk[UploadPath(freshId, filename) := content];
      match ValidateVideoFile(video)
      case Some(e) => (reg, disk', Err(VideoFailure("video upload", "error", Str(e))))
      case None =>
        var session := NewTrackingSession(freshId, Uploaded, now, filename);
        (reg.Put(freshId, session), disk', Ok(session))
  }

  // --------------------------------------------------------------- process

  /** Both tracking models are loaded. */
  predicate ModelsReady(m: Manager)
  {
    IsModelAvailable(m, Yolo) && IsModelAvailable(m, Tracker)
  }

  /** The `ModelLoadError` raised when a tracking model is missing: YOLO is
      checked first. */
  function ModelCheck(m: Manager): (r: Option<Exception>)
    ensures r.None? <==> ModelsReady(m)
    ensures !IsModelAvailable(m, Yolo) ==> r.Some? && ArgumentOf(ModelLoad, Str(r.value)) == "YOLO"
    ensures IsModelAvailable(m, Yolo) && r.Some? ==> ArgumentOf(ModelLoad, Str(r.value)) == "Tracker"
  {
    if !IsModelAvailable(m, Yolo) then
      ArgumentRoundTrip(ModelLoad, "YOLO", Some([("reason", "YOLO model not loaded")]));
      Some(Raise(ModelLoad, "YOLO", Some([("reason", "YOLO model not loaded")])))
    else if !IsModelAvailable(m, Tracker) then
      ArgumentRoundTrip(ModelLoad, "Tracker", Some([("reason", "BoostTrack not loaded")]));
      Some(Raise(ModelLoad, "Tracker", Some([("reason", "BoostTrack not loaded")])))
    else None
  }

  /** The error handler's bookkeeping: a session stored under `id` is marked
      failed with `text`; an absent id changes nothing. */
  function MarkSessionFailed(reg: Registry, id: string, text: string): (r: Registry)
    requires reg.Valid()
    ensures r.Valid() && r.keys == reg.keys
    ensures id !in reg.entries ==> r == reg
    ensures id in reg.entries ==> r.Get(id) == Some(reg.entries[id].(status := Failed, errorMessage := Some(text)))
    ensures forall k :: k != id ==> r.Get(k) == reg.Get(k)
  {
    if id in reg.entries then reg.Put(id, reg.entries[id].(status := Failed, errorMessage := Some(text))) else reg
  }

  /** The part of `process_video` after the model checks: store a new
      "processing" session under `id`, then record the pipeline's
      `outcome` in it. */
  function RunSession(reg: Registry, id: string, filename: string, now: int, later: int,
                      outcome: Result<TrackingResult, Exception>)
    : (r: (Registry, Result<TrackingResult, Exception>))
    requires reg.Valid()
    ensures r.0.Valid() && r.0.Get(id).Some?
    ensures forall k :: k != id ==> r.0.Get(k) == reg.Get(k)
    ensures r.1.Ok? <==> outcome.Ok?
    ensures r.1.Ok? ==> r.1.value == outcome.value
    ensures r.1.Err? ==> r.1.error == VideoFailure("video tracking", "error", Str(outcome.error))
    ensures r.0.Get(id).value.sessionId == id && r.0.Get(id).value.createdAt == now
    ensures r.0.Get(id).value.videoFilename == Some(filename)
    ensures outcome.Ok? ==> r.0.Get(id).value.status == Completed && r.0.Get(id).value.result == Some(outcome.value)
    ensures outcome.Ok? ==> r.0.Get(id).value.completedAt == Some(later)
    ensures outcome.Err? ==> r.0.Get(id).value.status == Failed
    ensures outcome.Err? ==> r.0.Get(id).value.errorMessage == Some(Str(outcome.error))
  {
    var session := NewTrackingSession(id, Processing, now, filename);
    var reg1 := reg.Put(id, session);
    match outcome
    case Ok(result) =>
      (reg1.Put(id, session.(status := Completed, completedAt := Some(later), result := Some(result))), Ok(result))
    case Err(e) =>
      (MarkSessionFailed(reg1, id, Str(e)), Err(VideoFailure("video tracking", "error", Str(e))))
  }

  /** `process_video(video_path, request)` with `freshId` the minted
      session id, `now` and `later` the clock at creation and completion,
      and `video` what OpenCV reads from `video_path`. A new session is
      created: the uploaded one, if any, is not touched. */
  function ProcessVideo(reg: Registry, m: Manager, videoPath: string, request: TrackingRequest,
                        freshId: string, now: int, later: int, video: Video)
    : (r: (Registry, Result<TrackingResult, Exception>))
    requires reg.Valid()
    ensures r.0.Valid()
    ensures forall k :: k != freshId ==> r.0.Get(k) == reg.Get(k)
    ensures r.1.Err? ==> r.1.error.Custom? && r.1.error.statusCode == HTTP_422
    ensures r.1.Err? ==> ArgumentOf(VideoProcessing, Str(r.1.error)) == "video tracking"
    ensures r.1.Ok? <==> ModelsReady(m) && TrackPersonsInVideo(video, videoPath, request, freshId).Ok?
    ensures !ModelsReady(m) ==> r.1.error.details == [("error", Str(ModelCheck(m).value))]
    ensures !ModelsReady(m) && freshId !in reg.entries ==> r.0 == reg
    ensures ModelsReady(m) ==> r == RunSession(reg, freshId, Name(videoPath), now, later, TrackPersonsInVideo(video, videoPath, request, freshId))
  {
    match ModelCheck(m)
    case Some(e) => (MarkSessionFailed(reg, freshId, Str(e)), Err(VideoFailure("video tracking", "error", Str(e))))
    case None => RunSession(reg, freshId, Name(videoPath), now, later, TrackPersonsInVideo(video, videoPath, request, freshId))
  }

  /** Storing a session under its own id keeps the registry consistent. */
  lemma PutConsistent(reg: Registry, s: TrackingSession)
    requires reg.Valid() && Consistent(reg)
    ensures Consistent(reg.Put(s.sessionId, s))
  {
    var r := reg.Put(s.sessionId, s);
    forall k | k in r.entries ensures r.entries[k].sessionId == k {
      if k != s.sessionId {
        assert r.Get(k) == reg.Get(k);
      }
    }
  }

  /** A registry whose sessions sit under their own ids keeps that
      property through processing. */
  lemma RunSessionConsistent(reg: Registry, id: string, filename: string, now: int, later: int,
                             outcome: Result<TrackingResult, Exception>)
    requires reg.Valid() && Consistent(reg)
    ensures Consistent(RunSession(reg, id, filename, now, later, outcome).0)
  {
    var session := NewTrackingSession(id, Processing, now, filename);
    PutConsistent(reg, session);
    var reg1 := reg.Put(id, session);
    var last := RunSession(reg, id, filename, now, later, outcome).0.entries[id];
    assert RunSession(reg, id, filename, now, later, outcome).0 == reg1.Put(id, last);
    PutConsistent(reg1, last);
  }

  /** ... and through uploads. */
  lemma UploadConsistent(reg: Registry, disk: Disk, content: seq<byte>, filename: string, freshId: string, now: int,
                         video: Video, writeError: Option<string>)
    requires reg.Valid() && Consistent(reg)
    ensures Consistent(UploadVideo(reg, disk, content, filename, freshId, now, video, writeError).0)
  {
    PutConsistent(reg, NewTrackingSession(freshId, Uploaded, now, filename));
  }

  /** When the models are loaded, the stored session's failure text is the
      pipeline's own error: a `VideoProcessingError` for "person tracking". */
  lemma ProcessVideoFailureText(reg: Registry, m: Manager, videoPath: string, request: TrackingRequest,
                                freshId: string, now: int, later: int, video: Video)
    requires reg.Valid() && ModelsReady(m)
    requires ProcessVideo(reg, m, videoPath, request, freshId, now, later, video).1.Err?
    ensures var s := ProcessVideo(reg, m, videoPath, request, freshId, now, later, video).0.Get(freshId).value;
      s.errorMessage.Some? && ArgumentOf(VideoProcessing, s.errorMessage.value) == "person tracking"
  {
    var t := TrackPersonsInVideo(video, videoPath, request, freshId);
    assert t.Err?;
    assert Str(t.error) == t.error.message;
  }

  // --------------------------------------------------------------- queries

  /** `get_session(session_id)`. */
  function GetSession(reg: Registry, id: string): (r: Option<TrackingSession>)
    requires reg.Valid()
    ensures r.Some? <==> id in reg.keys
    ensures Consistent(reg) && r.Some? ==> r.value.sessionId == id
  {
    reg.Get(id)
  }

  /** `get_all_sessions()`: one entry per stored session, in insertion order. */
  function GetAllSessions(reg: Registry): (r: seq<TrackingSession>)
    requires reg.Valid()
    ensures |r| == reg.Size()
    ensures forall i :: 0 <= i < |r| ==> GetSession(reg, reg.keys[i]) == Some(r[i])
  {
    reg.Values()
  }

  /** How many of `ss` have status `st`. */
  function CountStatus(ss: seq<TrackingSession>, st: SessionStatus): (n: nat)
    ensures n <= |ss|
  {
    if |ss| == 0 then 0
    else CountStatus(ss[..|ss| - 1], st) + (if ss[|ss| - 1].status == st then 1 else 0)
  }

  /** Every session has exactly one of the four statuses. */
  lemma {:induction false} CountPartition(ss: seq<TrackingSession>)
    ensures CountStatus(ss, Uploaded) + CountStatus(ss, Processing) + CountStatus(ss, Completed) + CountStatus(ss, Failed) == |ss|
  {
    if |ss| > 0 {
      CountPartition(ss[..|ss| - 1]);
    }
  }

  /** Appending a session adds one to its status's count and nothing else. */
  lemma CountAppend(ss: seq<TrackingSession>, s: TrackingSession, st: SessionStatus)
    ensures CountStatus(ss + [s], st) == CountStatus(ss, st) + (if s.status == st then 1 else 0)
  {
    assert (ss + [s])[..|ss|] == ss;
  }

  /** `get_sessions_summary()`. */
  function GetSessionsSummary(reg: Registry): (r: TrackingSummary)
    requires reg.Valid()
    ensures r.total == reg.Size()
    ensures r.active == CountStatus(GetAllSessions(reg), Processing)
    ensures r.completed == CountStatus(GetAllSessions(reg), Completed)
    ensures r.failed == CountStatus(GetAllSessions(reg), Failed)
    ensures r.total == r.active + r.completed + r.failed + CountStatus(GetAllSessions(reg), Uploaded)
    ensures r.active + r.completed + r.failed <= r.total
  {
    var ss := GetAllSessions(reg);
    CountPartition(ss);
    TrackingSummary(|ss|, CountStatus(ss, Processing), CountStatus(ss, Completed), CountStatus(ss, Failed))
  }

  /** Storing a new key twice is storing its last value once. */
  lemma PutNewTwice(reg: Registry, k: string, a: TrackingSession, b: TrackingSession)
    requires reg.Valid() && k !in reg.keys
    ensures reg.Put(k, a).Put(k, b).Values() == reg.Values() + [b]
  {
    var once := reg.Put(k, a);
    assert once.Put(k, b) == reg.Put(k, b) by {
      assert once.keys == reg.keys + [k];
      assert k in once.keys;
      assert once.Put(k, b).keys == reg.Put(k, b).keys;
      assert once.Put(k, b).entries == reg.entries[k := a][k := b] == reg.entries[k := b];
    }
    PutNewValues(reg, k, b);
  }

  /** A registry that lists one session more than another has a summary
      one larger in the total and in that session's counter. */
  lemma SummaryOfAppend(reg: Registry, reg': Registry, s: TrackingSession)
    requires reg.Valid() && reg'.Valid() && reg'.Values() == reg.Values() + [s]
    ensures GetSessionsSummary(reg').total == GetSessionsSummary(reg).total + 1
    ensures GetSessionsSummary(reg').active == GetSessionsSummary(reg).active + (if s.status == Processing then 1 else 0)
    ensures GetSessionsSummary(reg').completed == GetSessionsSummary(reg).completed + (if s.status == Completed then 1 else 0)
    ensures GetSessionsSummary(reg').failed == GetSessionsSummary(reg).failed + (if s.status == Failed then 1 else 0)
  {
    CountAppend(reg.Values(), s, Processing);
    CountAppend(reg.Values(), s, Completed);
    CountAppend(reg.Values(), s, Failed);
  }

  /** Processing under a fresh id with both models loaded leaves no session
      in "processing": the new session is counted as completed or failed. */
  lemma SummaryAfterRun(reg: Registry, id: string, filename: string, now: int, later: int,
                        outcome: Result<TrackingResult, Exception>)
    requires reg.Valid() && id !in reg.keys
    ensures var r := RunSession(reg, id, filename, now, later, outcome);
      var before := GetSessionsSummary(reg);
      var after := GetSessionsSummary(r.0);
      && after.total == before.total + 1
      && after.active == before.active
      && after.completed == before.completed + (if outcome.Ok? then 1 else 0)
      && after.failed == before.failed + (if outcome.Err? then 1 else 0)
  {
    var session := NewTrackingSession(id, Processing, now, filename);
    var reg' := RunSession(reg, id, filename, now, later, outcome).0;
    var last := reg'.entries[id];
    assert reg' == reg.Put(id, session).Put(id, last);
    PutNewTwice(reg, id, session, last);
    SummaryOfAppend(reg, reg', last);
  }

  /** A successful upload under a fresh id adds one session, counted only
      in the total. */
  lemma SummaryAfterUpload(reg: Registry, disk: Disk, content: seq<byte>, filename: string, freshId: string, now: int,
                           video: Video, writeError: Option<string>)
    requires reg.Valid() && freshId !in reg.keys && writeError.None? && AcceptableVideo(video)
    ensures var r := UploadVideo(reg, disk, content, filename, freshId, now, video, writeError);
      var before := GetSessionsSummary(reg);
      var after := GetSessionsSummary(r.0);
      && after.total == before.total + 1
      && after.active == before.active && after.completed == before.completed && after.failed == before.failed
  {
    var r := UploadVideo(reg, disk, content, filename, freshId, now, video, writeError);
    assert r.2.Ok? && r.2.value.status == Uploaded;
    var session := r.2.value;
    assert r.0.Values() == reg.Values() + [session] by {
      PutNewValues(reg, freshId, session);
    }
    SummaryOfAppend(reg, r.0, session);
  }

  // ---------------------------------------------------------------- format

  /** `validate_video_format(filename)`: the suffix of the final component,
      lower-cased, is one of the six supported formats. */
  function ValidateVideoFormat(filename: string): (r: bool)
    ensures r ==> 4 <= |Suffix(filename)| <= 5 && Suffix(filename)[0] == '.'
  {
    var ext := Lower(Suffix(filename));
    if ext in SUPPORTED_FORMATS then
      FormatShape(ext);
      true
    else false
  }

  /** Each supported format is a dot and three or four letters. */
  lemma FormatShape(ext: string)
    requires ext in SUPPORTED_FORMATS
    ensures 4 <= |ext| <= 5 && ext[0] == '.'
  {
  }

  /** The format check ignores the case of the file name. */
  lemma FormatIgnoresCase(filename: string)
    ensures ValidateVideoFormat(Lower(filename)) == ValidateVideoFormat(filename)
  {
    SuffixOfLower(filename);
    LowerIdempotent(Suffix(filename));
  }
}
