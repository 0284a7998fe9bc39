/** The person-tracking endpoints (`app/api/v1/endpoints/tracking.py`).
    Every handler builds a new `TrackingService`, so each request sees an
    empty session registry: the handlers are modelled over a registry
    given as a parameter, and each endpoint is its handler applied to
    the empty registry. Form-field bounds are enforced by the framework
    before a handler runs, so requests arrive valid. */
module TrackingApi {
  import opened Wrappers
  import opened Strings
  import opened Paths
  import opened OrderedDicts
  import opened Files
  import opened Exceptions
  import opened ModelManagement
  import opened Deps
  import opened TrackingSchema
  import opened TrackingPipeline
  import opened TrackingService
  import opened Uploads

  const MAX_UPLOAD_SIZE: int := 500 * 1024 * 1024
  const MAX_VALIDATE_SIZE: int := 100 * 1024 * 1024

  /** The upload endpoint's own allow-list (the same six as the service's). */
  const ALLOWED_EXTENSIONS: set<string> := {".mp4", ".avi", ".mov", ".mkv", ".webm", ".flv"}
  const VALID_ALGORITHMS: set<string> := {"boosttrack", "deepsort", "sort"}

  const NO_FILENAME: string := "No filename provided"
  const FILE_TOO_LARGE: string := "File size exceeds 500MB limit. Please upload a smaller video file."
  const UNAVAILABLE: string := "Person tracking service is temporarily unavailable. Please try again later."
  const SESSION_NOT_FOUND: string := "Session not found"

  /** `str()` of the service's format list. */
  const FORMAT_LIST: string := "['.mp4', '.avi', '.mov', '.mkv', '.webm', '.flv']"

  /** The extension the upload endpoint checks: `os.path.splitext` of the
      lower-cased name. */
  function UploadExtension(filename: string): string
  {
    SplitExt(Lower(filename)).1
  }

  /** The four upload checks in order; the first that fails decides the
      400. `formats` and `algorithms` are the two allowed sets joined with
      ", ", in the iteration order Python's string hashing gives them.
      Behind the endpoint the algorithm check never fails: the form
      field's pattern admits only the three valid algorithms and answers
      anything else with a 422 before the handler runs. */
  function UploadLadder(filename: Option<string>, size: int, algorithm: string, formats: string, algorithms: string)
    : (r: Option<Exception>)
    ensures r.None? <==>
      && filename.Some? && filename.value != ""
      && size <= MAX_UPLOAD_SIZE
      && UploadExtension(filename.value) in ALLOWED_EXTENSIONS
      && algorithm in VALID_ALGORITHMS
    ensures r.Some? ==> r.value.Http? && r.value.status == HTTP_400
    ensures (filename.None? || filename == Some("")) ==> r == Some(Http(HTTP_400, NO_FILENAME))
    ensures filename.Some? && filename.value != "" && size > MAX_UPLOAD_SIZE ==> r == Some(Http(HTTP_400, FILE_TOO_LARGE))
    ensures filename.Some? && filename.value != "" && size <= MAX_UPLOAD_SIZE && UploadExtension(filename.value) !in ALLOWED_EXTENSIONS ==>
      StartsWith(r.value.detail, "Unsupported video format '" + UploadExtension(filename.value) + "'")
    ensures (filename.Some? && filename.value != "" && size <= MAX_UPLOAD_SIZE && UploadExtension(filename.value) in ALLOWED_EXTENSIONS
      && algorithm !in VALID_ALGORITHMS) ==>
      StartsWith(r.value.detail, "Invalid tracking algorithm '" + algorithm + "'")
  {
    if filename.None? || filename.value == "" then Some(Http(HTTP_400, NO_FILENAME))
    else if size > MAX_UPLOAD_SIZE then Some(Http(HTTP_400, FILE_TOO_LARGE))
    else if UploadExtension(filename.value) !in ALLOWED_EXTENSIONS then
      var p := "Unsupported video format '" + UploadExtension(filename.value) + "'";
      StartsWithAppend(p, ". Supported formats: " + formats);
      Some(Http(HTTP_400, p + (". Supported formats: " + formats)))
    else if algorithm !in VALID_ALGORITHMS then
      var p := "Invalid tracking algorithm '" + algorithm + "'";
      StartsWithAppend(p, ". Use: " + algorithms);
      Some(Http(HTTP_400, p + (". Use: " + algorithms)))
    else None
  }

  /** `POST /upload` behind the tracking-model guard, with `tempPath` the
      name the temporary file gets, `freshId` and `now` the service's id
      and clock, `video` what OpenCV reads from the stored file and
      `writeError` the service's failure to create that file, if any. The
      guard answers before anything is read; the temporary file is
      written after the checks and never removed. `algorithm` is one the
      form's pattern lets through. */
  function UploadEndpoint(disk: Disk, m: Manager, content: seq<byte>, filename: Option<string>, algorithm: string,
                          formats: string, algorithms: string, tempPath: string, freshId: string, now: int,
                          video: Video, writeError: Option<string>)
    : (r: (Disk, Result<TrackingSession, Exception>))
    requires algorithm in VALID_ALGORITHMS
    ensures RequireTrackingModels(m).Err? ==> r == (disk, Err(RequireTrackingModels(m).error))
    ensures var ladder := UploadLadder(filename, |content|, algorithm, formats, algorithms);
      ModelsReady(m) && ladder.Some? ==> r == (disk, Err(ladder.value))
    ensures r.1.Err? ==> r.1.error.Http? && (r.1.error.status == HTTP_400 || r.1.error.status == HTTP_503)
    ensures r.1.Err? ==> (r.1.error.status == HTTP_503 <==> !ModelsReady(m))
    ensures r.1.Ok? <==> ModelsReady(m) && UploadLadder(filename, |content|, algorithm, formats, algorithms).None?
                         && writeError.None? && AcceptableVideo(video)
    ensures r.1.Ok? ==> r.1.value.sessionId == freshId && r.1.value.status == Uploaded && r.1.value.videoFilename == filename
    ensures ModelsReady(m) && UploadLadder(filename, |content|, algorithm, formats, algorithms).None? ==>
      r.0 == if writeError.None? then disk[tempPath := content][UploadPath(freshId, filename.value) := content]
             else disk[tempPath := content]
    ensures ModelsReady(m) && UploadLadder(filename, |content|, algorithm, formats, algorithms).None? && r.1.Err? ==>
      ArgumentOf(VideoProcessing, r.1.error.detail) == "video upload"
  {
    match RequireTrackingModels(m)
    case Err(e) => (disk, Err(e))
    case Ok(_) =>
      match UploadLadder(filename, |content|, algorithm, formats, algorithms)
      case Some(e) => (disk, Err(MapServiceError(e, VideoProcessing, UNAVAILABLE)))
      case None =>
        var up := UploadVideo(Empty(), disk[tempPath := content], content, filename.value, freshId, now, video, writeError);
        match up.2
        case Ok(session) => (up.1, Ok(session))
        case Err(e) => (up.1, Err(MapServiceError(e, VideoProcessing, UNAVAILABLE)))
  }

  /** An accepted upload stores the video where processing will look for
      it: the returned session's processing path holds the uploaded bytes. */
  lemma UploadedVideoIsProcessed(disk: Disk, m: Manager, content: seq<byte>, filename: Option<string>, algorithm: string,
                                 formats: string, algorithms: string, tempPath: string, freshId: string, now: int,
                                 video: Video, writeError: Option<string>)
    requires algorithm in VALID_ALGORITHMS
    ensures var r := UploadEndpoint(disk, m, content, filename, algorithm, formats, algorithms, tempPath, freshId, now, video, writeError);
      r.1.Ok? ==>
        && ProcessPath(r.1.value.sessionId, r.1.value) in r.0
        && r.0[ProcessPath(r.1.value.sessionId, r.1.value)] == content
  {
    var r := UploadEndpoint(disk, m, content, filename, algorithm, formats, algorithms, tempPath, freshId, now, video, writeError);
    if r.1.Ok? {
      ProcessPathIsUploadPath(Empty(), disk[tempPath := content], content, filename.value, freshId, now, video);
    }
  }

  /** Where `process_video_tracking` looks for the uploaded video. */
  function ProcessPath(sessionId: string, session: TrackingSession): string
  {
    UPLOAD_DIR + "/" + sessionId + "_" + (if session.videoFilename.Some? then session.videoFilename.value else "None")
  }

  /** The processing path is the file an upload that could write it stored
      for that session. */
  lemma ProcessPathIsUploadPath(reg: Registry, disk: Disk, content: seq<byte>, filename: string, freshId: string, now: int, video: Video)
    requires reg.Valid() && AcceptableVideo(video)
    ensures var up := UploadVideo(reg, disk, content, filename, freshId, now, video, None);
      && GetSession(up.0, freshId) == Some(up.2.value)
      && ProcessPath(freshId, up.2.value) == UploadPath(freshId, filename)
      && up.1[ProcessPath(freshId, up.2.value)] == content
  {
    var up := UploadVideo(reg, disk, content, filename, freshId, now, video, None);
    assert UPLOAD_DIR + "/" + freshId + "_" + filename == UPLOAD_DIR + "/" + (freshId + "_" + filename);
  }

  /** The handler of `POST /process/{session_id}` on the registry `reg`,
      behind the tracking-model guard. */
  function ProcessHandler(reg: Registry, m: Manager, sessionId: string, request: TrackingRequest,
                          freshId: string, now: int, later: int, video: Video)
    : (r: Result<TrackingResult, Exception>)
    requires reg.Valid()
    ensures RequireTrackingModels(m).Err? ==> r == Err(RequireTrackingModels(m).error)
    ensures RequireTrackingModels(m).Ok? && GetSession(reg, sessionId).None? ==>
      r == Err(Http(HTTP_500, "Processing failed: " + Str(Http(HTTP_404, SESSION_NOT_FOUND))))
    ensures RequireTrackingModels(m).Ok? && GetSession(reg, sessionId).Some? && GetSession(reg, sessionId).value.status != Uploaded ==>
      r.Err? && r.error.Http? && r.error.status == HTTP_500
    ensures RequireTrackingModels(m).Ok? && GetSession(reg, sessionId).Some? && GetSession(reg, sessionId).value.status == Uploaded ==>
      var path := ProcessPath(sessionId, GetSession(reg, sessionId).value);
      var out := ProcessVideo(reg, m, path, request, freshId, now, later, video).1;
      && (r.Ok? <==> out.Ok?)
      && (r.Ok? ==> r.value == out.value)
      && (r.Err? ==> r.error == Http(HTTP_422, out.error.message))
  {
    match RequireTrackingModels(m)
    case Err(e) => Err(e)
    case Ok(_) =>
      match GetSession(reg, sessionId)
      case None => Err(MapProcessingError(Http(HTTP_404, SESSION_NOT_FOUND), VideoProcessing, "Processing failed: "))
      case Some(session) =>
        if session.status != Uploaded then
          var e := Http(HTTP_400, "Session status is " + StatusName(session.status) + ", expected 'uploaded'");
          Err(MapProcessingError(e, VideoProcessing, "Processing failed: "))
        else
          var path := ProcessPath(sessionId, session);
          match ProcessVideo(reg, m, path, request, freshId, now, later, video).1
          case Ok(result) => Ok(result)
          case Err(e) => Err(MapProcessingError(e, VideoProcessing, "Processing failed: "))
  }

  /** The endpoint as deployed: its service starts with no sessions, so
      every request that passes the guard fails with a 500 reporting the
      inner 404. */
  lemma ProcessEndpointAlwaysFails(m: Manager, sessionId: string, request: TrackingRequest,
                                   freshId: string, now: int, later: int, video: Video)
    ensures var r := ProcessHandler(Empty(), m, sessionId, request, freshId, now, later, video);
      r.Err? && r.error.Http?
      && (RequireTrackingModels(m).Ok? ==>
            r.error.status == HTTP_500 && StartsWith(r.error.detail, "Processing failed: " + IntToString(HTTP_404) + ": "))
  {
    InnerHttpBecomes500(HTTP_404, SESSION_NOT_FOUND, VideoProcessing, "Processing failed: ");
  }

  /** Had the upload's registry survived, processing the uploaded session
      would run the tracker on the stored file. */
  lemma ProcessAfterUpload(reg: Registry, disk: Disk, content: seq<byte>, filename: string, id: string, now: int,
                           m: Manager, request: TrackingRequest, freshId: string, t1: int, t2: int, video: Video)
    requires reg.Valid() && AcceptableVideo(video) && ModelsReady(m)
    ensures var up := UploadVideo(reg, disk, content, filename, id, now, video, None);
      var r := ProcessHandler(up.0, m, id, request, freshId, t1, t2, video);
      r.Ok? <==> TrackPersonsInVideo(video, UploadPath(id, filename), request, freshId).Ok?
  {
    ProcessPathIsUploadPath(reg, disk, content, filename, id, now, video);
  }

  /** `POST /process-direct`: check the format, write the video to the
      temporary file `tempPath`, process it, and remove the file on every
      exit. */
  function DirectEndpoint(disk: Disk, m: Manager, filename: Option<string>, content: seq<byte>, request: TrackingRequest,
                          tempPath: string, freshId: string, now: int, later: int, video: Video)
    : (r: (Disk, Result<TrackingResult, Exception>))
    ensures RequireTrackingModels(m).Err? ==> r == (disk, Err(RequireTrackingModels(m).error))
    ensures r.0 == disk - {tempPath} || r.0 == disk
    ensures r.1.Err? ==> r.1.error.Http? && (r.1.error.status == HTTP_422 || r.1.error.status == HTTP_500 || r.1.error.status == HTTP_503)
    ensures RequireTrackingModels(m).Ok? && filename.None? ==> r == (disk, Err(Http(HTTP_500, "Processing failed: " + NONE_PATH_ERROR)))
    ensures RequireTrackingModels(m).Ok? && filename.Some? && !ValidateVideoFormat(filename.value) ==>
      r.0 == disk && r.1.Err? && r.1.error.status == HTTP_500
    ensures r.1.Ok? <==> RequireTrackingModels(m).Ok? && filename.Some? && ValidateVideoFormat(filename.value)
                         && TrackPersonsInVideo(video, tempPath, request, freshId).Ok?
    ensures r.1.Ok? ==> r.1.value == TrackPersonsInVideo(video, tempPath, request, freshId).value
  {
    match RequireTrackingModels(m)
    case Err(e) => (disk, Err(e))
    case Ok(_) =>
      if filename.None? then (disk, Err(MapProcessingError(Other(NONE_PATH_ERROR), VideoProcessing, "Processing failed: ")))
      else if !ValidateVideoFormat(filename.value) then
        var e := Http(HTTP_400, "Unsupported video format. Supported: " + FORMAT_LIST);
        (disk, Err(MapProcessingError(e, VideoProcessing, "Processing failed: ")))
      else
        var written := disk[tempPath := content];
        var cleaned := written - {tempPath};
        assert cleaned == disk - {tempPath} by {
          WriteThenRemove(disk, tempPath, content);
        }
        match ProcessVideo(Empty(), m, tempPath, request, freshId, now, later, video).1
        case Ok(result) => (cleaned, Ok(result))
        case Err(e) => (cleaned, Err(MapProcessingError(e, VideoProcessing, "Processing failed: ")))
  }

  /** The temporary file does not outlive the request: a disk without it
      before is the same disk after. */
  lemma DirectEndpointCleansUp(disk: Disk, m: Manager, filename: Option<string>, content: seq<byte>, request: TrackingRequest,
                               tempPath: string, freshId: string, now: int, later: int, video: Video)
    requires tempPath !in disk
    ensures DirectEndpoint(disk, m, filename, content, request, tempPath, freshId, now, later, video).0 == disk
  {
    RemoveAbsent(disk, tempPath);
  }

  /** `POST /validate`: valid iff the service accepts the format and the
      file is at most 100 MiB. */
  function ValidateEndpoint(filename: Option<string>, size: nat): (r: Result<ValidationReport, Exception>)
    ensures r.Err? <==> filename.None?
    ensures r.Ok? ==> (r.value.valid <==> ValidateVideoFormat(filename.value) && size <= MAX_VALIDATE_SIZE)
  {
    ValidateUpload(filename, size, ValidateVideoFormat, MAX_VALIDATE_SIZE)
  }

  /** The handler of `GET /sessions/{session_id}` on the registry `reg`. */
  function GetSessionHandler(reg: Registry, sessionId: string): (r: Result<TrackingSession, Exception>)
    requires reg.Valid()
    ensures r.Ok? <==> sessionId in reg.keys
    ensures r.Ok? ==> Some(r.value) == GetSession(reg, sessionId)
    ensures r.Err? ==> r.error == Http(HTTP_500, "Failed to get session: " + Str(Http(HTTP_404, SESSION_NOT_FOUND)))
  {
    match GetSession(reg, sessionId)
    case None => Err(Http(HTTP_500, "Failed to get session: " + Str(Http(HTTP_404, SESSION_NOT_FOUND))))
    case Some(s) => Ok(s)
  }

  /** As deployed, the session lookup, the session list and the summary
      all see the empty registry. */
  lemma QueryEndpointsSeeNothing(sessionId: string)
    ensures GetSessionHandler(Empty(), sessionId).Err?
    ensures GetAllSessions(Empty()) == []
    ensures GetSessionsSummary(Empty()) == TrackingSummary(0, 0, 0, 0)
  {
  }

  /** The endpoint's set and the service's list name the same formats. */
  lemma FormatListsAgree(ext: string)
    ensures ext in ALLOWED_EXTENSIONS <==> ext in SUPPORTED_FORMATS
  {
  }

  /** The upload endpoint and process-direct apply different extension
      rules, which agree on names whose final component neither starts
      nor ends with a dot. */
  lemma FormatRulesAgree(filename: string)
    requires |Name(filename)| > 0 ==> Name(filename)[0] != '.' && Name(filename)[|Name(filename)| - 1] != '.'
    ensures UploadExtension(filename) in ALLOWED_EXTENSIONS <==> ValidateVideoFormat(filename)
  {
    var ext := Lower(Suffix(filename));
    assert UploadExtension(filename) == ext by {
      SplitExtOfLower(filename);
      SuffixAgreesWithSplitExt(filename);
    }
    assert ValidateVideoFormat(filename) == (ext in SUPPORTED_FORMATS);
    FormatListsAgree(ext);
  }

  /** A name made only of dots and an extension is refused by the upload
      endpoint but accepted by process-direct and `/validate`. */
  lemma LeadingDotsSplitTheRules(f: string)
    requires f == "..mp4"
    ensures UploadExtension(f) !in ALLOWED_EXTENSIONS
    ensures ValidateVideoFormat(f)
  {
    LeadingDotsNoSplit(f);
    LeadingDotsSuffix(f);
    assert ".mp4" in SUPPORTED_FORMATS;
    ShortNotAllowed(UploadExtension(f));
  }

  lemma ShortNotAllowed(ext: string)
    requires |ext| < 4
    ensures ext !in ALLOWED_EXTENSIONS
  {
  }

  lemma LastDotOfLeadingDots(f: string)
    requires f == "..mp4"
    ensures LastIndexOf(f, '.') == 1 && LastIndexOf(f, '/') == -1
  {
    assert f[1] == '.' && f[2] == 'm' && f[3] == 'p' && f[4] == '4';
    LastIndexOfAt(f, '.', 1);
  }

  lemma LeadingDotsNoSplit(f: string)
    requires f == "..mp4"
    ensures UploadExtension(f) == ""
  {
    SplitExtOfLower(f);
    LastDotOfLeadingDots(f);
    assert !NonDotIn(f, 0, 1);
    assert SplitExt(f).1 == "";
  }

  lemma LeadingDotsSuffix(f: string)
    requires f == "..mp4"
    ensures Lower(Suffix(f)) == ".mp4"
  {
    LastDotOfLeadingDots(f);
    assert Name(f) == f;
    assert Suffix(f) == f[1..];
    var l := Lower(f[1..]);
    assert l[0] == '.' && l[1] == 'm' && l[2] == 'p' && l[3] == '4';
  }
}
