/** The pydantic models of the person-tracking API (`app/schemas/tracking.py`).
    Each `New...` function is the model's constructor: it yields `None`
    where pydantic's field constraints would raise a validation error. */
module TrackingSchema {
  import opened Wrappers

  /** `TrackingRequest`: detection threshold and track budget. */
  datatype TrackingRequest = TrackingRequest(confidenceThreshold: real, maxTracks: int) {
    predicate Valid()
    {
      0.1 <= confidenceThreshold <= 1.0 && 1 <= maxTracks <= 1000
    }
  }

  /** `TrackingRequest()` with every field defaulted. */
  function DefaultTrackingRequest(): (r: TrackingRequest)
    ensures r.Valid()
    ensures r.confidenceThreshold == 0.25 && r.maxTracks == 100
  {
    TrackingRequest(0.25, 100)
  }

  function NewTrackingRequest(confidenceThreshold: real, maxTracks: int): (r: Option<TrackingRequest>)
    ensures r.Some? <==> 0.1 <= confidenceThreshold <= 1.0 && 1 <= maxTracks <= 1000
    ensures r.Some? ==> r.value.Valid() && r.value.confidenceThreshold == confidenceThreshold && r.value.maxTracks == maxTracks
  {
    var t := TrackingRequest(confidenceThreshold, maxTracks);
    if t.Valid() then Some(t) else None
  }

  /** A probability-valued field: `Field(ge=0, le=1)`. */
  predicate IsUnit(x: real)
  {
    0.0 <= x <= 1.0
  }

  /** `BoundingBox`: corners, and an optional confidence in [0, 1]. */
  datatype BoundingBox = BoundingBox(x1: real, y1: real, x2: real, y2: real, confidence: Option<real>) {
    predicate Valid()
    {
      confidence.Some? ==> IsUnit(confidence.value)
    }
  }

  function NewBoundingBox(x1: real, y1: real, x2: real, y2: real, confidence: Option<real>): (r: Option<BoundingBox>)
    ensures r.Some? <==> (confidence.None? || IsUnit(confidence.value))
    ensures r.Some? ==> r.value.Valid() && r.value == BoundingBox(x1, y1, x2, y2, confidence)
  {
    var b := BoundingBox(x1, y1, x2, y2, confidence);
    if b.Valid() then Some(b) else None
  }

  /** `PersonTrack`: one observation of one tracked person in one frame. */
  datatype PersonTrack = PersonTrack(
    trackId: int,
    bbox: BoundingBox,
    frameNumber: int,
    timestamp: Option<real>,
    confidence: real)
  {
    predicate Valid()
    {
      IsUnit(confidence) && bbox.Valid()
    }
  }

  function NewPersonTrack(trackId: int, bbox: BoundingBox, frameNumber: int, timestamp: Option<real>, confidence: real): (r: Option<PersonTrack>)
    requires bbox.Valid()
    ensures r.Some? <==> IsUnit(confidence)
    ensures r.Some? ==> r.value.Valid() && r.value == PersonTrack(trackId, bbox, frameNumber, timestamp, confidence)
  {
    var t := PersonTrack(trackId, bbox, frameNumber, timestamp, confidence);
    if IsUnit(confidence) then Some(t) else None
  }

  /** The `video_info` dictionary of a result. */
  datatype VideoInfo = VideoInfo(filename: string, duration: real, resolution: string, fps: real, totalFrames: int)

  /** `TrackingResult`; `processing_time` is not modelled. */
  datatype TrackingResult = TrackingResult(
    sessionId: string,
    videoInfo: VideoInfo,
    tracks: seq<PersonTrack>,
    totalFrames: int,
    fps: Option<real>)

  /** The four values the code stores in `TrackingSession.status`. */
  datatype SessionStatus = Uploaded | Processing | Completed | Failed

  /** The status as the string the code stores. */
  function StatusName(s: SessionStatus): string
  {
    match s
    case Uploaded => "uploaded"
    case Processing => "processing"
    case Completed => "completed"
    case Failed => "failed"
  }

  /** The status a stored string denotes, if it is one of the four. */
  function ParseStatus(name: string): (r: Option<SessionStatus>)
    ensures r.Some? ==> StatusName(r.value) == name
  {
    if name == "uploaded" then Some(Uploaded)
    else if name == "processing" then Some(Processing)
    else if name == "completed" then Some(Completed)
    else if name == "failed" then Some(Failed)
    else None
  }

  /** Each status is stored as a distinct string that reads back as itself. */
  lemma StatusNameRoundTrip(s: SessionStatus)
    ensures ParseStatus(StatusName(s)) == Some(s)
  {
    match s
    case Uploaded =>
    case Processing => assert "processing"[0] != "uploaded"[0];
    case Completed =>
      assert "completed"[0] != "uploaded"[0] && "completed"[0] != "processing"[0];
    case Failed =>
      assert "failed"[0] != "uploaded"[0] && "failed"[0] != "processing"[0] && "failed"[0] != "completed"[0];
  }

  /** `TrackingSession`; times are readings of an abstract clock. */
  datatype TrackingSession = TrackingSession(
    sessionId: string,
    status: SessionStatus,
    createdAt: int,
    completedAt: Option<int>,
    videoFilename: Option<string>,
    errorMessage: Option<string>,
    result: Option<TrackingResult>)

  /** `TrackingSession(session_id=..., status=..., video_filename=...)`,
      with `created_at` from the clock and the other fields at their defaults. */
  function NewTrackingSession(sessionId: string, status: SessionStatus, now: int, videoFilename: string): (s: TrackingSession)
    ensures s.sessionId == sessionId && s.status == status && s.createdAt == now
    ensures s.videoFilename == Some(videoFilename)
    ensures s.completedAt.None? && s.errorMessage.None? && s.result.None?
  {
    TrackingSession(sessionId, status, now, None, Some(videoFilename), None, None)
  }

  /** `TrackingSummary`: exactly four counters. */
  datatype TrackingSummary = TrackingSummary(total: int, active: int, completed: int, failed: int)
}
