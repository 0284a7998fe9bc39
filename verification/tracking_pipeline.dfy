/** The frame loop of `TrackingService._track_persons_in_video` and the
    person filter `_detect_persons`, as a pure fold over the frames of a
    video. Decoding, YOLO inference and the tracker are abstract: each
    frame carries what the detector returned for it and what the tracker
    would do if it were updated on that frame: report its targets, or
    raise with some message. */
module TrackingPipeline {
  import opened Wrappers
  import opened Strings
  import opened Paths
  import opened Exceptions
  import opened TrackingSchema

  /** One box of a YOLO result: class id, `xyxy` corners and confidence. */
  datatype RawBox = RawBox(cls: int, x1: real, y1: real, x2: real, y2: real, conf: real)

  /** What YOLO inference produced for one frame: one entry per result,
      whose `boxes` may be `None`; or an exception. */
  datatype DetectorOutput = DetectorRaised | Detected(results: seq<Option<seq<RawBox>>>)

  /** A detection handed to the tracker: `[x1, y1, x2, y2, conf]`. */
  datatype Detection = Detection(x1: real, y1: real, x2: real, y2: real, conf: real)

  /** A tracker target: `track_id`, the `tlbr` corners and `score`. */
  datatype Target = Target(trackId: int, x1: real, y1: real, x2: real, y2: real, score: real)

  /** One decoded frame. `targets` is what `tracker.update` does when it is
      called on this frame: the targets it returns, or the text of the
      exception it raises. */
  datatype Frame = Frame(detector: DetectorOutput, targets: Result<seq<Target>, string>)

  /** A frame as the tracking loop consumes it: the detections
      `_detect_persons` returned for it and the tracker's outcome. */
  datatype Step = Step(detections: seq<Detection>, targets: Result<seq<Target>, string>)

  /** What OpenCV reports about a video file, and its frames in order. */
  datatype Video = Video(isOpen: bool, fps: real, frameCount: int, width: int, height: int, frames: seq<Frame>)

  function ToDetection(b: RawBox): Detection
  {
    Detection(b.x1, b.y1, b.x2, b.y2, b.conf)
  }

  /** The inner loop of `_detect_persons` over the boxes of one result. */
  function PersonsInBoxes(boxes: seq<RawBox>): (r: seq<Detection>)
    ensures |r| <= |boxes|
    decreases |boxes|
  {
    if |boxes| == 0 then []
    else (if boxes[0].cls == 0 then [ToDetection(boxes[0])] else []) + PersonsInBoxes(boxes[1..])
  }

  /** The outer loop of `_detect_persons` over the results. */
  function PersonsInResults(results: seq<Option<seq<RawBox>>>): seq<Detection>
    decreases |results|
  {
    if |results| == 0 then []
    else
      (match results[0] case None => [] case Some(bs) => PersonsInBoxes(bs))
      + PersonsInResults(results[1..])
  }

  /** `_detect_persons`: person boxes as detections; a failing detector
      gives no detections rather than an error. */
  function DetectPersons(out: DetectorOutput): (r: seq<Detection>)
    ensures out.DetectorRaised? ==> r == []
  {
    match out
    case DetectorRaised => []
    case Detected(results) => PersonsInResults(results)
  }

  /** Every box of every result, in order (a missing `boxes` contributes none). */
  function AllBoxes(results: seq<Option<seq<RawBox>>>): seq<RawBox>
    decreases |results|
  {
    if |results| == 0 then []
    else (match results[0] case None => [] case Some(bs) => bs) + AllBoxes(results[1..])
  }

  /** The class-0 (person) boxes among `boxes`, in order. */
  function PersonBoxes(boxes: seq<RawBox>): (r: seq<RawBox>)
    ensures forall i :: 0 <= i < |r| ==> r[i].cls == 0 && r[i] in boxes
    ensures (forall i :: 0 <= i < |boxes| ==> boxes[i].cls != 0) ==> r == []
    decreases |boxes|
  {
    if |boxes| == 0 then []
    else if boxes[0].cls == 0 then [boxes[0]] + PersonBoxes(boxes[1..])
    else PersonBoxes(boxes[1..])
  }

  lemma {:induction false} PersonBoxesAppend(a: seq<RawBox>, b: seq<RawBox>)
    ensures PersonBoxes(a + b) == PersonBoxes(a) + PersonBoxes(b)
    decreases |a|
  {
    if |a| > 0 {
      assert (a + b)[1..] == a[1..] + b;
      PersonBoxesAppend(a[1..], b);
    } else {
      assert a + b == b;
    }
  }

  function ToDetections(bs: seq<RawBox>): (r: seq<Detection>)
    ensures |r| == |bs|
    ensures forall i :: 0 <= i < |bs| ==> r[i] == ToDetection(bs[i])
  {
    seq(|bs|, i requires 0 <= i < |bs| => ToDetection(bs[i]))
  }

  lemma {:induction false} PersonsInBoxesIsFilter(boxes: seq<RawBox>)
    ensures PersonsInBoxes(boxes) == ToDetections(PersonBoxes(boxes))
    decreases |boxes|
  {
    if |boxes| > 0 {
      PersonsInBoxesIsFilter(boxes[1..]);
    }
  }

  /** The nested loops of `_detect_persons` compute exactly the person
      boxes of all results, in order, each turned into a detection. */
  lemma {:induction false} DetectPersonsIsFilter(results: seq<Option<seq<RawBox>>>)
    ensures DetectPersons(Detected(results)) == ToDetections(PersonBoxes(AllBoxes(results)))
    decreases |results|
  {
    if |results| > 0 {
      DetectPersonsIsFilter(results[1..]);
      var head := match results[0] case None => [] case Some(bs) => bs;
      PersonsInBoxesIsFilter(head);
      PersonBoxesAppend(head, AllBoxes(results[1..]));
      assert PersonsInResults(results) == PersonsInBoxes(head) + PersonsInResults(results[1..]);
    }
  }

  /** Runs `_detect_persons` on every frame. Detection is pure per frame,
      so computing it ahead of the loop does not change what the loop sees. */
  function Detect(frames: seq<Frame>): (r: seq<Step>)
    ensures |r| == |frames|
    ensures forall i :: 0 <= i < |frames| ==> r[i] == Step(DetectPersons(frames[i].detector), frames[i].targets)
  {
    seq(|frames|, i requires 0 <= i < |frames| => Step(DetectPersons(frames[i].detector), frames[i].targets))
  }

  /** `frame_number / fps if fps > 0 else frame_number * 0.033`. */
  function Timestamp(frameNumber: nat, fps: real): (t: real)
    ensures fps > 0.0 ==> t * fps == frameNumber as real
    ensures fps <= 0.0 ==> t == frameNumber as real * 0.033
  {
    if fps > 0.0 then frameNumber as real / fps else frameNumber as real * 0.033
  }

  /** The observation the loop builds for a target (before validation). */
  function ObsOf(t: Target, frameNumber: nat, timestamp: real): PersonTrack
  {
    PersonTrack(t.trackId, BoundingBox(t.x1, t.y1, t.x2, t.y2, Some(t.score)), frameNumber, Some(timestamp), t.score)
  }

  /** The inner `for target in online_targets` loop: one validated
      `PersonTrack` per target, or `None` when pydantic rejects a score. */
  function Observations(targets: seq<Target>, frameNumber: nat, timestamp: real): (r: Option<seq<PersonTrack>>)
    ensures r.Some? <==> forall j :: 0 <= j < |targets| ==> IsUnit(targets[j].score)
    ensures r.Some? ==> |r.value| == |targets|
    ensures r.Some? ==> forall j :: 0 <= j < |targets| ==> r.value[j] == ObsOf(targets[j], frameNumber, timestamp)
    decreases |targets|
  {
    if |targets| == 0 then Some([])
    else
      var t := targets[0];
      match NewBoundingBox(t.x1, t.y1, t.x2, t.y2, Some(t.score))
      case None => None
      case Some(b) =>
        match NewPersonTrack(t.trackId, b, frameNumber, Some(timestamp), t.score)
        case None => None
        case Some(o) =>
          match Observations(targets[1..], frameNumber, timestamp)
          case None => None
          case Some(rest) => Some([o] + rest)
  }

  /** `if detections:` — the detector found at least one person on the frame. */
  predicate HasPersons(f: Step)
  {
    |f.detections| > 0
  }

  /** The targets the tracker reports on a frame; none when it raises. */
  function Reported(f: Step): seq<Target>
  {
    match f.targets
    case Ok(ts) => ts
    case Err(_) => []
  }

  /** A frame on which the loop cannot fail: either the tracker is not
      called, or it returns and every target it reports has a score in [0, 1]. */
  predicate FrameValid(f: Step)
  {
    !HasPersons(f) || (f.targets.Ok? && forall j :: 0 <= j < |f.targets.value| ==> IsUnit(f.targets.value[j].score))
  }

  /** How the frame loop ended without an exception. */
  datatype LoopEnd = LoopEnd(frameNumber: nat, tracks: seq<PersonTrack>, trackerCalls: seq<nat>)

  /** Why the frame loop raised on the given frame: pydantic rejected a
      track built on it, or `tracker.update` raised with the given text. */
  datatype TrackFailure = InvalidTrack(frameNumber: nat) | TrackerRaised(frameNumber: nat, text: string)

  /** The body of one iteration on frame number `n`: no observations when
      the detector found nobody, otherwise the tracker's targets turned
      into validated observations; a tracker exception or a score pydantic
      rejects raises. */
  function FrameStep(f: Step, n: nat, fps: real): (r: Result<seq<PersonTrack>, TrackFailure>)
    ensures r.Ok? <==> FrameValid(f)
    ensures r.Ok? ==> r.value == FrameTracks(f, n, fps)
    ensures r.Err? ==> r.error == FailureAt(f, n)
  {
    if !HasPersons(f) then Ok([])
    else if f.targets.Err? then Err(TrackerRaised(n, f.targets.error))
    else
      var obs := Observations(f.targets.value, n, Timestamp(n, fps));
      if obs.None? then Err(InvalidTrack(n))
      else
        assert obs.value == FrameTracks(f, n, fps);
        Ok(obs.value)
  }

  /** The `while True` loop, having read `i` frames with `tracks`
      collected so far and the tracker updated on the frames in `calls`. */
  function Loop(frames: seq<Step>, fps: real, limit: int, i: nat, tracks: seq<PersonTrack>, calls: seq<nat>): Result<LoopEnd, TrackFailure>
    requires i <= |frames|
    decreases |frames| - i
  {
    if i == |frames| then Ok(LoopEnd(i, tracks, calls))
    else
      var n := i + 1;
      match FrameStep(frames[i], n, fps)
      case Err(e) => Err(e)
      case Ok(obs) =>
        var tracks' := tracks + obs;
        var calls' := if HasPersons(frames[i]) then calls + [n] else calls;
        if |tracks'| > limit then Ok(LoopEnd(n, tracks', calls'))
        else Loop(frames, fps, limit, n, tracks', calls')
  }

  // ---------------------------------------------------------------------
  // Reference: what the loop should have produced after k frames.

  /** The observations contributed by frame number `n`. */
  function FrameTracks(f: Step, n: nat, fps: real): (r: seq<PersonTrack>)
    ensures !HasPersons(f) ==> r == []
    ensures HasPersons(f) ==> |r| == |Reported(f)|
    ensures forall j :: 0 <= j < |r| ==> r[j] == ObsOf(Reported(f)[j], n, Timestamp(n, fps))
  {
    if HasPersons(f) then
      var ts := Reported(f);
      seq(|ts|, j requires 0 <= j < |ts| => ObsOf(ts[j], n, Timestamp(n, fps)))
    else []
  }

  /** All observations of the first `k` frames. */
  function ObsUpTo(frames: seq<Step>, k: nat, fps: real): seq<PersonTrack>
    requires k <= |frames|
  {
    if k == 0 then [] else ObsUpTo(frames, k - 1, fps) + FrameTracks(frames[k - 1], k, fps)
  }

  /** How many observations the first `k` frames leave. */
  function CountUpTo(frames: seq<Step>, k: nat, fps: real): nat
    requires k <= |frames|
  {
    |ObsUpTo(frames, k, fps)|
  }

  /** The frame numbers among the first `k` on which the tracker is updated. */
  function CallsUpTo(frames: seq<Step>, k: nat): seq<nat>
    requires k <= |frames|
  {
    if k == 0 then []
    else CallsUpTo(frames, k - 1) + (if HasPersons(frames[k - 1]) then [k] else [])
  }

  /** The number of frames read when the loop, having read `i`, stops:
      the first later frame after which more than `limit` observations
      exist, or the end of the video. */
  function StopFrom(frames: seq<Step>, fps: real, limit: int, i: nat): (k: nat)
    requires i <= |frames|
    ensures i <= k <= |frames|
    ensures i < |frames| ==> i < k
    decreases |frames| - i
  {
    if i == |frames| then i
    else if CountUpTo(frames, i + 1, fps) > limit then i + 1
    else StopFrom(frames, fps, limit, i + 1)
  }

  /** A frame that leaves at most `limit` observations does not stop the loop. */
  lemma StopFromContinues(frames: seq<Step>, fps: real, limit: int, i: nat)
    requires i < |frames| && CountUpTo(frames, i + 1, fps) <= limit
    ensures StopFrom(frames, fps, limit, i) == StopFrom(frames, fps, limit, i + 1)
  {
  }

  /** A frame that leaves more than `limit` observations stops the loop. */
  lemma StopFromStops(frames: seq<Step>, fps: real, limit: int, i: nat)
    requires i < |frames| && CountUpTo(frames, i + 1, fps) > limit
    ensures StopFrom(frames, fps, limit, i) == i + 1
  {
  }

  /** One iteration of the loop from the reference state after `i` frames:
      it either stops after frame `i + 1` or continues from the reference
      state after `i + 1` frames. */
  lemma LoopStep(frames: seq<Step>, fps: real, limit: int, i: nat)
    requires i < |frames| && FrameValid(frames[i])
    ensures var n := i + 1;
      Loop(frames, fps, limit, i, ObsUpTo(frames, i, fps), CallsUpTo(frames, i))
        == if |ObsUpTo(frames, n, fps)| > limit then Ok(LoopEnd(n, ObsUpTo(frames, n, fps), CallsUpTo(frames, n)))
           else Loop(frames, fps, limit, n, ObsUpTo(frames, n, fps), CallsUpTo(frames, n))
  {
    var n := i + 1;
    assert ObsUpTo(frames, n, fps) == ObsUpTo(frames, i, fps) + FrameStep(frames[i], n, fps).value;
    assert CallsUpTo(frames, n) == if HasPersons(frames[i]) then CallsUpTo(frames, i) + [n] else CallsUpTo(frames, i);
  }

  /** When every frame the loop reaches is valid, it returns exactly the
      reference observations and tracker calls of the frames up to its
      stopping point. */
  lemma {:induction false} LoopMatchesReference(frames: seq<Step>, fps: real, limit: int, i: nat)
    requires i <= |frames|
    requires forall j :: i <= j < StopFrom(frames, fps, limit, i) ==> FrameValid(frames[j])
    ensures var k := StopFrom(frames, fps, limit, i);
      Loop(frames, fps, limit, i, ObsUpTo(frames, i, fps), CallsUpTo(frames, i))
        == Ok(LoopEnd(k, ObsUpTo(frames, k, fps), CallsUpTo(frames, k)))
    decreases |frames| - i
  {
    if i < |frames| {
      var n := i + 1;
      assert FrameValid(frames[i]);
      LoopStep(frames, fps, limit, i);
      if CountUpTo(frames, n, fps) <= limit {
        var k := StopFrom(frames, fps, limit, n);
        assert StopFrom(frames, fps, limit, i) == k;
        LoopMatchesReference(frames, fps, limit, n);
      } else {
        assert StopFrom(frames, fps, limit, i) == n;
      }
    }
  }

  /** How the loop raises on an invalid frame numbered `n`: with the
      tracker's own exception when it raised, else on the track pydantic
      rejects. */
  function FailureAt(f: Step, n: nat): (e: TrackFailure)
    requires !FrameValid(f)
    ensures e.frameNumber == n
    ensures e.TrackerRaised? <==> f.targets.Err?
    ensures e.TrackerRaised? ==> e.text == f.targets.error
  {
    if f.targets.Err? then TrackerRaised(n, f.targets.error) else InvalidTrack(n)
  }

  /** The loop raises on an invalid frame it reads, whatever it collected
      before. */
  lemma LoopFailsHere(frames: seq<Step>, fps: real, limit: int, i: nat, tracks: seq<PersonTrack>, calls: seq<nat>)
    requires i < |frames| && !FrameValid(frames[i])
    ensures Loop(frames, fps, limit, i, tracks, calls) == Err(FailureAt(frames[i], i + 1))
  {
    assert FrameStep(frames[i], i + 1, fps).Err?;
  }

  /** Reading a valid frame before the stopping point moves on to the
      reference state after it, without stopping. */
  lemma LoopPassesValidFrame(frames: seq<Step>, fps: real, limit: int, i: nat, j: nat)
    requires i < |frames| && i < j < StopFrom(frames, fps, limit, i) && FrameValid(frames[i])
    ensures j < StopFrom(frames, fps, limit, i + 1)
    ensures Loop(frames, fps, limit, i, ObsUpTo(frames, i, fps), CallsUpTo(frames, i))
         == Loop(frames, fps, limit, i + 1, ObsUpTo(frames, i + 1, fps), CallsUpTo(frames, i + 1))
  {
    if CountUpTo(frames, i + 1, fps) > limit {
      StopFromStops(frames, fps, limit, i);
      assert false;
    }
    StopFromContinues(frames, fps, limit, i);
    LoopStep(frames, fps, limit, i);
  }

  /** Conversely, an invalid frame before the stopping point makes the loop
      raise. */
  lemma {:induction false} LoopFailsOnInvalidFrame(frames: seq<Step>, fps: real, limit: int, i: nat, j: nat)
    requires i <= |frames| && i <= j < StopFrom(frames, fps, limit, i)
    requires !FrameValid(frames[j])
    ensures Loop(frames, fps, limit, i, ObsUpTo(frames, i, fps), CallsUpTo(frames, i)).Err?
    decreases |frames| - i
  {
    if !FrameValid(frames[i]) {
      LoopFailsHere(frames, fps, limit, i, ObsUpTo(frames, i, fps), CallsUpTo(frames, i));
    } else {
      LoopPassesValidFrame(frames, fps, limit, i, j);
      LoopFailsOnInvalidFrame(frames, fps, limit, i + 1, j);
    }
  }

  /** It raises with the failure of the first invalid frame. */
  lemma {:induction false} LoopFailsOnFirstInvalidFrame(frames: seq<Step>, fps: real, limit: int, i: nat, j: nat)
    requires i <= |frames| && i <= j < StopFrom(frames, fps, limit, i)
    requires !FrameValid(frames[j]) && forall m :: i <= m < j ==> FrameValid(frames[m])
    ensures Loop(frames, fps, limit, i, ObsUpTo(frames, i, fps), CallsUpTo(frames, i)) == Err(FailureAt(frames[j], j + 1))
    decreases |frames| - i
  {
    if j == i {
      LoopFailsHere(frames, fps, limit, i, ObsUpTo(frames, i, fps), CallsUpTo(frames, i));
    } else {
      assert FrameValid(frames[i]);
      LoopPassesValidFrame(frames, fps, limit, i, j);
      LoopFailsOnFirstInvalidFrame(frames, fps, limit, i + 1, j);
    }
  }

  /** Every observation carries a frame number in [1, k]. */
  predicate NumberedWithin(obs: seq<PersonTrack>, k: nat)
  {
    forall a :: 0 <= a < |obs| ==> 1 <= obs[a].frameNumber <= k
  }

  /** Every observation's frame number is one of `calls`. */
  predicate NumberedIn(obs: seq<PersonTrack>, calls: seq<nat>)
  {
    forall a :: 0 <= a < |obs| ==> obs[a].frameNumber in calls
  }

  /** Every observation's timestamp is its own frame's. */
  predicate StampedByFrame(obs: seq<PersonTrack>, fps: real)
  {
    forall a :: 0 <= a < |obs| ==> obs[a].frameNumber >= 0 && obs[a].timestamp == Some(Timestamp(obs[a].frameNumber, fps))
  }

  /** Frame numbers never decrease along the list. */
  predicate NumberSorted(obs: seq<PersonTrack>)
  {
    forall a, b :: 0 <= a < b < |obs| ==> obs[a].frameNumber <= obs[b].frameNumber
  }

  /** Every observation satisfies the `PersonTrack` constraints and its box
      carries its own confidence. */
  predicate AllValid(obs: seq<PersonTrack>)
  {
    forall a :: 0 <= a < |obs| ==> obs[a].Valid() && obs[a].bbox.confidence == Some(obs[a].confidence)
  }

  /** Every observation of the first `k` frames carries a frame number in
      [1, k] on which the tracker was updated, and its timestamp is that
      frame's. */
  lemma {:induction false} ObservationFrames(frames: seq<Step>, k: nat, fps: real)
    requires k <= |frames|
    ensures NumberedWithin(ObsUpTo(frames, k, fps), k)
    ensures NumberedIn(ObsUpTo(frames, k, fps), CallsUpTo(frames, k))
    ensures StampedByFrame(ObsUpTo(frames, k, fps), fps)
    decreases k
  {
    if k > 0 {
      ObservationFrames(frames, k - 1, fps);
      var prev := ObsUpTo(frames, k - 1, fps);
      var added := FrameTracks(frames[k - 1], k, fps);
      var obs := prev + added;
      assert ObsUpTo(frames, k, fps) == obs;
      var prevCalls := CallsUpTo(frames, k - 1);
      var calls := CallsUpTo(frames, k);
      var called := HasPersons(frames[k - 1]);
      assert calls == prevCalls + (if called then [k] else []);
      assert forall b :: 0 <= b < |added| ==> added[b].frameNumber == k && added[b].timestamp == Some(Timestamp(k, fps));
      forall a | 0 <= a < |obs|
        ensures 1 <= obs[a].frameNumber <= k
        ensures obs[a].frameNumber in calls
        ensures obs[a].frameNumber >= 0 && obs[a].timestamp == Some(Timestamp(obs[a].frameNumber, fps))
      {
        if a < |prev| {
          assert obs[a] == prev[a];
          assert prev[a].frameNumber in prevCalls;
        } else {
          assert obs[a] == added[a - |prev|];
          assert called;
          assert calls[|calls| - 1] == k;
        }
      }
    }
  }

  /** The observations are in frame order: frame numbers never decrease. */
  lemma {:induction false} ObservationOrder(frames: seq<Step>, k: nat, fps: real)
    requires k <= |frames|
    ensures NumberSorted(ObsUpTo(frames, k, fps))
    decreases k
  {
    if k > 0 {
      ObservationOrder(frames, k - 1, fps);
      var prev := ObsUpTo(frames, k - 1, fps);
      var added := FrameTracks(frames[k - 1], k, fps);
      assert ObsUpTo(frames, k, fps) == prev + added;
      assert NumberedWithin(prev, k) by {
        ObservationFrames(frames, k - 1, fps);
      }
      SortedAppend(prev, added, k);
    }
  }

  /** Appending observations of frame `k` to sorted observations of earlier
      frames keeps them sorted. */
  lemma SortedAppend(prev: seq<PersonTrack>, added: seq<PersonTrack>, k: nat)
    requires NumberSorted(prev) && NumberedWithin(prev, k)
    requires forall b :: 0 <= b < |added| ==> added[b].frameNumber == k
    ensures NumberSorted(prev + added)
  {
    var obs := prev + added;
    forall a, b | 0 <= a < b < |obs|
      ensures obs[a].frameNumber <= obs[b].frameNumber
    {
      if b < |prev| {
        assert obs[a] == prev[a] && obs[b] == prev[b];
      } else if a < |prev| {
        assert obs[a] == prev[a] && obs[b] == added[b - |prev|];
      } else {
        assert obs[a] == added[a - |prev|] && obs[b] == added[b - |prev|];
      }
    }
  }

  /** Observations of valid frames satisfy the `PersonTrack` constraints,
      and each box carries the observation's own confidence. */
  lemma {:induction false} ObservationsValid(frames: seq<Step>, k: nat, fps: real)
    requires k <= |frames|
    requires forall j :: 0 <= j < k ==> FrameValid(frames[j])
    ensures AllValid(ObsUpTo(frames, k, fps))
    decreases k
  {
    if k > 0 {
      ObservationsValid(frames, k - 1, fps);
      var prev := ObsUpTo(frames, k - 1, fps);
      var f := frames[k - 1];
      var added := FrameTracks(f, k, fps);
      var obs := prev + added;
      assert ObsUpTo(frames, k, fps) == obs;
      assert FrameValid(f);
      forall a | 0 <= a < |obs|
        ensures obs[a].Valid() && obs[a].bbox.confidence == Some(obs[a].confidence)
      {
        if a < |prev| {
          assert obs[a] == prev[a];
        } else {
          var t := Reported(f)[a - |prev|];
          assert obs[a] == ObsOf(t, k, Timestamp(k, fps));
          assert IsUnit(t.score);
        }
      }
    }
  }

  /** The tracker is updated on frame `n` exactly when the detector found a
      person on it. */
  lemma {:induction false} TrackerCalls(frames: seq<Step>, k: nat)
    requires k <= |frames|
    ensures forall n :: n in CallsUpTo(frames, k) <==> 1 <= n <= k && HasPersons(frames[n - 1])
    decreases k
  {
    if k > 0 {
      TrackerCalls(frames, k - 1);
      var prev := CallsUpTo(frames, k - 1);
      var tail: seq<nat> := if HasPersons(frames[k - 1]) then [k] else [];
      assert CallsUpTo(frames, k) == prev + tail;
      forall n ensures n in prev + tail <==> 1 <= n <= k && HasPersons(frames[n - 1]) {
        assert n in prev + tail <==> n in prev || n in tail;
      }
    }
  }

  /** The count check: before every frame the loop reads, at most `limit`
      observations exist; if it stops before the end, the frame it stopped
      after left more than `limit`. */
  lemma {:induction false} StopBound(frames: seq<Step>, fps: real, limit: int, i: nat)
    requires i <= |frames|
    ensures var k := StopFrom(frames, fps, limit, i);
      && (forall j :: i < j < k ==> CountUpTo(frames, j, fps) <= limit)
      && (k < |frames| ==> CountUpTo(frames, k, fps) > limit)
    decreases |frames| - i
  {
    if i < |frames| && CountUpTo(frames, i + 1, fps) <= limit {
      StopFromContinues(frames, fps, limit, i);
      StopBound(frames, fps, limit, i + 1);
    } else if i < |frames| {
      StopFromStops(frames, fps, limit, i);
    }
  }

  /** `video_info.duration`: container frame count over fps, 0 without a positive fps. */
  function Duration(frameCount: int, fps: real): (d: real)
    ensures fps > 0.0 ==> d * fps == frameCount as real
    ensures fps <= 0.0 ==> d == 0.0
  {
    if fps > 0.0 then frameCount as real / fps else 0.0
  }

  /** `f"{width}x{height}"`. */
  function Resolution(width: int, height: int): string
  {
    IntToString(width) + "x" + IntToString(height)
  }

  /** The first line of pydantic's rendering of the validation error raised
      when a target's score lies outside [0, 1]; it stands for the whole
      text, whose further lines name the field and the offending value. */
  const TRACK_VALIDATION_TEXT: string := "1 validation error for BoundingBox"

  /** `str(e)` for a failure of the loop. */
  function FailureText(e: TrackFailure): string
  {
    match e
    case InvalidTrack(_) => TRACK_VALIDATION_TEXT
    case TrackerRaised(_, text) => text
  }

  /** The `except Exception` of `_track_persons_in_video`. */
  function PersonTrackingError(text: string): (e: Exception)
    ensures e.Custom? && e.cls == VideoProcessing && e.statusCode == HTTP_422
    ensures ArgumentOf(VideoProcessing, Str(e)) == "person tracking"
    ensures e.details == [("error", text)]
  {
    ArgumentRoundTrip(VideoProcessing, "person tracking", Some([("error", text)]));
    Raise(VideoProcessing, "person tracking", Some([("error", text)]))
  }

  /** `_track_persons_in_video`. */
  function TrackPersonsInVideo(video: Video, videoPath: string, request: TrackingRequest, sessionId: string): (r: Result<TrackingResult, Exception>)
    ensures !video.isOpen ==> r == Err(PersonTrackingError(MessagePrefix(VideoProcessing) + "video opening"))
    ensures r.Err? ==> r.error.Custom? && ArgumentOf(VideoProcessing, Str(r.error)) == "person tracking"
    ensures r.Ok? ==> r.value.sessionId == sessionId && r.value.fps == Some(video.fps)
    ensures r.Ok? ==>
      r.value.videoInfo
      == VideoInfo(Name(videoPath), Duration(video.frameCount, video.fps), Resolution(video.width, video.height), video.fps, video.frameCount)
  {
    if !video.isOpen then
      var opening := Raise(VideoProcessing, "video opening", Some([("path", videoPath)]));
      Err(PersonTrackingError(Str(opening)))
    else
      match Loop(Detect(video.frames), video.fps, request.maxTracks * 10, 0, [], [])
      case Err(e) => Err(PersonTrackingError(FailureText(e)))
      case Ok(end) =>
        var info := VideoInfo(Name(videoPath), Duration(video.frameCount, video.fps),
                              Resolution(video.width, video.height), video.fps, video.frameCount);
        Ok(TrackingResult(sessionId, info, end.tracks, end.frameNumber, Some(video.fps)))
  }

  /** The whole pipeline on an opened video whose processed frames are all
      valid: the result lists the reference observations of the frames read,
      `total_frames` is the number of frames read, and the loop stopped at
      the first frame that pushed the count past `max_tracks * 10`. */
  lemma TrackPersonsInVideoSpec(video: Video, videoPath: string, request: TrackingRequest, sessionId: string)
    requires video.isOpen
    requires forall j :: 0 <= j < StopFrom(Detect(video.frames), video.fps, request.maxTracks * 10, 0) ==> FrameValid(Detect(video.frames)[j])
    ensures var k := StopFrom(Detect(video.frames), video.fps, request.maxTracks * 10, 0);
      var r := TrackPersonsInVideo(video, videoPath, request, sessionId);
      && r.Ok?
      && r.value.tracks == ObsUpTo(Detect(video.frames), k, video.fps)
      && r.value.totalFrames == k
      && (k < |video.frames| ==> CountUpTo(Detect(video.frames), k, video.fps) > request.maxTracks * 10)
      && (forall j :: 0 < j < k ==> CountUpTo(Detect(video.frames), j, video.fps) <= request.maxTracks * 10)
  {
    LoopMatchesReference(Detect(video.frames), video.fps, request.maxTracks * 10, 0);
    StopBound(Detect(video.frames), video.fps, request.maxTracks * 10, 0);
  }

  /** An invalid frame the loop reaches fails the whole run, with the text
      of the first such frame's failure: the tracker's exception, or the
      validation error of an out-of-range score. */
  lemma TrackPersonsInVideoFails(video: Video, videoPath: string, request: TrackingRequest, sessionId: string, j: nat)
    requires video.isOpen
    requires j < StopFrom(Detect(video.frames), video.fps, request.maxTracks * 10, 0) && !FrameValid(Detect(video.frames)[j])
    ensures TrackPersonsInVideo(video, videoPath, request, sessionId).Err?
    ensures (forall m :: 0 <= m < j ==> FrameValid(Detect(video.frames)[m])) ==>
      TrackPersonsInVideo(video, videoPath, request, sessionId)
        == Err(PersonTrackingError(FailureText(FailureAt(Detect(video.frames)[j], j + 1))))
  {
    LoopFailsOnInvalidFrame(Detect(video.frames), video.fps, request.maxTracks * 10, 0, j);
    if forall m :: 0 <= m < j ==> FrameValid(Detect(video.frames)[m]) {
      LoopFailsOnFirstInvalidFrame(Detect(video.frames), video.fps, request.maxTracks * 10, 0, j);
    }
  }

}
