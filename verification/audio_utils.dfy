/** The audio helpers of `app/utils/audio.py` that carry logic of their
    own: peak normalisation, the resampling short-cut, the checks
    `validate_audio_file` makes on a file, and the filter that turns
    librosa's non-silent intervals into speech segments. The signal
    processing itself (resampling, silence detection, decoding) is
    outside the model: its outcomes are parameters. */
module AudioUtils {
  import opened Wrappers
  import opened Files
  import opened SttService
  import TtsService

  type Samples = TtsService.Samples

  // -------------------------------------------------------- normalisation

  function Abs(x: real): (r: real)
    ensures r >= 0.0 && (r == x || r == -x)
  {
    if x >= 0.0 then x else -x
  }

  /** `np.max(np.abs(audio))` of a non-empty signal. */
  function Peak(a: Samples): (p: real)
    requires |a| > 0
    ensures forall i :: 0 <= i < |a| ==> Abs(a[i]) <= p
    ensures exists i :: 0 <= i < |a| && Abs(a[i]) == p
    decreases |a|
  {
    if |a| == 1 then Abs(a[0])
    else
      var rest := Peak(a[1..]);
      assert forall i :: 1 <= i < |a| ==> a[i] == a[1..][i - 1];
      if Abs(a[0]) >= rest then Abs(a[0]) else rest
  }

  /** The only value that bounds every magnitude and is reached is the peak. */
  lemma PeakIs(a: Samples, v: real, k: nat)
    requires |a| > 0 && k < |a| && Abs(a[k]) == v
    requires forall i :: 0 <= i < |a| ==> Abs(a[i]) <= v
    ensures Peak(a) == v
  {
  }

  /** `normalize_audio(audio)`: every sample divided by the peak magnitude,
      unless the peak is zero. On an empty signal `np.max` raises and the
      input comes back unchanged. */
  function NormalizeAudio(a: Samples): (r: Samples)
    ensures |r| == |a|
    ensures (|a| == 0 || Peak(a) == 0.0) ==> r == a
    ensures |a| > 0 && Peak(a) > 0.0 ==> r == Scale(a, Peak(a)) && forall i :: 0 <= i < |r| ==> -1.0 <= r[i] <= 1.0
  {
    if |a| == 0 then a
    else
      var p := Peak(a);
      if p > 0.0 then
        ScaleBounded(a, p);
        Scale(a, p)
      else a
  }

  /** Every sample divided by `p`. */
  function Scale(a: Samples, p: real): (r: Samples)
    requires p > 0.0
    ensures |r| == |a| && forall i :: 0 <= i < |r| ==> r[i] * p == a[i]
  {
    seq(|a|, i requires 0 <= i < |a| => a[i] / p)
  }

  /** Dividing by a bound on every magnitude lands every sample in [-1, 1]. */
  lemma ScaleBounded(a: Samples, p: real)
    requires p > 0.0 && forall i :: 0 <= i < |a| ==> Abs(a[i]) <= p
    ensures forall i :: 0 <= i < |a| ==> -1.0 <= Scale(a, p)[i] <= 1.0
  {
    forall i | 0 <= i < |a|
      ensures -1.0 <= Scale(a, p)[i] <= 1.0
    {
      UnitQuotient(a[i], p);
    }
  }

  /** A magnitude at most `p`, divided by `p`, lies in [-1, 1]. */
  lemma UnitQuotient(x: real, p: real)
    requires p > 0.0 && Abs(x) <= p
    ensures -1.0 <= x / p <= 1.0
  {
    DivideKeepsRealOrder(x, p, p);
    DivideKeepsRealOrder(-p, x, p);
    SelfQuotient(p);
  }

  lemma SelfQuotient(p: real)
    requires p > 0.0
    ensures p / p == 1.0 && (-p) / p == -1.0
  {
    QuotientTimes(p, p);
    UnitProduct(p / p, p);
    QuotientTimes(-p, p);
    var q := (-p) / p;
    assert (-q) * p == p;
    UnitProduct(-q, p);
  }

  lemma QuotientTimes(x: real, p: real)
    requires p > 0.0
    ensures (x / p) * p == x
  {
  }

  lemma DivideKeepsRealOrder(a: real, b: real, p: real)
    requires a <= b && p > 0.0
    ensures a / p <= b / p
  {
    var qa := a / p;
    var qb := b / p;
    assert (qb - qa) * p == b - a;
  }

  lemma UnitProduct(q: real, p: real)
    requires p > 0.0 && q * p == p
    ensures q == 1.0
  {
    assert (q - 1.0) * p == 0.0;
  }

  /** After normalising a signal that is not silent, its peak is exactly 1. */
  lemma NormalizedPeakIsOne(a: Samples)
    requires |a| > 0 && Peak(a) > 0.0
    ensures Peak(NormalizeAudio(a)) == 1.0
  {
    var p := Peak(a);
    var k :| 0 <= k < |a| && Abs(a[k]) == p;
    ScaledPeak(a, p, k);
  }

  /** Dividing by the largest magnitude makes the largest magnitude 1. */
  lemma ScaledPeak(a: Samples, p: real, k: nat)
    requires p > 0.0 && k < |a| && Abs(a[k]) == p
    requires forall i :: 0 <= i < |a| ==> Abs(a[i]) <= p
    ensures Peak(Scale(a, p)) == 1.0
  {
    ScaleBounded(a, p);
    var r := Scale(a, p);
    assert r[k] == a[k] / p;
    SelfQuotient(p);
    assert Abs(r[k]) == 1.0;
    forall i | 0 <= i < |r|
      ensures Abs(r[i]) <= 1.0
    {
    }
    PeakIs(r, 1.0, k);
  }

  /** Normalising twice is normalising once. */
  lemma NormalizeIdempotent(a: Samples)
    ensures NormalizeAudio(NormalizeAudio(a)) == NormalizeAudio(a)
  {
    var r := NormalizeAudio(a);
    if |a| > 0 && Peak(a) > 0.0 {
      NormalizedPeakIsOne(a);
      var rr := NormalizeAudio(r);
      assert forall i :: 0 <= i < |r| ==> rr[i] == r[i] by {
        forall i | 0 <= i < |r|
          ensures rr[i] == r[i]
        {
          assert rr[i] * 1.0 == r[i];
        }
      }
    }
  }

  // ---------------------------------------------------------- resampling

  /** `resample_audio(audio, orig_sr, target_sr)`. `resampled` is librosa's
      outcome; on equal rates it is never consulted, and on an error the
      input comes back unchanged. */
  function ResampleAudio(a: Samples, origRate: int, targetRate: int, resampled: Result<Samples, string>): (r: Samples)
    ensures r == a || (resampled.Ok? && r == resampled.value)
    ensures origRate != targetRate && resampled.Ok? ==> r == resampled.value
  {
    if origRate == targetRate then a
    else
      match resampled
      case Ok(b) => b
      case Err(_) => a
  }

  /** Resampling to the rate a signal already has, or failing to resample,
      changes nothing. */
  lemma ResampleIdentity(a: Samples, origRate: int, targetRate: int, resampled: Result<Samples, string>)
    requires origRate == targetRate || resampled.Err?
    ensures ResampleAudio(a, origRate, targetRate, resampled) == a
  {
  }

  // ---------------------------------------------------------- validation

  const MIN_SAMPLE_RATE: int := 8000

  const MISSING: string := "File does not exist"
  const TOO_SHORT_MESSAGE: string := "Audio too short (minimum 0.1 seconds)"
  const TOO_LONG_MESSAGE: string := "Audio too long (maximum 5 minutes)"
  const RATE_TOO_LOW: string := "Sample rate too low (minimum 8kHz)"
  const UNREADABLE_PREFIX: string := "Cannot read audio file: "

  /** The duration checks both decoders share. */
  function DurationVerdict(d: real): (r: (bool, Option<string>))
    ensures r.0 <==> DurationAccepted(d)
    ensures r.0 <==> r.1.None?
  {
    if d < MIN_DURATION then (false, Some(TOO_SHORT_MESSAGE))
    else if d > MAX_DURATION then (false, Some(TOO_LONG_MESSAGE))
    else (true, None)
  }

  /** `validate_audio_file(path)`: soundfile first, with the duration and
      sample-rate checks; when soundfile raises (a zero rate included),
      librosa, with the duration checks only. */
  function ValidateAudioFile(disk: Disk, path: string, sf: Result<Sound, string>, lib: Result<Sound, string>)
    : (r: (bool, Option<string>))
    ensures r.0 <==> r.1.None?
    ensures path !in disk ==> r == (false, Some(MISSING))
    ensures path in disk && sf.Ok? && sf.value.rate != 0 ==>
      (r.0 <==> DurationAccepted(sf.value.frames as real / sf.value.rate as real) && sf.value.rate >= MIN_SAMPLE_RATE)
    ensures path in disk && !(sf.Ok? && sf.value.rate != 0) && lib.Ok? && lib.value.rate != 0 ==>
      (r.0 <==> DurationAccepted(lib.value.frames as real / lib.value.rate as real))
    ensures path in disk && !(sf.Ok? && sf.value.rate != 0) && !(lib.Ok? && lib.value.rate != 0) ==>
      r == (false, Some(UNREADABLE_PREFIX + (if lib.Err? then lib.error else DIVISION_BY_ZERO)))
  {
    if path !in disk then (false, Some(MISSING))
    else if sf.Ok? && sf.value.rate != 0 then
      var v := DurationVerdict(sf.value.frames as real / sf.value.rate as real);
      if !v.0 then v
      else if sf.value.rate < MIN_SAMPLE_RATE then (false, Some(RATE_TOO_LOW))
      else (true, None)
    else
      match if lib.Err? then Err(lib.error) else DurationOf(lib.value)
      case Ok(d) => DurationVerdict(d)
      case Err(t) => (false, Some(UNREADABLE_PREFIX + t))
  }

  /** The librosa fallback does not check the sample rate: a 4 kHz file
      soundfile reads is refused, the same file read only by librosa is
      accepted. */
  lemma LibrosaSkipsRateCheck(disk: Disk, path: string, t: string)
    requires path in disk
    ensures ValidateAudioFile(disk, path, Ok(Sound(4000, 4000, None)), Err(t)) == (false, Some(RATE_TOO_LOW))
    ensures ValidateAudioFile(disk, path, Err(t), Ok(Sound(4000, 4000, None))) == (true, None)
  {
    assert 4000 as real / 4000 as real == 1.0;
  }

  /** A file `validate_audio_file` accepts is one the transcription
      service can load and accept. */
  lemma ValidFileIsProcessable(disk: Disk, path: string, sf: Result<Sound, string>, lib: Result<Sound, string>)
    requires ValidateAudioFile(disk, path, sf, lib).0
    ensures ProcessAudioFile(disk, path, sf, lib).Ok?
  {
  }

  /** The converse fails: the service has no sample-rate check. */
  lemma ServiceIgnoresSampleRate(disk: Disk, path: string, lib: Result<Sound, string>)
    requires path in disk
    ensures ProcessAudioFile(disk, path, Ok(Sound(4000, 4000, None)), lib).Ok?
    ensures !ValidateAudioFile(disk, path, Ok(Sound(4000, 4000, None)), lib).0
  {
    assert 4000 as real / 4000 as real == 1.0;
  }

  // ----------------------------------------------------- speech segments

  /** The shortest segment kept, in seconds. */
  const MIN_SEGMENT: real := 0.1

  /** A frame interval in seconds. */
  function ToTimes(iv: (int, int), rate: int): (real, real)
    requires rate != 0
  {
    (iv.0 as real / rate as real, iv.1 as real / rate as real)
  }

  predicate Long(seg: (real, real))
  {
    seg.1 - seg.0 >= MIN_SEGMENT
  }

  /** The segments kept from `ivs`, as a reference definition. */
  function KeepSpeech(ivs: seq<(int, int)>, rate: int): seq<(real, real)>
    requires rate != 0
    decreases |ivs|
  {
    if |ivs| == 0 then []
    else
      var last := ToTimes(ivs[|ivs| - 1], rate);
      KeepSpeech(ivs[..|ivs| - 1], rate) + (if Long(last) then [last] else [])
  }

  /** The positions of the intervals `KeepSpeech` keeps. */
  function KeptIndices(ivs: seq<(int, int)>, rate: int): seq<nat>
    requires rate != 0
    decreases |ivs|
  {
    if |ivs| == 0 then []
    else KeptIndices(ivs[..|ivs| - 1], rate) + (if Long(ToTimes(ivs[|ivs| - 1], rate)) then [|ivs| - 1] else [])
  }

  /** The segments are the long intervals, converted, in their original
      order: the k-th segment is the interval at the k-th kept position,
      the kept positions increase, and a position is kept exactly when its
      interval lasts at least 0.1 s. */
  lemma {:induction false} KeepSpeechIsSubsequence(ivs: seq<(int, int)>, rate: int)
    requires rate != 0
    ensures var ks := KeptIndices(ivs, rate);
      && |ks| == |KeepSpeech(ivs, rate)|
      && (forall k :: 0 <= k < |ks| ==> ks[k] < |ivs| && KeepSpeech(ivs, rate)[k] == ToTimes(ivs[ks[k]], rate))
      && (forall k, l :: 0 <= k < l < |ks| ==> ks[k] < ks[l])
      && (forall i :: 0 <= i < |ivs| ==> (i in ks <==> Long(ToTimes(ivs[i], rate))))
    decreases |ivs|
  {
    if |ivs| > 0 {
      var n := |ivs| - 1;
      var front := ivs[..n];
      KeepSpeechIsSubsequence(front, rate);
      var out0, ks0 := KeepSpeech(front, rate), KeptIndices(front, rate);
      var out, ks := KeepSpeech(ivs, rate), KeptIndices(ivs, rate);
      var last := ToTimes(ivs[n], rate);
      var tail: seq<nat> := if Long(last) then [n] else [];
      assert out == out0 + (if Long(last) then [last] else []);
      assert ks == ks0 + tail;
      forall k | 0 <= k < |ks|
        ensures ks[k] < |ivs| && out[k] == ToTimes(ivs[ks[k]], rate)
      {
        if k < |ks0| {
          assert ks[k] == ks0[k] && out[k] == out0[k] && front[ks0[k]] == ivs[ks0[k]];
        }
      }
      forall k, l | 0 <= k < l < |ks|
        ensures ks[k] < ks[l]
      {
        if l >= |ks0| {
          assert ks[l] == n && ks[k] == ks0[k];
        }
      }
      forall i | 0 <= i < |ivs|
        ensures i in ks <==> Long(ToTimes(ivs[i], rate))
      {
        if i < n {
          assert front[i] == ivs[i];
          assert i in ks <==> i in ks0;
        } else {
          assert i !in ks0;
        }
      }
    }
  }

  /** `detect_speech_segments(audio, sample_rate)` after librosa's split:
      `intervals` is what the split returned, or the text of its
      exception. Any exception gives no segments. A zero rate gives none
      either: numpy's division of the frame indices by zero yields
      infinities and NaNs, whose differences fail the 0.1-second test. */
  method DetectSpeechSegments(intervals: Result<seq<(int, int)>, string>, rate: int) returns (segments: seq<(real, real)>)
    ensures intervals.Err? || rate == 0 ==> segments == []
    ensures intervals.Ok? && rate != 0 ==> segments == KeepSpeech(intervals.value, rate)
  {
    if intervals.Err? || rate == 0 {
      return [];
    }
    var ivs := intervals.value;
    segments := [];
    var i := 0;
    while i < |ivs|
      invariant 0 <= i <= |ivs|
      invariant segments == KeepSpeech(ivs[..i], rate)
    {
      var startTime := ivs[i].0 as real / rate as real;
      var endTime := ivs[i].1 as real / rate as real;
      if endTime - startTime >= MIN_SEGMENT {
        segments := segments + [(startTime, endTime)];
      }
      assert ivs[..i + 1][..i] == ivs[..i];
      i := i + 1;
    }
    assert ivs[..i] == ivs;
  }

  /** With a positive rate, intervals that start in order give segments
      that start in order. */
  lemma SegmentsStayOrdered(ivs: seq<(int, int)>, rate: int)
    requires rate > 0
    requires forall i, j :: 0 <= i < j < |ivs| ==> ivs[i].0 <= ivs[j].0
    ensures var out := KeepSpeech(ivs, rate);
      forall k, l :: 0 <= k < l < |out| ==> out[k].0 <= out[l].0
  {
    KeepSpeechIsSubsequence(ivs, rate);
    var out := KeepSpeech(ivs, rate);
    var ks := KeptIndices(ivs, rate);
    forall k, l | 0 <= k < l < |out|
      ensures out[k].0 <= out[l].0
    {
      assert ks[k] < ks[l];
      DivideKeepsOrder(ivs[ks[k]].0, ivs[ks[l]].0, rate);
    }
  }

  lemma DivideKeepsOrder(a: int, b: int, rate: int)
    requires a <= b && rate > 0
    ensures a as real / rate as real <= b as real / rate as real
  {
    var qa := a as real / rate as real;
    var qb := b as real / rate as real;
    assert qa * rate as real == a as real;
    assert qb * rate as real == b as real;
    assert (qb - qa) * rate as real == (b - a) as real;
  }
}
