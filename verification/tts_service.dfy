/** Text-to-speech: the schemas of `app/schemas/tts.py`, the synthesis path
    of `TTSService` and the chunked stream of `TTSStreamer`
    (`app/services/tts_service.py`). The speech engine, librosa and
    soundfile are not modelled: what they return is a parameter. Audio
    samples are kept abstract; only their number matters. */
module TtsService {
  import opened Wrappers
  import opened Strings
  import opened Paths
  import opened Files
  import opened Exceptions
  import opened ModelManagement

  const MAX_TEXT: int := 1000
  const MIN_SPEED: real := 0.5
  const MAX_SPEED: real := 2.0
  const SAMPLE_RATE: int := 22050
  const MIN_CHUNK_SIZE: int := 512
  const MAX_CHUNK_SIZE: int := 8192
  const OUTPUT_DIR: string := "uploads/audio"
  const SPEAKER_WAV: string := "assets/audio/_7JpEjF2Vyk.wav"

  // ---------------------------------------------------------------
  // Schemas
  // ---------------------------------------------------------------

  datatype TtsRequest = TtsRequest(text: string, language: string, voice: Option<string>, speed: Option<real>)

  /** The field bounds pydantic enforces: 1..1000 characters of text and,
      when a speed is given, a speed in [0.5, 2.0]. */
  predicate ValidTtsRequest(r: TtsRequest)
  {
    && 1 <= |r.text| <= MAX_TEXT
    && (r.speed.Some? ==> MIN_SPEED <= r.speed.value <= MAX_SPEED)
  }

  /** `TTSRequest(text=text)`: Arabic, no voice, normal speed. */
  function DefaultTtsRequest(text: string): (r: TtsRequest)
    ensures r.text == text && r.language == "ar" && r.voice.None? && r.speed == Some(1.0)
    ensures ValidTtsRequest(r) <==> 1 <= |text| <= MAX_TEXT
  {
    TtsRequest(text, "ar", None, Some(1.0))
  }

  datatype TtsResponse = TtsResponse(audioUrl: Option<string>, duration: Option<real>, sampleRate: int, processingTime: Option<real>)

  /** Duration and processing time are non-negative when present. */
  predicate ValidTtsResponse(r: TtsResponse)
  {
    && (r.duration.Some? ==> r.duration.value >= 0.0)
    && (r.processingTime.Some? ==> r.processingTime.value >= 0.0)
  }

  /** `TTSResponse()`: nothing but the default sample rate. */
  function DefaultTtsResponse(): (r: TtsResponse)
    ensures r.sampleRate == SAMPLE_RATE && ValidTtsResponse(r)
    ensures r.audioUrl.None? && r.duration.None? && r.processingTime.None?
  {
    TtsResponse(None, None, SAMPLE_RATE, None)
  }

  datatype TtsStreamingRequest = TtsStreamingRequest(text: string, language: string, chunkSize: Option<int>)

  /** 1..1000 characters of text and, when given, a chunk size in [512, 8192]. */
  predicate ValidStreamingRequest(r: TtsStreamingRequest)
  {
    && 1 <= |r.text| <= MAX_TEXT
    && (r.chunkSize.Some? ==> MIN_CHUNK_SIZE <= r.chunkSize.value <= MAX_CHUNK_SIZE)
  }

  /** `TTSStreamingRequest(text=text)`: Arabic, chunks of 1024 bytes. */
  function DefaultStreamingRequest(text: string): (r: TtsStreamingRequest)
    ensures r.text == text && r.language == "ar" && r.chunkSize == Some(1024)
    ensures ValidStreamingRequest(r) <==> 1 <= |text| <= MAX_TEXT
  {
    TtsStreamingRequest(text, "ar", Some(1024))
  }

  /** The `metadata` dictionary of a stream message: the audio's shape, or
      the error text. */
  datatype StreamMetadata =
    | AudioInfo(sampleRate: int, channels: int, duration: real, totalChunks: int)
    | Failure(error: string)

  /** `TTSStreamingResponse`; `data` carries the chunk's raw bytes, before
      the base64 encoding the source applies. */
  datatype TtsStreamingResponse = TtsStreamingResponse(
    kind: string,
    data: Option<seq<byte>>,
    metadata: Option<StreamMetadata>,
    chunkIndex: Option<int>,
    isFinal: bool)

  /** `TTSStreamingResponse(type=kind)`: no payload, not final. */
  function DefaultStreamingResponse(kind: string): (r: TtsStreamingResponse)
    ensures r.kind == kind && !r.isFinal
    ensures r.data.None? && r.metadata.None? && r.chunkIndex.None?
  {
    TtsStreamingResponse(kind, None, None, None, false)
  }

  // ---------------------------------------------------------------
  // Chunked streaming
  // ---------------------------------------------------------------

  /** The audio produced for a stream: the number of samples
      (`len(audio)`) and the int16 bytes they render to. */
  datatype Pcm = Pcm(samples: nat, bytes: seq<byte>)

  /** The audio-chunk messages for `rest`, the bytes from the loop offset
      on, the first numbered `k`: each takes up to `size` bytes and is
      final when it reaches the end (`i + chunk_size >= len`). */
  function AudioChunks(rest: seq<byte>, size: nat, k: nat): seq<TtsStreamingResponse>
    requires size > 0
    decreases |rest|
  {
    if rest == [] then []
    else
      var n := if size < |rest| then size else |rest|;
      [TtsStreamingResponse("audio_chunk", Some(rest[..n]), None, Some(k), size >= |rest|)]
        + AudioChunks(rest[n..], size, k + 1)
  }

  /** `bytes[lo:hi]` with Python's clamping of the upper bound. */
  function Slice(bytes: seq<byte>, lo: nat, hi: nat): (r: seq<byte>)
    requires lo <= |bytes| && lo <= hi
    ensures |r| == (if hi < |bytes| then hi else |bytes|) - lo
    ensures forall t :: 0 <= t < |r| ==> r[t] == bytes[lo + t]
  {
    if hi < |bytes| then bytes[lo..hi] else bytes[lo..]
  }

  /** Slicing after dropping `d` bytes is slicing further along. */
  lemma SliceShift(bytes: seq<byte>, d: nat, lo: nat, hi: nat)
    requires d <= |bytes| && lo + d <= |bytes| && lo <= hi
    ensures Slice(bytes[d..], lo, hi) == Slice(bytes, lo + d, hi + d)
  {
  }

  /** The number of chunks `range(0, n, size)` visits. */
  function ChunkCount(n: nat, size: nat): nat
    requires size > 0
    decreases n
  {
    if n == 0 then 0 else if n <= size then 1 else 1 + ChunkCount(n - size, size)
  }

  lemma MulSucc(j: nat, size: nat)
    ensures (j + 1) * size == j * size + size
  {
  }

  /** Chunk `j` exists exactly when it starts before the end. */
  lemma {:induction false} ChunkCountBound(n: nat, size: nat, j: nat)
    requires size > 0
    ensures j < ChunkCount(n, size) <==> j * size < n
    decreases n
  {
    if j > 0 {
      MulSucc(j - 1, size);
    }
    if n > size && j > 0 {
      ChunkCountBound(n - size, size, j - 1);
    }
  }

  /** `n // size` and `n % size` characterised by a quotient and remainder. */
  lemma DivUnique(n: nat, size: nat, q: nat, r: nat)
    requires size > 0 && r < size && n == q * size + r
    ensures n / size == q && n % size == r
  {
    var q0 := n / size;
    var r0 := n % size;
    assert n == q0 * size + r0;
    if q0 > q {
      MulSucc(q, size);
      assert q0 * size >= (q + 1) * size by {
        MulMono(q + 1, q0, size);
      }
    } else if q0 < q {
      MulSucc(q0, size);
      assert q * size >= (q0 + 1) * size by {
        MulMono(q0 + 1, q, size);
      }
    }
  }

  lemma MulMono(a: nat, b: nat, size: nat)
    requires a <= b
    ensures a * size <= b * size
  {
    assert b * size == a * size + (b - a) * size;
  }

  /** Taking one chunk off the front of `n` bytes. */
  lemma DivStep(n: nat, size: nat)
    requires size > 0 && n >= size
    ensures n / size == (n - size) / size + 1 && n % size == (n - size) % size
  {
    var q := (n - size) / size;
    var r := (n - size) % size;
    MulSucc(q, size);
    DivUnique(n, size, q + 1, r);
  }

  /** There are ⌈|rest| / size⌉ chunks. */
  lemma {:induction false} AudioChunksCount(rest: seq<byte>, size: nat, k: nat)
    requires size > 0
    ensures |AudioChunks(rest, size, k)| == ChunkCount(|rest|, size)
    decreases |rest|
  {
    if rest != [] {
      if size < |rest| {
        AudioChunksCount(rest[size..], size, k + 1);
      } else {
        assert rest[|rest|..] == [];
      }
    }
  }

  /** Chunk `j` is the `j`-th slice of `size` bytes, numbered `k + j`,
      and it is final exactly when the next slice would start at or past
      the end. */
  lemma {:induction false} AudioChunkAt(rest: seq<byte>, size: nat, k: nat, j: nat)
    requires size > 0 && j * size < |rest|
    ensures j < |AudioChunks(rest, size, k)|
    ensures AudioChunks(rest, size, k)[j] ==
      TtsStreamingResponse("audio_chunk", Some(Slice(rest, j * size, (j + 1) * size)), None, Some(k + j),
                           (j + 1) * size >= |rest|)
    decreases |rest|
  {
    var n := if size < |rest| then size else |rest|;
    var head := TtsStreamingResponse("audio_chunk", Some(rest[..n]), None, Some(k), size >= |rest|);
    var tail := AudioChunks(rest[n..], size, k + 1);
    assert AudioChunks(rest, size, k) == [head] + tail;
    if j == 0 {
      assert Slice(rest, 0, size) == rest[..n];
    } else {
      var lo := (j - 1) * size;
      MulSucc(j - 1, size);
      MulSucc(j, size);
      assert size < |rest|;
      AudioChunkAt(rest[size..], size, k + 1, j - 1);
      SliceShift(rest, size, lo, lo + size);
      assert AudioChunks(rest, size, k)[j] == tail[j - 1];
      assert tail[j - 1] == TtsStreamingResponse("audio_chunk", Some(Slice(rest, j * size, (j + 1) * size)), None, Some(k + j),
                                                 (j + 1) * size >= |rest|);
    }
  }

  /** Every chunk carries between one and `size` bytes and is numbered in
      sequence from `k`; only the last is final. */
  lemma AudioChunkShape(rest: seq<byte>, size: nat, k: nat, j: nat)
    requires size > 0 && j < |AudioChunks(rest, size, k)|
    ensures var c := AudioChunks(rest, size, k)[j];
      && c.kind == "audio_chunk" && c.data.Some? && 1 <= |c.data.value| <= size
      && c.chunkIndex == Some(k + j)
      && (c.isFinal <==> j == |AudioChunks(rest, size, k)| - 1)
  {
    AudioChunksCount(rest, size, k);
    ChunkCountBound(|rest|, size, j);
    ChunkCountBound(|rest|, size, j + 1);
    AudioChunkAt(rest, size, k, j);
  }

  /** The bytes of the chunks, in order. */
  function ChunkBytes(events: seq<TtsStreamingResponse>): seq<byte>
    decreases |events|
  {
    if events == [] then []
    else
      var first := if events[0].kind == "audio_chunk" && events[0].data.Some? then events[0].data.value else [];
      first + ChunkBytes(events[1..])
  }

  lemma {:induction false} ChunkBytesAppend(a: seq<TtsStreamingResponse>, b: seq<TtsStreamingResponse>)
    ensures ChunkBytes(a + b) == ChunkBytes(a) + ChunkBytes(b)
    decreases |a|
  {
    if a == [] {
      assert a + b == b;
    } else {
      assert (a + b)[0] == a[0];
      assert (a + b)[1..] == a[1..] + b;
      ChunkBytesAppend(a[1..], b);
    }
  }

  /** Concatenating the chunks in order gives back the bytes. */
  lemma {:induction false} AudioChunksRejoin(rest: seq<byte>, size: nat, k: nat)
    requires size > 0
    ensures ChunkBytes(AudioChunks(rest, size, k)) == rest
    decreases |rest|
  {
    if rest != [] {
      var n := if size < |rest| then size else |rest|;
      var head: seq<TtsStreamingResponse> := [TtsStreamingResponse("audio_chunk", Some(rest[..n]), None, Some(k), size >= |rest|)];
      ChunkBytesAppend(head, AudioChunks(rest[n..], size, k + 1));
      assert head[1..] == [];
      AudioChunksRejoin(rest[n..], size, k + 1);
      assert rest[..n] + rest[n..] == rest;
    }
  }

  const METADATA: string := "metadata"
  const COMPLETE: string := "complete"
  const ERROR: string := "error"

  /** `len(audio_bytes) // chunk_size` with `chunk_size=None`. */
  const NONE_DIVISION: string := "unsupported operand type(s) for //: 'int' and 'NoneType'"

  /** The single message of a failed stream. */
  function ErrorMessage(text: string): (r: TtsStreamingResponse)
    ensures r.kind == ERROR && r.isFinal && r.metadata == Some(Failure(text))
  {
    TtsStreamingResponse(ERROR, None, Some(Failure(text)), None, true)
  }

  /** The metadata message announcing `total` chunks, the chunks, and the
      final completion message. */
  function StreamOf(pcm: Pcm, size: nat, total: int): seq<TtsStreamingResponse>
    requires size > 0
  {
    [TtsStreamingResponse(METADATA, None, Some(AudioInfo(SAMPLE_RATE, 1, pcm.samples as real / SAMPLE_RATE as real, total)), None, false)]
      + AudioChunks(pcm.bytes, size, 0)
      + [TtsStreamingResponse(COMPLETE, None, None, None, true)]
  }

  /** The stream's `total_chunks` as written: `len // chunk_size + 1`. */
  function TotalChunksAsWritten(n: nat, size: nat): nat
    requires size > 0
  {
    n / size + 1
  }

  /** The announced count is one too many exactly when the chunk size
      divides the byte count, an empty buffer included. */
  lemma {:induction false} TotalChunksOffByOne(n: nat, size: nat)
    requires size > 0
    ensures TotalChunksAsWritten(n, size) == ChunkCount(n, size) + (if n % size == 0 then 1 else 0)
    decreases n
  {
    if n >= size {
      DivStep(n, size);
      if n > size {
        TotalChunksOffByOne(n - size, size);
      } else {
        DivUnique(0, size, 0, 0);
      }
    } else {
      DivUnique(n, size, 0, n);
    }
  }

  /** One buffer of `chunk_size` bytes is announced as two chunks but sent
      as one; an empty buffer is announced as one chunk and sent as none. */
  lemma TotalChunksCounterexample()
    ensures TotalChunksAsWritten(1024, 1024) == 2 && ChunkCount(1024, 1024) == 1
    ensures TotalChunksAsWritten(0, 1024) == 1 && ChunkCount(0, 1024) == 0
  {
  }

  /** `stream_synthesis(request)` as written, where `synthesized` is the
      engine's audio or the text of its exception. A failed synthesis is
      wrapped by `synthesize` and reported as a single error message; a
      missing chunk size fails at the floor division. */
  function StreamSynthesis(request: TtsStreamingRequest, synthesized: Result<Pcm, string>): (r: seq<TtsStreamingResponse>)
    requires ValidStreamingRequest(request)
    ensures |r| >= 1 && r[|r| - 1].isFinal
    ensures synthesized.Err? ==>
      r == [ErrorMessage(Str(Raise(AudioProcessing, "TTS synthesis", Some([("error", synthesized.error)]))))]
    ensures synthesized.Ok? && request.chunkSize.None? ==> r == [ErrorMessage(NONE_DIVISION)]
  {
    match synthesized
    case Err(t) => [ErrorMessage(Str(Raise(AudioProcessing, "TTS synthesis", Some([("error", t)]))))]
    case Ok(pcm) =>
      match request.chunkSize
      case None => [ErrorMessage(NONE_DIVISION)]
      case Some(c) => StreamOf(pcm, c, TotalChunksAsWritten(|pcm.bytes|, c))
  }

  /** The stream with the announced count corrected to the number of
      chunks actually sent. */
  function StreamSynthesisCorrected(request: TtsStreamingRequest, synthesized: Result<Pcm, string>): (r: seq<TtsStreamingResponse>)
    requires ValidStreamingRequest(request)
    ensures |r| >= 1 && r[|r| - 1].isFinal
  {
    match synthesized
    case Err(t) => [ErrorMessage(Str(Raise(AudioProcessing, "TTS synthesis", Some([("error", t)]))))]
    case Ok(pcm) =>
      match request.chunkSize
      case None => [ErrorMessage(NONE_DIVISION)]
      case Some(c) => StreamOf(pcm, c, ChunkCount(|pcm.bytes|, c))
  }

  /** A stream announcing `total` opens with the metadata message, sends
      ⌈len/size⌉ chunks whose bytes rejoin to the audio, and closes with
      the completion message. */
  lemma StreamOfShape(pcm: Pcm, size: nat, total: int)
    requires size > 0
    ensures var r := StreamOf(pcm, size, total);
      && |r| == ChunkCount(|pcm.bytes|, size) + 2
      && r[0].kind == METADATA && !r[0].isFinal
      && r[0].metadata == Some(AudioInfo(SAMPLE_RATE, 1, pcm.samples as real / SAMPLE_RATE as real, total))
      && r[|r| - 1] == TtsStreamingResponse(COMPLETE, None, None, None, true)
      && r[1..|r| - 1] == AudioChunks(pcm.bytes, size, 0)
      && ChunkBytes(r) == pcm.bytes
  {
    var head: seq<TtsStreamingResponse> := [TtsStreamingResponse(METADATA, None, Some(AudioInfo(SAMPLE_RATE, 1, pcm.samples as real / SAMPLE_RATE as real, total)), None, false)];
    var chunks := AudioChunks(pcm.bytes, size, 0);
    var tail: seq<TtsStreamingResponse> := [TtsStreamingResponse(COMPLETE, None, None, None, true)];
    var r := StreamOf(pcm, size, total);
    assert r == head + chunks + tail;
    AudioChunksCount(pcm.bytes, size, 0);
    assert r[1..|r| - 1] == chunks;
    ChunkBytesAppend(head, chunks);
    ChunkBytesAppend(head + chunks, tail);
    assert head[1..] == [] && tail[1..] == [];
    AudioChunksRejoin(pcm.bytes, size, 0);
  }

  /** The corrected stream announces exactly the chunks it sends. */
  lemma CorrectedStreamCountsChunks(request: TtsStreamingRequest, pcm: Pcm)
    requires ValidStreamingRequest(request) && request.chunkSize.Some?
    ensures var r := StreamSynthesisCorrected(request, Ok(pcm));
      && r[0].metadata.value.totalChunks == |r| - 2
      && |r| - 2 == |AudioChunks(pcm.bytes, request.chunkSize.value, 0)|
  {
    StreamOfShape(pcm, request.chunkSize.value, ChunkCount(|pcm.bytes|, request.chunkSize.value));
  }

  /** The stream as written announces one chunk more than it sends exactly
      when the chunk size divides the byte count. */
  lemma StreamAnnouncesExtraChunk(request: TtsStreamingRequest, pcm: Pcm)
    requires ValidStreamingRequest(request) && request.chunkSize.Some?
    ensures var r := StreamSynthesis(request, Ok(pcm));
      r[0].metadata.value.totalChunks == |r| - 2 <==> |pcm.bytes| % request.chunkSize.value != 0
  {
    var c := request.chunkSize.value;
    StreamOfShape(pcm, c, TotalChunksAsWritten(|pcm.bytes|, c));
    TotalChunksOffByOne(|pcm.bytes|, c);
  }

  // ---------------------------------------------------------------
  // Synthesis to a file
  // ---------------------------------------------------------------

  /** Audio samples; their values are never inspected. */
  type Samples = seq<real>

  /** `_adjust_speed` applied when `speed != 1.0`; `stretched` is what
      librosa's time stretch returns for a given speed, `None` when it
      raises, in which case the audio is kept. A missing speed passes the
      `!= 1.0` test, and the stretch then raises on `rate=None`, so the
      audio is kept too. */
  function AdjustSpeed(audio: Samples, speed: Option<real>, stretched: Option<Samples>): (r: Samples)
    ensures speed == Some(1.0) || speed.None? ==> r == audio
    ensures speed.Some? && speed != Some(1.0) && stretched.Some? ==> r == stretched.value
    ensures stretched.None? ==> r == audio
  {
    if speed == Some(1.0) || speed.None? then audio else stretched.GetOr(audio)
  }

  /** The `reason` of the missing-speaker error. */
  const SPEAKER_MISSING: string := "Speaker file " + SPEAKER_WAV + " not found"

  /** `_synthesize_audio(request, path)`: the speaker reference must exist;
      the streamer is used when the manager holds one, the bare model
      otherwise; the speed adjustment follows; the audio is written as a
      WAV file by `wav`. `engine` is the chosen engine's audio or the text
      of its exception. Every failure becomes an audio-processing error
      for "audio synthesis". */
  function SynthesizeAudio(disk: Disk, m: Manager, request: TtsRequest, path: string, speakerExists: bool,
                           engine: Result<Samples, string>, stretched: Option<Samples>, wav: Samples -> seq<byte>)
    : (r: (Disk, Result<Samples, Exception>))
    ensures r.1.Ok? <==> speakerExists && engine.Ok?
    ensures r.1.Ok? ==> r.1.value == AdjustSpeed(engine.value, request.speed, stretched) && r.0 == disk[path := wav(r.1.value)]
    ensures r.1.Err? ==> r.0 == disk && r.1.error.Custom? && r.1.error.cls == AudioProcessing
    ensures r.1.Err? ==> ArgumentOf(AudioProcessing, r.1.error.message) == "audio synthesis"
    ensures !speakerExists ==>
      r.1.error.details == [("error", Str(Raise(AudioProcessing, "speaker reference", Some([("reason", SPEAKER_MISSING)]))))]
    ensures speakerExists && engine.Err? && m.hasStreamer ==>
      r.1.error.details == [("error", Str(Raise(AudioProcessing, "TTS synthesis", Some([("error", engine.error)]))))]
    ensures speakerExists && engine.Err? && !m.hasStreamer ==> r.1.error.details == [("error", engine.error)]
  {
    var inner :=
      if !speakerExists then Some(Raise(AudioProcessing, "speaker reference", Some([("reason", SPEAKER_MISSING)])))
      else if engine.Err? then
        if m.hasStreamer then Some(Raise(AudioProcessing, "TTS synthesis", Some([("error", engine.error)])))
        else Some(Other(engine.error))
      else None;
    match inner
    case Some(e) =>
      ArgumentRoundTrip(AudioProcessing, "audio synthesis", Some([("error", Str(e))]));
      (disk, Err(Raise(AudioProcessing, "audio synthesis", Some([("error", Str(e))]))))
    case None =>
      var audio := AdjustSpeed(engine.value, request.speed, stretched);
      (disk[path := wav(audio)], Ok(audio))
  }

  /** `_get_audio_info` on the file just written: the duration of the
      audio at 22050 Hz, or zero when soundfile cannot read it back. */
  function AudioInfoOf(audio: Samples, readBack: bool): (r: (real, int))
    ensures r.1 == SAMPLE_RATE && r.0 >= 0.0
    ensures readBack ==> r.0 * SAMPLE_RATE as real == |audio| as real
    ensures !readBack ==> r.0 == 0.0
  {
    if readBack then (|audio| as real / SAMPLE_RATE as real, SAMPLE_RATE) else (0.0, SAMPLE_RATE)
  }

  /** The name of the output file: `tts_` and the first eight characters
      of the uuid's hex form. */
  function OutputFilename(uuidHex: string): (r: string)
    ensures StartsWith(r, "tts_") && |r| <= 16
    ensures '/' !in uuidHex ==> '/' !in r
  {
    var h := SliceTo(uuidHex, 8);
    assert forall t :: 0 <= t < |h| ==> h[t] == uuidHex[t];
    "tts_" + h + ".wav"
  }

  /** `synthesize_speech(request)` with `uuidHex` the fresh uuid and
      `elapsed` the measured processing time. A missing TTS flag raises a
      model-load error; every failure reaches the caller as an
      audio-processing error for "TTS synthesis". */
  function SynthesizeSpeech(disk: Disk, m: Manager, request: TtsRequest, uuidHex: string, elapsed: real,
                            speakerExists: bool, engine: Result<Samples, string>, stretched: Option<Samples>,
                            wav: Samples -> seq<byte>, readBack: bool)
    : (r: (Disk, Result<TtsResponse, Exception>))
    requires elapsed >= 0.0
    ensures r.1.Ok? <==> IsModelAvailable(m, Tts) && speakerExists && engine.Ok?
    ensures r.1.Err? ==> r.0 == disk && r.1.error.Custom? && r.1.error.cls == AudioProcessing
    ensures r.1.Err? ==> ArgumentOf(AudioProcessing, r.1.error.message) == "TTS synthesis"
    ensures !IsModelAvailable(m, Tts) ==>
      r.1.error.details == [("error", Str(Raise(ModelLoad, "TTS", Some([("reason", "Model not loaded")]))))]
    ensures r.1.Ok? ==> ValidTtsResponse(r.1.value) && r.1.value.sampleRate == SAMPLE_RATE
    ensures r.1.Ok? ==> r.1.value.audioUrl == Some("/audio/" + OutputFilename(uuidHex))
    ensures r.1.Ok? ==> r.1.value.processingTime == Some(elapsed)
    ensures r.1.Ok? ==>
      var audio := AdjustSpeed(engine.value, request.speed, stretched);
      r.0 == disk[JoinPath(OUTPUT_DIR, OutputFilename(uuidHex)) := wav(audio)]
  {
    var inner :=
      if !IsModelAvailable(m, Tts) then Err(Raise(ModelLoad, "TTS", Some([("reason", "Model not loaded")])))
      else
        var path := JoinPath(OUTPUT_DIR, OutputFilename(uuidHex));
        var written := SynthesizeAudio(disk, m, request, path, speakerExists, engine, stretched, wav);
        match written.1
        case Err(e) => Err(e)
        case Ok(audio) =>
          var info := AudioInfoOf(audio, readBack);
          Ok((written.0, TtsResponse(Some("/audio/" + OutputFilename(uuidHex)), Some(info.0), info.1, Some(elapsed))));
    match inner
    case Err(e) =>
      ArgumentRoundTrip(AudioProcessing, "TTS synthesis", Some([("error", Str(e))]));
      (disk, Err(Raise(AudioProcessing, "TTS synthesis", Some([("error", Str(e))]))))
    case Ok(out) => (out.0, Ok(out.1))
  }
}
