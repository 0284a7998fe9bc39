# Ai-Agent-Seller in Dafny

A model of the back end of Ai-Agent-Seller, an Arabic-speaking retail assistant. It is a FastAPI application whose services do four things:

- chat with a language model served by Ollama;
- transcribe speech with Whisper and synthesise speech with XTTS;
- analyse a shopper's mood from a photo;
- track people through a video with YOLO and BoostTrack.

The model also covers the small document scripts that render the project's Mermaid diagrams and Markdown notes to PDF.

Everything is modelled as immutable datatypes and pure functions. The few loops are methods with invariants. Machine-learning models, the clock, uuids, randomness, the disk and the network never run. What they would return is passed in as a parameter: a detector's boxes per frame, whether an image decodes, the engine's audio, a fresh id, the error a file write raises.

Modules follow the source files:

| module | models |
|---|---|
| `Wrappers`, `Strings`, `Paths`, `OrderedDicts`, `Files` | `Option`/`Result`; the Python `str` operations the code relies on (`strip`, `lower`, `split`, `join`, `str(int)`); `pathlib` suffix/name and `os.path.splitext`; insertion-ordered `dict`; the disk as a map from path to bytes |
| `Exceptions` | `app/core/exceptions.py`: the exception classes' messages, status codes and details, and the three handlers' payloads |
| `Config` | `app/core/config.py`: `assemble_db_connection`, `set_debug_from_env` |
| `ModelManagement`, `Deps`, `App` | `app/services/model_manager.py` flags and loaders, the `app/api/deps.py` guards, `app/main.py` health check and root |
| `TrackingSchema`, `TrackingPipeline`, `TrackingService`, `TrackingApi`, `Uploads` | `app/schemas/tracking.py`, the frame loop and session registry of `app/services/tracking_service.py`, `app/api/v1/endpoints/tracking.py`; the shared size/format validation of the three `/validate` endpoints |
| `FileUtils` | `app/utils/file_utils.py`: `safe_filename`, `create_unique_filename`, `validate_file_path`, copy and move |
| `ChatService`, `ChatApi` | `app/schemas/chat.py`, `app/services/chat_service.py` (keyword intent, sessions), the SSE event stream and error mapping of `app/api/v1/endpoints/chat.py` |
| `StatusService`, `StatusApi` | `app/services/status_service.py` (reply parsing, prompt, formats) and `app/api/v1/endpoints/status.py` |
| `SttService`, `SttApi`, `AudioUtils` | `app/schemas/stt.py`, `app/services/stt_service.py`, `app/api/v1/endpoints/stt.py`, `app/utils/audio.py` |
| `TtsService`, `TtsApi` | `app/schemas/tts.py`, `app/services/tts_service.py` (synthesis and the chunked stream), `app/api/v1/endpoints/tts.py` |
| `ImageUtils` | `app/utils/image.py`: `validate_image_file`, `crop_face` |
| `Mermaid`, `SimplePdfConverter`, `DiagramsToPdf`, `ModernPdf` | `scripts/simple_pdf_converter.py`, `scripts/convert_diagrams_to_pdf.py`, `create_modern_pdf.py` |

Behaviours of the code worth knowing:

- `process_video` does not move the uploaded session along. It registers a fresh session of its own, marked "processing".
- A detector exception yields no detections for that frame. It does not abort the run.
- When the frame rate is unknown, a frame's timestamp is its number times 0.033, not divided by 30.
- Every tracking endpoint builds a new `TrackingService`, so its session registry is empty on each request. As a result `/process/{id}` and `/session/{id}` can only fail.
- Several handlers catch their own `HTTPException` in a general `except` clause, so a 404 or 400 they raise reaches the client as a 500. The model keeps that rewrapping.

## Model

| member | source | states |
|---|---|---|
| App.RootServices | app/main.py:322-346 | the service directory lists five services, in order chat, stt, tts, tracking and status, each with an endpoint made of the API prefix, a slash and the service's name, so no two share an endpoint |
| App.HealthCheck | app/main.py:406-467 | `/health` reports the GPU as available, with one device, exactly when the device is `cuda`; the loaded-models block holds the five availability flags; an exception while assembling the report is a 503 "Health check failed" |
| App.HealthMatchesGuards | app/main.py:445-462 | each service the health report marks available is exactly one whose dependency guard lets requests through (chat and status analysis follow Ollama, tracking needs Yolo and the tracker), and the status is "healthy" exactly when every guard passes |
| Deps.Require | app/api/deps.py:30-37 | a guard passes the manager through unchanged exactly when the flag is set, and otherwise raises a 503 with the guard's detail |
| Deps.RequireWhisperModel | app/api/deps.py:30-37 | passes exactly when the whisper flag is set; otherwise a 503 with the Whisper detail |
| Deps.RequireTtsModel | app/api/deps.py:40-47 | passes exactly when the tts flag is set; otherwise a 503 with the TTS detail |
| Deps.RequireTrackingModels | app/api/deps.py:50-64 | passes exactly when both the yolo and tracker flags are set; with Yolo missing the Yolo detail is raised whatever the tracker flag, and the tracker detail only when Yolo is present |
| Deps.RequireOllamaService | app/api/deps.py:67-74 | passes exactly when the ollama flag is set; otherwise a 503 with the Ollama detail |
| Deps.TrackingOpenAfterStartup | app/services/model_manager.py:135-167 | after start-up, the tracking endpoints are open exactly when the Yolo weights file exists, Yolo loads and the tracker builds |
| Config.AssembleDbConnection | app/core/config.py:32-44 | a string URL is kept as is; otherwise the URL starts with the `postgresql+psycopg2://` scheme |
| Config.DbUrlRoundTrip | app/core/config.py:38-44 | when no field holds `:`, `@` or `/`, the assembled URL reads back as exactly the user, password, server, port and database it was built from (a missing field prints as `None`) |
| Config.AuthorityRoundTrip | app/core/config.py:44 | the `user:password@server:port/db` part of the URL reads back as its five fields when none holds a separator |
| Config.AssembleDbConnectionIdempotent | app/core/config.py:33-35 | validating the validator's own output again changes nothing |
| Config.SetDebugFromEnv | app/core/config.py:87-91 | a string DEBUG is true exactly when its lower-cased form is `true`, `1`, `yes` or `on`; a boolean passes through |
| Config.SetDebugCaseInsensitive | app/core/config.py:89-90 | the string form gives the same answer as its lower-cased form |
| Config.SetDebugSpellings | app/core/config.py:89-90 | `TRUE`, `On` and `YES` are accepted; `false`, the empty string and `2` are rejected |
| Exceptions.NewBaseException | app/core/exceptions.py:11-22 | a base exception keeps its message; a missing status code is 500 and missing details are `{}` |
| Exceptions.Raise | app/core/exceptions.py:26-119 | each single-argument subclass carries its own status code (model load and external service 503; audio, image and video processing 422; database 500; storage 507) and a message that starts with the subclass's fixed text |
| Exceptions.NewValidationError | app/core/exceptions.py:98-107 | a validation error has status 422 and a message naming the field |
| Exceptions.ArgumentRoundTrip | app/core/exceptions.py:26-119 | the argument a subclass was built with is recovered from its message |
| Exceptions.Str | app/core/exceptions.py:20 | a custom exception prints as its message; an `HTTPException` prints as its status, a colon and a space, then its detail |
| Exceptions.Handle | app/core/exceptions.py:123-163 | the custom handler answers with the exception's own status and a body of message, details and class name; the HTTP handler with its status, its detail and type `HTTPException`, without details; anything else gets a 500 without details |
| Exceptions.HandleRaised | app/core/exceptions.py:123-135 | an exception built by a subclass constructor is answered with that subclass's status and class name, and the body's message gives back the constructor argument |
| Exceptions.GeneralHandlerHidesText | app/core/exceptions.py:152-163 | the catch-all response does not depend on the exception: its message is fixed and no exception text reaches the client |
| Exceptions.MapServiceError | app/api/v1/endpoints/tts.py:341-351 | an `HTTPException` is re-raised unchanged, the endpoint's own processing error becomes a 400 carrying its message, and anything else a 503 with a fixed text |
| Exceptions.MapServiceErrorIdempotent | app/api/v1/endpoints/tts.py:341-351 | an error already mapped passes through the mapping unchanged |
| Exceptions.MapProcessingError | app/api/v1/endpoints/tracking.py:587-592 | the processing error becomes a 422 carrying its message; anything else, an inner `HTTPException` included, a 500 whose detail is the prefix followed by the exception's text |
| Exceptions.InnerHttpBecomes500 | app/api/v1/endpoints/tracking.py:556-560 | an `HTTPException` raised inside such an endpoint reaches the client as a 500 whose detail still shows the original status |
| ModelManagement.KeyOf | app/services/model_manager.py:204-206 | a name read as a key is the name that key is stored under |
| ModelManagement.KeyOfNameOf | app/services/model_manager.py:204-206 | the five stored names are distinct and each reads back as its own key |
| ModelManagement.Flags.Set | app/services/model_manager.py:97 | recording a flag sets that key and no other |
| ModelManagement.Device | app/services/model_manager.py:31 | the device is `cuda` exactly when CUDA is available and `USE_GPU` is set, and `cpu` otherwise |
| ModelManagement.NewManager | app/services/model_manager.py:24-34 | a new manager has recorded no flag and holds no model |
| ModelManagement.IsModelAvailable | app/services/model_manager.py:204-206 | a key never recorded reads as unavailable |
| ModelManagement.IsNameAvailable | app/services/model_manager.py:204-206 | a name that is not one of the five keys reads as unavailable; a key reads as its recorded flag |
| ModelManagement.LoadWhisper | app/services/model_manager.py:83-104 | the whisper flag is recorded, and is true exactly when the pipeline constructed; a failure is handed back; no other flag changes |
| ModelManagement.LoadTts | app/services/model_manager.py:106-133 | the tts flag records whether the model constructed; the streamer is attached only when it did and the speaker file exists; no other flag changes |
| ModelManagement.CheckOllama | app/services/model_manager.py:169-193 | Ollama is available exactly when the probe answered 200, and a timeout or refusal records false; no other flag changes |
| ModelManagement.LoadTracking | app/services/model_manager.py:135-167 | the yolo and tracker flags are always equal, and true exactly when the weights file exists, Yolo loads and the tracker builds; without the file nothing is loaded; no other flag changes |
| ModelManagement.LoadIndependentFlags | app/services/model_manager.py:43-59 | after the three independent loaders their flags are recorded and say whether each loader succeeded, and re-recording a returned failure as false changes nothing |
| ModelManagement.MarkFailed | app/services/model_manager.py:56-58 | a loader that handed back an exception has its flag recorded false; no other flag changes |
| ModelManagement.InitializeAllModelsFlags | app/services/model_manager.py:36-81 | after start-up every one of the five flags is recorded and says exactly whether its loader succeeded; nothing is raised |
| OrderedDicts.Dict.Put | app/services/chat_service.py:190-197 | assignment keeps the keys distinct, makes the key read as the new value, leaves every other key alone, and appends a new key at the end while an existing key keeps its place |
| OrderedDicts.Dict.Values | app/services/chat_service.py:213-222 | the values list has one entry per key, in insertion order |
| OrderedDicts.PutValues | app/services/chat_service.py:190-197 | assigning to a present key replaces its value in place in the values list |
| OrderedDicts.PutNewValues | app/services/chat_service.py:190-197 | assigning to a new key appends its value to the values list |
| ChatService.DefaultChatSession | app/schemas/chat.py:44-50 | a session built from its id alone is active, has counted no message, and was created when it was last active |
| ChatService.ColourList | app/services/chat_service.py:84 | a word is in the colour list exactly when it is blue, red, white or black |
| ChatService.Items | app/services/chat_service.py:79-87 | the items detected are never more than the table's entries |
| ChatService.ItemsAppend | app/services/chat_service.py:82-87 | scanning two tables one after the other detects the same items, in the same order, as scanning their concatenation |
| ChatService.ColoursAppend | app/services/chat_service.py:82-87 | the same holds for colours |
| ChatService.DetectItems | app/services/chat_service.py:82-87 | a word is a detected item exactly when some entry maps an Arabic word occurring in the message to it and it is not a colour |
| ChatService.DetectColours | app/services/chat_service.py:82-85 | a word is a detected colour exactly when some entry maps an Arabic word occurring in the message to it and it is a colour |
| ChatService.DetectKeywords | app/services/chat_service.py:68-87 | over the fixed table, the items are the shirt, pants, shoes and jacket words found, in that order, and the colours are the blue, red, white and black words found, in that order |
| ChatService.ExtractProductIntent | app/services/chat_service.py:89-98 | with no item detected the result is empty without a search; a non-empty result is exactly what the product search returned; a failed search gives nothing |
| ChatService.ColoursAloneFindNothing | app/services/chat_service.py:90-94 | a message naming only colours detects no item and finds no product, whatever the search would return |
| ChatService.ItemReachesSearch | app/services/chat_service.py:90-92 | a message naming one of the four items reports exactly what the search found |
| ChatService.AiResponse | app/services/chat_service.py:142-182 | a 200 reply's text is passed on verbatim, a 200 reply without text becomes the "not understood" apology, another status the "technical problem" apology, and an exception the "cannot reply" apology |
| ChatService.Trim | app/services/chat_service.py:204-206 | the trimmed history holds at most ten exchanges, all of them when there were at most ten, and otherwise the last ten in order |
| ChatService.Current | app/services/chat_service.py:187-195 | the session updated is the stored one, or for an unseen id a new one created now with count 0 and no exchanges |
| ChatService.Bump | app/services/chat_service.py:195-206 | recording an exchange keeps the id and creation time, sets the last activity to now, counts exactly one more message and leaves the new exchange last in the history |
| ChatService.BumpOk | app/services/chat_service.py:195-206 | recording an exchange keeps the record filed under its id, with at most ten exchanges, and never more kept than counted |
| ChatService.UpdateSession | app/services/chat_service.py:184-206 | the updated session is stored, every other session is unchanged, a new session ends with count 1 created now, and an existing one counts one more message and keeps its creation time |
| ChatService.UpdateSessionHistory | app/services/chat_service.py:198-206 | the history after an update is the last ten of the previous history followed by the new exchange |
| ChatService.UpdateSessionWellFormed | app/services/chat_service.py:184-206 | an update keeps every stored session filed under its own id, with at most ten exchanges and never more than it counted |
| ChatService.UpdatedRecordOk | app/services/chat_service.py:184-206 | the record an update writes is well formed when the one it replaces was |
| ChatService.ConverseFromScratch | app/services/chat_service.py:184-206 | after n exchanges on an unseen session its count is n, its history is the last ten of those exchanges in order, newest last, and its creation time is that of the first: trimming never lowers the count |
| ChatService.TrimAppend | app/services/chat_service.py:204-206 | trimming after every append keeps the same exchanges as trimming once at the end |
| ChatService.CreateSession | app/services/chat_service.py:224-245 | the new session is stored with count 0 and no exchanges, every other session is unchanged, and the returned session mirrors the stored record: active, count 0, created when last active |
| ChatService.CreateSessionWellFormed | app/services/chat_service.py:224-237 | creating a session keeps the store well formed |
| ChatService.Views | app/services/chat_service.py:214-221 | one view per record, in order |
| ChatService.ViewsAppend | app/services/chat_service.py:214-221 | listing one more record appends its view |
| ChatService.GetActiveSessions | app/services/chat_service.py:211-222 | one entry per stored session, in insertion order, each active with a non-negative count copied from the store and, in a well-formed store, its own id |
| ChatService.CreatedSessionIsListed | app/services/chat_service.py:211-245 | a session created under a new id is listed last, exactly as it was returned |
| ChatService.ProcessMessage | app/services/chat_service.py:34-58 | the reply reports confidence 0.85 (within [0, 1]), the message's session id or a fresh one when none is given, and the Ollama text; the exchange is recorded last in that session's history and no other session changes |
| ChatService.EmptySessionIdIsReplaced | app/services/chat_service.py:40 | an empty session id is falsy, so it too is replaced by a fresh one |
| ChatApi.ProgressAfter | app/api/v1/endpoints/chat.py:305-308 | a progress event follows a token exactly when the token's index is a multiple of ten |
| ChatApi.PhaseEvents | app/api/v1/endpoints/chat.py:300-308 | the word loop emits only token and progress events |
| ChatApi.GenerateStream | app/api/v1/endpoints/chat.py:286-334 | the stream opens with the start event; when processing fails it is the start event then one error event carrying the exception's text and the fixed message, and nothing else |
| ChatApi.SucceedEnds | app/api/v1/endpoints/chat.py:314-323 | a successful stream ends with the completion event carrying the whole reply, and holds no error event |
| ChatApi.TokensAppend | app/api/v1/endpoints/chat.py:300-302 | the tokens of two event lists in a row are the tokens of the first, then those of the second |
| ChatApi.ProgressCountAppend | app/api/v1/endpoints/chat.py:305-308 | progress events of two event lists in a row add up |
| ChatApi.Spaced | app/api/v1/endpoints/chat.py:302 | each word followed by one space, in order |
| ChatApi.TokensOfPhase | app/api/v1/endpoints/chat.py:300-302 | the token events carry the words in order, each with one trailing space |
| ChatApi.TensFromZero | app/api/v1/endpoints/chat.py:306 | among the first n indices, ⌈n/10⌉ are multiples of ten |
| ChatApi.TensSplit | app/api/v1/endpoints/chat.py:306 | counting multiples of ten over adjacent ranges adds up |
| ChatApi.ProgressCountOfPhase | app/api/v1/endpoints/chat.py:300-308 | the word loop emits one progress event per token whose index is a multiple of ten |
| ChatApi.TokenAt | app/api/v1/endpoints/chat.py:300-308 | token j sits after the earlier tokens and their progress events, and the next event is a progress event exactly when j is a multiple of ten |
| ChatApi.FirstToken | app/api/v1/endpoints/chat.py:300-308 | the loop from word i opens with token i, followed by a progress event exactly when i is a multiple of ten |
| ChatApi.SucceedShape | app/api/v1/endpoints/chat.py:291-323 | in a successful stream token j carries word j plus a space, and a progress event follows it exactly when j is a multiple of ten |
| ChatApi.SucceedTokens | app/api/v1/endpoints/chat.py:291-323 | the tokens of a successful stream spell out all the words in order, each with a trailing space, with one progress event for every ten words, rounded up |
| ChatApi.StreamOfReply | app/api/v1/endpoints/chat.py:286-323 | for the whitespace-split words of the reply: token j is word j plus a space, a progress event follows it exactly when j is a multiple of ten, the tokens spell out every word, there are ⌈n/10⌉ progress events, and the last event is the completion with the whole reply |
| ChatApi.FirstBreak | app/api/v1/endpoints/chat.py:291 | a payload without line breaks ends where its frame's blank-line terminator begins |
| ChatApi.UnframeBody | app/api/v1/endpoints/chat.py:286-334 | the framed body reads back as exactly the payloads, in order, when none holds a line break |
| ChatApi.UnframeFrame | app/api/v1/endpoints/chat.py:291 | one `data: …` frame reads back as its payload, followed by whatever the rest of the body reads as |
| ChatApi.Payloads | app/api/v1/endpoints/chat.py:286-334 | one encoded payload per event, in order |
| ChatApi.StreamMessage | app/api/v1/endpoints/chat.py:286-345 | the stream is refused with the Ollama 503 exactly when the Ollama flag is unset |
| ChatApi.StreamMatchesMessage | app/api/v1/endpoints/chat.py:217-323 | past the guard both endpoints succeed, and the stream carries the framed events of the very response `POST /message` returns for the same request |
| ChatApi.FramedStream | app/api/v1/endpoints/chat.py:286-334 | the framed stream of a response reads back as its encoded events, the start event first and the completion with that response last |
| ChatApi.PayloadsHaveNoBreaks | app/api/v1/endpoints/chat.py:291 | an encoder that never emits a line break gives payloads without one |
| ChatApi.SendMessage | app/api/v1/endpoints/chat.py:217-229 | the request fails with a 503 exactly when the Ollama flag is unset; otherwise it returns the Ollama text under the message's or a fresh session id, with confidence 0.85 |
| TrackingSchema.DefaultTrackingRequest | app/schemas/tracking.py:10-13 | the default request has threshold 0.25 and a budget of 100 tracks, both within their bounds |
| TrackingSchema.NewTrackingRequest | app/schemas/tracking.py:12-13 | a request is accepted exactly when the threshold lies in [0.1, 1.0] and the budget in [1, 1000], and then keeps both values |
| TrackingSchema.NewBoundingBox | app/schemas/tracking.py:24-30 | a box is accepted exactly when its confidence is absent or in [0, 1], and keeps its corners |
| TrackingSchema.NewPersonTrack | app/schemas/tracking.py:33-39 | an observation is accepted exactly when its confidence lies in [0, 1], and keeps every field |
| TrackingSchema.ParseStatus | app/schemas/tracking.py:79 | a stored string read as a status is the string that status is stored as |
| TrackingSchema.StatusNameRoundTrip | app/schemas/tracking.py:79 | the four statuses are stored as four distinct strings, each reading back as itself |
| TrackingSchema.NewTrackingSession | app/schemas/tracking.py:76-84 | a new session has the given id, status and file name, was created now, and has no completion time, error message or result |
| TrackingPipeline.PersonsInBoxes | app/services/tracking_service.py:185-193 | the detections of one result are never more than its boxes |
| TrackingPipeline.DetectPersons | app/services/tracking_service.py:175-199 | a detector that raises yields no detection rather than an error |
| TrackingPipeline.PersonBoxes | app/services/tracking_service.py:187 | the kept boxes are boxes of the input with class 0, and a result without class-0 boxes keeps none |
| TrackingPipeline.PersonBoxesAppend | app/services/tracking_service.py:185-193 | filtering two box lists in a row keeps the person boxes of each, in order |
| TrackingPipeline.ToDetections | app/services/tracking_service.py:188-193 | each kept box becomes `[x1, y1, x2, y2, conf]`, in order |
| TrackingPipeline.PersonsInBoxesIsFilter | app/services/tracking_service.py:185-193 | the inner loop computes exactly the class-0 boxes of the result, in order, each turned into a detection |
| TrackingPipeline.DetectPersonsIsFilter | app/services/tracking_service.py:181-195 | the nested loops compute exactly the class-0 boxes of all results, in order, skipping results without boxes |
| TrackingPipeline.Detect | app/services/tracking_service.py:131 | every frame is paired with its detections and with what the tracker does on it |
| TrackingPipeline.Timestamp | app/services/tracking_service.py:128 | with a positive fps the timestamp times fps is the frame number; otherwise it is the frame number times 0.033 |
| TrackingPipeline.Observations | app/services/tracking_service.py:138-152 | the targets become observations exactly when every score lies in [0, 1]; then there is one per target, in order, copying its id, its four corners and its score into both the observation's and the box's confidence |
| TrackingPipeline.FrameTracks | app/services/tracking_service.py:134-152 | a frame without detections contributes no observation; otherwise one per target, stamped with the frame's number and timestamp |
| TrackingPipeline.StopFrom | app/services/tracking_service.py:122-156 | the loop, having read i frames, reads at least one more frame unless the video is over, and never reads past its end |
| TrackingPipeline.LoopStep | app/services/tracking_service.py:122-156 | one iteration either stops after the next frame, because it left more than the limit, or continues from the state after that frame |
| TrackingPipeline.LoopMatchesReference | app/services/tracking_service.py:119-156 | when on every frame the loop reaches with a person the tracker returns and every score is in range, it returns exactly the observations and tracker calls of the frames up to its stopping point |
| TrackingPipeline.FailureAt | app/services/tracking_service.py:134-152 | on an invalid frame the loop reports the tracker's own exception, with its text, exactly when the tracker raised there, and otherwise the rejected track |
| TrackingPipeline.FrameStep | app/services/tracking_service.py:134-152 | one iteration succeeds exactly on a valid frame, with that frame's observations; otherwise it fails with the frame's own failure |
| TrackingPipeline.LoopFailsOnInvalidFrame | app/services/tracking_service.py:134-173 | a tracker exception or an out-of-range score on any frame the loop reaches makes it raise |
| TrackingPipeline.LoopFailsOnFirstInvalidFrame | app/services/tracking_service.py:134-173 | when every earlier frame it reads is valid, the loop raises with the failure of that frame and its number |
| TrackingPipeline.ObservationFrames | app/services/tracking_service.py:127-149 | after k frames every observation carries a frame number in [1, k] on which the tracker was updated, and that frame's timestamp |
| TrackingPipeline.ObservationOrder | app/services/tracking_service.py:127-152 | frame numbers never decrease along the observations |
| TrackingPipeline.SortedAppend | app/services/tracking_service.py:152 | appending the current frame's observations keeps them in frame order |
| TrackingPipeline.ObservationsValid | app/services/tracking_service.py:139-152 | observations of valid frames satisfy the `PersonTrack` constraints, and each box carries the observation's own confidence |
| TrackingPipeline.TrackerCalls | app/services/tracking_service.py:134-135 | the tracker is updated on frame n exactly when the detector found a person on it |
| TrackingPipeline.StopBound | app/services/tracking_service.py:155-156 | before every frame the loop reads, at most `max_tracks*10` observations exist; when it stops before the end, the frame it stopped after left more |
| TrackingPipeline.Duration | app/services/tracking_service.py:105 | with a positive fps the duration times fps is the frame count; otherwise the duration is 0 |
| TrackingPipeline.PersonTrackingError | app/services/tracking_service.py:171-173 | any failure surfaces as a video processing error (422) for the operation "person tracking", with the original text in its details |
| TrackingPipeline.TrackPersonsInVideo | app/services/tracking_service.py:87-173 | an unopenable video fails with the wrapped "video opening" error; every failure is a "person tracking" error; a result carries the session id, the fps, and video info of file name, duration, resolution, fps and container frame count |
| TrackingPipeline.TrackPersonsInVideoSpec | app/services/tracking_service.py:119-169 | on an opened video whose frames are valid (the tracker returns and every score is in range), the result lists the observations of the frames read, `total_frames` is the number of frames read, and the loop stopped right after the first frame that pushed the count past `max_tracks*10`, having stayed within it before |
| TrackingPipeline.TrackPersonsInVideoFails | app/services/tracking_service.py:134-173 | a tracker exception or an out-of-range score on a frame the loop reaches fails the whole run as a "person tracking" error carrying the text of the first such frame's failure (for an out-of-range score, the first line of pydantic's message stands for its whole text) |
| TrackingService.VideoFailure | app/services/tracking_service.py:234-257 | a video processing error has status 422, names its operation, and carries the one detail entry it was given |
| TrackingService.ValidateVideoFile | app/services/tracking_service.py:229-257 | a video passes exactly when it opens, has a non-zero frame count and a positive fps, and lasts at most 600 s; otherwise the error is that of the first failing check, in the order unopenable, no frames, invalid fps, too long |
| TrackingService.NegativeFrameCountAccepted | app/services/tracking_service.py:240-249 | a negative frame count is let through, because the length check only bounds the duration from above |
| TrackingService.DurationWithin | app/services/tracking_service.py:246-248 | at a positive frame rate, `frame_count / fps` stays within a bound exactly when the frame count stays within the bound times the rate, so the ten-minute check reads as a bound on frames |
| TrackingService.UploadPath | app/services/tracking_service.py:207 | the stored file is named `{session_id}_{filename}` inside the upload directory |
| TrackingService.UploadVideo | app/services/tracking_service.py:201-227 | a file that cannot be created fails the upload as a "video upload" error carrying the write error's text and leaves disk and registry untouched; otherwise the file is written whatever the outcome, and the upload succeeds exactly when the video passes validation, registering a new "uploaded" session under the fresh id with the original file name; a rejected video registers nothing and wraps the validation error as a "video upload" error |
| TrackingService.ModelCheck | app/services/tracking_service.py:49-53 | processing may start exactly when both tracking models are loaded; Yolo is checked before the tracker |
| TrackingService.MarkSessionFailed | app/services/tracking_service.py:80-83 | a stored session is marked failed with the error text, and a missing one changes nothing; no other session changes |
| TrackingService.RunSession | app/services/tracking_service.py:55-85 | a new "processing" session is stored under the id and ends "completed" with the result and a completion time, or "failed" with the error text, which is re-raised as a "video tracking" error; no other session changes |
| TrackingService.ProcessVideo | app/services/tracking_service.py:38-85 | processing succeeds exactly when both models are loaded and tracking succeeds; without the models nothing is registered under a fresh id; every failure is a 422 "video tracking" error; only the freshly minted session is touched |
| TrackingService.PutConsistent | app/services/tracking_service.py:221 | storing a session under its own id keeps every session filed under its own id |
| TrackingService.RunSessionConsistent | app/services/tracking_service.py:55-85 | processing keeps every session filed under its own id |
| TrackingService.UploadConsistent | app/services/tracking_service.py:215-221 | an upload keeps every session filed under its own id |
| TrackingService.ProcessVideoFailureText | app/services/tracking_service.py:77-85 | with the models loaded, a failed session's error text is the pipeline's "person tracking" error |
| TrackingService.GetSession | app/services/tracking_service.py:259-261 | a session is found exactly when its id is stored, and it carries that id |
| TrackingService.GetAllSessions | app/services/tracking_service.py:263-265 | one entry per stored session, in insertion order, each the session stored under that key |
| TrackingService.CountStatus | app/services/tracking_service.py:272-274 | a status count never exceeds the number of sessions |
| TrackingService.CountPartition | app/schemas/tracking.py:79 | every session has exactly one of the four statuses, so the four counts add up to the number of sessions |
| TrackingService.CountAppend | app/services/tracking_service.py:272-274 | one more session adds one to its own status's count and nothing to the others |
| TrackingService.GetSessionsSummary | app/services/tracking_service.py:267-281 | the total is the number of sessions, and active, completed and failed count the sessions whose status is "processing", "completed" and "failed"; the total exceeds their sum by exactly the number of "uploaded" sessions |
| TrackingService.PutNewTwice | app/services/tracking_service.py:61-73 | storing a new session and then updating it lists it once, with its last value, at the end |
| TrackingService.SummaryOfAppend | app/services/tracking_service.py:267-281 | listing one more session adds one to the total and to that session's own counter only |
| TrackingService.SummaryAfterRun | app/services/tracking_service.py:267-281 | processing under a fresh id adds one session, counted as completed or failed, never as active |
| TrackingService.SummaryAfterUpload | app/services/tracking_service.py:267-281 | a successful upload under a fresh id adds one session, counted only in the total |
| TrackingService.ValidateVideoFormat | app/services/tracking_service.py:283-290 | an accepted name has a suffix of a dot and three or four letters |
| TrackingService.FormatShape | app/services/tracking_service.py:285 | each supported format is a dot and three or four letters |
| TrackingService.FormatIgnoresCase | app/services/tracking_service.py:289 | the format check gives the same answer for a name and its lower-cased form |
| TrackingApi.UploadLadder | app/api/v1/endpoints/tracking.py:363-394 | an upload passes the checks exactly when it has a non-empty name, is at most 500 MiB, has an allowed lower-cased extension and names one of the three algorithms; otherwise the first failing check, in that order, decides the 400 and its message, whose list of allowed values comes in the order the set iterates |
| TrackingApi.UploadEndpoint | app/api/v1/endpoints/tracking.py:192-431 | without both tracking models the guard's 503 answers first and nothing is written, and a 503 comes only from the guard; with them, a refused upload writes nothing and answers 400, and an accepted one writes the temporary file, then the stored copy when the service can create it, and succeeds exactly when that write works and the video is acceptable, with an "uploaded" session under the fresh id; a failed write or a rejected video answers 400 with the "video upload" processing error |
| TrackingApi.UploadedVideoIsProcessed | app/api/v1/endpoints/tracking.py:405-412 | a session the upload endpoint returns points processing at a file that holds exactly the uploaded bytes |
| TrackingApi.ProcessPathIsUploadPath | app/api/v1/endpoints/tracking.py:468 | the path processing reads for a session is the file the upload stored for it, with the uploaded content |
| TrackingApi.ProcessHandler | app/api/v1/endpoints/tracking.py:435-480 | behind the model guard, an unknown session gives a 500 wrapping the 404, a session not "uploaded" gives a 500, and otherwise the answer is the processing outcome, with a processing error surfacing as 422 with its message |
| TrackingApi.ProcessEndpointAlwaysFails | app/api/v1/endpoints/tracking.py:450-480 | with its fresh, empty registry the endpoint fails on every request; past the guard it is a 500 reporting the inner 404 |
| TrackingApi.ProcessAfterUpload | app/api/v1/endpoints/tracking.py:450-472 | on the registry the upload left, processing the uploaded id succeeds exactly when tracking the stored file succeeds |
| TrackingApi.DirectEndpoint | app/api/v1/endpoints/tracking.py:538-592 | process-direct succeeds exactly when the guard passes, the name has a supported format and tracking the temporary file succeeds; an unsupported format is a 500 that writes nothing; errors are 422, 500 or the guard's 503; the temporary file is gone afterwards |
| TrackingApi.DirectEndpointCleansUp | app/api/v1/endpoints/tracking.py:562-585 | a disk without the temporary file before the request is the same disk after it, on every path |
| TrackingApi.ValidateEndpoint | app/api/v1/endpoints/tracking.py:606-641 | a file is valid exactly when its format is supported and it is at most 100 MiB; a missing name is a failure |
| TrackingApi.GetSessionHandler | app/api/v1/endpoints/tracking.py:498-519 | a session is returned exactly when its id is registered; a missing id gives a 500 wrapping the 404 |
| TrackingApi.QueryEndpointsSeeNothing | app/api/v1/endpoints/tracking.py:483-534 | with the fresh registry, a session lookup fails, the list is empty and the summary is all zeros |
| TrackingApi.FormatListsAgree | app/api/v1/endpoints/tracking.py:379 | the upload endpoint's allowed extensions are exactly the service's supported formats |
| TrackingApi.FormatRulesAgree | app/api/v1/endpoints/tracking.py:380 | for names whose last component neither starts nor ends with a dot, the upload endpoint's extension rule and the service's format check agree |
| TrackingApi.LeadingDotsSplitTheRules | app/api/v1/endpoints/tracking.py:380 | the name "..mp4" is refused by the upload endpoint but accepted by the format check |
| FileUtils.DangerousChars | app/utils/file_utils.py:73 | the nine replaced characters are exactly the dangerous ones, and the replacement `_` is not among them |
| FileUtils.ReplaceEachIsOnePass | app/utils/file_utils.py:76-77 | replacing the characters one after another amounts to one pass that turns each dangerous character into `_` and keeps every other character in place |
| FileUtils.Cleaned | app/utils/file_utils.py:72-84 | after replacement, the strip of spaces and dots and the fallback, the name is non-empty, holds no dangerous character, has no space or dot at either end, and is no longer than the input unless it is the fallback |
| FileUtils.ReplacedIsHarmless | app/utils/file_utils.py:76-77 | no dangerous character survives the replacement loop |
| FileUtils.StripKeepsHarmless | app/utils/file_utils.py:80 | stripping spaces and dots cannot bring a dangerous character back |
| FileUtils.UnnamedIsClean | app/utils/file_utils.py:83-84 | the fallback name "unnamed_file" is itself clean |
| FileUtils.CleanedKeepsSafeNames | app/utils/file_utils.py:72-84 | a non-empty name with no dangerous character and no space or dot at either end passes the clean-up unchanged |
| FileUtils.TruncateAsWritten | app/utils/file_utils.py:87-90 | the length rule as written keeps the whole extension, and a non-empty name stays non-empty |
| FileUtils.SafeFilenameAsWritten | app/utils/file_utils.py:61-96 | `safe_filename` as written never returns an empty name |
| FileUtils.LongExtensionOverflows | app/utils/file_utils.py:87-90 | when the extension alone is longer than 255 characters, the result as written is still longer than 255 characters |
| FileUtils.LongExtensionExample | app/utils/file_utils.py:87-90 | the name "a." followed by 300 "b"s has a 301-character extension after clean-up |
| FileUtils.Truncate | app/utils/file_utils.py:87-90 | the corrected length rule always yields exactly 255 characters |
| FileUtils.TruncateKeeps | app/utils/file_utils.py:87-90 | the corrected rule keeps harmless names harmless and keeps the whole extension whenever it fits |
| FileUtils.SafeFilename | app/utils/file_utils.py:61-96 | the corrected `safe_filename` returns a non-empty name of at most 255 characters with no dangerous character |
| FileUtils.ShortNamesAreNotCut | app/utils/file_utils.py:86-90 | a name of at most 255 characters is only cleaned, never cut, so it has no space or dot at either end |
| FileUtils.SafeFilenameKeepsSafeNames | app/utils/file_utils.py:61-92 | a name that is already safe comes back unchanged |
| FileUtils.SafeFilenameAgrees | app/utils/file_utils.py:86-90 | the corrected and the as-written definitions agree on every name whose extension fits in 255 characters |
| FileUtils.CandidateInjective | app/utils/file_utils.py:119 | different counters give different alternative names |
| FileUtils.JoinPathInjective | app/utils/file_utils.py:111-120 | joining different names to one directory gives different paths |
| FileUtils.CreateUniqueFilename | app/utils/file_utils.py:99-128 | a free name comes back unchanged; otherwise the result is the alternative with the least counter from 1 whose path is free, and every smaller counter's path is taken |
| FileUtils.UniqueNameIsFree | app/utils/file_utils.py:116-124 | for a name without separators, nothing exists yet under the returned name |
| FileUtils.LowerAll | app/utils/file_utils.py:322 | the lower-cased allow-list has one entry per allowed extension, each lower-cased |
| FileUtils.ValidateFilePath | app/utils/file_utils.py:297-336 | a path is valid exactly when it names a non-empty regular file of at most 100 MiB whose lower-cased suffix is in the lower-cased allow-list, the list being skipped when absent or empty; otherwise the message is that of the first failing check |
| FileUtils.ValidateFilePathExtensionRule | app/utils/file_utils.py:320-323 | an empty allow-list behaves like none, and lower-casing the allow-list does not change the verdict |
| FileUtils.CopyFileSafe | app/utils/file_utils.py:212-246 | a copy reports success exactly when the source exists, differs from the destination, and the copy has the source's size; the source is never changed and only the destination may be written |
| FileUtils.MoveFileSafe | app/utils/file_utils.py:249-274 | a move reports success exactly when the copy succeeded and the source was unlinked, and then the source is gone and the destination has its size; the source only disappears after a successful copy |
| Files.WriteThenRemove | app/api/v1/endpoints/tracking.py:563-583 | writing a file and then unlinking it leaves the disk as unlinking alone would |
| Files.RemoveAbsent | app/api/v1/endpoints/tracking.py:580-585 | unlinking a path that is absent leaves the disk unchanged |
| Paths.LastIndexOf | app/services/tracking_service.py:289 | the index is -1 or holds the character, and no later index holds it |
| Paths.Name | app/services/tracking_service.py:59 | the final component has no separator, ends the path, and is the whole path when there is no separator |
| Paths.JoinPath | app/utils/file_utils.py:111 | a directory joined with a separator-free name has that name as its final component |
| Paths.ExtIndex | app/api/v1/endpoints/tracking.py:380 | the cut is at a dot of the final component with neither dot nor separator after it and something other than dots before it, or at the end when there is none |
| Paths.SplitExt | app/utils/file_utils.py:88 | root and extension concatenate to the path; the extension is empty or a dot followed by neither dots nor separators |
| Paths.Suffix | app/services/tracking_service.py:289 | the suffix is empty or a dot and at least one more character, free of dots and separators, ending the final component |
| Paths.SuffixAgreesWithSplitExt | app/services/tracking_service.py:289 | the two extension rules agree on every path whose final component neither starts nor ends with a dot |
| Paths.LeadingDotsDisagree | app/services/tracking_service.py:289 | for "..jpg" one rule sees no extension and the other sees ".jpg" |
| Paths.TrailingDotDisagrees | app/services/tracking_service.py:289 | for "a." one rule sees the extension "." and the other sees none |
| Paths.NameOfLower | app/services/tracking_service.py:289 | lower-casing a path lower-cases its final component and nothing else |
| Paths.SuffixOfLower | app/services/tracking_service.py:289 | the suffix of a lower-cased path is the lower-cased suffix |
| Paths.SplitExtOfLower | app/api/v1/endpoints/tracking.py:380 | the extension of a lower-cased path is the lower-cased extension |
| Strings.StripBy | app/utils/file_utils.py:80 | the result is made of characters of the input, starts and ends with a kept character, and an input with nothing to strip comes back unchanged |
| Strings.Strip | app/services/status_service.py:257 | the stripped text is no longer than the input and neither starts nor ends with whitespace |
| Strings.Lower | app/services/tracking_service.py:289 | lower-casing keeps the length and maps each character on its own |
| Strings.LowerIdempotent | app/core/config.py:90 | lower-casing twice is lower-casing once |
| Strings.IndexOf | app/services/status_service.py:260 | the index is -1 exactly when the character is absent, and otherwise is its first occurrence |
| Strings.SliceTo | app/utils/file_utils.py:90 | a slice bound counts from the end when negative and is clamped to the string |
| Strings.ReplaceChar | app/utils/file_utils.py:77 | every occurrence of the character is replaced and nothing else changes |
| Strings.Split | app/services/status_service.py:257 | there is at least one piece and no piece holds the separator |
| Strings.JoinSplit | app/services/status_service.py:257 | joining the pieces of a split with the separator restores the text |
| Strings.SplitJoin | app/services/status_service.py:257 | splitting a join restores the pieces when no piece holds the separator |
| Strings.Words | app/api/v1/endpoints/chat.py:298 | every piece of a whitespace split is a non-empty run of non-space characters |
| Strings.NatToString | scripts/convert_diagrams_to_pdf.py:44 | the decimal form of a number is a non-empty run of digits without a leading zero |
| Strings.IntToString | app/api/v1/endpoints/tracking.py:480 | a negative number prints as a minus sign followed by digits, a non-negative one as digits |
| Strings.NatToStringRoundTrip | scripts/convert_diagrams_to_pdf.py:44 | reading back the decimal form of a number gives the number |
| Strings.NatToStringInjective | scripts/convert_diagrams_to_pdf.py:195-198 | different numbers print differently |
| Mermaid.FirstClosing | scripts/simple_pdf_converter.py:71 | the closing search stops at the first line opening with a fence, and no line before it does |
| Mermaid.SkipBlankLinesIsSuffix | scripts/simple_pdf_converter.py:71 | the whitespace after the opening fence swallows a run of blank lines and nothing more: what is kept is the rest of the lines, from a non-blank one on |
| Mermaid.MatchAt | scripts/simple_pdf_converter.py:71-72 | a match starts only at an opening line, its body has at least one line and no line after the first that could close it, and it leaves fewer lines to search than it was given |
| Mermaid.Bodies | scripts/simple_pdf_converter.py:70-72 | every block found has at least one body line |
| Mermaid.ExtractMermaidBlocks | scripts/simple_pdf_converter.py:63-82 | one diagram per block found, numbered from 1 in document order, each with the stem `diagram_<n>` and its body joined and stripped as code |
| Mermaid.DiagramNamesDistinct | scripts/simple_pdf_converter.py:79 | two diagrams of one document never share a file stem |
| Mermaid.ProseIsSkipped | scripts/simple_pdf_converter.py:71-72 | lines that open no block contribute no block |
| Mermaid.FenceIsExtracted | scripts/simple_pdf_converter.py:71-72 | a fenced block with a non-blank line and no line that could close it early is found with its lines from the first non-blank one on, and the search goes on after its closing fence |
| Mermaid.BodiesOfRendered | scripts/simple_pdf_converter.py:71-72 | from a document of prose and fenced blocks laid out line by line, each block with a non-blank line, extraction finds the fenced bodies in order, each without the blank lines the whitespace after the opening fence swallows |
| Mermaid.CodeSkipsBlankLines | scripts/simple_pdf_converter.py:75 | dropping a block's leading blank lines does not change its stripped code |
| Mermaid.ExtractFromDocument | scripts/simple_pdf_converter.py:63-82 | written out as text, such a document yields one diagram per fenced block, numbered from 1, whose code is the block's text stripped |
| Mermaid.BlankBlockSwallowsNext | scripts/simple_pdf_converter.py:71-72 | a document of two fenced blocks, the first holding only a blank line, yields a single block whose body is the three backticks that closed the first block, numbered as diagram 1 with that code |
| Mermaid.BlankBlockAlone | scripts/simple_pdf_converter.py:71-72 | a block whose only line is blank, with no fence after it, is found with that blank line as its body |
| Mermaid.TitleOfHeader | scripts/simple_pdf_converter.py:251-256 | a header line never gives the fallback title |
| Mermaid.HeaderTitle | scripts/simple_pdf_converter.py:249-256 | the title of a header line, stripped first, is never the fallback title |
| Mermaid.FallbackIffNoneDecides | scripts/simple_pdf_converter.py:248-257 | a first-match scan returns its fallback exactly when no line matches, as long as no match gives the fallback |
| Mermaid.FirstDecidingLineWins | scripts/simple_pdf_converter.py:248-256 | a first-match scan answers with the verdict of the first matching line |
| Mermaid.FallbackIffNoHeader | scripts/simple_pdf_converter.py:245-257 | the title is "Flow Diagram" exactly when no stripped line of the code starts with `graph`, `flowchart` or `sequenceDiagram` |
| Mermaid.TitleIsFirstHeader | scripts/simple_pdf_converter.py:248-256 | otherwise the title is the one the first such line gives |
| Mermaid.TitleIgnoresLaterLines | scripts/simple_pdf_converter.py:248-256 | the lines after the first header line have no say in the title |
| Mermaid.RightToLeftGraphIsSequence | scripts/simple_pdf_converter.py:250-256 | "graph RL" has no direction word the check looks for, so it is titled "Sequence Diagram" |
| Mermaid.CountWhere | scripts/simple_pdf_converter.py:272-277 | a count of diagrams never exceeds the number of diagrams |
| Mermaid.CountPositiveIffSome | scripts/simple_pdf_converter.py:282 | the count is positive exactly when some diagram qualifies |
| Mermaid.CountMonotone | scripts/convert_diagrams_to_pdf.py:191-207 | a stricter condition never counts more diagrams |
| SimplePdfConverter.ConvertToPdf | scripts/simple_pdf_converter.py:259-286 | the browser is started exactly when the document has a diagram; the count is the number of diagrams that printed, and the run succeeds exactly when one did |
| SimplePdfConverter.CountPrinted | scripts/simple_pdf_converter.py:272-282 | the loop counts exactly the diagrams that printed, and the count is positive exactly when one did |
| DiagramsToPdf.HtmlTitlesDistinct | scripts/convert_diagrams_to_pdf.py:195-198 | different diagrams get different page titles |
| DiagramsToPdf.ConvertToPdf | scripts/convert_diagrams_to_pdf.py:173-212 | the PDFs produced are the diagrams whose SVG and PDF steps both succeeded; the run succeeds exactly when one did; a page is written, titled by its number, exactly for each diagram whose SVG step succeeded |
| DiagramsToPdf.ConvertAll | scripts/convert_diagrams_to_pdf.py:184-207 | the loop writes a page for each diagram whose SVG step succeeded, and counts those whose PDF step succeeded as well |
| ModernPdf.Heading | create_modern_pdf.py:14-17 | a heading element starts with `<`, so it never starts with a hash sign |
| ModernPdf.MapHeaderOne | create_modern_pdf.py:14-17 | a substitution keeps the line count and rewrites each line on its own |
| ModernPdf.LeadingHashes | create_modern_pdf.py:14-17 | the count covers exactly the run of hash signs a line opens with |
| ModernPdf.PrefixIffLevel | create_modern_pdf.py:14-17 | a line starts with the level-`n` pattern exactly when it opens with exactly `n` hash signs followed by a space |
| ModernPdf.HeadingIsNoPrefix | create_modern_pdf.py:14-17 | no heading produced by one substitution matches any of the four patterns |
| ModernPdf.PassAtLevel | create_modern_pdf.py:14-17 | the level-`n` substitution rewrites a line exactly when a reader would give it level `n`, and then as the reader would |
| ModernPdf.HeadingStays | create_modern_pdf.py:14-17 | once a line is a heading, the later substitutions leave it alone |
| ModernPdf.FourPassesFollowRule | create_modern_pdf.py:14-17 | the four substitutions in a row turn a line of one to four hash signs and a space into a heading of that level holding the rest of the line, and leave every other line alone |
| ModernPdf.NoBreakInHeaderOne | create_modern_pdf.py:14-17 | a substitution never introduces a line break |
| ModernPdf.PassLines | create_modern_pdf.py:14-17 | on the whole text, one substitution is that substitution applied line by line |
| ModernPdf.HeadersFollowRule | create_modern_pdf.py:13-17 | after the header substitutions the text has the same lines, each what the heading rule says |
| ModernPdf.FiveHashesStay | create_modern_pdf.py:14-17 | a line of five hash signs and a space is not a heading |
| ModernPdf.StripAll | create_modern_pdf.py:40 | one stripped line per input line |
| ModernPdf.InCodeIffOpenBlock | create_modern_pdf.py:36-44 | code mode holds before a line exactly when some earlier line opens a `<pre>` block and no line since then opens or closes one |
| ModernPdf.ParagraphPass | create_modern_pdf.py:34-49 | the output has one line per input line; each is the stripped input line, wrapped in a paragraph exactly when it lies outside a `<pre>` block, is non-empty and starts with neither `<` nor `---` |
| ModernPdf.ParagraphLoop | create_modern_pdf.py:39-47 | the loop emits one line per stripped line, each as the paragraph rule gives it under the code-mode flag of the lines before it |
| ModernPdf.EmitLine | create_modern_pdf.py:40-47 | one turn of the loop: the emitted line follows the paragraph rule, and the flag is set by `<pre>`, cleared by `</pre>` and otherwise kept |
| ModernPdf.MarkersAreMarkup | create_modern_pdf.py:41-46 | block markers are emitted unchanged, and any other line is wrapped exactly when it is outside code, non-empty and starts with neither `<` nor `---` |
| ModernPdf.StripFixes | create_modern_pdf.py:40 | a text with no whitespace at either end strips to itself |
| ModernPdf.ParagraphIsMarkup | create_modern_pdf.py:41-46 | a paragraph neither opens nor closes a block and is never wrapped again |
| ModernPdf.MarkersKept | create_modern_pdf.py:41-46 | an emitted line opens or closes a block exactly when its input did |
| ModernPdf.SameFlags | create_modern_pdf.py:36-44 | the code-mode flag depends only on which lines open or close a block |
| ModernPdf.EmittedLinesAreStripped | create_modern_pdf.py:40-47 | every emitted line strips to itself |
| ModernPdf.ParagraphPassIdempotent | create_modern_pdf.py:34-49 | running the paragraph pass again on its own output changes nothing |
| ModernPdf.StripTwice | create_modern_pdf.py:40 | stripping twice is stripping once |
| ImageUtils.Truncate | app/utils/image.py:210-211 | `int()` of a float truncates toward zero |
| ImageUtils.PaddedBox | app/utils/image.py:209-217 | the crop box is clamped to the picture: its left and upper edges are at least 0, its right and lower edges at most the picture's size |
| ImageUtils.Crop | app/utils/image.py:220 | the crop has the box's size, and each of its pixels is the picture's pixel at the same place relative to the box |
| ImageUtils.CropFace | app/utils/image.py:194-226 | a box PIL refuses gives the picture back unchanged; otherwise the result is the crop of the padded box |
| ImageUtils.PaddedBoxHoldsFace | app/utils/image.py:210-217 | with non-negative padding, the crop box holds the part of the face that lies in the picture |
| ImageUtils.FaceInsideIsCropped | app/utils/image.py:194-222 | a face inside the picture is always cut out, at least as large as the face |
| ImageUtils.PaddingTruncates | app/utils/image.py:210-217 | a 9-pixel face with 20% padding grows by one pixel on each side, not 1.8 |
| ImageUtils.FaceOutsideGivesOriginal | app/utils/image.py:214-226 | a face lying right of the picture gives a box PIL refuses, so the picture comes back whole |
| ImageUtils.ValidateImageFile | app/utils/image.py:123-159 | a file is valid exactly when it exists, decodes, has both sides between 32 and 4096 pixels and is at most 10 MiB; otherwise the message is that of the first failing check in that order |
| ImageUtils.SidesCheckedBeforeFileSize | app/utils/image.py:142-151 | a tiny picture in an oversized file is reported as too small |
| ImageUtils.ValidityFollowsContents | app/utils/image.py:123-159 | two paths with the same bytes and the same decoded size get the same verdict |
| AudioUtils.Peak | app/utils/audio.py:102 | the peak bounds every sample's magnitude and is the magnitude of some sample |
| AudioUtils.PeakIs | app/utils/audio.py:102 | a value that bounds every magnitude and is reached is the peak |
| AudioUtils.NormalizeAudio | app/utils/audio.py:91-109 | an empty or silent signal comes back unchanged; any other is divided by its peak, so every sample lies in [-1, 1] |
| AudioUtils.Scale | app/utils/audio.py:104 | each divided sample times the divisor gives back the original sample |
| AudioUtils.ScaleBounded | app/utils/audio.py:102-104 | dividing by a bound on every magnitude lands every sample in [-1, 1] |
| AudioUtils.NormalizedPeakIsOne | app/utils/audio.py:91-104 | after normalising a signal that is not silent, its peak is exactly 1 |
| AudioUtils.ScaledPeak | app/utils/audio.py:102-104 | dividing by the largest magnitude makes the largest magnitude 1 |
| AudioUtils.NormalizeIdempotent | app/utils/audio.py:91-109 | normalising twice is normalising once |
| AudioUtils.ResampleAudio | app/utils/audio.py:133-154 | the result is the input or the resampled signal, and the resampled one whenever the rates differ and resampling succeeds |
| AudioUtils.ResampleIdentity | app/utils/audio.py:145-154 | resampling to the rate the signal has, or failing to resample, returns the input |
| AudioUtils.DurationVerdict | app/utils/audio.py:178-182 | a duration passes exactly when it lies in [0.1, 300] seconds |
| AudioUtils.ValidateAudioFile | app/utils/audio.py:157-207 | a missing file is refused; a file soundfile reads is judged by duration and then a sample rate of at least 8 kHz; otherwise a file librosa reads is judged by duration alone; otherwise the read error is reported |
| AudioUtils.LibrosaSkipsRateCheck | app/utils/audio.py:184-201 | a 1-second file at 4 kHz is refused when soundfile reads it and accepted when only librosa does |
| AudioUtils.ValidFileIsProcessable | app/utils/audio.py:157-207 | a file the validator accepts is one the transcription service loads and accepts |
| AudioUtils.ServiceIgnoresSampleRate | app/utils/audio.py:184-185 | the converse fails: the service accepts a 4 kHz file the validator refuses |
| AudioUtils.KeepSpeechIsSubsequence | app/utils/audio.py:266-277 | the segments are the intervals lasting at least 0.1 s, converted to seconds, in their original order |
| AudioUtils.DetectSpeechSegments | app/utils/audio.py:244-283 | a split failure or a zero rate gives no segments; otherwise the segments are the kept intervals in seconds |
| AudioUtils.SegmentsStayOrdered | app/utils/audio.py:266-277 | with a positive rate, intervals that start in order give segments that start in order |
| SttService.DurationOf | app/services/stt_service.py:77 | the duration exists exactly when the sample rate is non-zero, and then it is non-negative and times the rate gives the frame count |
| SttService.LoadAudio | app/services/stt_service.py:74-93 | soundfile's reading wins when it succeeds, with its channel count; otherwise librosa's, always mono; loading fails exactly when both fail, with an "audio loading" error carrying both texts |
| SttService.ProcessAudioFile | app/services/stt_service.py:67-115 | a file is accepted exactly when it exists, loads and lasts between 0.1 and 300 seconds inclusive, and then its info has its name, size, duration, rate, channels and suffix; a missing file is a "processing" error and a bad duration a "validation" error |
| SttService.ChannelsOfLoad | app/services/stt_service.py:76-87 | soundfile's channel count wins whenever soundfile reads the file; the librosa fallback always reports mono |
| SttService.DurationBoundsAccepted | app/services/stt_service.py:96-100 | exactly 0.1 s and exactly 300 s are accepted, and a frame fewer than 0.1 s is refused |
| SttService.PerformTranscription | app/services/stt_service.py:117-150 | Whisper hears the preprocessed copy when there is one; its text is stripped and its confidence kept; a failure is a "whisper transcription" error; the copy is unlinked after a successful call |
| SttService.PreprocessedCopyRemoved | app/services/stt_service.py:128-133 | a preprocessed copy that was not on the disk before is gone again after a successful transcription |
| SttService.FailedTranscriptionKeepsCopy | app/services/stt_service.py:121-150 | when Whisper raises, the preprocessed copy is left on the disk |
| SttService.TranscribeAudio | app/services/stt_service.py:31-65 | transcription succeeds exactly when Whisper is loaded, the file is accepted, Whisper succeeds and its confidence lies in [0, 1]; the response carries the stripped text, the language, the confidence and the file's duration; every failure is a "transcription" error carrying the inner error's text |
| SttService.TranscriptionLanguage | app/services/stt_service.py:48-57 | the request's language is the one reported, and Arabic when there is no request |
| SttService.PreprocessingFallsBack | app/services/stt_service.py:152-177 | when preprocessing fails, Whisper hears the original file |
| SttService.ValidateAudioFormat | app/services/stt_service.py:182-186 | an accepted name has a suffix of a dot and three or four letters |
| SttService.AudioFormatShape | app/services/stt_service.py:180 | each supported audio format is a dot and three or four letters |
| SttService.AudioFormatIgnoresCase | app/services/stt_service.py:185 | the format check gives the same answer for a name and its lower-cased form |
| SttService.GetAudioInfo | app/services/stt_service.py:188-194 | the info is that of the file processing, and every failure becomes an "audio info" error |
| SttApi.TranscribeLadder | app/api/v1/endpoints/stt.py:304-328 | an upload passes exactly when it has a non-empty name, is at most 25 MiB and has an allowed lower-cased extension; otherwise the first failing check, in that order, decides the 400 and its message |
| SttApi.ServiceLanguage | app/api/v1/endpoints/stt.py:341-344 | the service is never asked for "auto", and any other language passes unchanged |
| SttApi.TranscribeEndpoint | app/api/v1/endpoints/stt.py:181-368 | without Whisper the answer is the guard's 503; a refused upload writes nothing and answers its 400; otherwise the answer is the transcription outcome, with an audio-processing error as a 400 carrying its text |
| SttApi.TranscriptionFailureIs400 | app/api/v1/endpoints/stt.py:358-362 | past the guard and the checks, every failed transcription is a 400 naming "transcription", never the 503 |
| SttApi.AutoIsArabic | app/api/v1/endpoints/stt.py:341-344 | "auto" is transcribed, and reported, as Arabic |
| SttApi.TranscribeCleansUp | app/api/v1/endpoints/stt.py:330-356 | with no preprocessed copy left behind, the disk ends the request as it began |
| SttApi.AudioInfoEndpoint | app/api/v1/endpoints/stt.py:371-415 | an unsupported or missing name writes nothing and answers 500; otherwise the temporary file is written, analysed and removed, and the report describes the temporary file; an analysis failure is a 422 |
| SttApi.AudioInfoIgnoresUploadName | app/api/v1/endpoints/stt.py:394-401 | two accepted uploads with the same bytes get the same answer whatever their names |
| SttApi.ValidateEndpoint | app/api/v1/endpoints/stt.py:429-464 | a file is valid exactly when its format is supported and it is at most 50 MiB; a missing name is a failure |
| SttApi.ValidateAcceptsWhatTranscribeRefuses | app/api/v1/endpoints/stt.py:314-317 | a file of 25 to 50 MiB is valid for `/validate` but refused by `/transcribe` as too large |
| SttApi.FormatListsAgree | app/api/v1/endpoints/stt.py:321 | the endpoint's allowed extensions are exactly the service's supported formats |
| SttApi.FormatRulesAgree | app/api/v1/endpoints/stt.py:322 | for names whose last component neither starts nor ends with a dot, the endpoint's extension rule and the service's format check agree |
| Uploads.ValidateUpload | app/api/v1/endpoints/tracking.py:606-641 | a missing name is a 500; otherwise the report gives the name and size, whether each check passed, and valid exactly when both did |
| StatusService.KeyValue | app/services/status_service.py:259-262 | a line yields a key and a value exactly when it holds a colon |
| StatusService.ApplyLinesSnoc | app/services/status_service.py:258-274 | reading one more line is one more step of the parser's loop |
| StatusService.ApplyLinesIsLastWins | app/services/status_service.py:258-274 | the parser's loop gives each field the value of the last line naming it (mood, gender and age lower-cased, confidence from the last line whose number parses), and keeps the earlier value otherwise |
| StatusService.LastWinsSnoc | app/services/status_service.py:258-274 | one more line updates the last-line-wins result as one step of the loop does |
| StatusService.ParseOllamaResponse | app/services/status_service.py:247-285 | the parsed reply is the defaults overridden field by field by the last line naming each field |
| StatusService.LineWithoutColonIgnored | app/services/status_service.py:259 | a line without a colon changes nothing |
| StatusService.NoColonGivesDefaults | app/services/status_service.py:250-259 | a reply in which no line holds a colon yields neutral, unknown, adult and 0.5 |
| StatusService.ConfidenceLine | app/services/status_service.py:270-274 | a confidence line whose number does not parse keeps the previous value, and a parsed one is stored as it is, without clamping |
| StatusService.KeysDiffer | app/services/status_service.py:264-270 | the four recognised keys are distinct |
| StatusService.ColonSplit | app/services/status_service.py:260-262 | a line is cut at its first colon, so a value may hold colons; the key is stripped and lower-cased and the value stripped |
| StatusService.PromptLines | app/services/status_service.py:193-217 | the prompt is the fixed head, then the requested hints, then the fixed format block |
| StatusService.PromptHints | app/services/status_service.py:202-206 | each hint is in the prompt exactly when its flag is set |
| StatusService.HintsAreNotFixedLines | app/services/status_service.py:195-216 | neither hint is one of the fixed lines, and the two hints differ |
| StatusService.ValidateImageFormat | app/services/status_service.py:394-397 | an accepted name has a suffix of a dot and three or four letters |
| StatusService.ImageFormatShape | app/services/status_service.py:392 | each supported image format is a dot and three or four letters |
| StatusService.ImageFormatIgnoresCase | app/services/status_service.py:396 | the format check gives the same answer for a name and its lower-cased form |
| StatusService.AnalyzePersonStatus | app/services/status_service.py:40-71 | analysis succeeds exactly when Ollama is available and the image decodes, and then reports the drawn mood, gender, age and confidence; every failure is a "status analysis" error carrying the inner text |
| StatusApi.AnalyzeLadder | app/api/v1/endpoints/status.py:456-487 | an upload passes exactly when it has a non-empty name, is at most 10 MiB, has an allowed lower-cased extension and names one of the three depths; otherwise the first failing check, in that order, decides the 400 and its message, whose list of allowed values comes in the order the set iterates |
| StatusApi.AnalyzeEndpoint | app/api/v1/endpoints/status.py:224-523 | behind the Ollama guard and the checks, the answer is the analysis, and it succeeds exactly when the image decodes; an image-processing error becomes a 400 |
| StatusApi.AnalyzeDetailedStatus | app/services/status_service.py:73-101 | detailed analysis succeeds exactly when the image decodes and Ollama answers, and returns that answer; every failure is a "detailed analysis" error |
| StatusApi.AnalyzeDetailedHandler | app/api/v1/endpoints/status.py:527-581 | the handler succeeds exactly when the name is present and supported, the image is at most 10 MiB and the analysis succeeds; its own 400 and 413 reach the client as 500s, and a service failure as a 422 |
| StatusApi.DetailedTooLargeIs500 | app/api/v1/endpoints/status.py:568-581 | the handler's own size check surfaces as a 500 whose detail quotes the 413 |
| StatusApi.DetailedServiceFailureIs422 | app/api/v1/endpoints/status.py:576-578 | a failure inside the service, once the checks pass, is a 422 for "detailed analysis" |
| StatusApi.AnalyzeDetailedEndpoint | app/api/v1/endpoints/status.py:526-581 | without Ollama the answer is the guard's 503, and otherwise the handler's |
| StatusApi.ValidateEndpoint | app/api/v1/endpoints/status.py:715-750 | an image is valid exactly when its format is supported and it is at most 10 MiB; a missing name is a failure |
| StatusApi.ImageFormatRulesAgree | app/api/v1/endpoints/status.py:473 | for names whose last component neither starts nor ends with a dot, the endpoint's extension rule and the service's format check agree |
| StatusApi.ImageFormatListsAgree | app/api/v1/endpoints/status.py:472 | the endpoint's allowed extensions are exactly the service's supported formats |
| TtsService.DefaultTtsRequest | app/schemas/tts.py:9-14 | a request built from text alone is Arabic, has no voice and normal speed, and is valid exactly when the text has 1 to 1000 characters |
| TtsService.DefaultTtsResponse | app/schemas/tts.py:27-32 | an empty response carries only the 22050 Hz sample rate and meets the non-negativity bounds |
| TtsService.DefaultStreamingRequest | app/schemas/tts.py:45-49 | a streaming request built from text alone is Arabic with 1024-byte chunks, and is valid exactly when the text has 1 to 1000 characters |
| TtsService.DefaultStreamingResponse | app/schemas/tts.py:52-58 | a streaming message built from its type alone has no payload, index or metadata and is not final |
| TtsService.Slice | app/services/tts_service.py:182 | a slice whose upper bound runs past the end stops at the end, and holds the bytes from the lower bound on |
| TtsService.SliceShift | app/services/tts_service.py:181-182 | slicing after dropping a prefix is slicing the whole buffer further along |
| TtsService.ChunkCountBound | app/services/tts_service.py:181 | the loop visits chunk j exactly when j times the chunk size is below the byte count |
| TtsService.AudioChunksCount | app/services/tts_service.py:179-194 | the stream sends one chunk per step of the loop, that is the byte count divided by the chunk size rounded up |
| TtsService.AudioChunkAt | app/services/tts_service.py:179-194 | chunk j carries the j-th slice of chunk-size bytes, is numbered j from the start, and is final exactly when the next slice would start at or past the end |
| TtsService.AudioChunkShape | app/services/tts_service.py:179-194 | every chunk carries between one and chunk-size bytes, chunks are numbered in sequence, and only the last one is final |
| TtsService.ChunkBytesAppend | app/services/tts_service.py:179-194 | the bytes carried by two runs of messages are the bytes of the first followed by those of the second |
| TtsService.AudioChunksRejoin | app/services/tts_service.py:179-194 | joining the chunks in order gives back the audio bytes exactly |
| TtsService.ErrorMessage | app/services/tts_service.py:205-211 | a failed stream's message is an error, is final, and carries the exception's text |
| TtsService.TotalChunksOffByOne | app/services/tts_service.py:174-181 | the announced total exceeds the chunks sent by one exactly when the chunk size divides the byte count (the empty buffer included), and equals it otherwise |
| TtsService.TotalChunksCounterexample | app/services/tts_service.py:174-181 | 1024 bytes in 1024-byte chunks are announced as two chunks and sent as one; no bytes are announced as one chunk and sent as none |
| TtsService.StreamSynthesis | app/services/tts_service.py:155-211 | every stream ends with a final message; a failed synthesis yields only an error message quoting the wrapped "TTS synthesis" error, and a missing chunk size only the floor-division error |
| TtsService.StreamSynthesisCorrected | app/services/tts_service.py:155-211 | the stream with the corrected total likewise always ends with a final message |
| TtsService.StreamOfShape | app/services/tts_service.py:167-203 | a successful stream is the metadata message (22050 Hz, one channel, samples over 22050 as the duration), then the chunks, then a final completion message; the bytes it carries are the audio bytes |
| TtsService.CorrectedStreamCountsChunks | app/services/tts_service.py:174-194 | with the corrected total, the metadata announces exactly the number of chunks that follow |
| TtsService.StreamAnnouncesExtraChunk | app/services/tts_service.py:174-194 | the stream as written announces the right number of chunks exactly when the chunk size does not divide the byte count |
| TtsService.AdjustSpeed | app/services/tts_service.py:95-115 | audio at normal speed, or with no speed given, is left as it is; otherwise it is the time-stretched audio, or the original when stretching fails |
| TtsService.SynthesizeAudio | app/services/tts_service.py:67-103 | synthesis writes a file exactly when the speaker reference exists and the engine produces audio, and the file holds the speed-adjusted audio; otherwise nothing is written and the error is an "audio synthesis" error carrying the inner failure (the streamer's wrapped error, or the bare model's text) |
| TtsService.AudioInfoOf | app/services/tts_service.py:117-131 | read back, the duration times 22050 is the sample count; unreadable, the duration is 0; the rate is 22050 either way |
| TtsService.OutputFilename | app/services/tts_service.py:45 | the output name starts with "tts_", is at most 16 characters and holds no slash when the uuid text holds none |
| TtsService.SynthesizeSpeech | app/services/tts_service.py:34-65 | synthesis succeeds exactly when the TTS flag is set, the speaker reference exists and the engine produces audio; the response points at /audio/ and the written file, with the 22050 Hz rate and the elapsed time; every failure leaves the disk unchanged and is a "TTS synthesis" error |
| TtsApi.SynthesizeLadder | app/api/v1/endpoints/tts.py:310-334 | a request passes exactly when its stripped text is non-empty, its unstripped text is at most 1000 characters, its language is ar or en, and a given non-zero speed lies in [0.5, 2.0]; otherwise the first failing check, in that order, decides the 400 and its message |
| TtsApi.SchemaLeavesTwoChecks | app/api/v1/endpoints/tts.py:310-334 | on a request the schema accepted, only blank text or an unsupported language is refused |
| TtsApi.SynthesizeEndpoint | app/api/v1/endpoints/tts.py:167-351 | without the TTS model the answer is the guard's 503 and a failed check its 400; it succeeds exactly when the model is loaded, the checks pass, the speaker file exists and the engine produces audio, and then answers what the service answers; every failure leaves the disk unchanged |
| TtsApi.SynthesisFailureIsOpaque | app/api/v1/endpoints/tts.py:343-345 | once the checks pass, a missing speaker file and an engine error reach the client as the same 400 |
| TtsApi.GetAudioFile | app/api/v1/endpoints/tts.py:354-377 | a file is served exactly when it exists under uploads/audio; a missing one is a 500 that wraps the 404 |
| TtsApi.MissingAudioIs500 | app/api/v1/endpoints/tts.py:366-377 | a missing audio file is reported as a 500 whose detail still shows the inner 404 |
| TtsApi.SynthesizedAudioIsServed | app/api/v1/endpoints/tts.py:354-372 | the URL a successful synthesis returns names a file the audio endpoint then serves, holding the audio written |
| TtsApi.QuickSpeech | app/api/v1/endpoints/tts.py:446-474 | quick speech succeeds exactly when the model is loaded, the request built from the query meets the schema, the speaker file exists and the engine produces audio; every failure behind the guard is a 500 "Quick synthesis failed" |
| TtsApi.QuickSpeechSkipsLanguageCheck | app/api/v1/endpoints/tts.py:446-474 | quick speech accepts a language, such as fr, that the synthesize endpoint refuses |
| Config.Field | app/core/config.py:38-44 | a field that was given is used as it is, and a missing one is rendered as the text None |
| OrderedDicts.Dict.Get | app/services/chat_service.py:187-195 | a lookup finds a value exactly when the key is present, and then finds the stored value |
| OrderedDicts.Empty | app/services/chat_service.py:32 | a new dictionary has no keys and finds nothing |
| ChatService.Converse | app/services/chat_service.py:184-206 | any sequence of exchanges keeps the session store well formed: keys distinct and in insertion order, every key with an entry |
| ModernPdf.EmittedLineIsStripped | create_modern_pdf.py:40-46 | a stripped line comes out of the paragraph rule still stripped, wrapped or not |

## Left out

- The temporary file `NamedTemporaryFile` creates in the upload endpoint is always written; only the service's own write of the stored copy can fail in the model.
- Video decoding, YOLO inference and BoostTrack are not modelled. Their results are inputs instead: per-frame reads, detector boxes or a detector failure, and tracker targets or the text of a tracker exception.
- The misuse of `tracker_instance` in `app/services/model_manager.py:156` is left out. The tracker is an input, so its construction is not modelled beyond the flag it sets.
- Wall-clock times (`processing_time`, `created_at`, `completed_at`, `last_activity`), `uuid4` and `random` are parameters: a clock reading, a fresh id, a drawn analysis. The tracking result's `processing_time` (always close to 0 as written) is not modelled.
- FastAPI routing, `UploadFile` reads, dependency injection and asyncio scheduling are not modelled. Each endpoint is a function of its inputs, with its model guard applied first. The order in which a Python set of allowed values is joined into an error message depends on string hashing, so each message takes that listing as a parameter.
- The WebSocket endpoints `/tts/stream` and `/stt/stream` are not modelled. The chunk sequence a TTS stream sends is modelled, as `TtsService.StreamSynthesis`.
- The JSON serialisation of chat stream events is not modelled: it is an encoder passed in as a parameter. The `data: …\n\n` framing around it is modelled.
- The base64 encoding of audio chunks is not modelled. Chunks carry raw bytes.
- The int16 rendering `(audio * 32767).astype(np.int16)` is not modelled. The audio bytes are an input.
- Calls to Ollama, Whisper, XTTS, librosa, soundfile, PIL, OpenCV and torch are not modelled, and neither is the JSON parsing of detailed model replies (`_parse_detailed_response`). Their outcomes are parameters: success or failure, and the values they return. Audio samples are abstract, and only their count matters. The text of pydantic's validation error for an out-of-range track score is cut to its first line, "1 validation error for BoundingBox".
- Floating-point rendering is not modelled: `get_file_size_human_readable`, the rounding of progress percentages, JPEG quality and IEEE arithmetic. Frame rates, durations and timestamps are exact reals.
- The database and the product search (`_search_products`, `get_available_products`, `app/models`, `app/db`) are not modelled. A search returns a list that is a parameter.
- Filesystem walks and hashing are not modelled (`cleanup_old_files`, `get_directory_size`, `get_file_hash`, MIME detection). Neither are the other helpers of `app/utils/file_utils.py` outside the five named above.
- The health-check and capability endpoints of chat, STT, TTS, tracking and status are not modelled; they return constant dictionaries. The same goes for TTS `/voices` and `/languages`. The application-wide health check is modelled as `App.HealthCheck`.
- Chat `GET /sessions`, `POST /sessions` and `/products` are not modelled as endpoints. The first two only forward to `ChatService.GetActiveSessions` and `ChatService.CreateSession`, and `/products` queries the database.
- Status `/capture` and `/upload` are not modelled. They only store a camera frame or upload through the same validation.
- Selenium, `subprocess`, `mmdc`, `wkhtmltopdf` and `pdfkit` in the PDF scripts are not modelled. Whether each step succeeds is a parameter.
- A failure of `setup_driver` is not modelled, and neither is the driver's `quit` in `finally`: neither affects the count of diagrams converted.
- `convert_to_pdf.py` and `export_conda_env.py` are not modelled; both are thin wrappers over external tools.
- HTML template bodies are not modelled; only the titles placed in them are.
- The bold, italic, list and inline-code regular expressions of `markdown_to_html` are not modelled. Only the header rules and the paragraph pass are.
- `Path` normalisation (collapsing `//` and dropping `.` components) is not modelled. Paths are joined as text.
- `Strings.Lower` lower-cases ASCII letters only. Python's full Unicode case mapping is not modelled.
- TrackingService.ValidateVideoFormat: states only what an accepted name looks like: its suffix is a dot followed by three or four characters. That the answer is "the lower-cased suffix is one of the six formats" is stated by `TrackingApi.FormatRulesAgree` and `TrackingService.FormatIgnoresCase`.
- SttService.ValidateAudioFormat: likewise states only the shape of an accepted suffix. The full rule is given by `SttApi.FormatRulesAgree` and `SttService.AudioFormatIgnoresCase`.
- StatusService.ValidateImageFormat: likewise states only the shape of an accepted suffix. The full rule is given by `StatusApi.ImageFormatRulesAgree` and `StatusService.ImageFormatIgnoresCase`.

## Findings

| source | as written | input that shows it | evidently intended | confidence | as-written member | corrected member |
|---|---|---|---|---|---|---|
| app/utils/file_utils.py:86-90 | the name is cut to `name[:255 - len(ext)] + ext`. When the extension alone exceeds 255 characters the slice bound is negative, so the result keeps the whole extension and stays over 255 characters | `"a." + "b" * 300`: its extension has 301 characters | the returned name is at most 255 characters | not executed | FileUtils.SafeFilenameAsWritten, FileUtils.LongExtensionOverflows, FileUtils.LongExtensionExample | FileUtils.SafeFilename |
| app/services/tts_service.py:174 | `total_chunks` is announced as `len(audio_bytes) // chunk_size + 1` | 1024 bytes in 1024-byte chunks: two are announced and one is sent. An empty buffer: one is announced and none is sent | the announced total equals the number of chunks the loop sends | not executed | TtsService.StreamSynthesis, TtsService.TotalChunksOffByOne, TtsService.TotalChunksCounterexample, TtsService.StreamAnnouncesExtraChunk | TtsService.StreamSynthesisCorrected, TtsService.CorrectedStreamCountsChunks |
