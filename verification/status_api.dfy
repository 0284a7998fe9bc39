/** The person-status endpoints (`app/api/v1/endpoints/status.py`):
    `POST /analyze`, `POST /analyze-detailed` and `POST /validate`. The
    model guard runs before a handler's body; form-field bounds are
    enforced by the framework, so requests arrive within them. */
module StatusApi {
  import opened Wrappers
  import opened Strings
  import opened Paths
  import opened Exceptions
  import opened ModelManagement
  import opened Deps
  import opened Uploads
  import opened StatusService

  const MAX_IMAGE_SIZE: int := 10 * 1024 * 1024

  /** The analyze endpoint's own allow-list (the same six as the service's). */
  const IMAGE_EXTENSIONS: set<string> := {".jpg", ".jpeg", ".png", ".bmp", ".tiff", ".webp"}
  const VALID_DEPTHS: set<string> := {"basic", "detailed", "comprehensive"}

  const NO_FILENAME: string := "No filename provided"
  const IMAGE_TOO_LARGE: string := "File size exceeds 10MB limit. Please upload a smaller image."
  const UNAVAILABLE: string := "Person status analysis service is temporarily unavailable. Please try again later."
  const DETAILED_PREFIX: string := "Detailed analysis failed: "
  const DETAILED_TOO_LARGE: string := "Image too large (max 10MB)"

  /** `str()` of the service's format list. */
  const IMAGE_FORMAT_LIST: string := "['.jpg', '.jpeg', '.png', '.bmp', '.tiff', '.webp']"

  /** The extension `/analyze` checks: `os.path.splitext` of the
      lower-cased name. */
  function AnalyzeExtension(filename: string): string
  {
    SplitExt(Lower(filename)).1
  }

  /** The four `/analyze` checks in order; the first that fails decides the
      400. `formats` and `depths` are the two allowed sets joined with ", ",
      in the iteration order Python's string hashing gives them. Behind the endpoint the depth check never fails: the form field's
      pattern admits only the three valid depths and answers anything else
      with a 422 before the handler runs. */
  function AnalyzeLadder(filename: Option<string>, size: int, depth: string, formats: string, depths: string)
    : (r: Option<Exception>)
    ensures r.None? <==>
      && filename.Some? && filename.value != ""
      && size <= MAX_IMAGE_SIZE
      && AnalyzeExtension(filename.value) in IMAGE_EXTENSIONS
      && depth in VALID_DEPTHS
    ensures r.Some? ==> r.value.Http? && r.value.status == HTTP_400
    ensures (filename.None? || filename == Some("")) ==> r == Some(Http(HTTP_400, NO_FILENAME))
    ensures filename.Some? && filename.value != "" && size > MAX_IMAGE_SIZE ==> r == Some(Http(HTTP_400, IMAGE_TOO_LARGE))
    ensures filename.Some? && filename.value != "" && size <= MAX_IMAGE_SIZE && AnalyzeExtension(filename.value) !in IMAGE_EXTENSIONS ==>
      StartsWith(r.value.detail, "Unsupported image format '" + AnalyzeExtension(filename.value) + "'")
    ensures (filename.Some? && filename.value != "" && size <= MAX_IMAGE_SIZE && AnalyzeExtension(filename.value) in IMAGE_EXTENSIONS
      && depth !in VALID_DEPTHS) ==>
      StartsWith(r.value.detail, "Invalid analysis depth '" + depth + "'")
  {
    if filename.None? || filename.value == "" then Some(Http(HTTP_400, NO_FILENAME))
    else if size > MAX_IMAGE_SIZE then Some(Http(HTTP_400, IMAGE_TOO_LARGE))
    else if AnalyzeExtension(filename.value) !in IMAGE_EXTENSIONS then
      var p := "Unsupported image format '" + AnalyzeExtension(filename.value) + "'";
      StartsWithAppend(p, ". Supported formats: " + formats);
      Some(Http(HTTP_400, p + (". Supported formats: " + formats)))
    else if depth !in VALID_DEPTHS then
      var p := "Invalid analysis depth '" + depth + "'";
      StartsWithAppend(p, ". Use: " + depths);
      Some(Http(HTTP_400, p + (". Use: " + depths)))
    else None
  }

  /** `POST /analyze`: the Ollama guard, the ladder, then the service, whose
      image-processing error becomes a 400 with its message. `depth` is one
      the form's pattern lets through. */
  function AnalyzeEndpoint(m: Manager, filename: Option<string>, size: nat, depth: string, formats: string, depths: string,
                           decodes: bool, draw: Analysis)
    : (r: Result<PersonStatus, Exception>)
    requires depth in VALID_DEPTHS && 0.7 <= draw.confidence <= 0.95
    ensures RequireOllamaService(m).Err? ==> r == Err(RequireOllamaService(m).error)
    ensures RequireOllamaService(m).Ok? && AnalyzeLadder(filename, size, depth, formats, depths).Some? ==>
      r == Err(AnalyzeLadder(filename, size, depth, formats, depths).value)
    ensures r.Ok? <==> IsModelAvailable(m, Ollama) && AnalyzeLadder(filename, size, depth, formats, depths).None? && decodes
    ensures r.Ok? ==> r.value == PersonStatus(draw.mood, draw.gender, draw.age, Some(draw.confidence))
    ensures r.Err? ==> r.error.Http?
    ensures RequireOllamaService(m).Ok? && AnalyzeLadder(filename, size, depth, formats, depths).None? && !decodes ==>
      r.error.status == HTTP_400 && ArgumentOf(ImageProcessing, r.error.detail) == "status analysis"
  {
    match RequireOllamaService(m)
    case Err(e) => Err(e)
    case Ok(_) =>
      match AnalyzeLadder(filename, size, depth, formats, depths)
      case Some(e) => Err(MapServiceError(e, ImageProcessing, UNAVAILABLE))
      case None =>
        match AnalyzePersonStatus(m, decodes, draw)
        case Ok(s) => Ok(s)
        case Err(e) => Err(MapServiceError(e, ImageProcessing, UNAVAILABLE))
  }

  /** `analyze_detailed_status(image_data, request)` in the service: `decodes`
      says whether the image opens and `reply` is the outcome of the
      Ollama call and the parsing of its reply. Every failure becomes an
      image-processing error for "detailed analysis". */
  function AnalyzeDetailedStatus<T>(decodes: bool, reply: Result<T, Exception>): (r: Result<T, Exception>)
    ensures r.Ok? <==> decodes && reply.Ok?
    ensures r.Ok? ==> r.value == reply.value
    ensures r.Err? ==>
      (r.error.Custom? && r.error.cls == ImageProcessing && ArgumentOf(ImageProcessing, r.error.message) == "detailed analysis")
  {
    var inner :=
      if !decodes then Some(Raise(ImageProcessing, "image processing", None))
      else if reply.Err? then Some(reply.error)
      else None;
    match inner
    case Some(e) =>
      ArgumentRoundTrip(ImageProcessing, "detailed analysis", Some([("error", Str(e))]));
      Err(Raise(ImageProcessing, "detailed analysis", Some([("error", Str(e))])))
    case None => Ok(reply.value)
  }

  /** The body of `POST /analyze-detailed`. It has no clause for
      `HTTPException`, so its own 400 and 413 reach the client as 500s. */
  function AnalyzeDetailedHandler<T>(filename: Option<string>, size: nat, decodes: bool, reply: Result<T, Exception>)
    : (r: Result<T, Exception>)
    ensures r.Ok? <==> (filename.Some? && filename.value != ""
      && ValidateImageFormat(filename.value) && size <= MAX_IMAGE_SIZE && decodes && reply.Ok?)
    ensures r.Ok? ==> r.value == reply.value
    ensures r.Err? ==> r.error.Http? && (r.error.status == HTTP_500 || r.error.status == HTTP_422)
  {
    var check :=
      if filename.None? || filename.value == "" then Some(Http(HTTP_400, NO_FILENAME))
      else if !ValidateImageFormat(filename.value) then Some(Http(HTTP_400, "Unsupported image format. Supported: " + IMAGE_FORMAT_LIST))
      else if size > MAX_IMAGE_SIZE then Some(Http(HTTP_413, DETAILED_TOO_LARGE))
      else None;
    match check
    case Some(e) => Err(MapProcessingError(e, ImageProcessing, DETAILED_PREFIX))
    case None =>
      match AnalyzeDetailedStatus(decodes, reply)
      case Ok(v) => Ok(v)
      case Err(e) => Err(MapProcessingError(e, ImageProcessing, DETAILED_PREFIX))
  }

  /** The handler's own size check surfaces as a 500 whose detail quotes the 413. */
  lemma DetailedTooLargeIs500<T>(filename: string, size: nat, decodes: bool, reply: Result<T, Exception>)
    requires filename != "" && ValidateImageFormat(filename) && size > MAX_IMAGE_SIZE
    ensures AnalyzeDetailedHandler(Some(filename), size, decodes, reply) ==
      Err(Http(HTTP_500, DETAILED_PREFIX + Str(Http(HTTP_413, DETAILED_TOO_LARGE))))
  {
  }

  /** A failure inside the service, once the checks pass, is a 422 for
      "detailed analysis". */
  lemma DetailedServiceFailureIs422<T>(filename: string, size: nat, decodes: bool, reply: Result<T, Exception>)
    requires filename != "" && ValidateImageFormat(filename) && size <= MAX_IMAGE_SIZE
    requires !(decodes && reply.Ok?)
    ensures var r := AnalyzeDetailedHandler(Some(filename), size, decodes, reply);
      r.Err? && r.error.status == HTTP_422 && ArgumentOf(ImageProcessing, r.error.detail) == "detailed analysis"
  {
    var s := AnalyzeDetailedStatus(decodes, reply);
    assert s.Err?;
    var e := s.error;
    assert e.Custom? && e.cls == ImageProcessing && ArgumentOf(ImageProcessing, e.message) == "detailed analysis";
    assert MapProcessingError(e, ImageProcessing, DETAILED_PREFIX) == Http(HTTP_422, e.message);
    assert AnalyzeDetailedHandler(Some(filename), size, decodes, reply) == Err(Http(HTTP_422, e.message)) by {
      assert !(Some(filename).None? || filename == "");
      assert !(size > MAX_IMAGE_SIZE);
    }
  }

  /** `POST /analyze-detailed`: the Ollama guard, then the handler. */
  function AnalyzeDetailedEndpoint<T>(m: Manager, filename: Option<string>, size: nat, decodes: bool, reply: Result<T, Exception>)
    : (r: Result<T, Exception>)
    ensures RequireOllamaService(m).Err? ==> r == Err(Http(HTTP_503, OLLAMA_UNAVAILABLE))
    ensures IsModelAvailable(m, Ollama) ==> r == AnalyzeDetailedHandler(filename, size, decodes, reply)
  {
    match RequireOllamaService(m)
    case Err(e) => Err(e)
    case Ok(_) => AnalyzeDetailedHandler(filename, size, decodes, reply)
  }

  /** `POST /validate`: valid iff the service accepts the format and the
      image is at most 10 MiB. */
  function ValidateEndpoint(filename: Option<string>, size: nat): (r: Result<ValidationReport, Exception>)
    ensures r.Err? <==> filename.None?
    ensures r.Ok? ==> (r.value.valid <==> ValidateImageFormat(filename.value) && size <= MAX_IMAGE_SIZE)
  {
    ValidateUpload(filename, size, ValidateImageFormat, MAX_IMAGE_SIZE)
  }

  /** The two analyze endpoints apply different extension rules, which
      agree on names whose final component neither starts nor ends with
      a dot. */
  lemma ImageFormatRulesAgree(filename: string)
    requires |Name(filename)| > 0 ==> Name(filename)[0] != '.' && Name(filename)[|Name(filename)| - 1] != '.'
    ensures AnalyzeExtension(filename) in IMAGE_EXTENSIONS <==> ValidateImageFormat(filename)
  {
    var ext := Lower(Suffix(filename));
    assert AnalyzeExtension(filename) == ext by {
      SplitExtOfLower(filename);
      SuffixAgreesWithSplitExt(filename);
    }
    assert ValidateImageFormat(filename) == (ext in IMAGE_FORMATS);
    ImageFormatListsAgree(ext);
  }

  /** The endpoint's set and the service's list hold the same extensions. */
  lemma ImageFormatListsAgree(ext: string)
    ensures ext in IMAGE_EXTENSIONS <==> ext in IMAGE_FORMATS
  {
  }
}
