/** The deterministic parts of the person-status service
    (`app/services/status_service.py`): the line-based reply parser, the
    basic analysis prompt, the image-format check, and the outcome of the
    basic analysis, whose result is a random draw supplied as input. */
module StatusService {
  import opened Wrappers
  import opened Strings
  import opened Paths
  import opened Exceptions
  import opened ModelManagement

  /** The four fields the basic analysis reports. */
  datatype Analysis = Analysis(mood: string, gender: string, age: string, confidence: real)

  const MOOD_KEY: string := "mood"
  const GENDER_KEY: string := "gender"
  const AGE_KEY: string := "age"
  const CONFIDENCE_KEY: string := "confidence"

  /** What the parser reports for a reply it recognises nothing in. */
  const DEFAULT_ANALYSIS: Analysis := Analysis("neutral", "unknown", "adult", 0.5)

  // ------------------------------------------------------------ the parser

  /** `line.split(':', 1)`, with the key stripped and lower-cased and the
      value stripped; `None` for a line without a colon. */
  function KeyValue(line: string): (r: Option<(string, string)>)
    ensures r.None? <==> ':' !in line
  {
    var i := IndexOf(line, ':');
    if i < 0 then None else Some((Lower(Strip(line[..i])), Strip(line[i + 1..])))
  }

  /** The effect of one reply line on the result so far. `toFloat` is
      Python's `float()` on a stripped value, `None` where it raises
      `ValueError`. */
  function ApplyLine(a: Analysis, line: string, toFloat: string -> Option<real>): Analysis
  {
    match KeyValue(line)
    case None => a
    case Some((key, value)) =>
      if key == MOOD_KEY then a.(mood := Lower(value))
      else if key == GENDER_KEY then a.(gender := Lower(value))
      else if key == AGE_KEY then a.(age := Lower(value))
      else if key == CONFIDENCE_KEY then
        match toFloat(value)
        case None => a
        case Some(x) => a.(confidence := x)
      else a
  }

  /** The parser's loop over the reply lines, first to last. */
  function ApplyLines(a: Analysis, lines: seq<string>, toFloat: string -> Option<real>): Analysis
    decreases |lines|
  {
    if |lines| == 0 then a else ApplyLines(ApplyLine(a, lines[0], toFloat), lines[1..], toFloat)
  }

  /** The stripped value on the last line whose key is `key`, if any. */
  function LastValue(lines: seq<string>, key: string): (r: Option<string>)
    decreases |lines|
  {
    if |lines| == 0 then None
    else
      var kv := KeyValue(lines[|lines| - 1]);
      if kv.Some? && kv.value.0 == key then Some(kv.value.1)
      else LastValue(lines[..|lines| - 1], key)
  }

  /** The number on the last confidence line whose value parses, if any. */
  function LastConfidence(lines: seq<string>, toFloat: string -> Option<real>): (r: Option<real>)
    decreases |lines|
  {
    if |lines| == 0 then None
    else
      var kv := KeyValue(lines[|lines| - 1]);
      if kv.Some? && kv.value.0 == CONFIDENCE_KEY && toFloat(kv.value.1).Some? then toFloat(kv.value.1)
      else LastConfidence(lines[..|lines| - 1], toFloat)
  }

  /** A text field after the lines: lower-cased from the last line that
      sets it, else what it was before. */
  function Overridden(v: Option<string>, current: string): string
  {
    if v.Some? then Lower(v.value) else current
  }

  /** The result of reading `lines` on top of `a`, stated field by field:
      the last line naming a field decides it. */
  function LastWins(a: Analysis, lines: seq<string>, toFloat: string -> Option<real>): Analysis
  {
    Analysis(
      Overridden(LastValue(lines, MOOD_KEY), a.mood),
      Overridden(LastValue(lines, GENDER_KEY), a.gender),
      Overridden(LastValue(lines, AGE_KEY), a.age),
      LastConfidence(lines, toFloat).GetOr(a.confidence))
  }

  /** Reading one more line is one more step of the loop. */
  lemma {:induction false} ApplyLinesSnoc(a: Analysis, lines: seq<string>, line: string, toFloat: string -> Option<real>)
    ensures ApplyLines(a, lines + [line], toFloat) == ApplyLine(ApplyLines(a, lines, toFloat), line, toFloat)
    decreases |lines|
  {
    if |lines| > 0 {
      assert (lines + [line])[1..] == lines[1..] + [line];
      ApplyLinesSnoc(ApplyLine(a, lines[0], toFloat), lines[1..], line, toFloat);
    }
  }

  /** The loop computes the last-line-wins result. */
  lemma {:induction false} ApplyLinesIsLastWins(a: Analysis, lines: seq<string>, toFloat: string -> Option<real>)
    ensures ApplyLines(a, lines, toFloat) == LastWins(a, lines, toFloat)
    decreases |lines|
  {
    if |lines| > 0 {
      var init := lines[..|lines| - 1];
      var last := lines[|lines| - 1];
      assert lines == init + [last];
      ApplyLinesSnoc(a, init, last, toFloat);
      ApplyLinesIsLastWins(a, init, toFloat);
      LastWinsSnoc(a, init, last, toFloat);
    }
  }

  /** One more line updates the last-line-wins result as one step of
      the loop does. */
  lemma LastWinsSnoc(a: Analysis, init: seq<string>, last: string, toFloat: string -> Option<real>)
    ensures LastWins(a, init + [last], toFloat) == ApplyLine(LastWins(a, init, toFloat), last, toFloat)
  {
    var lines := init + [last];
    assert lines[..|lines| - 1] == init && lines[|lines| - 1] == last;
  }

  /** `_parse_ollama_response(response)`. */
  function ParseOllamaResponse(response: string, toFloat: string -> Option<real>): (r: Analysis)
    ensures r == LastWins(DEFAULT_ANALYSIS, Split(Strip(response), '\n'), toFloat)
  {
    var lines := Split(Strip(response), '\n');
    ApplyLinesIsLastWins(DEFAULT_ANALYSIS, lines, toFloat);
    ApplyLines(DEFAULT_ANALYSIS, lines, toFloat)
  }

  /** A line without a colon changes nothing. */
  lemma LineWithoutColonIgnored(a: Analysis, lines: seq<string>, line: string, toFloat: string -> Option<real>)
    requires ':' !in line
    ensures ApplyLines(a, lines + [line], toFloat) == ApplyLines(a, lines, toFloat)
  {
    ApplyLinesSnoc(a, lines, line, toFloat);
  }

  /** A reply in which no line has a colon yields the defaults. */
  lemma {:induction false} NoColonGivesDefaults(lines: seq<string>, toFloat: string -> Option<real>)
    requires forall i :: 0 <= i < |lines| ==> ':' !in lines[i]
    ensures ApplyLines(DEFAULT_ANALYSIS, lines, toFloat) == DEFAULT_ANALYSIS
    decreases |lines|
  {
    if |lines| > 0 {
      var init := lines[..|lines| - 1];
      assert lines == init + [lines[|lines| - 1]];
      LineWithoutColonIgnored(DEFAULT_ANALYSIS, init, lines[|lines| - 1], toFloat);
      NoColonGivesDefaults(init, toFloat);
    }
  }

  /** A confidence line whose value does not parse keeps the previous
      value, and a parsed value is stored as it is, without clamping. */
  lemma ConfidenceLine(a: Analysis, lines: seq<string>, key: string, value: string, toFloat: string -> Option<real>)
    requires ':' !in key && Lower(Strip(key)) == CONFIDENCE_KEY
    ensures var r := ApplyLines(a, lines + [key + ":" + value], toFloat);
      && (toFloat(Strip(value)).None? ==> r == ApplyLines(a, lines, toFloat))
      && (toFloat(Strip(value)).Some? ==> r.confidence == toFloat(Strip(value)).value)
  {
    ApplyLinesSnoc(a, lines, key + ":" + value, toFloat);
    ColonSplit(key, value);
    KeysDiffer();
  }

  /** The four keys the parser recognises are distinct. */
  lemma KeysDiffer()
    ensures CONFIDENCE_KEY != MOOD_KEY && CONFIDENCE_KEY != GENDER_KEY && CONFIDENCE_KEY != AGE_KEY
    ensures MOOD_KEY != GENDER_KEY && MOOD_KEY != AGE_KEY && GENDER_KEY != AGE_KEY
  {
    assert |MOOD_KEY| == 4 && |GENDER_KEY| == 6 && |AGE_KEY| == 3 && |CONFIDENCE_KEY| == 10;
  }

  /** A line is cut at its first colon: `k + ":" + v` with no colon in
      `k` gives the key `k` and the value `v`, so values may hold colons. */
  lemma ColonSplit(k: string, v: string)
    requires ':' !in k
    ensures KeyValue(k + ":" + v) == Some((Lower(Strip(k)), Strip(v)))
  {
    var line := k + ":" + v;
    assert line[|k|] == ':';
    assert line[..|k|] == k;
    assert line[|k| + 1..] == v;
    assert forall j :: 0 <= j < |k| ==> line[j] != ':';
  }

  // ------------------------------------------------------------ the prompt

  const PROMPT_HEAD: seq<string> := [
    "Analyze this image of a person and provide the following information:",
    "1. Mood/Emotion (happy, sad, neutral, angry, surprised, fear, disgust)",
    "2. Gender (male, female, unknown)",
    "3. Age group (child, teenager, young_adult, adult, senior, unknown)"]
  const DEMOGRAPHICS_HINT: string := "Focus on demographic details."
  const EMOTIONS_HINT: string := "Pay special attention to emotional expressions."
  const PROMPT_FORMAT: seq<string> := [
    "",
    "Respond in this exact format:",
    "Mood: [emotion]",
    "Gender: [gender]",
    "Age: [age_group]",
    "Confidence: [0.0-1.0]"]

  /** The prompt's lines: the head, the requested hints, the format block. */
  function PromptLines(includeDemographics: bool, includeEmotions: bool): (r: seq<string>)
    ensures |r| == |PROMPT_HEAD| + |PROMPT_FORMAT| + (if includeDemographics then 1 else 0) + (if includeEmotions then 1 else 0)
    ensures r[..|PROMPT_HEAD|] == PROMPT_HEAD && r[|r| - |PROMPT_FORMAT|..] == PROMPT_FORMAT
  {
    PROMPT_HEAD
      + (if includeDemographics then [DEMOGRAPHICS_HINT] else [])
      + (if includeEmotions then [EMOTIONS_HINT] else [])
      + PROMPT_FORMAT
  }

  /** Each hint is present exactly when its flag is set. */
  lemma PromptHints(includeDemographics: bool, includeEmotions: bool)
    ensures DEMOGRAPHICS_HINT in PromptLines(includeDemographics, includeEmotions) <==> includeDemographics
    ensures EMOTIONS_HINT in PromptLines(includeDemographics, includeEmotions) <==> includeEmotions
  {
    var r := PromptLines(includeDemographics, includeEmotions);
    var fixed := PROMPT_HEAD + PROMPT_FORMAT;
    assert forall x :: x in r ==> x in fixed || (x == DEMOGRAPHICS_HINT && includeDemographics) || (x == EMOTIONS_HINT && includeEmotions);
    HintsAreNotFixedLines(fixed);
  }

  /** Neither hint is one of the fixed lines, and they differ. */
  lemma HintsAreNotFixedLines(fixed: seq<string>)
    requires fixed == PROMPT_HEAD + PROMPT_FORMAT
    ensures DEMOGRAPHICS_HINT !in fixed && EMOTIONS_HINT !in fixed
    ensures DEMOGRAPHICS_HINT != EMOTIONS_HINT
  {
    assert |DEMOGRAPHICS_HINT| == 29 && DEMOGRAPHICS_HINT[0] == 'F' && |EMOTIONS_HINT| == 47;
    assert forall i :: 0 <= i < |fixed| ==> |fixed[i]| != 47 && (|fixed[i]| != 29 || fixed[i][0] == 'R');
  }

  /** `_build_analysis_prompt(request)`: the lines joined by line breaks. */
  function BuildAnalysisPrompt(includeDemographics: bool, includeEmotions: bool): string
  {
    Join(PromptLines(includeDemographics, includeEmotions), "\n")
  }

  // ------------------------------------------------------- image formats

  /** `get_supported_formats()`. */
  const IMAGE_FORMATS: seq<string> := [".jpg", ".jpeg", ".png", ".bmp", ".tiff", ".webp"]

  /** `validate_image_format(filename)`: the lower-cased `Path.suffix` is
      one of the supported formats. */
  function ValidateImageFormat(filename: string): (r: bool)
    ensures r ==> 4 <= |Suffix(filename)| <= 5 && Suffix(filename)[0] == '.'
  {
    var ext := Lower(Suffix(filename));
    if ext in IMAGE_FORMATS then
      ImageFormatShape(ext);
      true
    else false
  }

  /** Each supported format is a dot and three or four letters. */
  lemma ImageFormatShape(ext: string)
    requires ext in IMAGE_FORMATS
    ensures 4 <= |ext| <= 5 && ext[0] == '.'
  {
  }

  /** The image-format check ignores the case of the file name. */
  lemma ImageFormatIgnoresCase(filename: string)
    ensures ValidateImageFormat(Lower(filename)) == ValidateImageFormat(filename)
  {
    LowerSuffixOfLower(filename);
  }

  // ----------------------------------------------------- basic analysis

  /** `PersonStatus` without its wall-clock `processing_time`. */
  datatype PersonStatus = PersonStatus(mood: string, gender: string, age: string, confidence: Option<real>)

  /** `analyze_person_status(image_data, request)`. `decodes` says whether
      the image opens; `draw` is the mock analysis, whose confidence is a
      two-decimal draw from [0.7, 0.95]. Every failure reaches the caller
      as an image-processing error for "status analysis" whose details
      carry the inner error's text. */
  function AnalyzePersonStatus(m: Manager, decodes: bool, draw: Analysis): (r: Result<PersonStatus, Exception>)
    requires 0.7 <= draw.confidence <= 0.95
    ensures r.Ok? <==> IsModelAvailable(m, Ollama) && decodes
    ensures r.Ok? ==> r.value == PersonStatus(draw.mood, draw.gender, draw.age, Some(draw.confidence))
    ensures r.Err? ==>
      (r.error.Custom? && r.error.cls == ImageProcessing && ArgumentOf(ImageProcessing, r.error.message) == "status analysis")
    ensures !IsModelAvailable(m, Ollama) ==>
      r.Err? && r.error.details == [("error", Raise(ModelLoad, "Ollama", None).message)]
  {
    var inner :=
      if !IsModelAvailable(m, Ollama) then Some(Raise(ModelLoad, "Ollama", Some([("reason", "Ollama service not available")])))
      else if !decodes then Some(Raise(ImageProcessing, "image processing", None))
      else None;
    match inner
    case Some(e) =>
      ArgumentRoundTrip(ImageProcessing, "status analysis", Some([("error", Str(e))]));
      Err(Raise(ImageProcessing, "status analysis", Some([("error", Str(e))])))
    case None => Ok(PersonStatus(draw.mood, draw.gender, draw.age, Some(draw.confidence)))
  }
}
