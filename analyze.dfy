/** The steps of `analyze()` (app.py:178-320) that are neither I/O nor the splitter: parsing the
    uploaded dataset and the bounded preview of the model's answer. */
module Analyze {
  import opened Common
  import ApiClient

  /** How many characters of the answer the preview keeps. */
  const PreviewLimit: nat := 500

  /** What a truncated preview ends with. */
  const Ellipsis: string := "..."

  /** app.py:309: `analysis_result[:500] + '...' if len(analysis_result) > 500 else analysis_result`. */
  function Preview(analysis: string): (r: string)
    ensures |r| <= PreviewLimit + |Ellipsis|
    ensures |analysis| <= PreviewLimit ==> r == analysis
    ensures |analysis| > PreviewLimit ==>
      |r| == PreviewLimit + |Ellipsis| && r[..PreviewLimit] == analysis[..PreviewLimit] && r[PreviewLimit..] == Ellipsis
  {
    if |analysis| > PreviewLimit then analysis[..PreviewLimit] + Ellipsis else analysis
  }

  /** The preview is the answer itself exactly when the answer is short, or when it is exactly as long
      as a truncated preview and already ends with the ellipsis. */
  lemma PreviewUnchangedIff(analysis: string)
    ensures Preview(analysis) == analysis <==>
      |analysis| <= PreviewLimit || (|analysis| == PreviewLimit + |Ellipsis| && analysis[PreviewLimit..] == Ellipsis)
  {
    if |analysis| == PreviewLimit + |Ellipsis| && analysis[PreviewLimit..] == Ellipsis {
      assert analysis == analysis[..PreviewLimit] + analysis[PreviewLimit..];
    }
  }

  /** In mock mode the preview is truncated and still opens with the canned report's heading. */
  lemma MockPreviewOpensWithHeading()
    ensures |ApiClient.MockResponse| > PreviewLimit
    ensures var p := Preview(ApiClient.MockResponse);
      |p| == PreviewLimit + |Ellipsis| && p[..|ApiClient.MockHeading|] == ApiClient.MockHeading
  {
  }

  /** Why the dataset stage of a request failed. */
  datatype StageError =
    | InvalidJson       // app.py:230-234: "Invalid JSON file: ..."
    | LoggerIsNone      // app.py:229 dereferences the logger that `setup_logging` returned as None
    | NotInspectable    // app.py:227-229 raise on a dataset of the wrong shape

  /** What the expressions of app.py:227-229 do to a parsed dataset, supplied by the caller because
      the dataset's JSON type is abstract here. */
  datatype Inspection = Inspection(
    keysListed: bool,          // `list(json_data.keys())` succeeds: the dataset is an object
    hasTickets: Option<bool>,  // `'tickets' in json_data`, `None` where the test raises
    ticketsCounted: bool)      // `len(json_data['tickets'])` succeeds

  /** app.py:223-234 as written. `parse` stands for `json.loads` (`None` where it raises) and
      `inspect` for lines 227-229; `logging` says whether `setup_logging` returned a logger. Only a
      decoding error is caught there; any other exception ends in the generic failure branch of
      app.py:315-320. Line 229 calls `logger.info` without checking the logger, and the call's target
      is evaluated before its argument. The request fails with the invalid-JSON error exactly when
      the dataset does not parse, fails on the missing logger exactly when logging is off and the
      dataset has tickets, and passes only the parsed dataset on. */
  function ParseDatasetAsWritten<J>(
    content: string, parse: string -> Option<J>, inspect: J -> Inspection, logging: bool): (r: Result<J, StageError>)
    ensures r == Err(InvalidJson) <==> parse(content).None?
    ensures r == Err(LoggerIsNone) <==>
              parse(content).Some? && !logging && inspect(parse(content).value).hasTickets == Some(true)
    ensures r.Ok? ==> parse(content) == Some(r.value)
  {
    match parse(content)
    case None => Err(InvalidJson)
    case Some(data) =>
      var look := inspect(data);
      if logging && !look.keysListed then Err(NotInspectable)
      else match look.hasTickets
        case None => Err(NotInspectable)
        case Some(false) => Ok(data)
        case Some(true) =>
          if !logging then Err(LoggerIsNone)
          else if !look.ticketsCounted then Err(NotInspectable)
          else Ok(data)
  }

  /** The discrepancy: every dataset that parses and has tickets is refused when logging is off. */
  lemma AsWrittenRefusesTicketsWithoutLogging<J>(
    content: string, parse: string -> Option<J>, inspect: J -> Inspection)
    requires parse(content).Some? && inspect(parse(content).value).hasTickets == Some(true)
    ensures ParseDatasetAsWritten(content, parse, inspect, false) == Err(LoggerIsNone)
  {
  }

  /** The dataset stage as evidently intended: logging is an observer, so only a parse failure
      stops the request, and a parsed dataset goes on unchanged. */
  function ParseDataset<J>(content: string, parse: string -> Option<J>): (r: Result<J, StageError>)
    ensures r.Ok? <==> parse(content).Some?
    ensures r.Ok? ==> r.value == parse(content).value
    ensures r.Err? ==> r.error == InvalidJson
  {
    match parse(content)
    case None => Err(InvalidJson)
    case Some(data) => Ok(data)
  }

  /** Lines 227-229 run without raising: with a logger the dataset must be an object whose tickets
      can be counted; without one it must have no tickets, and the membership test must not raise. */
  predicate InspectionPasses(look: Inspection, logging: bool) {
    && (logging ==> look.keysListed)
    && look.hasTickets.Some?
    && (look.hasTickets == Some(true) ==> logging && look.ticketsCounted)
  }

  /** The code as written agrees with the intended stage exactly when the dataset does not parse or
      lines 227-229 run through. */
  lemma ParseDatasetAgreesIff<J>(
    content: string, parse: string -> Option<J>, inspect: J -> Inspection, logging: bool)
    ensures ParseDatasetAsWritten(content, parse, inspect, logging) == ParseDataset(content, parse) <==>
      parse(content).None? || InspectionPasses(inspect(parse(content).value), logging)
  {
  }
}
