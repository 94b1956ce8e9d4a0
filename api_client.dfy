/** `call_abacus_api` (app.py:71-172) without its HTTP transport: the mock branch, and the
    extraction of the generated text from the provider's response envelope. */
module ApiClient {
  import opened Common

  /** The one configuration key the client's control flow depends on: `just_log_prompts`, read with
      `config.get('just_log_prompts', False)`, so a missing key means `false`. */
  datatype Config = Config(justLogPrompts: bool)

  /** The first line of the canned report returned in mock mode. */
  const MockHeading: string := "# Vulnerability Risk Analysis Report"

  /** The canned report of app.py:86-103, character for character. */
  const MockResponse: string :=
    MockHeading + "\n"
    + "\n"
    + "## Executive Summary\n"
    + "This is a mock analysis response for testing purposes. The actual API call was skipped due to 'just_log_prompts' being enabled in the configuration.\n"
    + "\n"
    + "## Analysis Results\n"
    + "- Total tickets analyzed: [Mock Data]\n"
    + "- High severity issues: [Mock Data]\n"
    + "- Medium severity issues: [Mock Data]\n"
    + "- Low severity issues: [Mock Data]\n"
    + "\n"
    + "## Recommendations\n"
    + "1. Review high-severity vulnerabilities immediately\n"
    + "2. Implement security patches for critical systems\n"
    + "3. Conduct regular security assessments\n"
    + "\n"
    + "*Note: This is mock data generated for testing purposes.*\n"

  /** The parsed JSON body of the provider's reply, reduced to the path the client reads:
      `choices[0].message.content`. `None` marks a key the body does not have. */
  datatype Message = Message(content: Option<string>)
  datatype Choice = Choice(message: Option<Message>)
  datatype Envelope = Envelope(choices: Option<seq<Choice>>)

  /** How extraction fails: the `ValueError` of app.py:158-161, or a `KeyError` when a choice lacks
      `message` or `content`. Neither is caught inside the client. */
  datatype ApiError = UnexpectedFormat | MissingKey(key: string)

  /** app.py:152-161: the content of the first choice when `choices` is present and non-empty;
      otherwise "Unexpected API response format". */
  function ExtractContent(body: Envelope): (r: Result<string, ApiError>)
    ensures (body.choices.None? || body.choices.value == []) ==> r == Err(UnexpectedFormat)
    ensures r.Ok? <==> (body.choices.Some? && body.choices.value != []
                        && body.choices.value[0].message.Some?
                        && body.choices.value[0].message.value.content.Some?)
    ensures r.Ok? ==> r.value == body.choices.value[0].message.value.content.value
    ensures body.choices.Some? && body.choices.value != [] && body.choices.value[0].message.None? ==>
              r == Err(MissingKey("message"))
    ensures body.choices.Some? && body.choices.value != [] && body.choices.value[0].message.Some?
            && body.choices.value[0].message.value.content.None? ==>
              r == Err(MissingKey("content"))
  {
    match body.choices
    case None => Err(UnexpectedFormat)
    case Some(choices) =>
      if |choices| == 0 then Err(UnexpectedFormat)
      else match choices[0].message
        case None => Err(MissingKey("message"))
        case Some(message) =>
          match message.content
          case None => Err(MissingKey("content"))
          case Some(content) => Ok(content)
  }

  /** app.py:84-108 and 151-161: in mock mode the canned report, before any request is prepared,
      so the reply is never looked at; otherwise the content extracted from `body`, the parsed reply
      to the single POST. */
  function CallApi(config: Config, prompt: string, body: Envelope): (r: Result<string, ApiError>)
    ensures config.justLogPrompts ==>
              r == Ok(MockResponse) && |r.value| > |MockHeading| && r.value[..|MockHeading|] == MockHeading
    ensures !config.justLogPrompts ==> r == ExtractContent(body)
  {
    if config.justLogPrompts then Ok(MockResponse) else ExtractContent(body)
  }

  /** Outside mock mode, a reply whose first choice carries content yields exactly that content,
      whatever the other choices hold. */
  lemma FirstChoiceRoundTrip(text: string, others: seq<Choice>)
    ensures CallApi(Config(false), "", Envelope(Some([Choice(Some(Message(Some(text))))] + others)))
         == Ok(text)
  {
  }
}
