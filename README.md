# PFFaRVE request core in Dafny

PFFaRVE is a small Flask service. It takes a severity-classification document and a JSON export of
vulnerability tickets, builds one prompt from them and sends it to a chat-completion API. The model's
answer is then split into a markdown report and an enhanced ticket dataset. This project models the
deterministic rules inside that pipeline, all from `app.py`:

- **Encoding-tolerant reader** (`Reader`, reader.dfy): `read_file_with_encoding` tries utf-8, then
  windows-1252, then latin-1, and keeps the first that decodes. Written as a method with a loop,
  like the source.
- **API client** (`ApiClient`, api_client.dfy): the mock branch of `call_abacus_api`, which returns
  a canned report, and the extraction of `choices[0].message.content` from the provider's reply.
- **Prompt builder** (`Prompt`, prompt.dfy): the fixed template with the severity text and the
  dataset text inserted verbatim.
- **Response splitter** (`Splitter`, splitter.dfy): the `split('```json')` / `split('```')[0]` /
  `strip()` / `json.loads` logic. It falls back to the uploaded dataset when no JSON section is
  found or the section does not parse.
- **Preview and dataset stage** (`Analyze`, analyze.dfy): the 500-character preview, and the parse
  of the uploaded dataset, including a defect in it (see Findings).
- **Download routes** (`Download`, download.dfy): the extension check, then the existence check,
  then serving the file.
- **Python string primitives** (`PyText`, pytext.dfy): `str.find`, `str.split` with a non-empty
  separator (leftmost, non-overlapping cuts), `str.strip()` with CPython's whitespace set,
  `endswith` and `startswith`. The splitter is written with these as the source is. Its
  find-based description is then proved as lemmas.

Library behaviour appears as oracles, passed as function parameters:

- `json.loads` is `parse: string -> Option<J>`, with `None` where Python raises.
- Decoding a file with one codec is `decode: (Encoding, seq<byte>) -> Option<string>`.
- `os.path.exists` is `present: string -> bool`.
- The parsed HTTP reply is an `Envelope` value.

The splitter is generic in the dataset type `J`.

Edge cases of the code that the model keeps:

- **Where the JSON candidate ends.** The candidate does not always end at the first closing fence
  after the marker. When a second "```json" overlaps the first "```" after the marker, the candidate
  ends at that second marker. This happens with a run of four or five backticks directly before
  `json`, starting at the first fence after the marker. With six or more, the first fence ends
  before the second marker begins, and the candidate is cut at that fence.
  `Splitter.CandidateEnd` states the exact rule, and `Splitter.OverlappingMarkerQuirk` exhibits the
  case.
- **The all-encodings-failed branch.** It does not raise an error that lists the encodings. It
  calls `UnicodeDecodeError` with a single argument, which itself raises, so the model returns a
  single error value.
- **A reply with a first choice but no message or content.** It does not give "Unexpected API
  response format". Indexing raises a `KeyError` for the missing key, which the model returns as
  `MissingKey("message")` or `MissingKey("content")`.
- **The dataset stage raises on a dataset of the wrong shape.** Besides the parse, lines 227-229 call
  `keys()` (with a logger), test `'tickets' in` the dataset and take the length of the tickets. A
  list dataset such as `[1]` with logging on, or `{"tickets": 5}`, raises there, and the request
  ends in "Analysis failed".

## Model

| member | source | states |
|---|---|---|
| `PyText.Find` | app.py:272 | the index returned holds an occurrence and no earlier index does; `None` means no occurrence at all |
| `PyText.Split` | app.py:272 | the pieces joined with the separator give back the text, and no piece contains the separator; without an occurrence the text is the only piece; otherwise there are several pieces and the first ends at the leftmost occurrence |
| `PyText.Strip` | app.py:274-275 | the result is a slice of the input with only whitespace before and after it, and has no whitespace at either end |
| `PyText.StripUnique` | app.py:274-275 | `strip()` of a trimmed text surrounded by any whitespace is exactly that text |
| `PyText.StripIdempotent` | app.py:274-275 | stripping twice equals stripping once |
| `Splitter.Locate` | app.py:272-275 | no section is found only when the answer holds no "```json"; a found section's report part is a prefix of the answer ending at the first marker; the candidate holds no "```" |
| `Splitter.SplitResponse` | app.py:272-282 | without the marker, the report is the whole answer, unstripped, and the dataset is the uploaded one; with the first marker at `i`, the report is the stripped text before `i`, and the dataset is the parse of the stripped candidate (ending at `CandidateEnd`) when it parses and the uploaded dataset otherwise |
| `Splitter.LocateNotFound` | app.py:272-273 | no JSON section is located exactly when the answer never contains "```json" |
| `Splitter.LocateByFind` | app.py:272-275 | with the first "```json" at `i`, the text before the section is `answer[..i]`, and the candidate runs from after the marker to `CandidateEnd` |
| `Splitter.OverlappingMarkerQuirk` | app.py:275 | for "```json````json" the candidate is one backtick, although a fence starts right after the marker |
| `Splitter.LongBacktickRunCutsAtFence` | app.py:275 | for "```json``````json" the candidate is empty: with six backticks the first fence ends before the second marker, so the cut is at the fence |
| `Splitter.FencedRoundTrip` | app.py:272-277 | report + "```json" + body + "```" + trailer splits back into the stripped report and the parse (or fallback) of the stripped body, for any body that holds no "```" and does not end in a backtick, and any trailer that does not start with one |
| `Reader.ReadFileWithEncoding` | app.py:57-69 | on success, the returned text is what the returned encoding decodes to, and every encoding tried before it failed; the error is returned exactly when all three fail |
| `ApiClient.ExtractContent` | app.py:151-161 | a missing or empty `choices` gives "Unexpected API response format"; a first choice without `message`, or a message without `content`, gives the key error for that key; success happens exactly when the first choice has message content, and the result is that content |
| `ApiClient.CallApi` | app.py:84-161 | in mock mode the result is the canned report, which begins with "# Vulnerability Risk Analysis Report", whatever the reply; otherwise it is the content extracted from the reply |
| `ApiClient.FirstChoiceRoundTrip` | app.py:151-156 | outside mock mode, a reply whose first choice carries text yields exactly that text, whatever follows |
| `Prompt.BuildPrompt` | app.py:237-259 | the prompt is the preamble, the severity text verbatim, the data heading, the dataset text verbatim and the instructions, each at its stated offset |
| `Prompt.BuildPromptInjective` | app.py:237-259 | given the length of the severity text, the prompt determines both inputs |
| `Analyze.Preview` | app.py:309 | the preview has at most 503 characters; a short answer is kept exactly; a long one becomes its first 500 characters then "..." |
| `Analyze.PreviewUnchangedIff` | app.py:309 | the preview equals the answer exactly when the answer has at most 500 characters, or has 503 and already ends in "..." |
| `Analyze.MockPreviewOpensWithHeading` | app.py:86-103 | the canned report is longer than 500 characters, and its preview is truncated but still opens with the report heading |
| `Analyze.ParseDatasetAsWritten` | app.py:224-234 | as written: the invalid-JSON error exactly when the dataset does not parse; the missing-logger failure exactly when it parses, logging is off and it has tickets; on success, the parsed dataset |
| `Analyze.AsWrittenRefusesTicketsWithoutLogging` | app.py:228-229 | as written, with logging disabled, every dataset that parses and has `tickets` fails the request |
| `Analyze.ParseDataset` | app.py:224-234 | the dataset stage fails exactly when the dataset does not parse, with the invalid-JSON error; otherwise it passes the parsed dataset on |
| `Analyze.ParseDatasetAgreesIff` | app.py:224-234 | the code as written agrees with the intended stage exactly when the dataset does not parse or lines 227-229 run without raising |
| `Download.JoinPath` | app.py:333 | an absolute name replaces the directory; otherwise the name follows the directory directly when the directory is empty or ends in "/", and after one inserted "/" when it does not |
| `Download.Fetch` | app.py:327-338 | 400 exactly when the name lacks the extension; 404 exactly when it has it and the joined path does not exist; otherwise the existing joined path is served |
| `Download.DownloadMarkdown` | app.py:327-338 | status 400 iff the name does not end in ".md"; 404 iff it does and the file is missing; otherwise the existing file at the name joined to the temporary directory is served as "vulnerability_analysis.md" |
| `Download.DownloadJson` | app.py:347-358 | status 400 iff the name does not end in ".json"; 404 iff it does and the file is missing; otherwise the existing file at the name joined to the temporary directory is served as "enhanced_tickets.json" |
| `Download.ExtensionCheckedFirst` | app.py:327-328 | a wrongly suffixed name gets the same 400 whatever the file system holds |
| `Download.ServedFromTempDir` | app.py:326-333 | a name without "/" is served from directly inside the temporary directory: the path is the directory, one "/" (unless the directory already ends in one or is empty), then the name |
| `Download.AbsoluteNameBypassesTempDir` | app.py:330-338 | an absolute name with the right extension is served from where it points, whatever the temporary directory |

## Left out

- Flask plumbing is web I/O and is not modelled: routing, `render_template`, `jsonify`,
  `send_file`, the `request.files` checks, and the 500 replies of the download routes.
- The HTTP request is network I/O and is not modelled: headers, payload, timeout,
  `raise_for_status`, and the mapping of `RequestException` / `JSONDecodeError` to error strings.
  The reply is a parameter.
- File I/O is OS calls and is not modelled: temporary files, `save`, `json.dump(..., indent=2)` and
  `os.unlink`. So is the persisted artifact's round trip through the download routes.
- `load_config`, `setup_logging` and every `logger` call are configuration and observation side
  effects. Logging appears only as the flag in the dataset stage, where it changes control flow.
- Real character decoding and JSON parsing are oracles. So is the newline translation of
  text-mode reads. Nothing assumes that latin-1 decodes every byte string. If it does,
  `Reader.ReadFileWithEncoding` shows the error is unreachable.
- The end-to-end `analyze()` result is not modelled: `tickets_analyzed`, `model_used`, the
  response record and the composition of the stages. The logger defect (see Findings) means the
  success path depends on the logging configuration.
- Reader.ReadFileWithEncoding: the decode oracle is a pure function. The contract therefore says
  the result depends only on the encodings up to the first success. It cannot say that later
  decodes are never attempted.
- Download.JoinPath: only POSIX `posixpath.join` is modelled, not the Windows `ntpath.join` rules
  (drive letters, backslashes).
- Analyze.ParseDatasetAsWritten: what lines 227-229 do to a parsed dataset (`keys()`, the
  `'tickets'` membership test, the length of the tickets) is an oracle, `inspect`, since the JSON
  type is abstract. The model does not derive it from the dataset's shape.
- ApiClient.ExtractContent: the reply is typed. A non-dict reply, a non-list `choices` and a
  `null` or non-string content are not modelled.
- ApiClient.ExtractContent: errors are values (`UnexpectedFormat`, `MissingKey`). The message text
  `str(e)` that the failure reply carries is not modelled.
- Reader.ReadFileWithEncoding: the encoding is returned as an `Encoding` value, not as Python's
  codec-name string.
- ApiClient.CallApi: `just_log_prompts` is a boolean. Python's truthiness of other JSON values is
  not modelled.
- The claim that a mock answer holds no JSON section, so that splitting it falls back, is not
  stated as a lemma. It would need a character-by-character check of the 598-character report.
- Strings are sequences of Unicode scalar values. Python strings can also hold lone surrogates,
  which are not modelled.

## Findings

| source | as written | input that shows it | evidently intended | confidence | as-written member | corrected member |
|---|---|---|---|---|---|---|
| app.py:228-229 | `logger.info(...)` is called whenever the dataset has `tickets`, without checking that `setup_logging` returned a logger | `debug_logging` false and dataset `{"tickets":[{"id":1}]}`: `None.info` raises, and the request ends in "Analysis failed" | log only when a logger exists; a parsed dataset always continues | high, not executed | `Analyze.AsWrittenRefusesTicketsWithoutLogging` | `Analyze.ParseDataset` |
