/** The response splitter of `analyze()` (app.py:270-282): the model's answer is cut into a
    markdown report and an enhanced ticket dataset, falling back to the uploaded dataset
    whenever no JSON section can be found or parsed. */
module Splitter {
  import opened Common
  import opened PyText

  /** Opens the JSON section of the answer. */
  const JsonMarker: string := "```json"

  /** Closes a fenced block. */
  const Fence: string := "```"

  /** What the two `split` calls locate in the answer, before trimming and parsing. */
  datatype Sections = Found(before: string, candidate: string) | NotFound

  /** app.py:272-275 as written: `parts = text.split('```json')`; when there is more than one
      part, the text before the marker and `parts[1].split('```')[0]`. A section is found only
      where the answer holds a marker; the report part ends at the first marker, and the candidate
      holds no fence. */
  function Locate(analysis: string): (r: Sections)
    ensures r.NotFound? ==> Absent(analysis, JsonMarker)
    ensures r.Found? ==> Find(analysis, JsonMarker) == Some(|r.before|) && analysis[..|r.before|] == r.before
    ensures r.Found? ==> Absent(r.candidate, Fence)
  {
    var parts := Split(analysis, JsonMarker);
    if |parts| > 1 then Found(parts[0], Split(parts[1], Fence)[0]) else NotFound
  }

  /** The two artifacts of one analysis: the report and the (possibly enhanced) dataset. */
  datatype Artifacts<J> = Artifacts(markdown: string, enhanced: J)

  /** The parsed candidate when `json.loads` accepts it, the original dataset when it raises. */
  function ParsedOr<J>(parse: string -> Option<J>, text: string, original: J): J {
    match parse(text)
    case Some(v) => v
    case None => original
  }

  /** app.py:272-282: `json.loads` is the oracle `parse`, which returns `None` where Python raises.
      Without the marker the report is the whole answer, untrimmed, and the dataset is the uploaded
      one. With the marker first found at `i`, the report is the stripped text before it, and the
      dataset is the parse of the stripped candidate, or the uploaded dataset if that parse fails.
      Either way a bad JSON section never aborts the split. */
  function SplitResponse<J>(analysis: string, original: J, parse: string -> Option<J>): (r: Artifacts<J>)
    ensures Absent(analysis, JsonMarker) ==> r == Artifacts(analysis, original)
    ensures Find(analysis, JsonMarker).Some? ==>
      var i := Find(analysis, JsonMarker).value;
      var rest := analysis[i + |JsonMarker|..];
      var candidate := Strip(rest[..CandidateEnd(rest)]);
      r.markdown == Strip(analysis[..i]) &&
      (parse(candidate).Some? ==> r.enhanced == parse(candidate).value) &&
      (parse(candidate).None? ==> r.enhanced == original)
  {
    LocateNotFound(analysis);
    LocateByFind(analysis);
    match Locate(analysis)
    case NotFound => Artifacts(analysis, original)
    case Found(before, candidate) => Artifacts(Strip(before), ParsedOr(parse, Strip(candidate), original))
  }

  /** Where the piece after the first marker ends: at a second marker, or at the end. */
  function SecondMarker(rest: string): (k: nat)
    ensures k <= |rest|
  {
    match Find(rest, JsonMarker)
    case Some(k) => k
    case None => |rest|
  }

  /** Where the JSON candidate ends in `rest`, the text after the first marker, stated in terms of
      `find`: at the first fence, except when that fence overlaps a second marker (a run of four or
      five backticks directly before `json`, starting at the first fence after the marker), in
      which case at that second marker. With six or more, the first fence ends before the second
      marker begins, and the cut is at the fence. */
  function CandidateEnd(rest: string): (e: nat)
    ensures e <= |rest|
  {
    var k := SecondMarker(rest);
    match Find(rest, Fence)
    case None => |rest|
    case Some(f) => if f < k < f + |Fence| then k else f
  }

  /** A marker is in particular a fence. */
  lemma MarkerIsFence(s: string, k: int)
    requires OccursAt(s, JsonMarker, k)
    ensures OccursAt(s, Fence, k)
  {
    assert s[k..k + |Fence|] == s[k..k + |JsonMarker|][..|Fence|];
  }

  /** The characters a marker puts in place. */
  lemma MarkerChars(s: string, k: int)
    requires OccursAt(s, JsonMarker, k)
    ensures s[k] == s[k + 1] == s[k + 2] == '`' && s[k + 3] == 'j'
  {
    var w := s[k..k + |JsonMarker|];
    assert w[0] == s[k] && w[1] == s[k + 1] && w[2] == s[k + 2] && w[3] == s[k + 3];
  }

  /** There is no JSON section exactly when the answer never contains the marker. */
  lemma LocateNotFound(analysis: string)
    ensures Locate(analysis).NotFound? <==> Absent(analysis, JsonMarker)
  {
  }

  /** `parts[1]` is the text after the first marker up to a second marker. */
  lemma SecondPiece(analysis: string, i: nat)
    requires Find(analysis, JsonMarker) == Some(i)
    ensures var rest := analysis[i + |JsonMarker|..];
      Split(analysis, JsonMarker)[1] == rest[..SecondMarker(rest)]
  {
    SplitSecond(analysis, JsonMarker);
  }

  /** `split('```')[0]` of that piece ends at `CandidateEnd`. */
  lemma CandidateCut(rest: string)
    ensures Split(rest[..SecondMarker(rest)], Fence)[0] == rest[..CandidateEnd(rest)]
  {
    var k := SecondMarker(rest);
    FindInPrefix(rest, Fence, k);
    if Find(rest, JsonMarker).Some? {
      MarkerIsFence(rest, k);
    }
  }

  /** With the marker first found at `i`, the report is the text before `i`, and the candidate runs
      from just after the marker to `CandidateEnd`. */
  lemma LocateByFind(analysis: string)
    ensures Find(analysis, JsonMarker).Some? ==>
      var i := Find(analysis, JsonMarker).value;
      var rest := analysis[i + |JsonMarker|..];
      Locate(analysis) == Found(analysis[..i], rest[..CandidateEnd(rest)])
  {
    if Find(analysis, JsonMarker).Some? {
      var i := Find(analysis, JsonMarker).value;
      SecondPiece(analysis, i);
      CandidateCut(analysis[i + |JsonMarker|..]);
    }
  }

  /** The exception in `CandidateEnd` is real: after "```json", the text "````json" holds a fence at
      0, but `split` cuts at the second marker first, so the candidate is one backtick. */
  lemma OverlappingMarkerQuirk()
    ensures Locate("```json````json") == Found("", "`")
  {
    var a := "```json````json";
    assert a[0..7] == JsonMarker;
    FindFirst(a, JsonMarker, 0);
    var rest := a[7..];
    assert rest == "````json";
    assert rest[0..3] == Fence;
    FindFirst(rest, Fence, 0);
    assert rest[1..8] == JsonMarker;
    assert rest[3] != JsonMarker[3];
    assert !OccursAt(rest, JsonMarker, 0);
    FindFirst(rest, JsonMarker, 1);
    assert Find(a, JsonMarker) == Some(0);
    assert a[0 + |JsonMarker|..] == rest;
    assert SecondMarker(rest) == 1;
    assert CandidateEnd(rest) == 1;
    assert rest[..1] == "`" && a[..0] == "";
    LocateByFind(a);
  }

  /** The exception stops at five backticks: after "```json", the text "``````json" holds a fence at
      0 that ends before the second marker at 3, so the candidate is cut at that fence and is empty. */
  lemma LongBacktickRunCutsAtFence()
    ensures Locate("```json``````json") == Found("", "")
  {
    var a := "```json``````json";
    assert a[0..7] == JsonMarker;
    FindFirst(a, JsonMarker, 0);
    var rest := a[7..];
    assert rest == "``````json";
    assert rest[0..3] == Fence;
    FindFirst(rest, Fence, 0);
    assert rest[3..10] == JsonMarker;
    forall j | 0 <= j < 3 ensures !OccursAt(rest, JsonMarker, j) {
      assert rest[j..j + |JsonMarker|][3] == rest[j + 3] == '`';
    }
    FindFirst(rest, JsonMarker, 3);
    assert a[0 + |JsonMarker|..] == rest;
    assert SecondMarker(rest) == 3;
    assert CandidateEnd(rest) == 0;
    assert rest[..0] == "" && a[..0] == "";
    LocateByFind(a);
  }

  /** A marker placed after text that does not contain one is the first marker. */
  lemma MarkerAfterPlainText(md: string, tail: string)
    requires Absent(md, JsonMarker)
    ensures Find(md + JsonMarker + tail, JsonMarker) == Some(|md|)
  {
    var a := md + JsonMarker + tail;
    var n := |md|;
    assert a[..n] == md;
    assert a[n..n + |JsonMarker|] == JsonMarker;
    forall j | 0 <= j < n ensures !OccursAt(a, JsonMarker, j) {
      if j + |JsonMarker| <= n {
        OccursInPrefix(a, JsonMarker, n, j);
      } else {
        assert a[j..j + |JsonMarker|][6] == a[j + 6] == JsonMarker[j + 6 - n] != 'n';
      }
    }
    FindFirst(a, JsonMarker, n);
  }

  /** After a body holding no fence and not ending in a backtick, the closing fence is the first
      fence, and no second marker can overlap it unless the trailer continues the backtick run. */
  lemma CandidateEndAfterPlainBody(body: string, trailer: string)
    requires Absent(body, Fence)
    requires body == [] || body[|body| - 1] != '`'
    requires trailer == [] || trailer[0] != '`'
    ensures CandidateEnd(body + Fence + trailer) == |body|
  {
    var rest := body + Fence + trailer;
    var b := |body|;
    assert rest[b..b + |Fence|] == Fence;
    assert rest[..b] == body;
    forall j | 0 <= j < b ensures !OccursAt(rest, Fence, j) {
      if j + |Fence| <= b {
        OccursInPrefix(rest, Fence, b, j);
      } else {
        assert rest[j..j + |Fence|][b - 1 - j] == rest[b - 1] == body[b - 1];
      }
    }
    FindFirst(rest, Fence, b);
    if Find(rest, JsonMarker).Some? {
      var k := Find(rest, JsonMarker).value;
      MarkerIsFence(rest, k);
      MarkerChars(rest, k);
      assert |rest| > b + 3 ==> rest[b + 3] == trailer[0];
    }
  }

  /** Round trip: composing a report, the marker, a JSON body that holds no fence and does not end
      in a backtick, a closing fence and any trailer that does not continue the backtick run, the
      splitter recovers the stripped report and the parse of the stripped body. */
  lemma FencedRoundTrip<J>(
    md: string, body: string, trailer: string, original: J, parse: string -> Option<J>)
    requires Absent(md, JsonMarker)
    requires Absent(body, Fence) && (body == [] || body[|body| - 1] != '`')
    requires trailer == [] || trailer[0] != '`'
    ensures SplitResponse(md + JsonMarker + body + Fence + trailer, original, parse)
         == Artifacts(Strip(md), ParsedOr(parse, Strip(body), original))
  {
    var a := md + JsonMarker + body + Fence + trailer;
    assert a == md + JsonMarker + (body + Fence + trailer);
    MarkerAfterPlainText(md, body + Fence + trailer);
    var rest := a[|md| + |JsonMarker|..];
    assert rest == body + Fence + trailer;
    CandidateEndAfterPlainBody(body, trailer);
    assert a[..|md|] == md;
    assert rest[..|body|] == body;
    LocateByFind(a);
  }
}
