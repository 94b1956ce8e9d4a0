/** `read_file_with_encoding` (app.py:57-69): decode an uploaded file by trying a fixed list of
    encodings in order and keeping the first that succeeds. */
module Reader {
  import opened Common

  type byte = bv8

  /** The encodings the reader tries: Python's "utf-8", "windows-1252" and "latin-1". */
  datatype Encoding = Utf8 | Windows1252 | Latin1 {
    /** The position of this encoding in `Encodings`. */
    function Rank(): (k: nat)
      ensures k < |Encodings| && Encodings[k] == this
    {
      match this
      case Utf8 => 0
      case Windows1252 => 1
      case Latin1 => 2
    }
  }

  /** The order in which the encodings are tried. */
  const Encodings: seq<Encoding> := [Utf8, Windows1252, Latin1]

  /** Every encoding failed. In the source this branch constructs `UnicodeDecodeError` with a single
      argument, which itself raises; either way the caller sees some error. */
  datatype ReadError = Undecodable

  /** Decoding `content` with `decode`, the oracle standing for `open(..., encoding=e).read()`:
      `Some(text)` on success, `None` where Python raises `UnicodeDecodeError`. Returns the text and
      the first encoding of `Encodings` that decodes, so the outcome of the encodings after it
      plays no part; the error is reached exactly when all of them fail. */
  method ReadFileWithEncoding(content: seq<byte>, decode: (Encoding, seq<byte>) -> Option<string>)
    returns (r: Result<(string, Encoding), ReadError>)
    ensures r.Ok? ==> decode(r.value.1, content) == Some(r.value.0)
    ensures r.Ok? ==> forall j :: 0 <= j < r.value.1.Rank() ==> decode(Encodings[j], content).None?
    ensures r.Err? <==> forall j :: 0 <= j < |Encodings| ==> decode(Encodings[j], content).None?
  {
    var encodings := Encodings;
    for i := 0 to |encodings|
      invariant forall j :: 0 <= j < i ==> decode(encodings[j], content).None?
    {
      var attempt := decode(encodings[i], content);
      if attempt.Some? {
        return Ok((attempt.value, encodings[i]));
      }
    }
    return Err(Undecodable);
  }
}
