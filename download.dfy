/** The two download routes (app.py:322-360): a requested file name is checked for the expected
    extension first, then for existence in the temporary directory, and only then served. */
module Download {
  import opened PyText

  /** The two kinds of artifact a request produces. */
  datatype ArtifactKind = MarkdownReport | EnhancedJson {
    /** The extension a requested name must end with. */
    function Extension(): string {
      match this
      case MarkdownReport => ".md"
      case EnhancedJson => ".json"
    }

    /** The name the browser is told to save the file under. */
    function DownloadName(): string {
      match this
      case MarkdownReport => "vulnerability_analysis.md"
      case EnhancedJson => "enhanced_tickets.json"
    }
  }

  /** The route's answer: 400 "Invalid file type", 404 "File not found", or the file itself. */
  datatype Reply = InvalidType | NotFound | Serve(path: string, downloadName: string) {
    function Status(): int {
      match this
      case InvalidType => 400
      case NotFound => 404
      case Serve(_, _) => 200
    }
  }

  /** `os.path.join(dir, name)` on POSIX for two components: an absolute `name` replaces `dir`,
      otherwise the two are joined with one separator unless `dir` is empty or already ends in one. */
  function JoinPath(dir: string, name: string): (path: string)
    ensures StartsWith(name, "/") ==> path == name
    ensures !StartsWith(name, "/") && (dir == [] || EndsWith(dir, "/")) ==> path == dir + name
    ensures !StartsWith(name, "/") && dir != [] && !EndsWith(dir, "/") ==> path == dir + "/" + name
    ensures !StartsWith(name, "/") ==> StartsWith(path, dir) && EndsWith(path, name)
  {
    if StartsWith(name, "/") then name
    else if dir == [] || EndsWith(dir, "/") then dir + name
    else dir + "/" + name
  }

  /** Both routes: `present` is the oracle `os.path.exists`, `tempDir` the value of
      `tempfile.gettempdir()`. */
  function Fetch(kind: ArtifactKind, filename: string, tempDir: string, present: string -> bool): (r: Reply)
    ensures r == InvalidType <==> !EndsWith(filename, kind.Extension())
    ensures r == NotFound <==> EndsWith(filename, kind.Extension()) && !present(JoinPath(tempDir, filename))
    ensures r.Serve? ==>
              r.path == JoinPath(tempDir, filename) && present(r.path) && r.downloadName == kind.DownloadName()
  {
    if !EndsWith(filename, kind.Extension()) then InvalidType
    else
      var path := JoinPath(tempDir, filename);
      if !present(path) then NotFound else Serve(path, kind.DownloadName())
  }

  /** `download_markdown` (app.py:323-338). */
  function DownloadMarkdown(filename: string, tempDir: string, present: string -> bool): (r: Reply)
    ensures r.Status() == 400 <==> !EndsWith(filename, ".md")
    ensures r.Status() == 404 <==> EndsWith(filename, ".md") && !present(JoinPath(tempDir, filename))
    ensures r.Serve? ==> r.path == JoinPath(tempDir, filename) && present(r.path)
    ensures r.Serve? ==> r.downloadName == "vulnerability_analysis.md"
  {
    Fetch(MarkdownReport, filename, tempDir, present)
  }

  /** `download_json` (app.py:343-358). */
  function DownloadJson(filename: string, tempDir: string, present: string -> bool): (r: Reply)
    ensures r.Status() == 400 <==> !EndsWith(filename, ".json")
    ensures r.Status() == 404 <==> EndsWith(filename, ".json") && !present(JoinPath(tempDir, filename))
    ensures r.Serve? ==> r.path == JoinPath(tempDir, filename) && present(r.path)
    ensures r.Serve? ==> r.downloadName == "enhanced_tickets.json"
  {
    Fetch(EnhancedJson, filename, tempDir, present)
  }

  /** The extension is checked before the file system is consulted: a wrongly suffixed name gets
      the same 400 whatever exists. */
  lemma ExtensionCheckedFirst(
    kind: ArtifactKind, filename: string, tempDir: string, present1: string -> bool, present2: string -> bool)
    requires !EndsWith(filename, kind.Extension())
    ensures Fetch(kind, filename, tempDir, present1) == Fetch(kind, filename, tempDir, present2) == InvalidType
  {
  }

  /** What the "only files in the temp directory" comment relies on: a name without a separator is
      served from directly inside `tempDir`, one separator after it (or none when `tempDir` already
      ends in one or is empty). */
  lemma ServedFromTempDir(kind: ArtifactKind, filename: string, tempDir: string, present: string -> bool)
    requires '/' !in filename
    ensures var r := Fetch(kind, filename, tempDir, present);
      r.Serve? ==>
        r.path == tempDir + "/" + filename
        || ((tempDir == [] || EndsWith(tempDir, "/")) && r.path == tempDir + filename)
  {
    if |filename| > 0 {
      assert filename[0] != '/';
    }
  }

  /** The guard is only as strong as the name's shape: an absolute name with the right extension is
      served from wherever it points, whatever `tempDir` is. The route's default converter never
      passes a name containing a separator, so this does not arise through the web layer. */
  lemma AbsoluteNameBypassesTempDir(kind: ArtifactKind, filename: string, tempDir: string, present: string -> bool)
    requires StartsWith(filename, "/") && EndsWith(filename, kind.Extension()) && present(filename)
    ensures Fetch(kind, filename, tempDir, present) == Serve(filename, kind.DownloadName())
  {
  }
}
