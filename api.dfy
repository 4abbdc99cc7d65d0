/**
 * The HTTP handlers of the insight-engine server, as operations on the
 * project's files: /upload, /ingest, /analyze, /generate-report and
 * /get-report/{report_type}. Each handler is a method on the Disk and is
 * specified by a function of the files before the request that gives the
 * response and the files after it.
 *
 * A response is a JSON body, a downloaded file, or an HTTP error with its
 * status and detail. An exception that the handler does not turn into an
 * HTTPException reaches the framework, which answers 500 with the text
 * "Internal Server Error".
 */
module ApiServer {
  import opened Wrappers
  import opened Frames
  import opened Documents
  import opened Storage
  import opened Report

  // ---------------------------------------------------------------------------
  // The extension check of /upload
  // ---------------------------------------------------------------------------

  /** str.rfind(c): the last position of c in s, or -1 when there is none. */
  function RFind(s: string, c: char): (r: int)
    ensures -1 <= r < |s|
    ensures r >= 0 ==> s[r] == c
    ensures forall j :: r < j < |s| ==> s[j] != c
  {
    if |s| == 0 then -1
    else if s[|s| - 1] == c then |s| - 1
    else RFind(s[..|s| - 1], c)
  }

  /** The last occurrence is the only position with c and no c after it. */
  lemma RFindIs(s: string, c: char, k: int)
    requires -1 <= k < |s|
    requires k >= 0 ==> s[k] == c
    requires forall j :: k < j < |s| ==> s[j] != c
    ensures RFind(s, c) == k
  {
  }

  /** A suffix without c does not move the last c. */
  lemma RFindAppend(s: string, t: string, c: char)
    requires NoChar(t, c)
    ensures RFind(s + t, c) == RFind(s, c)
  {
    var u := s + t;
    forall j | RFind(s, c) < j < |u| ensures u[j] != c {
      if j >= |s| {
        assert u[j] == t[j - |s|];
      }
    }
    RFindIs(u, c, RFind(s, c));
  }

  predicate NoChar(s: string, c: char) { forall i :: 0 <= i < |s| ==> s[i] != c }

  predicate HasNonDot(s: string) { exists i :: 0 <= i < |s| && s[i] != '.' }

  /** The last path component of stem holds a character other than a dot. */
  predicate StemHasName(stem: string)
  {
    HasNonDot(stem[RFind(stem, '/') + 1..])
  }

  /**
   * os.path.splitext(name)[1] on POSIX: the text from the last dot of the
   * last path component, provided that dot is preceded in the component by
   * something other than dots; otherwise the empty string. So "a.tar.csv"
   * has the extension ".csv", while ".csv" and "..csv" have none.
   */
  function Extension(name: string): (ext: string)
    ensures ext != "" ==>
      |ext| <= |name| && ext == name[|name| - |ext|..] && ext[0] == '.' && NoChar(ext[1..], '.') && NoChar(ext[1..], '/')
  {
    var sepIndex := RFind(name, '/');
    var dotIndex := RFind(name, '.');
    if dotIndex > sepIndex && HasNonDot(name[sepIndex + 1..dotIndex]) then
      ExtPart(name, dotIndex);
      assert |name| - |name[dotIndex..]| == dotIndex;
      name[dotIndex..]
    else ""
  }

  /**
   * ext can be the extension of name: a suffix of it that starts with its
   * only dot, holds no separator, and follows a stem whose last component
   * is not made of dots only.
   */
  predicate SplitsAt(name: string, ext: string)
  {
    1 <= |ext| <= |name| && name[|name| - |ext|..] == ext && ext[0] == '.'
    && NoChar(ext[1..], '.') && NoChar(ext[1..], '/')
    && StemHasName(name[..|name| - |ext|])
  }

  /** A non-empty extension is such a suffix. */
  lemma ExtensionShape(name: string)
    ensures Extension(name) != "" ==> SplitsAt(name, Extension(name))
  {
    var sep, dot := RFind(name, '/'), RFind(name, '.');
    if dot > sep && HasNonDot(name[sep + 1..dot]) {
      var ext := name[dot..];
      assert Extension(name) == ext;
      StemPart(name, sep, dot);
      ExtPart(name, dot);
      assert |name| - |ext| == dot;
      assert name[|name| - |ext|..] == ext;
      assert name[..|name| - |ext|] == name[..dot];
      assert SplitsAt(name, ext);
    }
  }

  /** Before the last dot, the last component holds a character other than a dot. */
  lemma StemPart(name: string, sep: int, dot: int)
    requires sep == RFind(name, '/') && dot == RFind(name, '.') && dot > sep
    requires HasNonDot(name[sep + 1..dot])
    ensures StemHasName(name[..dot])
  {
    PrefixRFind(name, dot, '/');
    SliceOfPrefix(name, sep + 1, dot);
  }

  lemma SliceOfPrefix(s: string, i: int, k: int)
    requires 0 <= i <= k <= |s|
    ensures s[..k][i..] == s[i..k]
  {
  }

  lemma PrefixRFind(s: string, k: int, c: char)
    requires RFind(s, c) < k <= |s|
    ensures RFind(s[..k], c) == RFind(s, c)
  {
    var t, r := s[..k], RFind(s, c);
    forall j | r < j < |t| ensures t[j] != c {
      assert t[j] == s[j];
    }
    if r >= 0 {
      assert t[r] == c;
    }
    RFindIs(t, c, r);
  }

  /** From the last dot on, after any separator, the name is a dot and then neither dots nor separators. */
  lemma ExtPart(name: string, dot: int)
    requires 0 <= dot < |name| && RFind(name, '.') == dot && RFind(name, '/') < dot
    ensures var ext := name[dot..];
      ext[0] == '.' && NoChar(ext[1..], '.') && NoChar(ext[1..], '/')
  {
    AfterLast(name, dot, '.');
    AfterLast(name, dot, '/');
    assert name[dot..][1..] == name[dot + 1..];
  }

  /** What follows the last c, or a position after it, holds no c. */
  lemma AfterLast(s: string, k: nat, c: char)
    requires k < |s| && RFind(s, c) <= k
    ensures NoChar(s[k + 1..], c)
  {
    var t := s[k + 1..];
    forall i | 0 <= i < |t| ensures t[i] != c {
      assert t[i] == s[k + 1 + i];
    }
  }

  /** Every suffix of that shape is the extension splitext finds. */
  lemma ExtensionOf(name: string, ext: string)
    requires SplitsAt(name, ext)
    ensures Extension(name) == ext
  {
    var stem := name[..|name| - |ext|];
    assert name == stem + ext;
    ExtensionOfSplit(stem, ext);
  }

  lemma ExtensionOfSplit(stem: string, ext: string)
    requires |ext| >= 1 && ext[0] == '.' && NoChar(ext[1..], '.') && NoChar(ext[1..], '/')
    requires StemHasName(stem)
    ensures Extension(stem + ext) == ext
  {
    var name := stem + ext;
    var sep := RFind(stem, '/');
    assert ext == [ext[0]] + ext[1..];
    assert name == (stem + [ext[0]]) + ext[1..];
    RFindAppend(stem + [ext[0]], ext[1..], '.');
    RFindIs(stem + [ext[0]], '.', |stem|);
    RFindAppend(stem + [ext[0]], ext[1..], '/');
    RFindAppend(stem, [ext[0]], '/');
    assert name[sep + 1..|stem|] == stem[sep + 1..];
    assert name[|stem|..] == ext;
  }

  /** str.lower() on one character (ASCII letters only). */
  function LowerChar(c: char): char
  {
    if 'A' <= c <= 'Z' then (c as int + 32) as char else c
  }

  function Lower(s: string): (r: string)
    ensures |r| == |s|
  {
    seq(|s|, i requires 0 <= i < |s| => LowerChar(s[i]))
  }

  /** The /upload guard: the lower-cased extension is ".csv". */
  predicate IsCsvUpload(filename: string)
  {
    Lower(Extension(filename)) == ".csv"
  }

  /**
   * A file name passes the guard exactly when it ends in ".csv" in any mix
   * of cases and its last component has something other than dots before
   * that suffix.
   */
  lemma CsvUploadIff(name: string)
    ensures IsCsvUpload(name) <==>
      |name| >= 4 && Lower(name[|name| - 4..]) == ".csv" && StemHasName(name[..|name| - 4])
  {
    if IsCsvUpload(name) {
      CsvUploadOnly(name);
    }
    if |name| >= 4 && Lower(name[|name| - 4..]) == ".csv" && StemHasName(name[..|name| - 4]) {
      CsvUploadIf(name);
    }
  }

  lemma CsvUploadOnly(name: string)
    requires IsCsvUpload(name)
    ensures |name| >= 4 && Lower(name[|name| - 4..]) == ".csv" && StemHasName(name[..|name| - 4])
  {
    ExtensionShape(name);
    assert |Extension(name)| == 4;
    assert name[|name| - 4..] == Extension(name);
  }

  lemma CsvUploadIf(name: string)
    requires |name| >= 4 && Lower(name[|name| - 4..]) == ".csv" && StemHasName(name[..|name| - 4])
    ensures IsCsvUpload(name)
  {
    var stem, ext := name[..|name| - 4], name[|name| - 4..];
    var low := Lower(ext);
    assert low[0] == '.' && low[1] == 'c' && low[2] == 's' && low[3] == 'v';
    assert LowerChar(ext[0]) == '.' && LowerChar(ext[1]) == 'c' && LowerChar(ext[2]) == 's' && LowerChar(ext[3]) == 'v';
    assert ext[1..] == [ext[1], ext[2], ext[3]];
    assert SplitsAt(name, ext);
    ExtensionOf(name, ext);
  }

  /** "A.CSV" is accepted: the check ignores case. */
  lemma UpperCaseAccepted()
    ensures IsCsvUpload("A.CSV")
  {
    CsvUploadIff("A.CSV");
    assert "A.CSV"[1..] == ".CSV";
    assert "A.CSV"[..1] == "A";
    assert RFind("A", '/') == -1;
    assert "A"[0..] == "A" && "A"[0] != '.';
  }

  /** ".csv" is a hidden file without an extension, so it is refused. */
  lemma HiddenCsvRefused()
    ensures !IsCsvUpload(".csv")
  {
    CsvUploadIff(".csv");
    assert ".csv"[..0] == "";
    assert !HasNonDot("");
  }

  /** "report.csv.txt" is refused: only the last extension counts. */
  lemma LastExtensionCounts()
    ensures !IsCsvUpload("report.csv.txt")
  {
    TxtExtension();
    assert Lower(".txt")[1] == 't';
  }

  lemma TxtExtension()
    ensures Extension("report.csv.txt") == ".txt"
  {
    var stem, ext := "report.csv", ".txt";
    assert stem + ext == "report.csv.txt";
    RFindIs(stem, '/', -1);
    assert stem[0..] == stem && stem[0] != '.';
    assert ext[1..] == "txt";
    ExtensionOfSplit(stem, ext);
  }

  // ---------------------------------------------------------------------------
  // Responses
  // ---------------------------------------------------------------------------

  /** The JSON bodies of the successful handlers. */
  datatype Body =
    | Uploaded(uploadedPath: string, currentDataset: string)
    | Ingested(rows: nat, currentDataset: string)
    | Analyzed(csvPath: string, plots: map<string, string>, aiSummary: string)
    | Generated(csvPath: string, pdfFile: Option<string>, pptFile: Option<string>,
                aiSummary: string, plots: map<string, string>)

  datatype Response =
    | Json(message: string, body: Body)
    | FileReply(path: string, filename: string, mediaType: string)
    | HttpError(status: nat, detail: string)

  const UploadsDir: string := "uploads/"
  const CsvOnly: string := "Only CSV files are supported for now."
  const ServerError: string := "Internal Server Error"
  const FileNotFound: string := "File not found: "

  function UploadPath(filename: string): string
  {
    UploadsDir + filename
  }

  // ---------------------------------------------------------------------------
  // /upload
  // ---------------------------------------------------------------------------

  /** The response to /upload and the files after it. */
  function UploadResult(files: map<string, FileContent>, filename: string, content: FileContent)
    : (out: (Response, map<string, FileContent>))
    ensures out.0.HttpError? <==> !IsCsvUpload(filename)
    ensures out.0.HttpError? ==> out == (HttpError(400, CsvOnly), files)
    ensures out.0.Json? ==>
      out.0.body == Uploaded(UploadPath(filename), CurrentDataset)
      && out.1.Keys == files.Keys + {UploadPath(filename), CurrentDataset}
      && out.1[UploadPath(filename)] == content && out.1[CurrentDataset] == content
  {
    UploadPathNotDataset(filename);
    if !IsCsvUpload(filename) then (HttpError(400, CsvOnly), files)
    else
      (Json("File uploaded successfully.", Uploaded(UploadPath(filename), CurrentDataset)),
       files[UploadPath(filename) := content][CurrentDataset := content])
  }

  /**
   * As a path string, the upload path is never the current-dataset path.
   * Paths are not normalised here, so this says nothing about a file name
   * with ".." that the file system resolves to the slot.
   */
  lemma UploadPathNotDataset(filename: string)
    ensures UploadPath(filename) != CurrentDataset
  {
    assert UploadPath(filename)[0] == 'u' && CurrentDataset[0] == 'd';
  }

  method Upload(disk: Disk, filename: string, content: FileContent) returns (r: Response)
    modifies disk
    ensures (r, disk.files) == UploadResult(old(disk.files), filename, content)
  {
    var ext := Lower(Extension(filename));
    if ext != ".csv" {
      return HttpError(400, CsvOnly);
    }
    var dest := UploadPath(filename);
    disk.Write(dest, content);
    UploadPathNotDataset(filename);
    // The copy cannot fail: the two paths differ.
    var _ := disk.Copy(dest, CurrentDataset);
    r := Json("File uploaded successfully.", Uploaded(dest, CurrentDataset));
  }

  /**
   * An upload is refused with 400 and no change unless its name passes the
   * guard; an accepted one stores the content under uploads/ and in the
   * current-dataset slot, and changes nothing else.
   */
  lemma UploadEffect(files: map<string, FileContent>, filename: string, content: FileContent)
    ensures var (r, after) := UploadResult(files, filename, content);
      (r.HttpError? <==> !IsCsvUpload(filename))
      && (r.HttpError? ==> r == HttpError(400, CsvOnly) && after == files)
      && (r.Json? ==>
            UploadPath(filename) in after && after[UploadPath(filename)] == content
            && CurrentDataset in after && after[CurrentDataset] == content
            && forall p :: p != UploadPath(filename) && p != CurrentDataset ==>
                 (p in after <==> p in files) && (p in files ==> after[p] == files[p]))
  {
    UploadPathNotDataset(filename);
  }

  /** After an accepted upload, a run without an explicit path reads the uploaded file. */
  lemma UploadSelectsDataset(files: map<string, FileContent>, filename: string, content: FileContent)
    requires IsCsvUpload(filename)
    ensures var after := UploadResult(files, filename, content).1;
      Resolve(after.Keys, None) == Ok(CurrentDataset) && after[CurrentDataset] == content
  {
  }

  // ---------------------------------------------------------------------------
  // /ingest
  // ---------------------------------------------------------------------------

  /** The response to /ingest and the files after it. */
  function IngestResult(files: map<string, FileContent>, path: string): (out: (Response, map<string, FileContent>))
    ensures path !in files ==> out == (HttpError(404, FileNotFound + path), files)
    ensures out.1 == files || (path in files && path != CurrentDataset && out.1 == files[CurrentDataset := files[path]])
    ensures out.0.Json? <==> path in files && path != CurrentDataset && ReadCsv(files[path]).Ok?
    ensures out.0.Json? ==> out.0.body == Ingested(|ReadCsv(files[path]).value.rows|, CurrentDataset)
    ensures out.0.HttpError? && path in files ==> out.0 == HttpError(500, ServerError)
  {
    if path !in files then (HttpError(404, FileNotFound + path), files)
    else if path == CurrentDataset then (HttpError(500, ServerError), files)
    else
      var after := files[CurrentDataset := files[path]];
      match ReadCsv(after[CurrentDataset])
      case Err(_) => (HttpError(500, ServerError), after)
      case Ok(t) => (Json("Ingestion successful.", Ingested(|t.rows|, CurrentDataset)), after)
  }

  method Ingest(disk: Disk, path: string) returns (r: Response)
    modifies disk
    ensures (r, disk.files) == IngestResult(old(disk.files), path)
  {
    if !disk.Exists(path) {
      return HttpError(404, FileNotFound + path);
    }
    var copied := disk.Copy(path, CurrentDataset);
    if copied.Err? {
      return HttpError(500, ServerError);
    }
    var read := ReadCsv(disk.files[CurrentDataset]);
    if read.Err? {
      return HttpError(500, ServerError);
    }
    r := Json("Ingestion successful.", Ingested(|read.value.rows|, CurrentDataset));
  }

  /** A path that does not exist is answered with 404 and changes nothing. */
  lemma IngestMissing(files: map<string, FileContent>, path: string)
    requires path !in files
    ensures IngestResult(files, path) == (HttpError(404, FileNotFound + path), files)
  {
  }

  /**
   * Ingesting an existing file other than the slot itself overwrites the
   * slot with its content and nothing else; the request succeeds exactly
   * when that content reads as a table, and reports its number of rows.
   */
  lemma IngestEffect(files: map<string, FileContent>, path: string)
    requires path in files && path != CurrentDataset
    ensures var (r, after) := IngestResult(files, path);
      after == files[CurrentDataset := files[path]]
      && (r.Json? <==> ReadCsv(files[path]).Ok?)
      && (r.Json? ==> r.body == Ingested(|ReadCsv(files[path]).value.rows|, CurrentDataset))
      && (r.HttpError? ==> r == HttpError(500, ServerError))
  {
  }

  /** Ingesting the slot onto itself fails with 500 and changes nothing. */
  lemma IngestSelf(files: map<string, FileContent>)
    requires CurrentDataset in files
    ensures IngestResult(files, CurrentDataset) == (HttpError(500, ServerError), files)
  {
  }

  /** Repeating an ingest gives the same response; the second write changes nothing. */
  lemma IngestTwice(files: map<string, FileContent>, path: string)
    requires path != CurrentDataset
    ensures IngestResult(IngestResult(files, path).1, path) == IngestResult(files, path)
  {
    if path in files {
      var after := files[CurrentDataset := files[path]];
      assert after[CurrentDataset := after[path]] == after;
    }
  }

  // ---------------------------------------------------------------------------
  // /analyze and /generate-report
  // ---------------------------------------------------------------------------

  /** The response to /analyze and the files after it. */
  function AnalyzeResult(files: map<string, FileContent>, source: Option<string>, aiSummary: string)
    : (out: (Response, map<string, FileContent>))
    ensures out.0.Json? || out.0.HttpError?
    ensures out.0.HttpError? ==> out.0.status == 500 && out.1 == files
    ensures out.0.HttpError? <==> Run(files, source, false, aiSummary).0.Err?
    ensures out.0.HttpError? ==> out.0.detail == Run(files, source, false, aiSummary).0.error
    ensures out.0.Json? ==> out.0.body.Analyzed? && out.0.body.aiSummary == aiSummary
    ensures (ReportPdf in out.1 <==> ReportPdf in files) && (ReportDeck in out.1 <==> ReportDeck in files)
  {
    AnalysisKeepsDocuments(files, source, aiSummary);
    var (r, after) := Run(files, source, false, aiSummary);
    match r
    case Err(e) => (HttpError(500, e), after)
    case Ok(b) => (Json("Analysis completed.", Analyzed(b.csvPath, b.plots, b.aiSummary)), after)
  }

  /** The response to /generate-report and the files after it. */
  function GenerateResult(files: map<string, FileContent>, source: Option<string>, aiSummary: string)
    : (out: (Response, map<string, FileContent>))
    ensures out.0.Json? || out.0.HttpError?
    ensures out.0.HttpError? ==> out.0.status == 500 && out.1 == files
    ensures out.0.HttpError? <==> Run(files, source, true, aiSummary).0.Err?
    ensures out.0.HttpError? ==> out.0.detail == Run(files, source, true, aiSummary).0.error
    ensures out.0.Json? ==>
      out.0.body.Generated? && out.0.body.aiSummary == aiSummary
      && out.0.body.pdfFile == Some(ReportPdf) && out.0.body.pptFile == Some(ReportDeck)
      && ReportPdf in out.1 && ReportDeck in out.1
  {
    var (r, after) := Run(files, source, true, aiSummary);
    match r
    case Err(e) => (HttpError(500, e), after)
    case Ok(b) =>
      DocumentsPresent(files, source, aiSummary);
      RunWrites(files, source, true, aiSummary);
      (Json("Report generated successfully.", Generated(b.csvPath, b.pdfFile, b.pptFile, b.aiSummary, b.plots)), after)
  }

  method Analyze(disk: Disk, source: Option<string>, aiSummary: string) returns (r: Response)
    modifies disk
    ensures (r, disk.files) == AnalyzeResult(old(disk.files), source, aiSummary)
  {
    var result := RunReport(disk, source, false, aiSummary);
    match result
    case Err(e) => r := HttpError(500, e);
    case Ok(b) => r := Json("Analysis completed.", Analyzed(b.csvPath, b.plots, b.aiSummary));
  }

  method GenerateReport(disk: Disk, source: Option<string>, aiSummary: string) returns (r: Response)
    modifies disk
    ensures (r, disk.files) == GenerateResult(old(disk.files), source, aiSummary)
  {
    var result := RunReport(disk, source, true, aiSummary);
    match result
    case Err(e) => r := HttpError(500, e);
    case Ok(b) =>
      r := Json("Report generated successfully.", Generated(b.csvPath, b.pdfFile, b.pptFile, b.aiSummary, b.plots));
  }

  /**
   * The two handlers differ only in generate_files: they fail together with
   * the same 500 detail, succeed on the same dataset with the same charts
   * and summary, and the files after /generate-report are those after
   * /analyze with the two documents written over them.
   */
  lemma AnalyzeVersusGenerate(files: map<string, FileContent>, source: Option<string>, aiSummary: string)
    ensures var (a, afterA) := AnalyzeResult(files, source, aiSummary);
      var (g, afterG) := GenerateResult(files, source, aiSummary);
      (a.HttpError? <==> g.HttpError?)
      && (a.HttpError? ==> a == g && a.status == 500 && afterA == files && afterG == files)
      && (a.Json? ==>
            a.body.csvPath == g.body.csvPath && a.body.plots == g.body.plots
            && a.body.aiSummary == g.body.aiSummary == aiSummary
            && g.body.pdfFile == Some(ReportPdf) && g.body.pptFile == Some(ReportDeck)
            && afterG == WithDocuments(afterA, aiSummary, a.body.plots))
  {
    RunFlagOnly(files, source, aiSummary);
  }

  /** A source that does not exist is answered with 500 and the not-found message. */
  lemma AnalyzeMissingSource(files: map<string, FileContent>, path: string, aiSummary: string)
    requires path !in files
    ensures AnalyzeResult(files, Some(path), aiSummary) == (HttpError(500, NotFoundPrefix + path), files)
    ensures GenerateResult(files, Some(path), aiSummary) == (HttpError(500, NotFoundPrefix + path), files)
  {
    RunMissingSource(files, path, false, aiSummary);
    RunMissingSource(files, path, true, aiSummary);
  }

  // ---------------------------------------------------------------------------
  // /get-report/{report_type}
  // ---------------------------------------------------------------------------

  /** The two values the report_type parameter admits. */
  datatype ReportKind = Pdf | Pptx

  function KindName(kind: ReportKind): string
  {
    match kind
    case Pdf => "PDF"
    case Pptx => "PPTX"
  }

  function ReportFileName(kind: ReportKind): string
  {
    match kind
    case Pdf => "netflix_report.pdf"
    case Pptx => "netflix_report.pptx"
  }

  function ReportFile(kind: ReportKind): string
  {
    match kind
    case Pdf => ReportPdf
    case Pptx => ReportDeck
  }

  function MediaType(kind: ReportKind): string
  {
    match kind
    case Pdf => "application/pdf"
    case Pptx => "application/vnd.openxmlformats-officedocument.presentationml.presentation"
  }

  /** The response to /get-report/{report_type}. */
  function GetReportResult(files: map<string, FileContent>, kind: ReportKind): (r: Response)
    ensures r.FileReply? <==> ReportFile(kind) in files
    ensures r.FileReply? ==> r.path == ReportFile(kind) && r.filename == ReportFileName(kind)
    ensures r.HttpError? ==> r.status == 404
  {
    var path := ReportFile(kind);
    if path !in files then HttpError(404, KindName(kind) + " report not found. Generate it first.")
    else FileReply(path, ReportFileName(kind), MediaType(kind))
  }

  /** The download handler only looks at the files and changes none of them. */
  method GetReport(disk: Disk, kind: ReportKind) returns (r: Response)
    ensures r == GetReportResult(disk.files, kind)
  {
    var path: string;
    var mediaType: string;
    if kind == Pdf {
      path, mediaType := ReportPdf, "application/pdf";
    } else {
      path, mediaType := ReportDeck, "application/vnd.openxmlformats-officedocument.presentationml.presentation";
    }
    if !disk.Exists(path) {
      return HttpError(404, KindName(kind) + " report not found. Generate it first.");
    }
    r := FileReply(path, ReportFileName(kind), mediaType);
  }

  /**
   * The download succeeds exactly when the document exists; it is served
   * from reports/ under its own name, and the two kinds never share a file.
   */
  lemma GetReportEffect(files: map<string, FileContent>, kind: ReportKind)
    ensures var r := GetReportResult(files, kind);
      (r.FileReply? <==> ReportFile(kind) in files)
      && (r.FileReply? ==> r.path == ReportFile(kind) && r.filename == ReportFileName(kind))
      && (r.HttpError? ==> r.status == 404 && r.detail == KindName(kind) + " report not found. Generate it first.")
    ensures ReportFile(Pdf) != ReportFile(Pptx)
  {
    assert ReportPdf[|ReportPdf| - 1] != ReportDeck[|ReportDeck| - 1];
  }

  /** After a successful /generate-report both documents can be downloaded. */
  lemma GenerateThenDownload(files: map<string, FileContent>, source: Option<string>, aiSummary: string, kind: ReportKind)
    requires GenerateResult(files, source, aiSummary).0.Json?
    ensures GetReportResult(GenerateResult(files, source, aiSummary).1, kind)
      == FileReply(ReportFile(kind), ReportFileName(kind), MediaType(kind))
  {
    DocumentsPresent(files, source, aiSummary);
  }

  /** /analyze leaves the downloads as they were. */
  lemma AnalyzeKeepsDownloads(files: map<string, FileContent>, source: Option<string>, aiSummary: string, kind: ReportKind)
    ensures GetReportResult(AnalyzeResult(files, source, aiSummary).1, kind) == GetReportResult(files, kind)
  {
    AnalysisKeepsDocuments(files, source, aiSummary);
  }
}
