/**
 * run_report: choose the dataset, read it, derive duration_num and a numeric
 * release_year, draw the charts whose data is non-empty, and optionally
 * write the PDF and the slide deck; the result is the report bundle.
 *
 * Paths are written relative to the project root. The narrative summary
 * comes from an external chat-completion service and is a parameter here
 * (the empty string when the service is disabled or fails).
 */
module Report {
  import opened Wrappers
  import opened Text
  import opened Counting
  import opened Frames
  import opened Aggregates
  import opened Documents
  import opened Storage

  const CurrentDataset: string := "data/current_dataset.csv"
  const DefaultDataset: string := "data/netflix_titles.csv"
  const ReportPdf: string := "reports/netflix_report.pdf"
  const ReportDeck: string := "reports/netflix_report.pptx"
  const NotFoundPrefix: string := "CSV file not found: "

  /** Where _save_plot puts the chart called key. */
  function ChartPath(key: string): string
  {
    "reports/" + key + ".png"
  }

  // ---------------------------------------------------------------------------
  // Choosing the dataset
  // ---------------------------------------------------------------------------

  /**
   * Without an explicit path the current dataset is preferred and the
   * bundled Netflix file is the fallback; an explicit path is used as given
   * and is never replaced by another file.
   */
  function Resolve(paths: set<string>, csvPath: Option<string>): (r: Result<string, string>)
    ensures r.Ok? ==> r.value in paths
    ensures csvPath.Some? && r.Ok? ==> r.value == csvPath.value
    ensures csvPath.None? && CurrentDataset in paths ==> r == Ok(CurrentDataset)
    ensures csvPath.None? && CurrentDataset !in paths && r.Ok? ==> r.value == DefaultDataset
    ensures r.Err? <==> (csvPath.Some? && csvPath.value !in paths)
                        || (csvPath.None? && CurrentDataset !in paths && DefaultDataset !in paths)
    ensures r.Err? ==> r.error == NotFoundPrefix + (if csvPath.Some? then csvPath.value else DefaultDataset)
  {
    var path := match csvPath
      case Some(p) => p
      case None => if CurrentDataset in paths then CurrentDataset else DefaultDataset;
    if path in paths then Ok(path) else Err(NotFoundPrefix + path)
  }

  // ---------------------------------------------------------------------------
  // Feature engineering
  // ---------------------------------------------------------------------------

  /** .astype(str).str.extract(r"(\d+)").astype(float) on one duration cell. */
  function DurationNumber(v: Value): (r: Value)
    ensures r.Missing? || (r.Num? && r.num >= 0)
    ensures r.Missing? <==> NoDigits(AsString(v))
  {
    match FirstDigitRun(AsString(v))
    case Some(n) => Num(n)
    case None => Missing
  }

  /** pd.to_numeric(errors="coerce") on one release_year cell. */
  function YearValue(v: Value): (r: Value)
    ensures r.Missing? || r.Num?
    ensures v.Num? ==> r == v
    ensures v.Missing? ==> r.Missing?
  {
    match v
    case Missing => Missing
    case Num(n) => Num(n)
    case Str(s) => match ParseInt(s)
      case Some(n) => Num(n)
      case None => Missing
  }

  function DurationColumn(col: seq<Value>): (r: seq<Value>)
  {
    seq(|col|, i requires 0 <= i < |col| => DurationNumber(col[i]))
  }

  function YearColumn(col: seq<Value>): (r: seq<Value>)
  {
    seq(|col|, i requires 0 <= i < |col| => YearValue(col[i]))
  }

  /** df["duration_num"] = None */
  function MissingColumn(n: nat): (r: seq<Value>)
  {
    seq(n, i => Missing)
  }

  /** The table after its column labels are stripped. */
  function Stripped(t: Table): (r: Table)
    requires Rectangular(t)
    ensures Rectangular(r)
  {
    Table(StripNames(t.columns), t.rows)
  }

  function WithDurations(t: Table): (r: Table)
    requires Rectangular(t)
  {
    WithColumn(t, "duration_num",
      if "duration" in t.columns then DurationColumn(Column(t, "duration")) else MissingColumn(|t.rows|))
  }

  /** The frame as run_report leaves it before the first chart. */
  function Prepared(t: Table): (r: Table)
    requires Rectangular(t)
    ensures Rectangular(r)
  {
    var t2 := WithDurations(Stripped(t));
    if "release_year" in t2.columns then WithColumn(t2, "release_year", YearColumn(Column(t2, "release_year")))
    else t2
  }

  /** The cleaning and feature steps, applied to the frame in place. */
  method PrepareFeatures(f: Frame)
    requires f.Valid()
    modifies f
    ensures f.Valid() && f.Snapshot() == Prepared(old(f.Snapshot()))
  {
    ghost var t0 := f.Snapshot();
    f.StripColumnNames();
    assert f.Snapshot() == Stripped(t0);
    if f.Has("duration") {
      f.Set("duration_num", DurationColumn(f.Get("duration")));
    } else {
      f.Set("duration_num", MissingColumn(|f.rows|));
    }
    if f.Has("release_year") {
      f.Set("release_year", YearColumn(f.Get("release_year")));
    }
  }

  /** A duration such as "90 min" or "2 Seasons" yields its leading number. */
  lemma DurationOfNumeral(n: nat, unit: string)
    requires |unit| == 0 || !IsDigit(unit[0])
    ensures DurationNumber(Str(NatToDigits(n) + unit)) == Num(n)
  {
    FirstDigitRunOfNumeral(n, unit);
  }

  /** A missing duration, read as the text "nan", yields no number. */
  lemma DurationOfMissing()
    ensures DurationNumber(Missing) == Missing
  {
    assert NoDigits(AsString(Missing));
  }

  /** A year written in decimal is coerced to that year. */
  lemma YearOfNumeral(n: int)
    ensures YearValue(Str(IntToString(n))) == Num(n)
  {
    ParseIntRoundTrip(n);
  }

  /**
   * Preparation keeps every row and every stripped column, in order, adds
   * duration_num at the end unless it exists already, and changes only the
   * cells of duration_num and release_year.
   */
  lemma PreparedShape(t: Table)
    requires Rectangular(t)
    ensures var p, s := Prepared(t), Stripped(t);
      |p.rows| == |t.rows|
      && p.columns == s.columns + (if "duration_num" in s.columns then [] else ["duration_num"])
      && (forall m :: m in s.columns && m != "duration_num" && m != "release_year" ==> Column(p, m) == Column(s, m))
      && Column(p, "duration_num") == (if "duration" in s.columns then DurationColumn(Column(s, "duration")) else MissingColumn(|t.rows|))
      && ("release_year" in s.columns ==> Column(p, "release_year") == YearColumn(Column(s, "release_year")))
  {
    PreparedColumns(t);
    PreparedDurations(t);
    PreparedYears(t);
    forall m | m in Stripped(t).columns && m != "duration_num" && m != "release_year"
      ensures Column(Prepared(t), m) == Column(Stripped(t), m)
    {
      KeptColumn(t, m);
    }
  }

  /** Preparation keeps the rows and appends duration_num to the stripped labels unless it is there. */
  lemma PreparedColumns(t: Table)
    requires Rectangular(t)
    ensures |Prepared(t).rows| == |t.rows|
    ensures Prepared(t).columns == Stripped(t).columns + (if "duration_num" in Stripped(t).columns then [] else ["duration_num"])
  {
    var s := Stripped(t);
    var t2 := WithDurations(s);
    assert t2.columns == s.columns + (if "duration_num" in s.columns then [] else ["duration_num"]);
    assert |t2.rows| == |t.rows|;
    if "release_year" in t2.columns {
      var t3 := WithColumn(t2, "release_year", YearColumn(Column(t2, "release_year")));
      assert t3.columns == t2.columns && |t3.rows| == |t2.rows|;
      assert Prepared(t) == t3;
    } else {
      assert Prepared(t) == t2;
    }
  }

  // ---------------------------------------------------------------------------
  // Charts
  // ---------------------------------------------------------------------------

  /** plot_files: every drawn chart mapped to its image path. */
  function PlotFiles(t: Table): (plots: map<string, string>)
    requires Rectangular(t)
  {
    map k | k in ChartKeys(t) :: ChartPath(k)
  }

  /** plot_files after the first n chart blocks, when the charts drawn are those in drawn. */
  function PlotsAfter(drawn: set<string>, n: nat): map<string, string>
    requires n <= |ChartOrder|
  {
    if n == 0 then map[]
    else
      var k := ChartOrder[n - 1];
      if k in drawn then PlotsAfter(drawn, n - 1)[k := ChartPath(k)] else PlotsAfter(drawn, n - 1)
  }

  /** The files after the first n chart blocks. */
  function ChartsWritten(files: map<string, FileContent>, drawn: set<string>, n: nat): map<string, FileContent>
    requires n <= |ChartOrder|
  {
    if n == 0 then files
    else
      var k := ChartOrder[n - 1];
      if k in drawn then ChartsWritten(files, drawn, n - 1)[ChartPath(k) := ChartImage(k)]
      else ChartsWritten(files, drawn, n - 1)
  }

  lemma {:induction false} PlotsAfterIs(drawn: set<string>, n: nat)
    requires n <= |ChartOrder|
    ensures PlotsAfter(drawn, n) == map k | k in ChartOrder[..n] && k in drawn :: ChartPath(k)
  {
    if n > 0 {
      PlotsAfterIs(drawn, n - 1);
      assert ChartOrder[..n] == ChartOrder[..n - 1] + [ChartOrder[n - 1]];
    }
  }

  lemma PlotsAfterAll(t: Table)
    requires Rectangular(t)
    ensures PlotsAfter(ChartKeys(t), |ChartOrder|) == PlotFiles(t)
  {
    PlotsAfterIs(ChartKeys(t), |ChartOrder|);
    assert ChartOrder[..|ChartOrder|] == ChartOrder;
  }

  /** One chart block: draw and save the chart if its data is non-empty. */
  method DrawChart(disk: Disk, t: Table, i: nat, plots: map<string, string>, ghost files0: map<string, FileContent>)
    returns (plots': map<string, string>)
    requires Rectangular(t) && i < |ChartOrder|
    requires disk.files == ChartsWritten(files0, ChartKeys(t), i) && plots == PlotsAfter(ChartKeys(t), i)
    modifies disk
    ensures disk.files == ChartsWritten(files0, ChartKeys(t), i + 1) && plots' == PlotsAfter(ChartKeys(t), i + 1)
  {
    var key := ChartOrder[i];
    assert key in ChartKeys(t) <==> HasChart(t, key);
    if HasChart(t, key) {
      var path := ChartPath(key);
      disk.Write(path, ChartImage(key));
      plots' := plots[key := path];
    } else {
      plots' := plots;
    }
  }

  // ---------------------------------------------------------------------------
  // The pipeline
  // ---------------------------------------------------------------------------

  /** The dictionary run_report returns. */
  datatype Bundle = Bundle(
    csvPath: string,
    pdfFile: Option<string>,
    pptFile: Option<string>,
    aiSummary: string,
    plots: map<string, string>)

  /** What run_report returns and the files it leaves, as one function of the files before it. */
  function Run(files: map<string, FileContent>, csvPath: Option<string>, generateFiles: bool, aiSummary: string)
    : (out: (Result<Bundle, string>, map<string, FileContent>))
    ensures out.0.Ok? <==>
      Resolve(files.Keys, csvPath).Ok? && ReadCsv(files[Resolve(files.Keys, csvPath).value]).Ok?
    ensures out.0.Err? ==> out.1 == files
    ensures out.0.Ok? ==>
      out.0.value.csvPath == Resolve(files.Keys, csvPath).value && out.0.value.aiSummary == aiSummary
      && (out.0.value.pdfFile.Some? <==> generateFiles) && (out.0.value.pptFile.Some? <==> generateFiles)
  {
    match Resolve(files.Keys, csvPath)
    case Err(e) => (Err(e), files)
    case Ok(path) =>
      match ReadCsv(files[path])
      case Err(e) => (Err(e), files)
      case Ok(raw) => (Ok(Outcome(path, raw, generateFiles, aiSummary)), Written(files, raw, generateFiles, aiSummary))
  }

  /** The bundle of a run that has read the table raw from path. */
  function Outcome(path: string, raw: Table, generateFiles: bool, aiSummary: string): Bundle
    requires Rectangular(raw)
  {
    var plots := PlotFiles(Prepared(raw));
    if generateFiles then Bundle(path, Some(ReportPdf), Some(ReportDeck), aiSummary, plots)
    else Bundle(path, None, None, aiSummary, plots)
  }

  /** The files a run leaves once it has read the table raw. */
  function Written(files: map<string, FileContent>, raw: Table, generateFiles: bool, aiSummary: string): map<string, FileContent>
    requires Rectangular(raw)
  {
    var t := Prepared(raw);
    var charted := ChartsWritten(files, ChartKeys(t), |ChartOrder|);
    if generateFiles then WithDocuments(charted, aiSummary, PlotFiles(t)) else charted
  }

  function WithDocuments(files: map<string, FileContent>, aiSummary: string, plots: map<string, string>): map<string, FileContent>
  {
    files[ReportPdf := PdfFile(PdfContents(aiSummary, plots))][ReportDeck := DeckFile(DeckContents(aiSummary, plots))]
  }

  method RunReport(disk: Disk, csvPath: Option<string>, generateFiles: bool, aiSummary: string)
    returns (r: Result<Bundle, string>)
    modifies disk
    ensures (r, disk.files) == Run(old(disk.files), csvPath, generateFiles, aiSummary)
  {
    var resolved := Resolve(disk.files.Keys, csvPath);
    if resolved.Err? {
      return Err(resolved.error);
    }
    var path := resolved.value;
    var read := ReadCsv(disk.files[path]);
    if read.Err? {
      return Err(read.error);
    }
    var raw := read.value;
    var plots := Analyze(disk, raw);
    var pdfFile: Option<string> := None;
    var pptFile: Option<string> := None;
    if generateFiles {
      WriteDocuments(disk, aiSummary, plots);
      pdfFile, pptFile := Some(ReportPdf), Some(ReportDeck);
    }
    r := Ok(Bundle(path, pdfFile, pptFile, aiSummary, plots));
  }

  /** Preparation and the six chart blocks. */
  method Analyze(disk: Disk, raw: Table) returns (plots: map<string, string>)
    requires Rectangular(raw)
    modifies disk
    ensures plots == PlotFiles(Prepared(raw))
    ensures disk.files == ChartsWritten(old(disk.files), ChartKeys(Prepared(raw)), |ChartOrder|)
  {
    var frame := new Frame(raw);
    PrepareFeatures(frame);
    plots := DrawCharts(disk, frame.Snapshot());
  }

  /** The six chart blocks, in the order of ChartOrder. */
  method DrawCharts(disk: Disk, t: Table) returns (plots: map<string, string>)
    requires Rectangular(t)
    modifies disk
    ensures plots == PlotFiles(t)
    ensures disk.files == ChartsWritten(old(disk.files), ChartKeys(t), |ChartOrder|)
  {
    ghost var files0 := disk.files;
    plots := map[];
    plots := DrawChart(disk, t, 0, plots, files0);
    plots := DrawChart(disk, t, 1, plots, files0);
    plots := DrawChart(disk, t, 2, plots, files0);
    plots := DrawChart(disk, t, 3, plots, files0);
    plots := DrawChart(disk, t, 4, plots, files0);
    plots := DrawChart(disk, t, 5, plots, files0);
    PlotsAfterAll(t);
  }

  /** The PDF and the slide deck, written over any earlier ones. */
  method WriteDocuments(disk: Disk, aiSummary: string, plots: map<string, string>)
    modifies disk
    ensures disk.files == WithDocuments(old(disk.files), aiSummary, plots)
  {
    var doc := BuildPdf(aiSummary, plots);
    disk.Write(ReportPdf, PdfFile(doc));
    var deck := BuildDeck(aiSummary, plots);
    disk.Write(ReportDeck, DeckFile(deck));
  }

  // ---------------------------------------------------------------------------
  // What a run writes
  // ---------------------------------------------------------------------------

  /** Different charts are saved under different image names. */
  lemma ChartPathInjective(a: string, b: string)
    requires ChartPath(a) == ChartPath(b)
    ensures a == b
  {
    assert |a| == |b|;
    assert ChartPath(a)[8..8 + |a|] == a;
    assert ChartPath(b)[8..8 + |b|] == b;
  }

  /** No chart image lands on a dataset or on one of the two documents. */
  lemma ChartPathDistinct(key: string)
    ensures ChartPath(key) != ReportPdf && ChartPath(key) != ReportDeck
    ensures ChartPath(key) != CurrentDataset && ChartPath(key) != DefaultDataset
  {
    var p := ChartPath(key);
    assert p[|p| - 1] == 'g';
    assert ReportPdf[|ReportPdf| - 1] == 'f';
    assert ReportDeck[|ReportDeck| - 1] == 'x';
    assert CurrentDataset[|CurrentDataset| - 1] == 'v';
    assert DefaultDataset[|DefaultDataset| - 1] == 'v';
  }

  /**
   * After the first n chart blocks, exactly the image of every drawn chart
   * has been written and every other file is as it was.
   */
  lemma ChartsWrittenIs(files: map<string, FileContent>, drawn: set<string>, n: nat)
    requires n <= |ChartOrder|
    ensures forall k :: k in PlotsAfter(drawn, n) ==>
      PlotsAfter(drawn, n)[k] == ChartPath(k) && ChartPath(k) in ChartsWritten(files, drawn, n)
      && ChartsWritten(files, drawn, n)[ChartPath(k)] == ChartImage(k)
    ensures forall p :: (forall k :: k in PlotsAfter(drawn, n) ==> p != ChartPath(k)) ==>
      (p in ChartsWritten(files, drawn, n) <==> p in files)
      && (p in files ==> ChartsWritten(files, drawn, n)[p] == files[p])
  {
    ImagesWritten(files, drawn, n);
    forall p | forall k :: k in PlotsAfter(drawn, n) ==> p != ChartPath(k)
      ensures (p in ChartsWritten(files, drawn, n) <==> p in files)
              && (p in files ==> ChartsWritten(files, drawn, n)[p] == files[p])
    {
      OtherFileKept(files, drawn, n, p);
    }
  }

  /** Each drawn chart's image is in place after the blocks that draw it. */
  lemma {:induction false} ImagesWritten(files: map<string, FileContent>, drawn: set<string>, n: nat)
    requires n <= |ChartOrder|
    ensures forall k :: k in PlotsAfter(drawn, n) ==>
      PlotsAfter(drawn, n)[k] == ChartPath(k) && ChartPath(k) in ChartsWritten(files, drawn, n)
      && ChartsWritten(files, drawn, n)[ChartPath(k)] == ChartImage(k)
  {
    if n > 0 {
      ImagesWritten(files, drawn, n - 1);
      var k := ChartOrder[n - 1];
      if k in drawn {
        forall j | j in PlotsAfter(drawn, n - 1) && j != k ensures ChartPath(j) != ChartPath(k) {
          if ChartPath(j) == ChartPath(k) {
            ChartPathInjective(j, k);
          }
        }
      }
    }
  }

  /** A file that is not the image of a drawn chart is left as it was. */
  lemma {:induction false} OtherFileKept(files: map<string, FileContent>, drawn: set<string>, n: nat, p: string)
    requires n <= |ChartOrder|
    requires forall k :: k in PlotsAfter(drawn, n) ==> p != ChartPath(k)
    ensures p in ChartsWritten(files, drawn, n) <==> p in files
    ensures p in files ==> ChartsWritten(files, drawn, n)[p] == files[p]
  {
    if n > 0 {
      var k := ChartOrder[n - 1];
      assert forall j :: j in PlotsAfter(drawn, n - 1) ==> j in PlotsAfter(drawn, n);
      if k in drawn {
        assert k in PlotsAfter(drawn, n);
      }
      OtherFileKept(files, drawn, n - 1, p);
    }
  }

  /** A failed run writes nothing. */
  lemma RunFailureWritesNothing(files: map<string, FileContent>, csvPath: Option<string>, generateFiles: bool, aiSummary: string)
    requires Run(files, csvPath, generateFiles, aiSummary).0.Err?
    ensures Run(files, csvPath, generateFiles, aiSummary).1 == files
  {
  }

  /** An explicit path that does not exist is reported, whatever else exists. */
  lemma RunMissingSource(files: map<string, FileContent>, path: string, generateFiles: bool, aiSummary: string)
    requires path !in files
    ensures Run(files, Some(path), generateFiles, aiSummary) == (Err(NotFoundPrefix + path), files)
  {
  }

  /**
   * A successful run maps each drawn chart to its image path, writes those
   * images, writes the PDF and the deck exactly when asked to, and leaves
   * every other file alone.
   */
  lemma RunWrites(files: map<string, FileContent>, csvPath: Option<string>, generateFiles: bool, aiSummary: string)
    requires Run(files, csvPath, generateFiles, aiSummary).0.Ok?
    ensures var (r, after) := Run(files, csvPath, generateFiles, aiSummary);
      var plots := r.value.plots;
      (forall k :: k in plots ==> plots[k] == ChartPath(k) && ChartPath(k) in after && after[ChartPath(k)] == ChartImage(k))
      && (forall p :: p != ReportPdf && p != ReportDeck && (forall k :: k in plots ==> p != ChartPath(k)) ==>
            (p in after <==> p in files) && (p in files ==> after[p] == files[p]))
      && (generateFiles ==>
            r.value.pdfFile == Some(ReportPdf) && r.value.pptFile == Some(ReportDeck)
            && ReportPdf in after && after[ReportPdf] == PdfFile(PdfContents(aiSummary, plots))
            && ReportDeck in after && after[ReportDeck] == DeckFile(DeckContents(aiSummary, plots)))
      && (!generateFiles ==>
            r.value.pdfFile == None && r.value.pptFile == None
            && (ReportPdf in after <==> ReportPdf in files) && (ReportPdf in files ==> after[ReportPdf] == files[ReportPdf])
            && (ReportDeck in after <==> ReportDeck in files) && (ReportDeck in files ==> after[ReportDeck] == files[ReportDeck]))
  {
    var path := Resolve(files.Keys, csvPath).value;
    var raw := ReadCsv(files[path]).value;
    WrittenIs(files, raw, generateFiles, aiSummary);
  }

  /** RunWrites, stated for the table the run has read. */
  lemma WrittenIs(files: map<string, FileContent>, raw: Table, generateFiles: bool, aiSummary: string)
    requires Rectangular(raw)
    ensures var after, plots := Written(files, raw, generateFiles, aiSummary), PlotFiles(Prepared(raw));
      (forall k :: k in plots ==> plots[k] == ChartPath(k) && ChartPath(k) in after && after[ChartPath(k)] == ChartImage(k))
      && (forall p :: p != ReportPdf && p != ReportDeck && (forall k :: k in plots ==> p != ChartPath(k)) ==>
            (p in after <==> p in files) && (p in files ==> after[p] == files[p]))
      && (generateFiles ==>
            ReportPdf in after && after[ReportPdf] == PdfFile(PdfContents(aiSummary, plots))
            && ReportDeck in after && after[ReportDeck] == DeckFile(DeckContents(aiSummary, plots)))
      && (!generateFiles ==>
            (ReportPdf in after <==> ReportPdf in files) && (ReportPdf in files ==> after[ReportPdf] == files[ReportPdf])
            && (ReportDeck in after <==> ReportDeck in files) && (ReportDeck in files ==> after[ReportDeck] == files[ReportDeck]))
  {
    var t := Prepared(raw);
    ChartsOfTable(files, t);
    if generateFiles {
      DocumentsWritten(ChartsWritten(files, ChartKeys(t), |ChartOrder|), aiSummary, PlotFiles(t));
    }
  }

  /** The six chart blocks write the image of every chart in plot_files and nothing else. */
  lemma ChartsOfTable(files: map<string, FileContent>, t: Table)
    requires Rectangular(t)
    ensures var after, plots := ChartsWritten(files, ChartKeys(t), |ChartOrder|), PlotFiles(t);
      (forall k :: k in plots ==> plots[k] == ChartPath(k) && ChartPath(k) in after && after[ChartPath(k)] == ChartImage(k)
                                  && ChartPath(k) != ReportPdf && ChartPath(k) != ReportDeck)
      && (forall p :: (forall k :: k in plots ==> p != ChartPath(k)) ==>
            (p in after <==> p in files) && (p in files ==> after[p] == files[p]))
  {
    ChartsWrittenIs(files, ChartKeys(t), |ChartOrder|);
    PlotsAfterAll(t);
    forall k ensures ChartPath(k) != ReportPdf && ChartPath(k) != ReportDeck {
      ChartPathDistinct(k);
    }
  }

  /** Writing the documents replaces the PDF and the deck and nothing else. */
  lemma DocumentsWritten(files: map<string, FileContent>, aiSummary: string, plots: map<string, string>)
    ensures var after := WithDocuments(files, aiSummary, plots);
      ReportPdf in after && after[ReportPdf] == PdfFile(PdfContents(aiSummary, plots))
      && ReportDeck in after && after[ReportDeck] == DeckFile(DeckContents(aiSummary, plots))
      && forall p :: p != ReportPdf && p != ReportDeck ==>
           (p in after <==> p in files) && (p in files ==> after[p] == files[p])
  {
    assert ReportPdf[|ReportPdf| - 1] != ReportDeck[|ReportDeck| - 1];
  }

  /**
   * generate_files changes nothing but the two documents: the runs fail
   * together with the same error, or succeed on the same dataset with the
   * same charts, the generating one also writing the PDF and the deck.
   */
  lemma RunFlagOnly(files: map<string, FileContent>, csvPath: Option<string>, aiSummary: string)
    ensures var (a, afterA) := Run(files, csvPath, false, aiSummary);
      var (g, afterG) := Run(files, csvPath, true, aiSummary);
      (a.Ok? <==> g.Ok?)
      && (a.Err? ==> a == g && afterA == files && afterG == files)
      && (a.Ok? ==>
            a.value.csvPath == g.value.csvPath && a.value.plots == g.value.plots
            && a.value.aiSummary == g.value.aiSummary == aiSummary
            && a.value.pdfFile == None && a.value.pptFile == None
            && g.value.pdfFile == Some(ReportPdf) && g.value.pptFile == Some(ReportDeck)
            && afterG == WithDocuments(afterA, aiSummary, a.value.plots))
  {
  }

  /** A run without documents leaves any earlier PDF and deck as they were. */
  lemma AnalysisKeepsDocuments(files: map<string, FileContent>, csvPath: Option<string>, aiSummary: string)
    ensures var after := Run(files, csvPath, false, aiSummary).1;
      (ReportPdf in after <==> ReportPdf in files) && (ReportDeck in after <==> ReportDeck in files)
  {
    var (r, after) := Run(files, csvPath, false, aiSummary);
    if r.Ok? {
      var path := Resolve(files.Keys, csvPath).value;
      var raw := ReadCsv(files[path]).value;
      var t := Prepared(raw);
      ChartsOfTable(files, t);
      assert after == ChartsWritten(files, ChartKeys(t), |ChartOrder|);
    }
  }

  /** After a run that writes documents, both are present. */
  lemma DocumentsPresent(files: map<string, FileContent>, csvPath: Option<string>, aiSummary: string)
    requires Run(files, csvPath, true, aiSummary).0.Ok?
    ensures var after := Run(files, csvPath, true, aiSummary).1;
      ReportPdf in after && ReportDeck in after
  {
  }

  /** release_year is present after preparation exactly when it was, and holds the coerced years. */
  lemma PreparedYears(t: Table)
    requires Rectangular(t)
    ensures "release_year" in Prepared(t).columns <==> "release_year" in Stripped(t).columns
    ensures "release_year" in Stripped(t).columns ==>
      Column(Prepared(t), "release_year") == YearColumn(Column(Stripped(t), "release_year"))
  {
    DurationsKeep(Stripped(t), "release_year");
  }

  /** Adding duration_num leaves every other column as it was. */
  lemma DurationsKeep(s: Table, name: string)
    requires Rectangular(s) && name != "duration_num"
    ensures name in WithDurations(s).columns <==> name in s.columns
    ensures name in s.columns ==> Column(WithDurations(s), name) == Column(s, name)
  {
  }

  /** duration_num is always present after preparation and holds the extracted numbers. */
  lemma PreparedDurations(t: Table)
    requires Rectangular(t)
    ensures "duration_num" in Prepared(t).columns
    ensures Column(Prepared(t), "duration_num") ==
      if "duration" in Stripped(t).columns then DurationColumn(Column(Stripped(t), "duration"))
      else MissingColumn(|t.rows|)
  {
  }

  /** A column other than the two derived ones survives preparation unchanged. */
  lemma KeptColumn(t: Table, name: string)
    requires Rectangular(t) && name != "duration_num" && name != "release_year"
    ensures name in Prepared(t).columns <==> name in Stripped(t).columns
    ensures name in Stripped(t).columns ==> Column(Prepared(t), name) == Column(Stripped(t), name)
  {
    DurationsKeep(Stripped(t), name);
  }

  lemma InPlotFiles(t: Table, i: nat)
    requires Rectangular(t) && i < |ChartOrder|
    ensures ChartOrder[i] in PlotFiles(t) <==> HasChart(t, ChartOrder[i])
  {
  }

  lemma RawGenres(t: Table)
    requires Rectangular(t)
    ensures GenresKey in PlotFiles(Prepared(t)) <==>
      "listed_in" in Stripped(t).columns && HasPresent(Column(Stripped(t), "listed_in"))
  {
    InPlotFiles(Prepared(t), 0);
    GenresChart(Prepared(t));
    KeptColumn(t, "listed_in");
  }

  lemma RawDirectors(t: Table)
    requires Rectangular(t)
    ensures DirectorsKey in PlotFiles(Prepared(t)) <==>
      "director" in Stripped(t).columns && HasPresent(Column(Stripped(t), "director"))
  {
    InPlotFiles(Prepared(t), 1);
    DirectorsChart(Prepared(t));
    KeptColumn(t, "director");
  }

  lemma RawRatings(t: Table)
    requires Rectangular(t)
    ensures RatingsKey in PlotFiles(Prepared(t)) <==>
      "rating" in Stripped(t).columns && HasPresent(Column(Stripped(t), "rating"))
  {
    InPlotFiles(Prepared(t), 2);
    RatingsChart(Prepared(t));
    KeptColumn(t, "rating");
  }

  /** Some cell of col coerces to a year. */
  predicate SomeYear(col: seq<Value>)
  {
    exists i :: 0 <= i < |col| && YearValue(col[i]).Num?
  }

  lemma YearColumnHasNumber(col: seq<Value>)
    ensures HasNumber(YearColumn(col)) <==> SomeYear(col)
  {
    var ys := YearColumn(col);
    if HasNumber(ys) {
      var i :| 0 <= i < |ys| && ys[i].Num?;
      assert YearValue(col[i]).Num?;
    }
    if SomeYear(col) {
      var i :| 0 <= i < |col| && YearValue(col[i]).Num?;
      assert ys[i].Num?;
    }
  }

  lemma RawYears(t: Table)
    requires Rectangular(t)
    ensures YearsKey in PlotFiles(Prepared(t)) <==>
      "release_year" in Stripped(t).columns && SomeYear(Column(Stripped(t), "release_year"))
  {
    InPlotFiles(Prepared(t), 3);
    YearsChart(Prepared(t));
    PreparedYears(t);
    if "release_year" in Stripped(t).columns {
      YearColumnHasNumber(Column(Stripped(t), "release_year"));
    }
  }

  lemma RawTypes(t: Table)
    requires Rectangular(t)
    ensures TypesKey in PlotFiles(Prepared(t)) <==>
      "type" in Stripped(t).columns && HasPresent(Column(Stripped(t), "type"))
  {
    InPlotFiles(Prepared(t), 4);
    TypesChart(Prepared(t));
    KeptColumn(t, "type");
  }

  lemma RawAvgDuration(t: Table)
    requires Rectangular(t)
    ensures AvgDurationKey in PlotFiles(Prepared(t)) <==>
      "duration" in Stripped(t).columns && "type" in Stripped(t).columns
      && exists i :: 0 <= i < |t.rows| && Column(Stripped(t), "type")[i] != Missing
                     && !NoDigits(AsString(Column(Stripped(t), "duration")[i]))
  {
    var p := Prepared(t);
    InPlotFiles(p, 5);
    AvgDurationChart(p);
    AvgDurationRows(t);
  }

  /** The prepared table's row condition for avg_duration, traced to the stripped table. */
  lemma AvgDurationRows(t: Table)
    requires Rectangular(t)
    ensures var s, p := Stripped(t), Prepared(t);
      ("duration_num" in p.columns && "type" in p.columns
       && exists i :: 0 <= i < |p.rows| && Column(p, "type")[i] != Missing && Column(p, "duration_num")[i].Num?)
      <==>
      ("duration" in s.columns && "type" in s.columns
       && exists i :: 0 <= i < |t.rows| && Column(s, "type")[i] != Missing && !NoDigits(AsString(Column(s, "duration")[i])))
  {
    var s, p := Stripped(t), Prepared(t);
    KeptColumn(t, "type");
    PreparedDurations(t);
    var ds := Column(p, "duration_num");
    if "duration" in s.columns {
      assert forall i :: 0 <= i < |t.rows| ==> (ds[i].Num? <==> !NoDigits(AsString(Column(s, "duration")[i])));
      if "type" in s.columns {
        RowWitnessIff(Column(s, "type"), ds, Column(s, "duration"));
      }
    } else {
      assert forall i :: 0 <= i < |t.rows| ==> ds[i] == Missing;
    }
  }

  /** A row with a present type and a parsed duration exists exactly when one with a digit in its duration does. */
  lemma RowWitnessIff(ks: seq<Value>, ds: seq<Value>, durs: seq<Value>)
    requires |ks| == |ds| == |durs|
    requires forall i :: 0 <= i < |ds| ==> (ds[i].Num? <==> !NoDigits(AsString(durs[i])))
    ensures (exists i :: 0 <= i < |ks| && ks[i] != Missing && ds[i].Num?)
        <==> (exists i :: 0 <= i < |ks| && ks[i] != Missing && !NoDigits(AsString(durs[i])))
  {
  }

  /** Charts are drawn only under the six fixed keys. */
  lemma PlotKeysFixed(t: Table)
    requires Rectangular(t)
    ensures PlotFiles(t).Keys <= set k | k in ChartOrder
    ensures forall k :: k in PlotFiles(t) ==> PlotFiles(t)[k] == ChartPath(k)
  {
  }
}
