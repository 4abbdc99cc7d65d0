/**
 * The project directory as the pipeline and the server see it: a mapping
 * from paths (relative to the project root) to what the file holds. A CSV
 * file is represented by the table pandas reads from it; a file pandas
 * cannot read carries the reason it gives; the files the pipeline writes
 * carry what the model knows of them.
 */
module Storage {
  import opened Wrappers
  import opened Frames
  import opened Documents

  datatype FileContent =
    | CsvFile(table: Table)
    | Unreadable(reason: string)
    | ChartImage(key: string)
    | PdfFile(elements: seq<PdfElement>)
    | DeckFile(slides: seq<Slide>)

  /** The reason given for a file that does not hold a readable CSV table. */
  const NotCsv: string := "Error tokenizing data"

  /**
   * pd.read_csv on the file's content: the table for a readable CSV file,
   * the parser's reason for everything else.
   */
  function ReadCsv(c: FileContent): (r: Result<Table, string>)
    ensures r.Ok? <==> c.CsvFile? && Rectangular(c.table)
    ensures r.Ok? ==> r.value == c.table && Rectangular(r.value)
    ensures c.Unreadable? ==> r == Err(c.reason)
  {
    match c
    case CsvFile(t) => if Rectangular(t) then Ok(t) else Err(NotCsv)
    case Unreadable(reason) => Err(reason)
    case _ => Err(NotCsv)
  }

  /** The file system, whose map of files every write replaces. */
  class Disk {
    var files: map<string, FileContent>

    constructor (initial: map<string, FileContent>)
      ensures files == initial
    {
      files := initial;
    }

    /** os.path.exists(path) */
    function Exists(path: string): bool
      reads this
    {
      path in files
    }

    /** Writing content to path, creating or replacing the file. */
    method Write(path: string, content: FileContent)
      modifies this
      ensures files == old(files)[path := content]
    {
      files := files[path := content];
    }

    /**
     * shutil.copy(src, dst): dst gets the content of src; copying a file
     * onto itself raises SameFileError before anything is written.
     */
    method Copy(src: string, dst: string) returns (r: Result<(), string>)
      requires src in files
      modifies this
      ensures r.Err? <==> src == dst
      ensures r.Err? ==> files == old(files) && r.error == "'" + src + "' and '" + dst + "' are the same file"
      ensures r.Ok? ==> files == old(files)[dst := old(files)[src]]
    {
      if src == dst {
        return Err("'" + src + "' and '" + dst + "' are the same file");
      }
      files := files[dst := files[src]];
      r := Ok(());
    }
  }
}
