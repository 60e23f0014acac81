/**
  The per-file loop: a fresh cipher for every file, every row transformed and
  buffered, then the file either skipped (csv.Error), shown (dry run) or
  truncated and rewritten, with `processed_files` counting the rewrites.
*/
module Commit {
  import opened Common
  import opened Keystream
  import opened Rows

  type Table = seq<Row>

  /**
    A file as the CSV reader sees it: the records it yields, and whether it
    then raises `csv.Error`.  Writing rows back and reading them again is
    taken to be lossless.
  */
  datatype Document = Document(rows: Table, malformed: bool)

  /** Row `row` of a file lists column `column`, which it does not have. */
  datatype IndexError = IndexError(row: nat, column: nat)

  datatype TableOutcome = Transformed(rows: Table, pos: nat) | Failed(error: IndexError)

  /** The rows of one file through one cipher, the stream running on from row to row. */
  function TransformTable(ks: Stream, pos: nat, rows: Table, sel: Selection): TableOutcome
    decreases |rows|
  {
    if rows == [] then Transformed([], pos)
    else match RowStep(ks, pos, rows[0], sel)
      case OutOfRange(c, _) => Failed(IndexError(0, c))
      case Done(row, p) => Shift([row], TransformTable(ks, p, rows[1..], sel))
  }

  /** An outcome for the rows after `prefix`, restated for the whole file. */
  function Shift(prefix: Table, o: TableOutcome): TableOutcome {
    match o
    case Transformed(rows, p) => Transformed(prefix + rows, p)
    case Failed(IndexError(r, c)) => Failed(IndexError(|prefix| + r, c))
  }

  lemma ShiftShift(prefix: Table, row: Row, o: TableOutcome)
    ensures Shift(prefix, Shift([row], o)) == Shift(prefix + [row], o)
  {
    if o.Transformed? {
      assert prefix + ([row] + o.rows) == (prefix + [row]) + o.rows;
    }
  }

  /** Unfolding `TransformTable` once, at row `i`. */
  lemma TransformTableAt(ks: Stream, pos: nat, rows: Table, i: nat, sel: Selection)
    requires i < |rows|
    ensures TransformTable(ks, pos, rows[i..], sel) ==
      match RowStep(ks, pos, rows[i], sel)
      case OutOfRange(c, _) => Failed(IndexError(0, c))
      case Done(row, p) => Shift([row], TransformTable(ks, p, rows[i + 1..], sel))
  {
    assert rows[i..][0] == rows[i] && rows[i..][1..] == rows[i + 1..];
  }

  /** `for line in csv.reader(csvfile): ... csv_contents.append(newline)` */
  method TransformRows(enigma: Cipher, rows: Table, sel: Selection) returns (res: Result<Table, IndexError>)
    modifies enigma
    ensures match TransformTable(enigma.stream, old(enigma.pos), rows, sel)
            case Transformed(out, p) => res == Ok(out) && enigma.pos == p
            case Failed(e) => res == Err(e)
  {
    ghost var pos0 := enigma.pos;
    var csvContents := [];
    for i := 0 to |rows|
      invariant |csvContents| == i
      invariant TransformTable(enigma.stream, pos0, rows, sel)
             == Shift(csvContents, TransformTable(enigma.stream, enigma.pos, rows[i..], sel))
    {
      ghost var step := RowStep(enigma.stream, enigma.pos, rows[i], sel);
      TransformTableAt(enigma.stream, enigma.pos, rows, i, sel);
      var newline := TransformRow(enigma, rows[i], sel);
      match newline
      case Err(c) =>
        return Err(IndexError(i, c));
      case Ok(row) =>
        assert step == Done(row, enigma.pos);
        ShiftShift(csvContents, row, TransformTable(enigma.stream, enigma.pos, rows[i + 1..], sel));
        csvContents := csvContents + [row];
    }
    assert rows[|rows|..] == [];
    assert csvContents + [] == csvContents;
    res := Ok(csvContents);
  }

  // ---------------------------------------------------------------------------
  // One file

  /** What happens to one file that could be opened. */
  datatype FileOutcome =
    | Rewritten(rows: Table)     // truncated and rewritten; counted
    | Previewed(rows: Table)     // dry run: printed, not written
    | Skipped                    // csv.Error: reported, not written
    | RowFailed(error: IndexError)  // IndexError: ends the whole run

  /** The body of the file loop for one document, with a fresh cipher on `ks`. */
  function FileStep(doc: Document, ks: Stream, sel: Selection, dryRun: bool): FileOutcome {
    match TransformTable(ks, 0, doc.rows, sel)
    case Failed(e) => RowFailed(e)
    case Transformed(out, _) =>
      if doc.malformed then Skipped
      else if dryRun then Previewed(out)
      else Rewritten(out)
  }

  /** Why a run stops before its last file: an exception other than `csv.Error`. */
  datatype Abort =
    | CannotOpen(path: Path)                                // `open` raises IOError
    | ColumnOutOfRange(path: Path, row: nat, column: nat)   // `line[column]` raises IndexError

  /** The file store after a run, the final `processed_files`, and how the run stopped. */
  datatype Run = Run(files: map<Path, Document>, processed: nat, abort: Option<Abort>)

  /** The whole file loop over `targets`, in order. */
  function RunFiles(files: map<Path, Document>, targets: seq<Path>, ks: Stream, sel: Selection,
                    dryRun: bool): Run
    decreases |targets|
  {
    if targets == [] then Run(files, 0, None)
    else
      var target := targets[0];
      if target !in files then Run(files, 0, Some(CannotOpen(target)))
      else match FileStep(files[target], ks, sel, dryRun)
        case RowFailed(IndexError(r, c)) => Run(files, 0, Some(ColumnOutOfRange(target, r, c)))
        case Rewritten(out) =>
          var rest := RunFiles(files[target := Document(out, false)], targets[1..], ks, sel, dryRun);
          Run(rest.files, rest.processed + 1, rest.abort)
        case _ => RunFiles(files, targets[1..], ks, sel, dryRun)
  }

  /** The file system the script rewrites. */
  class FileStore {
    var files: map<Path, Document>

    constructor (files: map<Path, Document>)
      ensures this.files == files
    {
      this.files := files;
    }
  }

  /** The main loop of the script over the crawled targets. */
  method ProcessFiles(store: FileStore, targets: seq<Path>, kdf: KeyDerivation, password: Password,
                      sel: Selection, dryRun: bool)
    returns (processedFiles: nat, abort: Option<Abort>)
    modifies store
    ensures RunFiles(old(store.files), targets, kdf(password), sel, dryRun)
         == Run(store.files, processedFiles, abort)
  {
    ghost var ks := kdf(password);
    processedFiles := 0;
    abort := None;
    for i := 0 to |targets|
      invariant var rest := RunFiles(store.files, targets[i..], ks, sel, dryRun);
                RunFiles(old(store.files), targets, ks, sel, dryRun)
                  == Run(rest.files, processedFiles + rest.processed, rest.abort)
    {
      var target := targets[i];
      assert targets[i..][0] == target && targets[i..][1..] == targets[i + 1..];
      var enigma := new Cipher.Init(kdf, password);
      if target !in store.files {
        return processedFiles, Some(CannotOpen(target));
      }
      var doc := store.files[target];
      var csvContents := TransformRows(enigma, doc.rows, sel);
      match csvContents
      case Err(IndexError(r, c)) =>
        return processedFiles, Some(ColumnOutOfRange(target, r, c));
      case Ok(out) =>
        if doc.malformed || dryRun {
          continue;
        }
        store.files := store.files[target := Document(out, false)];
        processedFiles := processedFiles + 1;
    }
    assert targets[|targets|..] == [];
  }
}
