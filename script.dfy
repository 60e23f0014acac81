/**
  The script's top level: the `-c` option as optparse leaves it, the
  pre-flight checks on the command-line paths, the crawl, the file loop and
  the closing summary line.
*/
module Script {
  import opened Common
  import opened Keystream
  import opened Columns
  import opened Rows
  import opened Commit
  import opened Crawler
  import CommitProperties

  // ---------------------------------------------------------------------------
  // What `-c` leaves in `options.columns`

  /**
    `options.columns` after optparse has handled `-c VALUE`, as the option is
    declared: with `action='callback'` optparse stores nothing, and
    `check_columns` only validates, so the default `None` remains.
  */
  function StoredAsWritten(arg: Option<string>): Option<string>
  {
    None
  }

  /** `options.columns` as the option's help text promises it: the value given. */
  function Stored(arg: Option<string>): Option<string>
  {
    arg
  }

  /**
    The selection the row loop makes from `options.columns`: `if not
    options.columns` picks every field; otherwise the `int` of every token.
  */
  function SelectionOf(stored: Option<string>): (sel: Selection)
    requires stored.Some? ==> ValidColumnSpec(stored.value)
    ensures sel.AllColumns? <==> stored == None
  {
    if stored == None then AllColumns
    else
      assert |Split(stored.value)| >= 1 && IsDigits(Split(stored.value)[0]);
      Selection.Columns(ColumnList(stored.value))
  }

  /** The key stream of the counterexample: every byte 0x01. */
  function Ones(): Stream {
    (n: nat) => 1 as Byte
  }

  /** `-c 1` passes the check and denotes the single column 1. */
  lemma SpecOne()
    ensures ValidColumnSpec("1")
    ensures ColumnList("1") == [1]
  {
    assert Split("1") == ["1"] by {
      assert "1"[1..] == "" && Split("") == [""];
      assert ['1'] + "" == "1";
    }
    assert DigitsValue("1") == 1 by {
      assert "1"[..0] == [];
    }
  }

  /** Every field of the row `a,b` (bytes 0x61, 0x62) under the key stream of ones. */
  lemma OnesEveryField()
    ensures TransformTable(Ones(), 0, [[[0x61], [0x62]]], AllColumns)
         == Transformed([[[0x60], [0x63]]], 2)
  {
    var ks := Ones();
    var row: Row := [[0x61], [0x62]];
    assert Xor(ks, 0, [0x61]) == [0x60] && Xor(ks, 1, [0x62]) == [0x63];
    assert RowStep(ks, 0, row, AllColumns) == Done([[0x60], [0x63]], 2) by {
      assert row[1..] == [[0x62]];
      assert CryptAll(ks, 1, [[0x62]]) == [[0x63]];
      assert CryptAll(ks, 0, row) == [[0x60], [0x63]];
      assert Concat(row) == [0x61, 0x62];
    }
    assert [row][1..] == [];
  }

  /** Column 1 alone of the row `a,b` under the key stream of ones. */
  lemma OnesColumnOne()
    ensures TransformTable(Ones(), 0, [[[0x61], [0x62]]], Selection.Columns([1]))
         == Transformed([[[0x61], [0x63]]], 1)
  {
    var ks := Ones();
    var row: Row := [[0x61], [0x62]];
    assert Xor(ks, 0, [0x62]) == [0x63];
    assert RowStep(ks, 0, row, Selection.Columns([1])) == Done([[0x61], [0x63]], 1) by {
      assert Sort([1]) == [1];
      assert row[1 := [0x63]] == [[0x61], [0x63]];
    }
    assert [row][1..] == [];
  }

  /**
    As written, `-c 1` on the one-row file `a,b` still encrypts column 0:
    the selection falls back to every field, and the row becomes `` `,c ``.
    The evidently intended reading keeps column 0 and gives `a,c`.
  */
  lemma ColumnsOptionIgnored()
    ensures SelectionOf(StoredAsWritten(Some("1"))) == AllColumns
    ensures TransformTable(Ones(), 0, [[[0x61], [0x62]]], SelectionOf(StoredAsWritten(Some("1"))))
         == Transformed([[[0x60], [0x63]]], 2)
    ensures ValidColumnSpec("1")
    ensures TransformTable(Ones(), 0, [[[0x61], [0x62]]], SelectionOf(Stored(Some("1"))))
         == Transformed([[[0x61], [0x63]]], 1)
  {
    SpecOne();
    OnesEveryField();
    OnesColumnOne();
  }

  /**
    With the option stored, a file that goes through without `IndexError`
    keeps its shape, and every field outside the listed columns is left as
    it was.
  */
  lemma ColumnsOptionHonoured(value: string, ks: Stream, rows: Table)
    requires ValidColumnSpec(value)
    requires TransformTable(ks, 0, rows, SelectionOf(Stored(Some(value)))).Transformed?
    ensures var out := TransformTable(ks, 0, rows, SelectionOf(Stored(Some(value)))).rows;
      && |out| == |rows|
      && forall r, c :: 0 <= r < |rows| && 0 <= c < |rows[r]| && c !in ColumnList(value) ==>
           |out[r]| == |rows[r]| && out[r][c] == rows[r][c]
  {
    CommitProperties.TableShape(ks, 0, rows, SelectionOf(Stored(Some(value))));
  }

  // ---------------------------------------------------------------------------
  // The summary line

  const Altered := " file(s) was altered."

  /** The line printed after the file loop for the final `processed_files`. */
  function Summary(processed: nat): (line: string)
    ensures processed == 0 <==> line == "Nothing done"
    ensures processed > 0 ==>
      && |line| > |Altered|
      && line[|line| - |Altered|..] == Altered
      && IsDigits(line[..|line| - |Altered|])
      && DigitsValue(line[..|line| - |Altered|]) == processed
  {
    if processed == 0 then "Nothing done"
    else
      var line := Decimal(processed) + Altered;
      assert line[..|line| - |Altered|] == Decimal(processed);
      assert line[|line| - |Altered|..] == Altered;
      DecimalRoundTrip(processed);
      assert line[|line| - 1] == '.';
      line
  }

  // ---------------------------------------------------------------------------
  // The whole script

  /** How the script ends. */
  datatype Exit =
    | SyntaxError(message: string)          // `sys.exit('Syntax error: ...')`, nothing touched
    | Aborted(processed: nat, abort: Abort) // an uncaught IOError or IndexError
    | Finished(summary: string)             // the summary line, then `sys.exit()`

  /** Token `i` is the first of `value`'s tokens that is not a digit string. */
  predicate FirstBadToken(value: string, i: int) {
    && 0 <= i < |Split(value)|
    && !IsDigits(Split(value)[i])
    && forall j :: 0 <= j < i ==> IsDigits(Split(value)[j])
  }

  /** Path `i` is the first command-line path that does not exist. */
  predicate FirstMissing(tree: map<Path, Node>, args: seq<Path>, i: int) {
    && 0 <= i < |args|
    && args[i] !in tree
    && forall j :: 0 <= j < i ==> args[j] in tree
  }

  /** The command line passes every check that ends the script before any file is touched. */
  predicate Passes(tree: map<Path, Node>, columns: Option<string>, args: seq<Path>) {
    && (columns.Some? ==> ValidColumnSpec(columns.value))
    && args != []
    && forall i :: 0 <= i < |args| ==> args[i] in tree
  }

  /**
    The message of the first check that fails, in the order the script makes
    them: the bad column token (during option parsing), the empty path list,
    then the first path that does not exist.
  */
  predicate SyntaxMessage(tree: map<Path, Node>, columns: Option<string>, args: seq<Path>, message: string) {
    if columns.Some? && !ValidColumnSpec(columns.value) then
      exists i :: 0 <= i < |Split(columns.value)| && FirstBadToken(columns.value, i)
                  && message == "Syntax error: Bad column number: " + Split(columns.value)[i]
    else if args == [] then
      message == "Syntax error: No paths were given."
    else
      exists i :: 0 <= i < |args| && FirstMissing(tree, args, i) && message == "Syntax error: target does not exist: " + args[i]
  }

  /** There is only one first failure: the message is determined by the command line. */
  lemma SyntaxMessageUnique(tree: map<Path, Node>, columns: Option<string>, args: seq<Path>, m1: string, m2: string)
    requires SyntaxMessage(tree, columns, args, m1) && SyntaxMessage(tree, columns, args, m2)
    ensures m1 == m2
  {
    if columns.Some? && !ValidColumnSpec(columns.value) {
      var i1 :| 0 <= i1 < |Split(columns.value)| && FirstBadToken(columns.value, i1) && m1 == "Syntax error: Bad column number: " + Split(columns.value)[i1];
      var i2 :| 0 <= i2 < |Split(columns.value)| && FirstBadToken(columns.value, i2) && m2 == "Syntax error: Bad column number: " + Split(columns.value)[i2];
      var toks := Split(columns.value);
      assert !IsDigits(toks[i1]) && forall j :: 0 <= j < i2 ==> IsDigits(toks[j]);
      assert !IsDigits(toks[i2]) && forall j :: 0 <= j < i1 ==> IsDigits(toks[j]);
      assert i1 == i2;
    } else if args != [] {
      var i1 :| 0 <= i1 < |args| && FirstMissing(tree, args, i1) && m1 == "Syntax error: target does not exist: " + args[i1];
      var i2 :| 0 <= i2 < |args| && FirstMissing(tree, args, i2) && m2 == "Syntax error: target does not exist: " + args[i2];
      assert args[i1] !in tree && forall j :: 0 <= j < i2 ==> args[j] in tree;
      assert args[i2] !in tree && forall j :: 0 <= j < i1 ==> args[j] in tree;
      assert i1 == i2;
    }
  }

  /** The first command-line path that does not exist, if any. */
  method MissingPath(tree: map<Path, Node>, args: seq<Path>) returns (missing: Option<Path>)
    ensures missing == None <==> forall i :: 0 <= i < |args| ==> args[i] in tree
    ensures missing.Some? ==> exists i :: 0 <= i < |args| && FirstMissing(tree, args, i) && args[i] == missing.value
  {
    for i := 0 to |args|
      invariant forall j :: 0 <= j < i ==> args[j] in tree
    {
      if args[i] !in tree {
        assert FirstMissing(tree, args, i);
        return Some(args[i]);
      }
    }
    return None;
  }

  /**
    The checks before any file is touched: `check_columns` while the options
    are parsed, then the empty path list, then the existence of each path.
    The message of the `sys.exit` that ends the script, or None.
  */
  method Preflight(tree: map<Path, Node>, columns: Option<string>, args: seq<Path>) returns (error: Option<string>)
    ensures error == None <==> Passes(tree, columns, args)
    ensures error.Some? ==> SyntaxMessage(tree, columns, args, error.value)
  {
    if columns.Some? {
      var bad := CheckColumns(columns.value);
      if bad.Some? {
        ghost var i :| 0 <= i < |Split(columns.value)| && Split(columns.value)[i] == bad.value
                      && forall j :: 0 <= j < i ==> IsDigits(Split(columns.value)[j]);
        assert FirstBadToken(columns.value, i);
        return Some("Syntax error: Bad column number: " + bad.value);
      }
    }
    if args == [] {
      return Some("Syntax error: No paths were given.");
    }
    var missing := MissingPath(tree, args);
    if missing.Some? {
      return Some("Syntax error: target does not exist: " + missing.value);
    }
    return None;
  }

  /** `if options.columns:` parse `target_columns`; the row loop then selects by them. */
  method SelectColumns(stored: Option<string>) returns (sel: Selection)
    requires stored.Some? ==> ValidColumnSpec(stored.value)
    ensures sel == SelectionOf(stored)
    ensures sel.Columns? ==> sel.indices == ColumnList(stored.value)
  {
    sel := AllColumns;
    if stored.Some? {
      var targetColumns := ParseColumns(stored.value);
      sel := Selection.Columns(targetColumns);
    }
  }

  /** The targets the crawler starts from: each command-line path with what it names. */
  function TargetsOf(tree: map<Path, Node>, args: seq<Path>): seq<Target>
    requires forall i :: 0 <= i < |args| ==> args[i] in tree
  {
    seq(|args|, i requires 0 <= i < |args| => Target(args[i], tree[args[i]]))
  }

  /** The files the run visits, in order, once the paths have passed the checks. */
  function Visited(tree: map<Path, Node>, args: seq<Path>): seq<Path>
    requires forall i :: 0 <= i < |args| ==> args[i] in tree
  {
    Crawled(TargetsOf(tree, args))
  }

  /** How a run over the visited files ends: the abort, or the summary line. */
  function ExitOf(r: Run): Exit {
    if r.abort.Some? then Aborted(r.processed, r.abort.value) else Finished(Summary(r.processed))
  }

  /** From the crawl to the summary line, once the command line has passed the checks. */
  method RunTargets(tree: map<Path, Node>, store: FileStore, args: seq<Path>, sel: Selection,
                    kdf: KeyDerivation, password: Password, notReally: bool)
    returns (exit: Exit)
    requires forall i :: 0 <= i < |args| ==> args[i] in tree
    modifies store
    ensures var r := RunFiles(old(store.files), Visited(tree, args), kdf(password), sel, notReally);
      store.files == r.files && exit == ExitOf(r)
  {
    var paths := TargetsOf(tree, args);
    var unrolledPaths := Crawl(paths);
    var processedFiles, abort := ProcessFiles(store, unrolledPaths, kdf, password, sel, notReally);
    if abort.Some? {
      return Aborted(processedFiles, abort.value);
    }
    return Finished(Summary(processedFiles));
  }

  /**
    The script from option parsing to the summary, as written.  `tree` is
    what the file system names (the path of a file or a directory with its
    entries), `store` the contents of the files; `columns` is the `-c` value
    if one was given, `password` whatever `--password` or the prompt
    supplied, `notReally` the `-n` flag.  Because `-c` is never stored, a
    command line that passes the checks transforms every field.
  */
  method RunScript(tree: map<Path, Node>, store: FileStore, columns: Option<string>, args: seq<Path>,
                   kdf: KeyDerivation, password: Password, notReally: bool)
    returns (exit: Exit)
    modifies store
    ensures !Passes(tree, columns, args) ==>
      && exit.SyntaxError?
      && SyntaxMessage(tree, columns, args, exit.message)
      && store.files == old(store.files)
    ensures Passes(tree, columns, args) ==>
      var r := RunFiles(old(store.files), Visited(tree, args), kdf(password), AllColumns, notReally);
      store.files == r.files && exit == ExitOf(r)
  {
    var error := Preflight(tree, columns, args);
    if error.Some? {
      return SyntaxError(error.value);
    }
    var sel := SelectColumns(StoredAsWritten(columns));
    exit := RunTargets(tree, store, args, sel, kdf, password, notReally);
  }

  /**
    The script with `-c` stored as its help text promises: the same checks,
    then every file transformed in the listed columns only.
  */
  method RunScriptCorrected(tree: map<Path, Node>, store: FileStore, columns: Option<string>, args: seq<Path>,
                            kdf: KeyDerivation, password: Password, notReally: bool)
    returns (exit: Exit)
    modifies store
    ensures !Passes(tree, columns, args) ==>
      && exit.SyntaxError?
      && SyntaxMessage(tree, columns, args, exit.message)
      && store.files == old(store.files)
    ensures Passes(tree, columns, args) ==>
      var r := RunFiles(old(store.files), Visited(tree, args), kdf(password), SelectionOf(Stored(columns)), notReally);
      store.files == r.files && exit == ExitOf(r)
  {
    var error := Preflight(tree, columns, args);
    if error.Some? {
      return SyntaxError(error.value);
    }
    var sel := SelectColumns(Stored(columns));
    exit := RunTargets(tree, store, args, sel, kdf, password, notReally);
  }
}
