# csvcryptography in Dafny

A verified model of the core of `csvcryptography.py`, a command-line tool that
encrypts or decrypts selected columns of CSV files in place. It XORs every
selected field with an AES-CTR key stream derived from a password. Running the
same command twice restores the file, so encryption and decryption are the
same operation.

The model covers:

- **Keystream cursor** (`keystream.dfy`). `crypto_init` becomes the
  constructor of class `Cipher`; `crypto` becomes `Cipher.Crypt`, which XORs
  its input with the stream from `pos` on and advances `pos`. The key
  derivation (MD5 of the password as an AES key in counter mode, NIST SP
  800-38A section 6.5) is a parameter `kdf: Password -> Stream`: any
  deterministic function of the password.
- **Column specification** (`columns.dfy`). `check_columns`, Python's
  `split(',')`, `isdigit()` and `int()`, and the loop that builds
  `target_columns`.
- **Row transformer** (`rows.dfy`, `row_properties.dfy`). The body of the row
  loop against the shared cipher. It either maps `crypto` over every field,
  or copies the row and overwrites each index of `sorted(target_columns)`
  with `crypto` of the original field. Duplicate indices are kept. An index
  past the row's end is the `IndexError`.
- **File loop** (`commit.dfy`, `commit_properties.dfy`,
  `run_properties.dfy`). There is a fresh cipher per file. All rows are
  buffered before anything is written. `csv.Error` skips the file, a dry run
  writes nothing, and otherwise the file is rewritten and counted. The file
  system is a class `FileStore` whose `files` map the loop updates.
- **Crawler** (`crawler.dfy`, `crawler_properties.dfy`). The directory tree
  is a finite datatype. `Crawl` is the recursive method with its append
  loops.
- **Top level** (`script.dfy`). The option check, the pre-flight checks on the
  paths, the selection, the crawl, the file loop and the summary line.
  `RunScript` is the script as written, where `-c` only validates (see
  "## Findings"). `RunScriptCorrected` is the same script with `-c` stored.

A file's contents are a `Document`: the rows the CSV reader yields, then
whether it raises `csv.Error` after them. An `IndexError` in a row before the
malformed point therefore still ends the run, as in the script.

Every transformation is stated twice: as a function, and as a method proved
against that function. The properties are lemmas about the functions.

The model follows the script in four places where one might expect otherwise:

- Column indices are not deduplicated. A repeated index is transformed twice
  from the original field (`RowProperties.DuplicateColumn`).
- An out-of-range column is not recovered per file. The `IndexError`
  escapes `except csv.Error` and ends the whole run, and the files rewritten
  before it stay rewritten (`RunProperties.RunAbortKeepsEarlier`).
- An empty password is accepted. A missing or empty `--password` leads to
  the prompt, and the prompt's answer is used as typed, even when empty.
- A target reached twice (for example given twice on the command line) is
  transformed twice, and so restored (`RunProperties.SameFileTwice`).
  Whatever the order of the visits, each file ends as its own number of
  visits leaves it (`RunProperties.RunVisits`).

## Model

| member | source | states |
|---|---|---|
| Keystream.Xor | csvcryptography.py:141-145 | combining with the stream keeps the length of the input |
| Keystream.XorAt | csvcryptography.py:141-145 | output byte i is input byte i XOR keystream byte pos + i |
| Keystream.XorInvolution | csvcryptography.py:141-145 | combining twice at the same position gives the input back |
| Keystream.XorSplit | csvcryptography.py:141-145 | the stream is continuous: processing a + b equals processing a, then b from where a stopped |
| Keystream.Cipher.Init | csvcryptography.py:147-152 | a new cipher is on the password's key stream at position 0 |
| Keystream.Cipher.Crypt | csvcryptography.py:141-145 | the result is the input XORed with the stream from the current position, which advances by exactly the input's length |
| Columns.Split | csvcryptography.py:97 | split(',') yields at least one piece, and no piece contains a comma |
| Columns.JoinSplit | csvcryptography.py:97 | joining the pieces with commas gives the string back |
| Columns.SplitJoin | csvcryptography.py:97 | splitting comma-free tokens joined by commas gives the tokens back |
| Columns.Decimal | csvcryptography.py:210 | '%d' of a count is a non-empty digit string |
| Columns.DecimalRoundTrip | csvcryptography.py:137 | int() reads back the number '%d' wrote |
| Columns.CheckColumns | csvcryptography.py:93-100 | returns no token exactly when every comma-separated token is a non-empty digit string; otherwise returns the first token that is not |
| Columns.ColumnSpecRoundTrip | csvcryptography.py:134-137 | every non-empty column list has a spec that passes the check and parses back to the same list, order and duplicates included |
| Columns.ParseColumns | csvcryptography.py:134-137 | target_columns is int() of each token, in the order given |
| Rows.Sort | csvcryptography.py:185 | sorted() gives an ascending list with the same elements and multiplicities |
| Rows.AscendingUnique | csvcryptography.py:185 | two ascending lists with the same elements are equal, so sorted() does not depend on the input order |
| Rows.CryptEveryField | csvcryptography.py:181-182 | map(crypto, line) gives each field XORed at the position where the previous one stopped; the cursor advances by the row's total length |
| Rows.CryptSelected | csvcryptography.py:184-186 | overwriting the copy column by column yields the specified row and cursor, or the first index out of range |
| Rows.TransformRow | csvcryptography.py:180-187 | one row loop iteration yields the specified new row and cursor, or the IndexError column |
| RowProperties.CryptAllAt | csvcryptography.py:182 | field i is XORed starting at pos plus the lengths of fields 0..i-1 |
| RowProperties.CryptAllShape | csvcryptography.py:182 | every field keeps its length |
| RowProperties.CryptAllContinuity | csvcryptography.py:182 | transforming the fields one after another equals transforming their concatenation and cutting it at the same boundaries |
| RowProperties.CryptAllInvolution | csvcryptography.py:182 | applying the all-fields transform twice from the same position restores the row |
| RowProperties.CryptColumnsDone | csvcryptography.py:184-186 | the column loop succeeds exactly when every index is in range; each selected field then holds the original XORed at the position of its last visit |
| RowProperties.CryptColumnsFails | csvcryptography.py:186 | a failing column loop reports the first listed index past the row's end |
| RowProperties.ColumnsResult | csvcryptography.py:184-186 | with -c the row succeeds exactly when every index is in range, and then equals the overwrite specification on the sorted indices |
| RowProperties.OverwriteShape | csvcryptography.py:184-186 | overwriting keeps the field count and every field's length |
| RowProperties.RowShape | csvcryptography.py:181-187 | a transformed row has the same field count and field lengths, and every unlisted field is byte-for-byte unchanged |
| RowProperties.RowPosition | csvcryptography.py:181-186 | the cursor advances by the row's total length, or by the lengths of the sorted selected fields, duplicates counted twice |
| RowProperties.RowInvolution | csvcryptography.py:180-187 | running the same selection twice from the same position restores the row |
| RowProperties.ColumnOrderIrrelevant | csvcryptography.py:185 | any permutation of the column list gives the same row and cursor |
| RowProperties.DuplicateColumn | csvcryptography.py:185-186 | a repeated index advances the cursor by twice the field's length, and the field keeps the second value computed from the original |
| RowProperties.RowOutOfRange | csvcryptography.py:186 | a row fails exactly when some listed index is at or past its end, and the error names the smallest such index |
| RowProperties.OverwriteCommute | csvcryptography.py:184-186 | overwrites of disjoint column sets commute |
| RowProperties.RowColumnsCommute | csvcryptography.py:184-186 | transforming disjoint column sets under two streams gives the same row in either order |
| RowProperties.PickOverwrite | csvcryptography.py:185-186 | with strictly ascending indices, the selected fields are transformed as one all-fields row of just those fields |
| RowProperties.ColumnsShareStream | csvcryptography.py:185-186 | columns selected together share one stream: their concatenation is XORed as one piece from the start position |
| Commit.TransformRows | csvcryptography.py:178-187 | buffering every row gives the specified rows and cursor, or the first row's IndexError with row and column |
| Commit.ProcessFiles | csvcryptography.py:172-206 | the file loop leaves the store, the count and the abort exactly as the run specification says |
| CommitProperties.TableShape | csvcryptography.py:180-187 | a transformed file has the same rows and field lengths, and unlisted fields are unchanged |
| CommitProperties.TableInvolution | csvcryptography.py:174-187 | a file run twice from position 0 with the same password and columns comes back unchanged |
| CommitProperties.TableColumnsCommute | csvcryptography.py:180-187 | two runs on disjoint column sets give the same file in either order |
| CommitProperties.ColumnIndependence | csvcryptography.py:174-187 | columns c1 under password 1, then c2 under password 2, then c1 under password 1 again, leave the file as if only c2 under password 2 had run |
| CommitProperties.ColumnIndependenceFields | csvcryptography.py:174-187 | after that sequence, the fields in c1 are the originals and the others are those of the second run |
| CommitProperties.TableAllColumns | csvcryptography.py:180-187 | without -c a file never fails, and its fields are transformed as one continuous row |
| CommitProperties.TableContinuity | csvcryptography.py:174-187 | without -c the whole file's bytes are XORed with one stream from position 0 |
| CommitProperties.TableFails | csvcryptography.py:180-187 | a file fails exactly when some row lacks a listed index; the error names the first such row and the smallest missing index |
| RunProperties.RunAppend | csvcryptography.py:173-206 | a run over a + b is a run over a followed, unless it aborted, by a run over b with the counts added |
| RunProperties.RunAbortKeepsEarlier | csvcryptography.py:173-206 | an aborted run stops at a target k, keeping exactly the files and the count of the run over the targets before k |
| RunProperties.RunDryRun | csvcryptography.py:194-198 | a dry run writes no file and counts nothing |
| RunProperties.RunCountBound | csvcryptography.py:206 | the count never exceeds the number of targets |
| RunProperties.RunFrame | csvcryptography.py:173-206 | a run creates and removes no file, and leaves files outside its targets unchanged |
| RunProperties.CommitOneFile | csvcryptography.py:177-206 | one file: IndexError aborts with nothing written; csv.Error or a dry run writes and counts nothing; otherwise the file is replaced by its transformed rows and counted once |
| RunProperties.RunKeepsMalformed | csvcryptography.py:189-193 | a file that fails to parse is never written |
| RunProperties.FileStepInvolution | csvcryptography.py:174-206 | rewriting a rewritten file with the same password and columns restores it |
| RunProperties.VisitInvolution | csvcryptography.py:174-206 | a second visit of a file with the same password and columns undoes the first, keeps its parse flag, and cannot fail |
| RunProperties.RunVisits | csvcryptography.py:172-206 | in a run with no abort, repeated paths included, every target exists and fits the columns; each file ends as its own number of visits leaves it, whatever the order; and the count is the number of visits to well-formed files |
| RunProperties.RunNoAbort | csvcryptography.py:172-206 | a run whose targets all exist and fit the columns ends without abort |
| RunProperties.RunInvolution | csvcryptography.py:172-206 | a second run over the same targets restores every file and counts the same, even when a path is given or reached more than once |
| RunProperties.SameFileTwice | csvcryptography.py:173-206 | a file given twice is rewritten twice, so it ends up unchanged and is counted twice |
| Crawler.Children | csvcryptography.py:162-164 | a directory yields one subpath per entry |
| Crawler.CrawledChildren | csvcryptography.py:165-166 | crawling a directory's subpaths yields the non-directories below it |
| Crawler.ListSubpaths | csvcryptography.py:162-164 | the subpath loop builds path + '/' + name for each entry, in listing order |
| Crawler.Crawl | csvcryptography.py:154-169 | crawler returns the crawl specification of its input |
| CrawlerProperties.CrawledAppend | csvcryptography.py:160-168 | crawling a + b is crawling a, then b |
| CrawlerProperties.CrawledFiles | csvcryptography.py:167-168 | paths that are not directories come out unchanged and in input order |
| CrawlerProperties.CrawledDirectoryInPlace | csvcryptography.py:161-166 | a directory is replaced, at its position, by the crawl of its children |
| CrawlerProperties.LeafCount | csvcryptography.py:154-169 | a tree yields one path per file in it |
| CrawlerProperties.LeavesUnder | csvcryptography.py:164 | every path found lies under the tree's own path, strictly below it for a directory |
| CrawlerProperties.LeavesDistinct | csvcryptography.py:154-169 | in a tree with distinct slash-free names, no path is found twice and none is a directory's path |
| CrawlerProperties.CrawlComplete | csvcryptography.py:154-169 | one target yields exactly its files: as many as the tree has, none twice, no directory |
| Script.SelectionOf | csvcryptography.py:181 | every field is selected exactly when options.columns is unset |
| Script.ColumnsOptionIgnored | csvcryptography.py:102-107 | as written, -c 1 selects every field and changes column 0; with the value stored only column 1 changes |
| Script.ColumnsOptionHonoured | csvcryptography.py:102-107 | with the value stored, every field outside the listed columns is left as it was |
| Script.Summary | csvcryptography.py:207-210 | the line is "Nothing done" exactly when the count is 0; otherwise its number reads back as the count |
| Script.MissingPath | csvcryptography.py:126-128 | returns nothing exactly when every path exists; otherwise the first missing one |
| Script.SyntaxMessageUnique | csvcryptography.py:93-128 | the message of the first failing check is determined by the command line: the first bad token, or "No paths", or the first missing path |
| Script.Preflight | csvcryptography.py:93-128 | no error exactly when the column spec is valid, paths were given and all exist; otherwise the message of the first check that fails, naming the first bad token or the first missing path |
| Script.SelectColumns | csvcryptography.py:134-137 | every field when `options.columns` is None; otherwise `int()` of each token, in order |
| Crawler.AppendAll | csvcryptography.py:165-166 | the append loop leaves the earlier paths followed by every path the recursive crawl found, in order |
| Script.RunTargets | csvcryptography.py:172-210 | the store and the exit are those of the run over the crawled targets: the abort, or the summary line for the final count |
| Script.RunScript | csvcryptography.py:120-210 | as written: a failing check exits with the message of the first failure and touches nothing; otherwise every field of every crawled file is transformed, whatever `-c` said, and the run ends in the abort or the summary line |
| Script.RunScriptCorrected | csvcryptography.py:120-210 | the same checks and messages; with `-c` stored, the run transforms only the listed columns |
## Left out

- AES-CTR and MD5 are foreign library calls. The key derivation is the parameter `kdf`, and every lemma holds for all of them.
- Keystream.Cipher.Init: does not model the key derivation's internals; the stream is `kdf(password)`.
- The CSV reader and writer (`csv.reader`, `csv.writer`). A file is its parsed rows plus whether parsing fails after them, and the writer is taken to round-trip what it writes, ciphertext with commas or quotes included. Python 2's reader refuses a line holding a NUL byte; a rewritten file whose ciphertext holds one would read back as malformed, which the model does not capture.
- optparse itself, `--long-help`, `--version`, the `raw_input` password prompt, `-v` and every print (the verbose file name, the dry-run rows, the csv.Error message) are user interface. Only the messages that end the run and the summary line are modelled.
- `os.path.abspath` is taken as the identity. `os.path.exists` is membership in the tree. `os.path.isdir` holds when the node at that path is a `Directory`, and `os.listdir` gives that directory's entries in their order.
- Script.StoredAsWritten: a modelling definition of what optparse leaves in `options.columns` as `-c` is declared (a callback that stores nothing), with no contract of its own. Its consequences are stated by Script.ColumnsOptionIgnored and Script.RunScript.
- Script.Stored: a modelling definition of what the help text intends `options.columns` to hold (the value given), with no contract of its own. Its consequences are stated by Script.ColumnsOptionHonoured and Script.RunScriptCorrected.
- Script.TargetsOf: a modelling definition of the crawl's start at line 129, with no contract of its own. `abspath` is the identity, and `isdir`/`listdir` are read from the node the tree holds at each path. Its consequences are stated by Script.RunTargets, Script.RunScript and Script.RunScriptCorrected.
- Script.RunScript, Script.RunScriptCorrected: `tree` and `store` are separate maps. The model does not require a path the crawl yields to be a file in the store; one that is not ends the run as the `IOError` of `open`.
- Symbolic links and cycles are left out, because a finite tree cannot express them. With a cycle, `crawler` keeps descending until the path no longer resolves. `os.path.isdir` then returns False, that path is emitted as a file, and opening it raises the `IOError` that ends the run. Before that, each file inside the cycle is reached once per level.
- Truncation and the durability of the rewrite are left out. A rewrite is one map update, so a crash halfway through writing is not modelled.
- Text encodings are left out. Fields are byte strings, as in Python 2.

## Findings

| source | as written | input that shows it | evidently intended | confidence | as-written member | corrected member |
|---|---|---|---|---|---|---|
| csvcryptography.py:102-107 | `-c` is declared with `action='callback'`. optparse does not store a callback option's value, and `check_columns` does not set `options.columns`, so it stays `None`. The row loop then transforms every field. | `-c 1` on a file whose only row is `a,b` (bytes 0x61, 0x62), with a key stream of 0x01 bytes: the result is `` `,c `` (0x60, 0x63), so column 0 changes too | only the listed columns change: `a,c` (0x61, 0x63), with the stream advanced by one byte | high; not executed | Script.ColumnsOptionIgnored | Script.ColumnsOptionHonoured |
