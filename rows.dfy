/**
  The row transformer: the body of `for line in csv.reader(csvfile)`.

  Without `-c` every field goes through `crypto` in row order (`map(crypto,
  line)`).  With `-c` the row is copied and, for each index of
  `sorted(target_columns)`, the copy's field is overwritten with `crypto` of
  the ORIGINAL row's field.  Duplicates are kept; an index past the end of the
  row raises `IndexError` at `line[column]`.
*/
module Rows {
  import opened Common
  import opened Keystream

  type Field = Bytes
  type Row = seq<Field>

  /** What `options.columns` asks for: every field, or the listed indices. */
  datatype Selection = AllColumns | Columns(indices: seq<nat>)

  /**
    A row transformed (with the stream position reached) or the `IndexError`
    raised at an out-of-range column (with the position reached before it).
  */
  datatype RowOutcome = Done(row: Row, pos: nat) | OutOfRange(column: nat, pos: nat)

  // ---------------------------------------------------------------------------
  // sorted()

  predicate Ascending(s: seq<nat>) {
    forall i, j :: 0 <= i < j < |s| ==> s[i] <= s[j]
  }

  function Insert(x: nat, s: seq<nat>): (r: seq<nat>)
    requires Ascending(s)
    ensures Ascending(r)
    ensures multiset(r) == multiset(s) + multiset{x}
    decreases |s|
  {
    if s == [] || x <= s[0] then [x] + s
    else
      var t := Insert(x, s[1..]);
      InsertBehindHead(x, s, t);
      [s[0]] + t
  }

  /** The head of `s` stays in front when `x` goes somewhere behind it. */
  lemma InsertBehindHead(x: nat, s: seq<nat>, t: seq<nat>)
    requires Ascending(s) && s != [] && s[0] < x
    requires Ascending(t) && multiset(t) == multiset(s[1..]) + multiset{x}
    ensures Ascending([s[0]] + t)
    ensures multiset([s[0]] + t) == multiset(s) + multiset{x}
  {
    forall i | 0 <= i < |t| ensures s[0] <= t[i] {
      assert t[i] in multiset(t);
      if t[i] != x {
        assert t[i] in multiset(s[1..]);
        var k :| 0 <= k < |s[1..]| && s[1..][k] == t[i];
        assert s[k + 1] == t[i];
      }
    }
    var r := [s[0]] + t;
    forall i, j | 0 <= i < j < |r| ensures r[i] <= r[j] {
      assert r[j] == t[j - 1];
      if i > 0 {
        assert r[i] == t[i - 1];
      }
    }
    assert s == [s[0]] + s[1..];
  }

  /** Python's `sorted` on a list of column numbers: ascending, same multiset. */
  function Sort(s: seq<nat>): (r: seq<nat>)
    ensures Ascending(r)
    ensures multiset(r) == multiset(s)
    decreases |s|
  {
    if s == [] then []
    else
      assert s == [s[0]] + s[1..];
      Insert(s[0], Sort(s[1..]))
  }

  /** An ascending sequence is determined by its multiset of elements. */
  lemma {:induction false} AscendingUnique(a: seq<nat>, b: seq<nat>)
    requires Ascending(a) && Ascending(b)
    requires multiset(a) == multiset(b)
    ensures a == b
    decreases |a|
  {
    if a != [] {
      assert |b| == |multiset(b)| == |multiset(a)| == |a|;
      assert a[0] in multiset(b);
      assert b[0] in multiset(a);
      assert a == [a[0]] + a[1..];
      assert b == [b[0]] + b[1..];
      assert a[0] == b[0];
      assert multiset(a[1..]) == multiset(a) - multiset{a[0]};
      assert multiset(b[1..]) == multiset(b) - multiset{b[0]};
      AscendingUnique(a[1..], b[1..]);
    } else {
      assert |b| == |multiset(b)| == 0;
    }
  }

  // ---------------------------------------------------------------------------
  // Specification of one row

  /** All the fields' bytes, one after another. */
  function Concat(fields: seq<Field>): Bytes
    decreases |fields|
  {
    if fields == [] then [] else fields[0] + Concat(fields[1..])
  }

  /** `map(crypto, line)`: each field combined with the stream where the previous one stopped. */
  function CryptAll(ks: Stream, pos: nat, fields: Row): (r: Row)
    decreases |fields|
  {
    if fields == [] then []
    else [Xor(ks, pos, fields[0])] + CryptAll(ks, pos + |fields[0]|, fields[1..])
  }

  /**
    The `-c` loop from the point where `cols` (already sorted) remain: `acc` is
    the copy `newline` as far as it has been overwritten, `line` the original row.
  */
  function CryptColumns(ks: Stream, pos: nat, line: Row, acc: Row, cols: seq<nat>): RowOutcome
    requires |acc| == |line|
    decreases |cols|
  {
    if cols == [] then Done(acc, pos)
    else if cols[0] >= |line| then OutOfRange(cols[0], pos)
    else
      CryptColumns(ks, pos + |line[cols[0]]|, line,
                   acc[cols[0] := Xor(ks, pos, line[cols[0]])], cols[1..])
  }

  /** One row through the transformer, starting at stream position `pos`. */
  function RowStep(ks: Stream, pos: nat, line: Row, sel: Selection): RowOutcome {
    match sel
    case AllColumns => Done(CryptAll(ks, pos, line), pos + |Concat(line)|)
    case Columns(cols) => CryptColumns(ks, pos, line, line, Sort(cols))
  }

  // ---------------------------------------------------------------------------
  // The transformer as the script runs it, against the shared cipher

  /** `map(crypto, line)` against the shared cipher. */
  method CryptEveryField(enigma: Cipher, line: Row) returns (newline: Row)
    modifies enigma
    ensures newline == CryptAll(enigma.stream, old(enigma.pos), line)
    ensures enigma.pos == old(enigma.pos) + |Concat(line)|
  {
    ghost var pos0 := enigma.pos;
    newline := [];
    for i := 0 to |line|
      invariant CryptAll(enigma.stream, pos0, line) == newline + CryptAll(enigma.stream, enigma.pos, line[i..])
      invariant pos0 + |Concat(line)| == enigma.pos + |Concat(line[i..])|
    {
      assert line[i..][1..] == line[i + 1..];
      var field := enigma.Crypt(line[i]);
      newline := newline + [field];
    }
    assert line[|line|..] == [];
  }

  /** The copy of the row with each of the (sorted) columns overwritten in turn. */
  method CryptSelected(enigma: Cipher, line: Row, cols: seq<nat>) returns (res: Result<Row, nat>)
    modifies enigma
    ensures match CryptColumns(enigma.stream, old(enigma.pos), line, line, cols)
            case Done(row, p) => res == Ok(row) && enigma.pos == p
            case OutOfRange(c, p) => res == Err(c) && enigma.pos == p
  {
    ghost var pos0 := enigma.pos;
    var newline := line;
    var i := 0;
    while i < |cols|
      invariant 0 <= i <= |cols|
      invariant |newline| == |line|
      invariant CryptColumns(enigma.stream, pos0, line, line, cols)
             == CryptColumns(enigma.stream, enigma.pos, line, newline, cols[i..])
    {
      var column := cols[i];
      assert cols[i..][0] == column && cols[i..][1..] == cols[i + 1..];
      if column >= |line| {
        return Err(column);
      }
      var field := enigma.Crypt(line[column]);
      newline := newline[column := field];
      i := i + 1;
    }
    assert cols[i..] == [];
    res := Ok(newline);
  }

  /** One iteration of the row loop: the new row, or the `IndexError` column. */
  method TransformRow(enigma: Cipher, line: Row, sel: Selection) returns (res: Result<Row, nat>)
    modifies enigma
    ensures match RowStep(enigma.stream, old(enigma.pos), line, sel)
            case Done(row, p) => res == Ok(row) && enigma.pos == p
            case OutOfRange(c, p) => res == Err(c) && enigma.pos == p
  {
    match sel
    case AllColumns =>
      var newline := CryptEveryField(enigma, line);
      res := Ok(newline);
    case Columns(targetColumns) =>
      res := CryptSelected(enigma, line, Sort(targetColumns));
  }
}
