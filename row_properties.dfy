/** What the row transformer guarantees, proved from its specification in `Rows`. */
module RowProperties {
  import opened Common
  import opened Keystream
  import opened Rows

  /** Same number of fields, and each field of the same length. */
  predicate SameShape(a: Row, b: Row) {
    |a| == |b| && forall i :: 0 <= i < |a| ==> |a[i]| == |b[i]|
  }

  /** Every selected index names a field of the row. */
  predicate InRange(line: Row, cols: seq<nat>) {
    forall i :: 0 <= i < |cols| ==> cols[i] < |line|
  }

  lemma {:induction false} ConcatLength(a: Row, b: Row)
    requires SameShape(a, b)
    ensures |Concat(a)| == |Concat(b)|
    decreases |a|
  {
    if a != [] {
      ConcatLength(a[1..], b[1..]);
    }
  }

  // ---------------------------------------------------------------------------
  // Every field in row order

  /**
    Stream accounting without `-c`: field `i` is combined with the keystream
    starting after all the bytes of the fields before it.
  */
  lemma {:induction false} CryptAllAt(ks: Stream, pos: nat, fields: Row, i: nat)
    requires i < |fields|
    ensures |CryptAll(ks, pos, fields)| == |fields|
    ensures CryptAll(ks, pos, fields)[i] == Xor(ks, pos + |Concat(fields[..i])|, fields[i])
    decreases |fields|
  {
    CryptAllShape(ks, pos, fields);
    if i > 0 {
      CryptAllAt(ks, pos + |fields[0]|, fields[1..], i - 1);
      assert fields[..i] == [fields[0]] + fields[1..][..i - 1];
      assert Concat(fields[..i]) == fields[0] + Concat(fields[1..][..i - 1]);
    } else {
      assert fields[..0] == [];
    }
  }

  lemma {:induction false} CryptAllShape(ks: Stream, pos: nat, fields: Row)
    ensures SameShape(CryptAll(ks, pos, fields), fields)
    decreases |fields|
  {
    if fields != [] {
      CryptAllShape(ks, pos + |fields[0]|, fields[1..]);
    }
  }

  /**
    Stream continuity: transforming the fields one by one is transforming
    their concatenation as one string and cutting it at the same boundaries.
  */
  lemma {:induction false} CryptAllContinuity(ks: Stream, pos: nat, fields: Row)
    ensures SameShape(CryptAll(ks, pos, fields), fields)
    ensures Concat(CryptAll(ks, pos, fields)) == Xor(ks, pos, Concat(fields))
    decreases |fields|
  {
    CryptAllShape(ks, pos, fields);
    if fields != [] {
      CryptAllContinuity(ks, pos + |fields[0]|, fields[1..]);
      XorSplit(ks, pos, fields[0], Concat(fields[1..]));
    }
  }

  lemma {:induction false} CryptAllInvolution(ks: Stream, pos: nat, fields: Row)
    ensures CryptAll(ks, pos, CryptAll(ks, pos, fields)) == fields
    decreases |fields|
  {
    if fields != [] {
      var out := CryptAll(ks, pos, fields);
      XorInvolution(ks, pos, fields[0]);
      assert out[1..] == CryptAll(ks, pos + |fields[0]|, fields[1..]);
      CryptAllInvolution(ks, pos + |fields[0]|, fields[1..]);
      assert fields == [fields[0]] + fields[1..];
    }
  }

  // ---------------------------------------------------------------------------
  // Selected columns

  /** The position at which the LAST visit of column `c` starts. */
  function LastPos(line: Row, pos: nat, cols: seq<nat>, c: nat): nat
    requires InRange(line, cols)
    requires c in cols
    decreases |cols|
  {
    if c in cols[1..] then LastPos(line, pos + |line[cols[0]]|, cols[1..], c) else pos
  }

  /** How many keystream bytes the visits of `cols` consume, duplicates counted. */
  function Consumed(line: Row, cols: seq<nat>): nat
    requires InRange(line, cols)
    decreases |cols|
  {
    if cols == [] then 0 else |line[cols[0]]| + Consumed(line, cols[1..])
  }

  /**
    The row the `-c` loop leaves: each selected field is the original field
    combined with the keystream at its last visit; the others come from `acc`.
  */
  function Overwrite(ks: Stream, pos: nat, line: Row, acc: Row, cols: seq<nat>): Row
    requires |acc| == |line|
    requires InRange(line, cols)
  {
    seq(|acc|, c requires 0 <= c < |acc| =>
      if c in cols then Xor(ks, LastPos(line, pos, cols, c), line[c]) else acc[c])
  }

  lemma InRangeCons(line: Row, cols: seq<nat>)
    requires cols != []
    ensures InRange(line, cols) <==> cols[0] < |line| && InRange(line, cols[1..])
  {
    if cols[0] < |line| && InRange(line, cols[1..]) {
      forall i | 0 <= i < |cols| ensures cols[i] < |line| {
        if i > 0 { assert cols[i] == cols[1..][i - 1]; }
      }
    }
  }

  /** One visit of the `-c` loop, stated on `Overwrite`. */
  lemma OverwriteStep(ks: Stream, pos: nat, line: Row, acc: Row, cols: seq<nat>)
    requires |acc| == |line|
    requires cols != [] && InRange(line, cols)
    ensures InRange(line, cols[1..])
    ensures Overwrite(ks, pos + |line[cols[0]]|, line, acc[cols[0] := Xor(ks, pos, line[cols[0]])], cols[1..])
         == Overwrite(ks, pos, line, acc, cols)
  {
    InRangeCons(line, cols);
    var c0 := cols[0];
    var acc' := acc[c0 := Xor(ks, pos, line[c0])];
    var ov := Overwrite(ks, pos, line, acc, cols);
    var ov' := Overwrite(ks, pos + |line[c0]|, line, acc', cols[1..]);
    forall c | 0 <= c < |acc| ensures ov'[c] == ov[c] {
      if c !in cols[1..] && c == c0 {
        assert LastPos(line, pos, cols, c) == pos;
      }
    }
  }

  /** Characterisation of the `-c` loop when every index is in range. */
  lemma {:induction false} CryptColumnsDone(ks: Stream, pos: nat, line: Row, acc: Row, cols: seq<nat>)
    requires |acc| == |line|
    ensures CryptColumns(ks, pos, line, acc, cols).Done? <==> InRange(line, cols)
    ensures InRange(line, cols) ==>
      CryptColumns(ks, pos, line, acc, cols)
        == Done(Overwrite(ks, pos, line, acc, cols), pos + Consumed(line, cols))
    decreases |cols|
  {
    if cols != [] {
      InRangeCons(line, cols);
      if cols[0] < |line| {
        var acc' := acc[cols[0] := Xor(ks, pos, line[cols[0]])];
        CryptColumnsDone(ks, pos + |line[cols[0]]|, line, acc', cols[1..]);
        if InRange(line, cols) {
          OverwriteStep(ks, pos, line, acc, cols);
        }
      }
    }
  }

  /** The `IndexError` names the first out-of-range index in visiting order. */
  lemma {:induction false} CryptColumnsFails(ks: Stream, pos: nat, line: Row, acc: Row, cols: seq<nat>)
    requires |acc| == |line|
    requires CryptColumns(ks, pos, line, acc, cols).OutOfRange?
    ensures exists k :: 0 <= k < |cols| && cols[k] == CryptColumns(ks, pos, line, acc, cols).column
                        && cols[k] >= |line| && forall j :: 0 <= j < k ==> cols[j] < |line|
    decreases |cols|
  {
    var r := CryptColumns(ks, pos, line, acc, cols);
    if cols[0] < |line| {
      var acc' := acc[cols[0] := Xor(ks, pos, line[cols[0]])];
      CryptColumnsFails(ks, pos + |line[cols[0]]|, line, acc', cols[1..]);
      var k :| 0 <= k < |cols[1..]| && cols[1..][k] == r.column && cols[1..][k] >= |line|
        && forall j :: 0 <= j < k ==> cols[1..][j] < |line|;
      assert cols[k + 1] == r.column;
      forall j | 0 <= j < k + 1 ensures cols[j] < |line| {
        if j > 0 { assert cols[j] == cols[1..][j - 1]; }
      }
    } else {
      assert cols[0] == r.column;
    }
  }

  lemma {:induction false} LastPosShape(a: Row, b: Row, pos: nat, cols: seq<nat>, c: nat)
    requires SameShape(a, b)
    requires InRange(a, cols)
    requires c in cols
    ensures InRange(b, cols)
    ensures LastPos(a, pos, cols, c) == LastPos(b, pos, cols, c)
    decreases |cols|
  {
    if c in cols[1..] {
      LastPosShape(a, b, pos + |a[cols[0]]|, cols[1..], c);
    }
  }

  lemma {:induction false} ConsumedShape(a: Row, b: Row, cols: seq<nat>)
    requires SameShape(a, b)
    requires InRange(a, cols)
    ensures InRange(b, cols)
    ensures Consumed(a, cols) == Consumed(b, cols)
    decreases |cols|
  {
    if cols != [] {
      ConsumedShape(a, b, cols[1..]);
    }
  }

  /** `RowStep` with `-c`: succeeds exactly when every index is in range, and what it gives. */
  lemma ColumnsResult(ks: Stream, pos: nat, line: Row, cols: seq<nat>)
    ensures RowStep(ks, pos, line, Columns(cols)).Done? <==> InRange(line, cols)
    ensures InRange(line, cols) <==> InRange(line, Sort(cols))
    ensures InRange(line, cols) ==>
      RowStep(ks, pos, line, Columns(cols))
        == Done(Overwrite(ks, pos, line, line, Sort(cols)), pos + Consumed(line, Sort(cols)))
  {
    var s := Sort(cols);
    CryptColumnsDone(ks, pos, line, line, s);
    assert InRange(line, cols) <==> InRange(line, s) by {
      forall i | 0 <= i < |s| ensures s[i] in cols {
        assert s[i] in multiset(s);
      }
      forall i | 0 <= i < |cols| ensures cols[i] in s {
        assert cols[i] in multiset(cols);
      }
    }
  }

  lemma OverwriteShape(ks: Stream, pos: nat, line: Row, cols: seq<nat>)
    requires InRange(line, cols)
    ensures SameShape(Overwrite(ks, pos, line, line, cols), line)
  {
  }

  // ---------------------------------------------------------------------------
  // The properties of one row

  /**
    A transformed row has as many fields as the input, each of the same
    length, and with `-c` every field whose index is not listed is unchanged.
  */
  lemma RowShape(ks: Stream, pos: nat, line: Row, sel: Selection)
    requires RowStep(ks, pos, line, sel).Done?
    ensures SameShape(RowStep(ks, pos, line, sel).row, line)
    ensures sel.Columns? ==> forall c :: 0 <= c < |line| && c !in sel.indices ==>
              RowStep(ks, pos, line, sel).row[c] == line[c]
  {
    match sel
    case AllColumns =>
      CryptAllShape(ks, pos, line);
    case Columns(cols) =>
      ColumnsResult(ks, pos, line, cols);
      OverwriteShape(ks, pos, line, Sort(cols));
      forall c | 0 <= c < |line| && c !in cols
        ensures RowStep(ks, pos, line, sel).row[c] == line[c]
      {
        assert c !in multiset(Sort(cols));
      }
  }

  /** The position after a row depends on the selection and the field lengths only. */
  lemma RowPosition(ks: Stream, pos: nat, line: Row, sel: Selection)
    requires RowStep(ks, pos, line, sel).Done?
    ensures sel.AllColumns? ==> RowStep(ks, pos, line, sel).pos == pos + |Concat(line)|
    ensures sel.Columns? ==>
              && InRange(line, Sort(sel.indices))
              && RowStep(ks, pos, line, sel).pos == pos + Consumed(line, Sort(sel.indices))
  {
    if sel.Columns? {
      ColumnsResult(ks, pos, line, sel.indices);
    }
  }

  /** Transforming a transformed row from the same position gives the row back. */
  lemma RowInvolution(ks: Stream, pos: nat, line: Row, sel: Selection)
    requires RowStep(ks, pos, line, sel).Done?
    ensures RowStep(ks, pos, RowStep(ks, pos, line, sel).row, sel)
         == Done(line, RowStep(ks, pos, line, sel).pos)
  {
    match sel
    case AllColumns =>
      CryptAllShape(ks, pos, line);
      ConcatLength(CryptAll(ks, pos, line), line);
      CryptAllInvolution(ks, pos, line);
    case Columns(cols) =>
      var s := Sort(cols);
      ColumnsResult(ks, pos, line, cols);
      var out := Overwrite(ks, pos, line, line, s);
      OverwriteShape(ks, pos, line, s);
      ConsumedShape(line, out, s);
      ColumnsResult(ks, pos, out, cols);
      var back := Overwrite(ks, pos, out, out, s);
      forall c | 0 <= c < |line| ensures back[c] == line[c] {
        if c in s {
          LastPosShape(line, out, pos, s, c);
          XorInvolution(ks, LastPos(line, pos, s, c), line[c]);
        }
      }
      assert back == line;
  }

  /** `sorted(target_columns)`: the order in which the indices are given does not matter. */
  lemma ColumnOrderIrrelevant(ks: Stream, pos: nat, line: Row, a: seq<nat>, b: seq<nat>)
    requires multiset(a) == multiset(b)
    ensures RowStep(ks, pos, line, Columns(a)) == RowStep(ks, pos, line, Columns(b))
  {
    AscendingUnique(Sort(a), Sort(b));
  }

  /**
    A repeated index is visited twice: the stream advances by twice the
    field's length, and the field keeps the second value, computed from the
    original field.
  */
  lemma DuplicateColumn(ks: Stream, pos: nat, line: Row, c: nat)
    requires c < |line|
    ensures RowStep(ks, pos, line, Columns([c, c]))
         == Done(line[c := Xor(ks, pos + |line[c]|, line[c])], pos + 2 * |line[c]|)
  {
    assert Sort([c, c]) == [c, c] by {
      assert [c, c] == [c] + [c];
      assert Sort([c]) == [c];
    }
    var first := line[c := Xor(ks, pos, line[c])];
    assert [c, c][1..] == [c];
    assert CryptColumns(ks, pos, line, line, [c, c])
        == CryptColumns(ks, pos + |line[c]|, line, first, [c]);
    assert first[c := Xor(ks, pos + |line[c]|, line[c])] == line[c := Xor(ks, pos + |line[c]|, line[c])];
  }

  /**
    With `-c`, a row fails exactly when some listed index is at or past its
    end, and the `IndexError` is raised at the smallest such index.
  */
  lemma RowOutOfRange(ks: Stream, pos: nat, line: Row, cols: seq<nat>)
    ensures RowStep(ks, pos, line, Columns(cols)).OutOfRange?
        <==> exists i :: 0 <= i < |cols| && cols[i] >= |line|
    ensures RowStep(ks, pos, line, Columns(cols)).OutOfRange? ==>
      var c := RowStep(ks, pos, line, Columns(cols)).column;
      c in cols && c >= |line| && forall i :: 0 <= i < |cols| && cols[i] >= |line| ==> c <= cols[i]
  {
    ColumnsResult(ks, pos, line, cols);
    var r := RowStep(ks, pos, line, Columns(cols));
    if r.OutOfRange? {
      var s := Sort(cols);
      assert r == CryptColumns(ks, pos, line, line, s);
      CryptColumnsFails(ks, pos, line, line, s);
      var k :| 0 <= k < |s| && s[k] == r.column && s[k] >= |line|
        && forall j :: 0 <= j < k ==> s[j] < |line|;
      FirstPastEnd(s, cols, k, |line|);
    }
  }

  /**
    In the sorted list, the first index at or past `n` is the smallest
    such index of the unsorted one.
  */
  lemma FirstPastEnd(s: seq<nat>, cols: seq<nat>, k: nat, n: nat)
    requires Ascending(s) && multiset(s) == multiset(cols)
    requires k < |s| && s[k] >= n
    requires forall j :: 0 <= j < k ==> s[j] < n
    ensures s[k] in cols
    ensures forall i :: 0 <= i < |cols| && cols[i] >= n ==> s[k] <= cols[i]
  {
    assert s[k] in multiset(cols);
    forall i | 0 <= i < |cols| && cols[i] >= n ensures s[k] <= cols[i] {
      assert cols[i] in multiset(s);
      var m :| 0 <= m < |s| && s[m] == cols[i];
      assert !(m < k);
    }
  }

  /** No index is listed in both selections. */
  predicate Disjoint(a: seq<nat>, b: seq<nat>) {
    forall c :: c in a ==> c !in b
  }

  /**
    Two `-c` runs over disjoint columns, with any two keystreams, commute:
    each only reads and writes its own columns, and the stream positions it
    uses depend only on the lengths of those columns, which the other run
    leaves alone.
  */
  lemma {:induction false} OverwriteCommute(k1: Stream, p1: nat, s1: seq<nat>, k2: Stream, p2: nat, s2: seq<nat>, line: Row)
    requires InRange(line, s1) && InRange(line, s2)
    requires Disjoint(s1, s2)
    ensures var a := Overwrite(k1, p1, line, line, s1);
            var c := Overwrite(k2, p2, line, line, s2);
            && SameShape(a, line) && SameShape(c, line)
            && Overwrite(k1, p1, c, c, s1) == Overwrite(k2, p2, a, a, s2)
  {
    var a := Overwrite(k1, p1, line, line, s1);
    var c := Overwrite(k2, p2, line, line, s2);
    OverwriteShape(k1, p1, line, s1);
    OverwriteShape(k2, p2, line, s2);
    var b := Overwrite(k2, p2, a, a, s2);
    var d := Overwrite(k1, p1, c, c, s1);
    forall i | 0 <= i < |line| ensures d[i] == b[i] {
      if i in s1 {
        LastPosShape(line, c, p1, s1, i);
      } else if i in s2 {
        LastPosShape(line, a, p2, s2, i);
      }
    }
  }

  lemma SortedDisjoint(c1: seq<nat>, c2: seq<nat>)
    requires Disjoint(c1, c2)
    ensures Disjoint(Sort(c1), Sort(c2))
  {
    forall c | c in Sort(c1) ensures c !in Sort(c2) {
      assert c in multiset(Sort(c1));
      assert c in c1;
      assert c !in multiset(c2);
    }
  }

  lemma RowColumnsCommute(k1: Stream, p1: nat, c1: seq<nat>, k2: Stream, p2: nat, c2: seq<nat>, line: Row)
    requires Disjoint(c1, c2)
    requires RowStep(k1, p1, line, Columns(c1)).Done?
    requires RowStep(k2, p2, RowStep(k1, p1, line, Columns(c1)).row, Columns(c2)).Done?
    ensures var first := RowStep(k1, p1, line, Columns(c1));
            var both := RowStep(k2, p2, first.row, Columns(c2));
            var other := RowStep(k2, p2, line, Columns(c2));
            && other.Done?
            && other.pos == both.pos
            && RowStep(k1, p1, other.row, Columns(c1)) == Done(both.row, first.pos)
  {
    var s1, s2 := Sort(c1), Sort(c2);
    SortedDisjoint(c1, c2);
    ColumnsResult(k1, p1, line, c1);
    var a := Overwrite(k1, p1, line, line, s1);
    var first := RowStep(k1, p1, line, Columns(c1));
    assert first == Done(a, p1 + Consumed(line, s1));
    ColumnsResult(k2, p2, a, c2);
    assert InRange(line, c2);
    ColumnsResult(k2, p2, line, c2);
    var c := Overwrite(k2, p2, line, line, s2);
    OverwriteCommute(k1, p1, s1, k2, p2, s2, line);
    ConsumedShape(line, a, s2);
    var both := RowStep(k2, p2, a, Columns(c2));
    assert both == Done(Overwrite(k2, p2, a, a, s2), p2 + Consumed(line, s2));
    ConsumedShape(line, c, s1);
    ColumnsResult(k1, p1, c, c1);
  }

  /** The selected fields, in the order of `cols`. */
  function Pick(row: Row, cols: seq<nat>): (r: Row)
    requires InRange(row, cols)
  {
    seq(|cols|, j requires 0 <= j < |cols| => row[cols[j]])
  }

  predicate StrictlyAscending(cols: seq<nat>) {
    forall i, j :: 0 <= i < j < |cols| ==> cols[i] < cols[j]
  }

  lemma PickCons(row: Row, cols: seq<nat>)
    requires cols != [] && InRange(row, cols)
    ensures InRange(row, cols[1..])
    ensures Pick(row, cols) == [row[cols[0]]] + Pick(row, cols[1..])
  {
    InRangeCons(row, cols);
  }

  lemma OverwriteUnlisted(ks: Stream, pos: nat, line: Row, acc: Row, cols: seq<nat>, c: nat)
    requires |acc| == |line| && InRange(line, cols)
    requires c < |acc| && c !in cols
    ensures |Overwrite(ks, pos, line, acc, cols)| == |line|
    ensures Overwrite(ks, pos, line, acc, cols)[c] == acc[c]
  {
  }

  lemma StrictlyAscendingTail(cols: seq<nat>)
    requires cols != [] && StrictlyAscending(cols)
    ensures StrictlyAscending(cols[1..])
    ensures cols[0] !in cols[1..]
  {
    forall j | 0 <= j < |cols[1..]| ensures cols[1..][j] != cols[0] {
      assert cols[1..][j] == cols[j + 1];
    }
  }

  lemma {:induction false} PickOverwrite(ks: Stream, pos: nat, line: Row, acc: Row, cols: seq<nat>)
    requires |acc| == |line| && InRange(line, cols)
    requires StrictlyAscending(cols)
    ensures InRange(Overwrite(ks, pos, line, acc, cols), cols)
    ensures Pick(Overwrite(ks, pos, line, acc, cols), cols) == CryptAll(ks, pos, Pick(line, cols))
    decreases |cols|
  {
    if cols != [] {
      var c0 := cols[0];
      var pos' := pos + |line[c0]|;
      var acc' := acc[c0 := Xor(ks, pos, line[c0])];
      OverwriteStep(ks, pos, line, acc, cols);
      var ov := Overwrite(ks, pos, line, acc, cols);
      assert ov == Overwrite(ks, pos', line, acc', cols[1..]);
      StrictlyAscendingTail(cols);
      PickOverwrite(ks, pos', line, acc', cols[1..]);
      OverwriteUnlisted(ks, pos', line, acc', cols[1..], c0);
      assert ov[c0] == Xor(ks, pos, line[c0]);
      PickCons(ov, cols);
      PickCons(line, cols);
      assert Pick(ov, cols) == [Xor(ks, pos, line[c0])] + CryptAll(ks, pos', Pick(line, cols[1..]));
    }
  }

  /**
    Columns selected together share one stream: when the indices are listed
    in ascending order without repeats, the selected fields come out exactly
    as if they had been the whole row, i.e. their concatenation is combined
    with one continuous stretch of keystream.  This is why columns encrypted
    together cannot be decrypted one by one, nor columns encrypted one by one
    together.
  */
  lemma ColumnsShareStream(ks: Stream, pos: nat, line: Row, cols: seq<nat>)
    requires StrictlyAscending(cols)
    requires RowStep(ks, pos, line, Columns(cols)).Done?
    ensures InRange(line, cols) && InRange(RowStep(ks, pos, line, Columns(cols)).row, cols)
    ensures Pick(RowStep(ks, pos, line, Columns(cols)).row, cols) == CryptAll(ks, pos, Pick(line, cols))
    ensures Concat(Pick(RowStep(ks, pos, line, Columns(cols)).row, cols)) == Xor(ks, pos, Concat(Pick(line, cols)))
  {
    AscendingUnique(Sort(cols), cols);
    ColumnsResult(ks, pos, line, cols);
    PickOverwrite(ks, pos, line, line, cols);
    CryptAllContinuity(ks, pos, Pick(line, cols));
  }
}
