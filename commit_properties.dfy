/** What one file and one whole run guarantee, proved from the specifications in `Commit`. */
module CommitProperties {
  import opened Common
  import opened Keystream
  import opened Rows
  import opened RowProperties
  import opened Commit

  /** Same number of rows, each of the same shape. */
  predicate SameTableShape(a: Table, b: Table) {
    |a| == |b| && forall r :: 0 <= r < |a| ==> SameShape(a[r], b[r])
  }

  /**
    A transformed file has the same rows, each with the same number of fields
    of the same lengths; with `-c`, every field whose index is not listed is
    unchanged.
  */
  lemma {:induction false} TableShape(ks: Stream, pos: nat, rows: Table, sel: Selection)
    requires TransformTable(ks, pos, rows, sel).Transformed?
    ensures SameTableShape(TransformTable(ks, pos, rows, sel).rows, rows)
    ensures sel.Columns? ==> forall r, c :: 0 <= r < |rows| && 0 <= c < |rows[r]| && c !in sel.indices ==>
              TransformTable(ks, pos, rows, sel).rows[r][c] == rows[r][c]
    decreases |rows|
  {
    if rows != [] {
      var step := RowStep(ks, pos, rows[0], sel);
      RowShape(ks, pos, rows[0], sel);
      TableShape(ks, step.pos, rows[1..], sel);
      var out := TransformTable(ks, pos, rows, sel).rows;
      assert out == [step.row] + TransformTable(ks, step.pos, rows[1..], sel).rows;
      forall r | 1 <= r < |rows| ensures rows[r] == rows[1..][r - 1] && out[r] == out[1..][r - 1] { }
    }
  }

  /** Transforming a transformed file again, from the same position, restores it. */
  lemma {:induction false} TableInvolution(ks: Stream, pos: nat, rows: Table, sel: Selection)
    requires TransformTable(ks, pos, rows, sel).Transformed?
    ensures TransformTable(ks, pos, TransformTable(ks, pos, rows, sel).rows, sel)
         == Transformed(rows, TransformTable(ks, pos, rows, sel).pos)
    decreases |rows|
  {
    if rows != [] {
      var step := RowStep(ks, pos, rows[0], sel);
      RowInvolution(ks, pos, rows[0], sel);
      TableInvolution(ks, step.pos, rows[1..], sel);
      var out := TransformTable(ks, pos, rows, sel).rows;
      assert out[0] == step.row && out[1..] == TransformTable(ks, step.pos, rows[1..], sel).rows;
      assert rows == [rows[0]] + rows[1..];
    }
  }

  /** Two `-c` passes over disjoint columns commute, whatever their passwords. */
  lemma {:induction false} TableColumnsCommute(k1: Stream, p1: nat, c1: seq<nat>, k2: Stream, p2: nat, c2: seq<nat>,
                                               rows: Table)
    requires Disjoint(c1, c2)
    requires TransformTable(k1, p1, rows, Columns(c1)).Transformed?
    requires TransformTable(k2, p2, TransformTable(k1, p1, rows, Columns(c1)).rows, Columns(c2)).Transformed?
    ensures var first := TransformTable(k1, p1, rows, Columns(c1));
            var both := TransformTable(k2, p2, first.rows, Columns(c2));
            var other := TransformTable(k2, p2, rows, Columns(c2));
            && other.Transformed?
            && other.pos == both.pos
            && TransformTable(k1, p1, other.rows, Columns(c1)) == Transformed(both.rows, first.pos)
    decreases |rows|
  {
    if rows != [] {
      var line := rows[0];
      var a := RowStep(k1, p1, line, Columns(c1));
      var first := TransformTable(k1, p1, rows, Columns(c1));
      var aRest := TransformTable(k1, a.pos, rows[1..], Columns(c1));
      assert first.rows == [a.row] + aRest.rows;
      assert first.rows[0] == a.row && first.rows[1..] == aRest.rows;
      var b := RowStep(k2, p2, a.row, Columns(c2));
      RowColumnsCommute(k1, p1, c1, k2, p2, c2, line);
      var c := RowStep(k2, p2, line, Columns(c2));
      TableColumnsCommute(k1, a.pos, c1, k2, b.pos, c2, rows[1..]);
      var other := TransformTable(k2, p2, rows, Columns(c2));
      var cRest := TransformTable(k2, c.pos, rows[1..], Columns(c2));
      assert other.rows == [c.row] + cRest.rows;
      assert other.rows[0] == c.row && other.rows[1..] == cRest.rows;
    }
  }

  /**
    The scenario of the usage text: encrypt column 0 with one password, then
    column 1 with another, then run the first command again.  The file ends
    exactly as if only the second command had ever run.
  */
  lemma {:induction false} ColumnIndependence(k1: Stream, c1: seq<nat>, k2: Stream, c2: seq<nat>,
                                              rows: Table, once: Table, q1: nat, twice: Table, q2: nat)
    requires Disjoint(c1, c2)
    requires TransformTable(k1, 0, rows, Columns(c1)) == Transformed(once, q1)
    requires TransformTable(k2, 0, once, Columns(c2)) == Transformed(twice, q2)
    ensures TransformTable(k2, 0, rows, Columns(c2)).Transformed?
    ensures TransformTable(k1, 0, twice, Columns(c1)) == Transformed(TransformTable(k2, 0, rows, Columns(c2)).rows, q1)
  {
    TableColumnsCommute(k1, 0, c1, k2, 0, c2, rows);
    var other := TransformTable(k2, 0, rows, Columns(c2));
    assert TransformTable(k1, 0, other.rows, Columns(c1)) == Transformed(twice, q1);
    TableInvolution(k1, 0, other.rows, Columns(c1));
  }

  /**
    The same scenario, field by field: after the third command every field
    of the first command's columns holds its original bytes, and every other
    field is as the second command left it (still encrypted, for its columns).
  */
  lemma {:induction false} ColumnIndependenceFields(k1: Stream, c1: seq<nat>, k2: Stream, c2: seq<nat>, rows: Table,
                                                    once: Table, q1: nat, twice: Table, q2: nat, thrice: Table, q3: nat)
    requires Disjoint(c1, c2)
    requires TransformTable(k1, 0, rows, Columns(c1)) == Transformed(once, q1)
    requires TransformTable(k2, 0, once, Columns(c2)) == Transformed(twice, q2)
    requires TransformTable(k1, 0, twice, Columns(c1)) == Transformed(thrice, q3)
    ensures SameTableShape(thrice, rows) && SameTableShape(twice, rows)
    ensures forall r, c :: 0 <= r < |rows| && 0 <= c < |rows[r]| && c in c1 ==> thrice[r][c] == rows[r][c]
    ensures forall r, c :: 0 <= r < |rows| && 0 <= c < |rows[r]| && c !in c1 ==> thrice[r][c] == twice[r][c]
  {
    ColumnIndependence(k1, c1, k2, c2, rows, once, q1, twice, q2);
    TableShape(k1, 0, rows, Columns(c1));
    TableShape(k2, 0, once, Columns(c2));
    TableShape(k1, 0, twice, Columns(c1));
    TableShape(k2, 0, rows, Columns(c2));
    forall r, c | 0 <= r < |rows| && 0 <= c < |rows[r]| && c in c1 ensures thrice[r][c] == rows[r][c] {
      assert c !in c2;
    }
  }

  /** All the fields of a file, row after row. */
  function Fields(rows: Table): Row
    decreases |rows|
  {
    if rows == [] then [] else rows[0] + Fields(rows[1..])
  }

  lemma {:induction false} ConcatAppend(a: Row, b: Row)
    ensures Concat(a + b) == Concat(a) + Concat(b)
    decreases |a|
  {
    if a == [] {
      assert a + b == b;
    } else {
      assert (a + b)[0] == a[0] && (a + b)[1..] == a[1..] + b;
      ConcatAppend(a[1..], b);
    }
  }

  lemma {:induction false} CryptAllAppend(ks: Stream, pos: nat, a: Row, b: Row)
    ensures CryptAll(ks, pos, a + b) == CryptAll(ks, pos, a) + CryptAll(ks, pos + |Concat(a)|, b)
    decreases |a|
  {
    if a == [] {
      assert a + b == b;
    } else {
      assert (a + b)[0] == a[0] && (a + b)[1..] == a[1..] + b;
      CryptAllAppend(ks, pos + |a[0]|, a[1..], b);
    }
  }

  /**
    Without `-c` a file never fails, and its rows are transformed as one
    sequence of fields: one continuous stretch of keystream runs through
    every field of every row, in order.
  */
  lemma {:induction false} TableAllColumns(ks: Stream, pos: nat, rows: Table)
    ensures TransformTable(ks, pos, rows, AllColumns).Transformed?
    ensures TransformTable(ks, pos, rows, AllColumns).pos == pos + |Concat(Fields(rows))|
    ensures Fields(TransformTable(ks, pos, rows, AllColumns).rows) == CryptAll(ks, pos, Fields(rows))
    decreases |rows|
  {
    if rows != [] {
      var line := rows[0];
      var p := pos + |Concat(line)|;
      TableAllColumns(ks, p, rows[1..]);
      var rest := TransformTable(ks, p, rows[1..], AllColumns);
      var out := [CryptAll(ks, pos, line)] + rest.rows;
      assert out[0] == CryptAll(ks, pos, line) && out[1..] == rest.rows;
      CryptAllAppend(ks, pos, line, Fields(rows[1..]));
      ConcatAppend(line, Fields(rows[1..]));
    }
  }

  /** The whole file's bytes, without `-c`, are combined with one continuous keystream. */
  lemma TableContinuity(ks: Stream, pos: nat, rows: Table)
    ensures TransformTable(ks, pos, rows, AllColumns).Transformed?
    ensures Concat(Fields(TransformTable(ks, pos, rows, AllColumns).rows)) == Xor(ks, pos, Concat(Fields(rows)))
  {
    TableAllColumns(ks, pos, rows);
    CryptAllContinuity(ks, pos, Fields(rows));
  }

  /**
    With `-c`, a file fails exactly when some row lacks a listed column; the
    error names the first such row and the smallest listed index it lacks.
  */
  lemma {:induction false} TableFails(ks: Stream, pos: nat, rows: Table, cols: seq<nat>)
    ensures TransformTable(ks, pos, rows, Columns(cols)).Failed?
        <==> exists r :: 0 <= r < |rows| && !InRange(rows[r], cols)
    ensures TransformTable(ks, pos, rows, Columns(cols)).Failed? ==>
      var e := TransformTable(ks, pos, rows, Columns(cols)).error;
      && e.row < |rows|
      && (forall r :: 0 <= r < e.row ==> InRange(rows[r], cols))
      && e.column in cols && e.column >= |rows[e.row]|
      && (forall i :: 0 <= i < |cols| && cols[i] >= |rows[e.row]| ==> e.column <= cols[i])
    decreases |rows|
  {
    if rows != [] {
      var step := RowStep(ks, pos, rows[0], Columns(cols));
      ColumnsResult(ks, pos, rows[0], cols);
      RowOutOfRange(ks, pos, rows[0], cols);
      if step.Done? {
        TableFails(ks, step.pos, rows[1..], cols);
        var t := TransformTable(ks, pos, rows, Columns(cols));
        if t.Failed? {
          var e' := TransformTable(ks, step.pos, rows[1..], Columns(cols)).error;
          assert t.error == IndexError(e'.row + 1, e'.column);
          assert rows[e'.row + 1] == rows[1..][e'.row];
          forall r | 0 <= r < e'.row + 1 ensures InRange(rows[r], cols) {
            if r > 0 { assert rows[r] == rows[1..][r - 1]; }
          }
        }
        if exists r :: 0 <= r < |rows| && !InRange(rows[r], cols) {
          var r :| 0 <= r < |rows| && !InRange(rows[r], cols);
          assert r > 0 && rows[1..][r - 1] == rows[r];
        }
      } else {
        assert !InRange(rows[0], cols);
      }
    }
  }
}
