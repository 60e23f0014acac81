/**
  The `-c` column specification: `check_columns` validates it, and the
  top level turns it into the list `target_columns`.
*/
module Columns {
  import opened Common

  /** Python's `str.split(',')`: the pieces between commas, empty ones included. */
  function Split(s: string): (r: seq<string>)
    ensures |r| >= 1
    ensures forall i, j :: 0 <= i < |r| && 0 <= j < |r[i]| ==> r[i][j] != ','
    decreases |s|
  {
    if s == [] then [""]
    else
      var rest := Split(s[1..]);
      if s[0] == ',' then [""] + rest
      else [[s[0]] + rest[0]] + rest[1..]
  }

  /** `','.join(toks)`, the inverse of `Split`. */
  function Join(toks: seq<string>): string
    requires |toks| >= 1
    decreases |toks|
  {
    if |toks| == 1 then toks[0] else toks[0] + "," + Join(toks[1..])
  }

  predicate NoComma(t: string) {
    forall j :: 0 <= j < |t| ==> t[j] != ','
  }

  lemma {:induction false} JoinSplit(s: string)
    ensures Join(Split(s)) == s
    decreases |s|
  {
    if s != [] {
      var rest := Split(s[1..]);
      JoinSplit(s[1..]);
      if s[0] == ',' {
        assert ([""] + rest)[1..] == rest;
      } else if |rest| > 1 {
        var r := [[s[0]] + rest[0]] + rest[1..];
        assert r[1..] == rest[1..];
        assert Join(rest) == rest[0] + "," + Join(rest[1..]);
      }
      assert s == [s[0]] + s[1..];
    }
  }

  /** Splitting a comma-free prefix glued to `s` extends the first piece of `s`. */
  lemma {:induction false} SplitPrefix(t: string, s: string)
    requires NoComma(t)
    ensures Split(t + s) == [t + Split(s)[0]] + Split(s)[1..]
    decreases |t|
  {
    if t != [] {
      assert (t + s)[0] == t[0];
      assert (t + s)[1..] == t[1..] + s;
      SplitPrefix(t[1..], s);
      assert [t[0]] + (t[1..] + Split(s)[0]) == t + Split(s)[0];
    } else {
      assert t + s == s;
      assert [] + Split(s)[0] == Split(s)[0];
      assert Split(s) == [Split(s)[0]] + Split(s)[1..];
    }
  }

  lemma {:induction false} SplitJoin(toks: seq<string>)
    requires |toks| >= 1
    requires forall i :: 0 <= i < |toks| ==> NoComma(toks[i])
    ensures Split(Join(toks)) == toks
    decreases |toks|
  {
    if |toks| == 1 {
      SplitPrefix(toks[0], "");
      assert toks[0] + "" == toks[0];
    } else {
      var rest := Join(toks[1..]);
      SplitJoin(toks[1..]);
      assert toks[0] + "," + rest == toks[0] + ("," + rest);
      SplitPrefix(toks[0], "," + rest);
      assert ("," + rest)[1..] == rest;
      assert Split("," + rest) == [""] + toks[1..];
      assert toks[0] + "" == toks[0];
      assert toks == [toks[0]] + toks[1..];
    }
  }

  predicate IsDigit(ch: char) {
    '0' <= ch <= '9'
  }

  /** Python 2 `str.isdigit()`: non-empty and ASCII digits only. */
  predicate IsDigits(s: string) {
    |s| > 0 && forall i :: 0 <= i < |s| ==> IsDigit(s[i])
  }

  /** The spec passes `check_columns`: every comma-separated token is a digit string. */
  predicate ValidColumnSpec(value: string) {
    forall i :: 0 <= i < |Split(value)| ==> IsDigits(Split(value)[i])
  }

  /** Python's `int()` on a digit string. */
  function DigitsValue(s: string): nat
    requires forall i :: 0 <= i < |s| ==> IsDigit(s[i])
    decreases |s|
  {
    if s == [] then 0
    else
      assert IsDigit(s[|s| - 1]);
      10 * DigitsValue(s[..|s| - 1]) + (s[|s| - 1] as int - '0' as int)
  }

  /** Python's `'%d' % n` for a natural number. */
  function Decimal(n: nat): (r: string)
    ensures IsDigits(r)
    decreases n
  {
    var last := [('0' as int + n % 10) as char];
    if n < 10 then last else Decimal(n / 10) + last
  }

  /** `int()` reads back what `'%d'` writes. */
  lemma {:induction false} DecimalRoundTrip(n: nat)
    ensures DigitsValue(Decimal(n)) == n
    decreases n
  {
    var d := Decimal(n);
    if n >= 10 {
      DecimalRoundTrip(n / 10);
      assert d[..|d| - 1] == Decimal(n / 10);
    } else {
      assert d[..|d| - 1] == [];
    }
  }

  /**
    `check_columns`: the first token that is not a digit string (the script
    exits with "Syntax error: Bad column number" naming it), or None.
  */
  method CheckColumns(value: string) returns (bad: Option<string>)
    ensures bad == None <==> ValidColumnSpec(value)
    ensures bad.Some? ==> !IsDigits(bad.value)
    ensures bad.Some? ==> exists i :: 0 <= i < |Split(value)| && Split(value)[i] == bad.value
                            && forall j :: 0 <= j < i ==> IsDigits(Split(value)[j])
  {
    var columns := Split(value);
    for k := 0 to |columns|
      invariant forall j :: 0 <= j < k ==> IsDigits(columns[j])
    {
      if !IsDigits(columns[k]) {
        return Some(columns[k]);
      }
    }
    return None;
  }

  /** The column list a valid spec denotes: `int` of each token, in the order given. */
  function ColumnList(value: string): (cols: seq<nat>)
    requires ValidColumnSpec(value)
  {
    var toks := Split(value);
    seq(|toks|, i requires 0 <= i < |toks| => DigitsValue(toks[i]))
  }

  /** The spec a user would type for `cols`: their decimal forms joined by commas. */
  function FormatColumns(cols: seq<nat>): (s: string)
    requires |cols| >= 1
  {
    Join(seq(|cols|, i requires 0 <= i < |cols| => Decimal(cols[i])))
  }

  /**
    Every non-empty column list can be written as a spec that passes
    `check_columns` and parses back to exactly that list, order and
    duplicates included.
  */
  lemma ColumnSpecRoundTrip(cols: seq<nat>)
    requires |cols| >= 1
    ensures ValidColumnSpec(FormatColumns(cols))
    ensures ColumnList(FormatColumns(cols)) == cols
  {
    var toks := seq(|cols|, i requires 0 <= i < |cols| => Decimal(cols[i]));
    forall i | 0 <= i < |toks| ensures NoComma(toks[i]) {
      assert IsDigits(toks[i]);
    }
    SplitJoin(toks);
    forall i | 0 <= i < |cols| ensures DigitsValue(toks[i]) == cols[i] {
      DecimalRoundTrip(cols[i]);
    }
  }

  /** The loop at the top level that appends `int(col_number)` for every token. */
  method ParseColumns(value: string) returns (targetColumns: seq<nat>)
    requires ValidColumnSpec(value)
    ensures targetColumns == ColumnList(value)
  {
    var tokens := Split(value);
    targetColumns := [];
    for k := 0 to |tokens|
      invariant targetColumns == ColumnList(value)[..k]
    {
      targetColumns := targetColumns + [DigitsValue(tokens[k])];
    }
  }
}
