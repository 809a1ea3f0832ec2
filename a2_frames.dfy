/** The a2 per-cell passes over a pandas table, modelled as a two-dimensional
    array of cells indexed by row and column position. */
module DataFrames {
  import opened Text

  /** A table cell: a string, a number, or a missing value (NaN). */
  datatype Cell = Str(s: string) | Num(n: int) | Missing

  /** `df_lstrip` on one cell: strings lose their leading whitespace, other cells stay. */
  function LStripCell(c: Cell): Cell {
    if c.Str? then Str(LStrip(c.s)) else c
  }

  /** A stripped cell starts with no whitespace, is the old cell for a
      non-string, and stripping it again changes nothing. */
  lemma LStripCellSpec(c: Cell)
    ensures LStripCell(c).Str? <==> c.Str?
    ensures LStripCell(c).Str? && LStripCell(c).s != [] ==> !IsSpace(LStripCell(c).s[0])
    ensures !c.Str? ==> LStripCell(c) == c
    ensures LStripCell(LStripCell(c)) == LStripCell(c)
  {
    if c.Str? {
      LStripSpec(c.s);
    }
  }

  /** `df_lstrip`: every string cell of the listed columns, in every row, loses its leading whitespace. */
  method DfLStrip(df: array2<Cell>, columns: seq<int>)
    requires forall k :: 0 <= k < |columns| ==> 0 <= columns[k] < df.Length1
    modifies df
    ensures forall i, j :: 0 <= i < df.Length0 && 0 <= j < df.Length1 ==>
      df[i, j] == if j in columns then LStripCell(old(df[i, j])) else old(df[i, j])
  {
    var i := 0;
    while i < df.Length0
      invariant 0 <= i <= df.Length0
      invariant forall r, j :: 0 <= r < df.Length0 && 0 <= j < df.Length1 ==>
        df[r, j] == if r < i && j in columns then LStripCell(old(df[r, j])) else old(df[r, j])
    {
      StripRow(df, i, columns);
      i := i + 1;
    }
  }

  /** One row of `df_lstrip`: each listed column in turn. */
  method StripRow(df: array2<Cell>, i: int, columns: seq<int>)
    requires 0 <= i < df.Length0
    requires forall k :: 0 <= k < |columns| ==> 0 <= columns[k] < df.Length1
    modifies df
    ensures forall r, j :: 0 <= r < df.Length0 && 0 <= j < df.Length1 ==>
      df[r, j] == if r == i && j in columns then LStripCell(old(df[r, j])) else old(df[r, j])
  {
    var k := 0;
    while k < |columns|
      invariant 0 <= k <= |columns|
      invariant forall r, j :: 0 <= r < df.Length0 && 0 <= j < df.Length1 ==>
        df[r, j] == if r == i && j in columns[..k] then LStripCell(old(df[r, j])) else old(df[r, j])
    {
      var j := columns[k];
      LStripCellSpec(old(df[i, j]));
      if df[i, j].Str? {
        df[i, j] := Str(LStrip(df[i, j].s));
      }
      assert columns[..k + 1] == columns[..k] + [j];
      k := k + 1;
    }
    assert columns[..k] == columns;
  }

  /** Python's `float()` on a cell, restricted to the integral altitudes
      the tables hold: a number, or a string that reads as an integer after
      its leading whitespace. Every other cell is `None` here; `float()`
      itself also reads decimals, exponents, `nan` and `inf`, and a missing
      cell is NaN. */
  function AsNumber(c: Cell): Option<int> {
    match c
    case Num(n) => Some(n)
    case Missing => None
    case Str(s) =>
      var t := LStrip(s);
      if t != [] && (t[0] == '-' ==> AllDigits(t[1..])) && (t[0] != '-' ==> AllDigits(t))
      then Some(ParseInt(t)) else None
  }

  function Abs(x: int): (a: nat)
    ensures a == x || a == -x
  {
    if x < 0 then -x else x
  }

  /** A number rendered by `IntToString` reads back as that number. */
  lemma AsNumberPrinted(n: int, pad: string)
    requires forall k :: 0 <= k < |pad| ==> IsSpace(pad[k])
    ensures AsNumber(Str(pad + IntToString(n))) == Some(n)
  {
    IntToStringRoundTrip(n);
    LStripPrefix(pad, IntToString(n));
  }

  /** `column_diff`: in every row, `out` becomes the absolute difference of
      `in1` and `in2` read as numbers; the other cells are left as they were. */
  method ColumnDiff(df: array2<Cell>, in1: int, in2: int, out: int)
    requires 0 <= in1 < df.Length1 && 0 <= in2 < df.Length1 && 0 <= out < df.Length1
    requires forall i :: 0 <= i < df.Length0 ==> AsNumber(df[i, in1]).Some? && AsNumber(df[i, in2]).Some?
    modifies df
    ensures forall i, j :: 0 <= i < df.Length0 && 0 <= j < df.Length1 ==>
      df[i, j] == if j == out then Num(Abs(AsNumber(old(df[i, in1])).value - AsNumber(old(df[i, in2])).value))
                  else old(df[i, j])
  {
    var i := 0;
    while i < df.Length0
      invariant 0 <= i <= df.Length0
      invariant forall r, j :: 0 <= r < df.Length0 && 0 <= j < df.Length1 ==>
        df[r, j] == if r < i && j == out
                    then Num(Abs(AsNumber(old(df[r, in1])).value - AsNumber(old(df[r, in2])).value))
                    else old(df[r, j])
    {
      var a, b := AsNumber(df[i, in1]).value, AsNumber(df[i, in2]).value;
      df[i, out] := Num(Abs(a - b));
      i := i + 1;
    }
  }
}
