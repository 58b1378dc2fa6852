/**
 * Tabular data as the pipeline sees it: a frame is an ordered list of column
 * names and a list of rows; a row maps column names to cells, and a column a
 * row has no entry for reads as missing (pandas fills such holes with NaN).
 */
module Frames {
  import opened Wrappers
  import opened Seqs

  /** One cell of a frame. `Missing` is pandas' NaN (and an infinity once it has been replaced). */
  datatype Cell = Num(x: real) | Missing | Text(s: string) | Flag(b: bool)

  type Row = map<string, Cell>

  datatype Frame = Frame(columns: seq<string>, rows: seq<Row>)

  function Get(r: Row, c: string): Cell
  {
    if c in r then r[c] else Missing
  }

  /** A row's cells in the given columns, in that order (NaN for an absent column). */
  function RowCells(r: Row, cols: seq<string>): (v: seq<Cell>)
    ensures |v| == |cols|
  {
    seq(|cols|, j requires 0 <= j < |cols| => Get(r, cols[j]))
  }

  /** The value pandas arithmetic reads from a cell: booleans count as 0 and 1, NaN and text as nothing. */
  function AsNum(c: Cell): Option<real>
  {
    match c
    case Num(x) => Some(x)
    case Flag(b) => Some(if b then 1.0 else 0.0)
    case _ => None
  }

  function Column(f: Frame, c: string): (v: seq<Cell>)
    ensures |v| == |f.rows|
    ensures forall i :: 0 <= i < |v| ==> v[i] == Get(f.rows[i], c)
  {
    seq(|f.rows|, i requires 0 <= i < |f.rows| => Get(f.rows[i], c))
  }

  function Constant(f: Frame, v: Cell): (col: seq<Cell>)
    ensures |col| == |f.rows|
    ensures forall i :: 0 <= i < |col| ==> col[i] == v
  {
    seq(|f.rows|, i => v)
  }

  /** `df[c] = vals`: overwrite column `c` in place, or append it as the last column. */
  function SetCol(f: Frame, c: string, vals: seq<Cell>): (r: Frame)
    requires |vals| == |f.rows|
    ensures r.columns == if c in f.columns then f.columns else f.columns + [c]
    ensures |r.rows| == |f.rows|
    ensures forall i :: 0 <= i < |r.rows| ==> r.rows[i] == f.rows[i][c := vals[i]]
  {
    Frame(if c in f.columns then f.columns else f.columns + [c],
          seq(|f.rows|, i requires 0 <= i < |f.rows| => f.rows[i][c := vals[i]]))
  }

  /** The test "not one of `ds`", as a value that filters can share. */
  function NotIn(ds: set<string>): string -> bool
  {
    c => c !in ds
  }

  /** `df.drop(columns=ds, errors='ignore')`. */
  function Drop(f: Frame, ds: set<string>): (r: Frame)
    ensures r.columns == Filter(f.columns, NotIn(ds))
    ensures |r.rows| == |f.rows|
    ensures forall i :: 0 <= i < |r.rows| ==> r.rows[i] == f.rows[i] - ds
  {
    Frame(Filter(f.columns, NotIn(ds)), seq(|f.rows|, i requires 0 <= i < |f.rows| => f.rows[i] - ds))
  }

  /** `pd.concat([a, b], ignore_index=True)`: the rows of `a` then those of `b`; the columns of `a`, then the new ones of `b`. */
  function Concat(a: Frame, b: Frame): (r: Frame)
    ensures r.rows == a.rows + b.rows
  {
    Frame(a.columns + Filter(b.columns, NotIn(set c | c in a.columns)), a.rows + b.rows)
  }

  lemma SetColAt(f: Frame, c: string, vals: seq<Cell>, i: int, d: string)
    requires |vals| == |f.rows| && 0 <= i < |f.rows|
    ensures d in SetCol(f, c, vals).columns <==> d in f.columns || d == c
    ensures Get(SetCol(f, c, vals).rows[i], d) == if d == c then vals[i] else Get(f.rows[i], d)
  {
  }

  lemma SetColOther(f: Frame, c: string, vals: seq<Cell>, d: string)
    requires |vals| == |f.rows| && d != c
    ensures Column(SetCol(f, c, vals), d) == Column(f, d)
    ensures d in SetCol(f, c, vals).columns <==> d in f.columns
  {
    var r := SetCol(f, c, vals);
    assert forall i :: 0 <= i < |f.rows| ==> Column(r, d)[i] == Column(f, d)[i];
  }

  lemma SetColNew(f: Frame, c: string, vals: seq<Cell>)
    requires |vals| == |f.rows|
    ensures c in SetCol(f, c, vals).columns
    ensures Column(SetCol(f, c, vals), c) == vals
  {
  }

  lemma DropAt(f: Frame, ds: set<string>, i: int, d: string)
    requires 0 <= i < |f.rows|
    ensures d in Drop(f, ds).columns <==> d in f.columns && d !in ds
    ensures Get(Drop(f, ds).rows[i], d) == if d in ds then Missing else Get(f.rows[i], d)
  {
    DropIn(f, ds, d);
  }

  lemma DropIn(f: Frame, ds: set<string>, d: string)
    ensures d in Drop(f, ds).columns <==> d in f.columns && d !in ds
  {
    var r := Drop(f, ds);
    if d in f.columns && d !in ds {
      var k :| 0 <= k < |f.columns| && f.columns[k] == d;
      assert f.columns[k] in r.columns;
    }
  }

  /** Mean of the present (numeric) cells, missing when there is none: pandas' skipna mean. */
  function MeanOfPresent(cs: seq<Cell>): (r: Cell)
    ensures r.Missing? <==> CountPresent(cs) == 0
  {
    if CountPresent(cs) == 0 then Missing else Num(SumPresent(cs) / (CountPresent(cs) as real))
  }

  function CountPresent(cs: seq<Cell>): nat
  {
    if cs == [] then 0 else CountPresent(cs[..|cs| - 1]) + (if AsNum(cs[|cs| - 1]).Some? then 1 else 0)
  }

  function SumPresent(cs: seq<Cell>): real
  {
    if cs == [] then 0.0
    else SumPresent(cs[..|cs| - 1]) + (match AsNum(cs[|cs| - 1]) case Some(x) => x case None => 0.0)
  }

  /** The mean of the present cells lies between any bounds on those cells. */
  lemma MeanOfPresentBounds(cs: seq<Cell>, lo: real, hi: real)
    requires forall j :: 0 <= j < |cs| && AsNum(cs[j]).Some? ==> lo <= AsNum(cs[j]).value <= hi
    requires CountPresent(cs) > 0
    ensures MeanOfPresent(cs).Num? && lo <= MeanOfPresent(cs).x <= hi
  {
    SumPresentBounds(cs, lo, hi);
    var n := CountPresent(cs) as real;
    QuotientBounds(SumPresent(cs), n, lo, hi);
  }

  lemma QuotientBounds(total: real, n: real, lo: real, hi: real)
    requires n > 0.0 && lo * n <= total <= hi * n
    ensures lo <= total / n <= hi
  {
    assert total / n - lo == (total - lo * n) / n;
    assert hi - total / n == (hi * n - total) / n;
  }

  lemma AddBounded(total: real, c: real, x: real, lo: real, hi: real)
    requires lo * c <= total <= hi * c && lo <= x <= hi
    ensures lo * (c + 1.0) <= total + x <= hi * (c + 1.0)
  {
    assert lo * (c + 1.0) == lo * c + lo;
    assert hi * (c + 1.0) == hi * c + hi;
  }

  lemma {:induction false} SumPresentBounds(cs: seq<Cell>, lo: real, hi: real)
    requires forall j :: 0 <= j < |cs| && AsNum(cs[j]).Some? ==> lo <= AsNum(cs[j]).value <= hi
    ensures lo * (CountPresent(cs) as real) <= SumPresent(cs) <= hi * (CountPresent(cs) as real)
  {
    if cs != [] {
      var init := cs[..|cs| - 1];
      assert forall j :: 0 <= j < |init| ==> init[j] == cs[j];
      SumPresentBounds(init, lo, hi);
      var c := CountPresent(init) as real;
      var last := AsNum(cs[|cs| - 1]);
      if last.Some? {
        assert SumPresent(cs) == SumPresent(init) + last.value;
        assert CountPresent(cs) as real == c + 1.0;
        AddBounded(SumPresent(init), c, last.value, lo, hi);
      } else {
        assert SumPresent(cs) == SumPresent(init);
        assert CountPresent(cs) == CountPresent(init);
      }
    }
  }

  /** `a - b` on two cells: missing unless both are numbers. */
  function Sub(a: Cell, b: Cell): Cell
  {
    if AsNum(a).Some? && AsNum(b).Some? then Num(AsNum(a).value - AsNum(b).value) else Missing
  }

  function Mul(a: Cell, b: Cell): Cell
  {
    if AsNum(a).Some? && AsNum(b).Some? then Num(AsNum(a).value * AsNum(b).value) else Missing
  }

  /** `a / b` followed by replacing an infinity (or 0/0) with NaN: dividing by zero gives missing. */
  function Div(a: Cell, b: Cell): Cell
  {
    if AsNum(a).Some? && AsNum(b).Some? && AsNum(b).value != 0.0 then Num(AsNum(a).value / AsNum(b).value) else Missing
  }

  /** `series.clip(lower=lo)`: NaN stays NaN. */
  function ClipLower(a: Cell, lo: real): Cell
  {
    match AsNum(a)
    case Some(x) => Num(if x < lo then lo else x)
    case None => Missing
  }

  /** A column-wise binary operation. */
  function Zip(xs: seq<Cell>, ys: seq<Cell>, op: (Cell, Cell) -> Cell): (r: seq<Cell>)
    requires |xs| == |ys|
    ensures |r| == |xs|
    ensures forall i :: 0 <= i < |r| ==> r[i] == op(xs[i], ys[i])
  {
    seq(|xs|, i requires 0 <= i < |xs| => op(xs[i], ys[i]))
  }

  /** A column-wise unary operation. */
  function MapCells(xs: seq<Cell>, op: Cell -> Cell): (r: seq<Cell>)
    ensures |r| == |xs|
    ensures forall i :: 0 <= i < |r| ==> r[i] == op(xs[i])
  {
    seq(|xs|, i requires 0 <= i < |xs| => op(xs[i]))
  }

  /** A pandas DataFrame whose columns the source assigns in place. */
  class Table {
    var columns: seq<string>
    var rows: seq<Row>

    function Value(): Frame
      reads this
    {
      Frame(columns, rows)
    }

    constructor (f: Frame)
      ensures Value() == f
    {
      columns := f.columns;
      rows := f.rows;
    }

    /** `df[c] = vals` on this very frame. */
    method SetColumn(c: string, vals: seq<Cell>)
      requires |vals| == |rows|
      modifies this
      ensures Value() == SetCol(old(Value()), c, vals)
    {
      var f := SetCol(Value(), c, vals);
      columns, rows := f.columns, f.rows;
    }
  }

  /**
   * A labelled numeric table as the regressors receive it: column names and
   * positional rows. Unlike `Frame`, two columns may carry the same name.
   */
  datatype Matrix = Matrix(columns: seq<string>, rows: seq<seq<Cell>>)

  /** A frame read positionally, column by column. */
  function ToMatrix(f: Frame): (m: Matrix)
    ensures m.columns == f.columns && |m.rows| == |f.rows|
    ensures forall i :: 0 <= i < |m.rows| ==> |m.rows[i]| == |f.columns|
    ensures forall i, j :: 0 <= i < |m.rows| && 0 <= j < |f.columns| ==> m.rows[i][j] == Get(f.rows[i], f.columns[j])
  {
    Matrix(f.columns, seq(|f.rows|, i requires 0 <= i < |f.rows| =>
      seq(|f.columns|, j requires 0 <= j < |f.columns| => Get(f.rows[i], f.columns[j]))))
  }
}
