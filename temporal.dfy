/**
 * Lag, rolling-mean and delta features (`create_temporal_features` in
 * backend/ml_engine/feature_engineering.py). The frame is sorted by the group
 * keys and the year; each feature is then a positional operation on the
 * series of one group, written back to the rows of that group.
 */
module Temporal {
  import opened Wrappers
  import opened Seqs
  import opened Frames
  import opened Config
  import opened Sorting

  // ---------------------------------------------------------------------------
  // Groups

  /** The group a row belongs to: its cells in the present group keys. */
  function GroupOf(r: Row, ks: seq<string>): seq<Cell>
  {
    RowCells(r, ks)
  }

  /** `groupby(..., dropna=True)`: a row with NaN in a group key belongs to no group. */
  predicate InSomeGroup(r: Row, ks: seq<string>)
  {
    forall j :: 0 <= j < |ks| ==> Get(r, ks[j]) != Missing
  }

  /** The rows of group `g`, in frame order. */
  function GroupRows(rows: seq<Row>, ks: seq<string>, g: seq<Cell>): (m: seq<Row>)
    ensures |m| <= |rows|
  {
    if rows == [] then []
    else GroupRows(rows[..|rows| - 1], ks, g) + (if GroupOf(rows[|rows| - 1], ks) == g then [rows[|rows| - 1]] else [])
  }

  function Values(rs: seq<Row>, col: string): (v: seq<Cell>)
    ensures |v| == |rs|
    ensures forall j :: 0 <= j < |rs| ==> v[j] == Get(rs[j], col)
  {
    seq(|rs|, j requires 0 <= j < |rs| => Get(rs[j], col))
  }

  // ---------------------------------------------------------------------------
  // Operations on one group's series

  /** `series.shift(w)`: the value `w` positions earlier, NaN for the first `w` positions. */
  function Shift(s: seq<Cell>, w: nat): (r: seq<Cell>)
    ensures |r| == |s|
    ensures forall k :: 0 <= k < |s| ==> r[k] == if k >= w then s[k - w] else Missing
  {
    seq(|s|, k requires 0 <= k < |s| => if k >= w then s[k - w] else Missing)
  }

  function Min(a: nat, b: nat): nat { if a <= b then a else b }

  /** `series.rolling(window=w, min_periods=1).mean()`: the mean of the present cells among the last `w`. */
  function Rolling(s: seq<Cell>, w: nat): (r: seq<Cell>)
    ensures |r| == |s|
    ensures forall k :: 0 <= k < |s| ==> r[k] == MeanOfPresent(s[k + 1 - Min(w, k + 1)..k + 1])
  {
    seq(|s|, k requires 0 <= k < |s| => MeanOfPresent(s[k + 1 - Min(w, k + 1)..k + 1]))
  }

  datatype Kind = Lag | Mean | Delta

  /** The feature of one kind and window over a whole group series. */
  function SeriesFeature(kind: Kind, g: seq<Cell>, w: nat): (r: seq<Cell>)
    ensures |r| == |g|
  {
    match kind
    case Lag => Shift(g, w)
    case Mean => Rolling(Shift(g, 1), w)
    case Delta => Zip(Shift(g, 1), Shift(g, w + 1), Sub)
  }

  /** The position of row `i` within its group. */
  function GroupPosition(rows: seq<Row>, ks: seq<string>, i: nat): nat
    requires i < |rows|
  {
    |GroupRows(rows[..i], ks, GroupOf(rows[i], ks))|
  }

  /**
   * The column pandas writes back from a group-wise operation: row `i` takes the
   * entry of its group's result at its own position, and rows in no group get NaN.
   */
  function FeatureColumn(rows: seq<Row>, ks: seq<string>, col: string, kind: Kind, w: nat): (v: seq<Cell>)
    ensures |v| == |rows|
  {
    seq(|rows|, i requires 0 <= i < |rows| =>
      if !InSomeGroup(rows[i], ks) then Missing
      else
        var series := SeriesFeature(kind, Values(GroupRows(rows, ks, GroupOf(rows[i], ks)), col), w);
        var k := GroupPosition(rows, ks, i);
        if k < |series| then series[k] else Missing)
  }

  // ---------------------------------------------------------------------------
  // The whole operation

  function LagName(col: string, w: nat): string { col + "_lag_" + NatToString(w) }
  function MeanName(col: string, w: nat): string { col + "_mean_" + NatToString(w) }
  function DeltaName(col: string, w: nat): string { col + "_delta_" + NatToString(w) }

  function FeatureName(col: string, kind: Kind, w: nat): string
  {
    match kind
    case Lag => LagName(col, w)
    case Mean => MeanName(col, w)
    case Delta => DeltaName(col, w)
  }

  /** The group keys the frame has, in configured order. */
  function PresentKeys(f: Frame): seq<string>
  {
    Filter(GroupKeys, InColumns(f.columns))
  }

  /** The test "numeric, and neither the year nor a group key". */
  function IsBase(numeric: set<string>, ks: seq<string>): string -> bool
  {
    c => c in numeric && c != "year" && c !in ks
  }

  function BaseColumns(f: Frame, numeric: set<string>, ks: seq<string>): seq<string>
  {
    Filter(f.columns, IsBase(numeric, ks))
  }

  /** The frame sorted by the present group keys, then the year. */
  function SortedFrame(f: Frame, ks: seq<string>): Frame
  {
    Frame(f.columns, SortRows(f.rows, ks + ["year"]))
  }

  /** The lag, mean and delta features of column `col` for window `w`. */
  function WindowTriple(rows: seq<Row>, ks: seq<string>, col: string, w: nat): (r: seq<(string, seq<Cell>)>)
    ensures |r| == 3
    ensures forall j :: 0 <= j < 3 ==> |r[j].1| == |rows|
  {
    [(LagName(col, w), FeatureColumn(rows, ks, col, Lag, w)),
     (MeanName(col, w), FeatureColumn(rows, ks, col, Mean, w)),
     (DeltaName(col, w), FeatureColumn(rows, ks, col, Delta, w))]
  }

  /** The three features of column `col` for each of the windows `ws`, in insertion order. */
  function WindowFeatures(rows: seq<Row>, ks: seq<string>, col: string, ws: seq<nat>): (r: seq<(string, seq<Cell>)>)
    ensures |r| == 3 * |ws|
    ensures forall j :: 0 <= j < |r| ==> |r[j].1| == |rows|
  {
    if ws == [] then []
    else
      var w := ws[|ws| - 1];
      WindowFeatures(rows, ks, col, ws[..|ws| - 1]) + WindowTriple(rows, ks, col, w)
  }

  /** The `new_features` dictionary, as a list of (name, column) pairs in insertion order. */
  function Features(rows: seq<Row>, ks: seq<string>, base: seq<string>): (r: seq<(string, seq<Cell>)>)
    ensures forall j :: 0 <= j < |r| ==> |r[j].1| == |rows|
  {
    if base == [] then []
    else Features(rows, ks, base[..|base| - 1]) + WindowFeatures(rows, ks, base[|base| - 1], Windows)
  }

  /** `pd.concat([df, df_features], axis=1)`, one column after the other. */
  function AddColumns(f: Frame, cols: seq<(string, seq<Cell>)>): (r: Frame)
    requires forall j :: 0 <= j < |cols| ==> |cols[j].1| == |f.rows|
    ensures |r.rows| == |f.rows|
  {
    if cols == [] then f
    else
      var last := cols[|cols| - 1];
      var g := AddColumns(f, cols[..|cols| - 1]);
      SetCol(g, last.0, last.1)
  }

  /** `create_temporal_features(df)`: the checks, the sort and the appended features. */
  function TemporalFeatures(f: Frame, numeric: set<string>): Result<Frame, string>
  {
    if "year" !in f.columns then Err("Column 'year' is required.")
    else
      var ks := PresentKeys(f);
      if ks == [] then Err("Grouping keys missing.")
      else
        var s := SortedFrame(f, ks);
        Ok(AddColumns(s, Features(s.rows, ks, BaseColumns(f, numeric, ks))))
  }

  /**
   * The source's nested loops over the base columns and the windows, filling
   * `new_features` before the frame is extended.
   */
  method CreateTemporalFeatures(f: Frame, numeric: set<string>) returns (r: Result<Frame, string>)
    ensures r == TemporalFeatures(f, numeric)
  {
    if "year" !in f.columns {
      return Err("Column 'year' is required.");
    }
    var ks := PresentKeys(f);
    if ks == [] {
      return Err("Grouping keys missing.");
    }
    var base := BaseColumns(f, numeric, ks);
    var s := SortedFrame(f, ks);
    var features: seq<(string, seq<Cell>)> := [];
    for i := 0 to |base|
      invariant features == Features(s.rows, ks, base[..i])
    {
      var added := ColumnFeatures(s.rows, ks, base[i]);
      assert base[..i + 1][..i] == base[..i];
      features := features + added;
    }
    assert base[..|base|] == base;
    return Ok(AddColumns(s, features));
  }

  /** The inner loop: the features of one base column, window by window. */
  method ColumnFeatures(rows: seq<Row>, ks: seq<string>, col: string) returns (added: seq<(string, seq<Cell>)>)
    ensures added == WindowFeatures(rows, ks, col, Windows)
  {
    added := [];
    for j := 0 to |Windows|
      invariant added == WindowFeatures(rows, ks, col, Windows[..j])
    {
      var w := Windows[j];
      assert Windows[..j + 1][..j] == Windows[..j];
      added := added + [(LagName(col, w), FeatureColumn(rows, ks, col, Lag, w)),
                        (MeanName(col, w), FeatureColumn(rows, ks, col, Mean, w)),
                        (DeltaName(col, w), FeatureColumn(rows, ks, col, Delta, w))];
    }
    assert Windows[..|Windows|] == Windows;
  }

  // ---------------------------------------------------------------------------
  // The reference definition: what a row's features are made of

  /** The values of column `col` in the rows of row `i`'s group strictly before it. */
  function Prior(rows: seq<Row>, ks: seq<string>, i: nat, col: string): seq<Cell>
    requires i < |rows|
  {
    Values(GroupRows(rows[..i], ks, GroupOf(rows[i], ks)), col)
  }

  /**
   * A feature stated over the earlier values `p` of the row's group alone:
   * the lag is the value `w` places back; the mean covers the present values
   * among the last `w`; the delta is the previous value minus the one `w + 1`
   * places back.
   */
  function FromPrior(kind: Kind, p: seq<Cell>, w: nat): Cell
  {
    match kind
    case Lag => if 0 < w <= |p| then p[|p| - w] else Missing
    case Mean => MeanOfPresent(p[|p| - Min(w, |p|)..])
    case Delta => if |p| > w then Sub(p[|p| - 1], p[|p| - 1 - w]) else Missing
  }

  lemma {:induction false} GroupRowsPrefix(rows: seq<Row>, ks: seq<string>, g: seq<Cell>, m: nat, n: nat)
    requires m <= n <= |rows|
    ensures |GroupRows(rows[..m], ks, g)| <= |GroupRows(rows[..n], ks, g)|
    ensures GroupRows(rows[..n], ks, g)[..|GroupRows(rows[..m], ks, g)|] == GroupRows(rows[..m], ks, g)
  {
    if m < n {
      GroupRowsPrefix(rows, ks, g, m, n - 1);
      assert rows[..n][..n - 1] == rows[..n - 1];
    }
  }

  /** Row `i` sits in its group's series right after the earlier rows of the group. */
  lemma GroupPositionMeaning(rows: seq<Row>, ks: seq<string>, i: nat)
    requires i < |rows|
    ensures var g := GroupRows(rows, ks, GroupOf(rows[i], ks));
      var k := GroupPosition(rows, ks, i);
      k < |g| && g[..k + 1] == GroupRows(rows[..i], ks, GroupOf(rows[i], ks)) + [rows[i]]
  {
    var key := GroupOf(rows[i], ks);
    assert rows[..i + 1][..i] == rows[..i];
    GroupRowsPrefix(rows, ks, key, i + 1, |rows|);
    assert rows[..|rows|] == rows;
  }

  lemma PresentCellsSkipMissing(cs: seq<Cell>)
    ensures CountPresent([Missing] + cs) == CountPresent(cs)
    ensures SumPresent([Missing] + cs) == SumPresent(cs)
  {
    if cs != [] {
      var init := cs[..|cs| - 1];
      assert ([Missing] + cs)[..|cs|] == [Missing] + init;
      PresentCellsSkipMissing(init);
    }
  }

  /** On one series: position `k`'s feature depends only on the `k` values before it. */
  lemma SeriesFeatureFromPrior(kind: Kind, g: seq<Cell>, w: nat, k: nat)
    requires w >= 1 && k < |g|
    ensures SeriesFeature(kind, g, w)[k] == FromPrior(kind, g[..k], w)
  {
    var p := g[..k];
    match kind
    case Lag =>
      assert Shift(g, w)[k] == if k >= w then p[k - w] else Missing;
    case Delta =>
      assert Shift(g, 1)[k] == if k >= 1 then p[k - 1] else Missing;
      assert Shift(g, w + 1)[k] == if k >= w + 1 then p[k - 1 - w] else Missing;
    case Mean =>
      var win := Shift(g, 1)[k + 1 - Min(w, k + 1)..k + 1];
      if k + 1 <= w {
        assert win == [Missing] + p;
        PresentCellsSkipMissing(p);
      } else {
        assert win == p[k - w..];
      }
  }

  /**
   * The column computed over whole group series agrees at every row with the
   * reference definition over the row's earlier group values.
   */
  lemma FeatureFromPrior(rows: seq<Row>, ks: seq<string>, col: string, kind: Kind, w: nat, i: nat)
    requires w >= 1 && i < |rows|
    ensures FeatureColumn(rows, ks, col, kind, w)[i] ==
      if InSomeGroup(rows[i], ks) then FromPrior(kind, Prior(rows, ks, i, col), w) else Missing
  {
    if InSomeGroup(rows[i], ks) {
      GroupPositionMeaning(rows, ks, i);
      var gr := GroupRows(rows, ks, GroupOf(rows[i], ks));
      var g := Values(gr, col);
      var k := GroupPosition(rows, ks, i);
      var p := Prior(rows, ks, i, col);
      assert g[..k] == p by {
        forall j | 0 <= j < k ensures g[j] == p[j] {
          assert gr[j] == gr[..k + 1][j];
        }
      }
      SeriesFeatureFromPrior(kind, g, w, k);
    }
  }

  /**
   * No leakage: two frames that agree on every row before `i` and on row `i`'s
   * group give row `i` the same feature, whatever row `i`'s own value and the
   * rows after it hold.
   */
  lemma NoLeakage(rows: seq<Row>, rows': seq<Row>, ks: seq<string>, col: string, kind: Kind, w: nat, i: nat)
    requires w >= 1 && i < |rows| && i < |rows'|
    requires rows[..i] == rows'[..i]
    requires GroupOf(rows[i], ks) == GroupOf(rows'[i], ks)
    ensures FeatureColumn(rows, ks, col, kind, w)[i] == FeatureColumn(rows', ks, col, kind, w)[i]
  {
    FeatureFromPrior(rows, ks, col, kind, w, i);
    FeatureFromPrior(rows', ks, col, kind, w, i);
    assert InSomeGroup(rows[i], ks) <==> InSomeGroup(rows'[i], ks) by {
      assert forall j :: 0 <= j < |ks| ==> Get(rows[i], ks[j]) == GroupOf(rows[i], ks)[j];
      assert forall j :: 0 <= j < |ks| ==> Get(rows'[i], ks[j]) == GroupOf(rows'[i], ks)[j];
    }
  }

  lemma {:induction false} GroupRowsMembers(rows: seq<Row>, ks: seq<string>, g: seq<Cell>, r: Row)
    requires r in GroupRows(rows, ks, g)
    ensures GroupOf(r, ks) == g
    ensures exists j :: 0 <= j < |rows| && rows[j] == r
  {
    var n := |rows| - 1;
    if r in GroupRows(rows[..n], ks, g) {
      GroupRowsMembers(rows[..n], ks, g, r);
      var j :| 0 <= j < n && rows[..n][j] == r;
      assert rows[j] == r;
    } else {
      assert rows[n] == r;
    }
  }

  lemma {:induction false} KeyLeLast(a: seq<Cell>, x: Cell, y: Cell)
    requires KeyLe(a + [x], a + [y])
    ensures CellLe(x, y)
  {
    if a == [] {
      if x == y {
        CellLeTotal(x, y);
      }
    } else {
      assert (a + [x])[1..] == a[1..] + [x];
      assert (a + [y])[1..] == a[1..] + [y];
      KeyLeLast(a[1..], x, y);
    }
  }

  lemma RowCellsWithYear(r: Row, ks: seq<string>)
    ensures RowCells(r, ks + ["year"]) == GroupOf(r, ks) + [Get(r, "year")]
  {
  }

  /**
   * In the sorted frame the earlier rows of a group never have a later year
   * (rows sharing a year may come in either order: "earlier" is positional).
   */
  lemma PriorYearsNotLater(rows: seq<Row>, ks: seq<string>, i: nat, r: Row)
    requires i < |rows| && Sorted(rows, ks + ["year"])
    requires r in GroupRows(rows[..i], ks, GroupOf(rows[i], ks))
    ensures CellLe(Get(r, "year"), Get(rows[i], "year"))
  {
    GroupRowsMembers(rows[..i], ks, GroupOf(rows[i], ks), r);
    var j :| 0 <= j < i && rows[..i][j] == r;
    assert RowLe(rows[j], rows[i], ks + ["year"]);
    RowCellsWithYear(rows[j], ks);
    RowCellsWithYear(rows[i], ks);
    KeyLeLast(GroupOf(rows[i], ks), Get(r, "year"), Get(rows[i], "year"));
  }

  // ---------------------------------------------------------------------------
  // The appended columns

  lemma SingleDigit(w: nat)
    requires w in Windows
    ensures NatToString(w) == [Digits[w]]
    ensures 1 <= w <= 7
  {
  }

  /** Distinct (column, kind, window) triples give distinct feature names. */
  lemma FeatureNameInjective(c: string, kind: Kind, w: nat, c': string, kind': Kind, w': nat)
    requires w in Windows && w' in Windows
    requires FeatureName(c, kind, w) == FeatureName(c', kind', w')
    ensures c == c' && kind == kind' && w == w'
  {
    SingleDigit(w);
    SingleDigit(w');
    var n := FeatureName(c, kind, w);
    var n' := FeatureName(c', kind', w');
    // The third character from the end tells the kind apart: 'g', 'n' or 'a'.
    assert n[|n| - 3] == match kind case Lag => 'g' case Mean => 'n' case Delta => 'a';
    assert n'[|n'| - 3] == match kind' case Lag => 'g' case Mean => 'n' case Delta => 'a';
    assert kind == kind';
    assert |c| == |c'|;
    assert c == n[..|c|] && c' == n'[..|c'|];
    assert Digits[w] == n[|n| - 1] == Digits[w'];
  }

  /** Pairs with the same name carry the same column. */
  predicate NamesDetermineColumns(cols: seq<(string, seq<Cell>)>)
  {
    forall j, j' :: 0 <= j < |cols| && 0 <= j' < |cols| && cols[j].0 == cols[j'].0 ==> cols[j].1 == cols[j'].1
  }

  /** A feature's (name, column) pair. */
  function Feature(rows: seq<Row>, ks: seq<string>, c: string, kind: Kind, w: nat): (string, seq<Cell>)
  {
    (FeatureName(c, kind, w), FeatureColumn(rows, ks, c, kind, w))
  }

  lemma {:induction false} WindowFeaturesContent(rows: seq<Row>, ks: seq<string>, col: string, ws: seq<nat>)
    ensures forall j :: 0 <= j < |WindowFeatures(rows, ks, col, ws)| ==>
      exists kind: Kind, w: nat :: w in ws && WindowFeatures(rows, ks, col, ws)[j] == Feature(rows, ks, col, kind, w)
    ensures forall kind, w :: w in ws ==> Feature(rows, ks, col, kind, w) in WindowFeatures(rows, ks, col, ws)
  {
    if ws == [] {
      assert WindowFeatures(rows, ks, col, ws) == [];
    } else {
      var init := ws[..|ws| - 1];
      var w := ws[|ws| - 1];
      WindowFeaturesContent(rows, ks, col, init);
      var r := WindowFeatures(rows, ks, col, ws);
      assert r == WindowFeatures(rows, ks, col, init) + WindowTriple(rows, ks, col, w);
      assert forall x :: x in init ==> x in ws;
      assert ws == init + [w];
      forall j | 0 <= j < |r|
        ensures exists kind: Kind, w': nat :: w' in ws && WindowFeatures(rows, ks, col, ws)[j] == Feature(rows, ks, col, kind, w')
      {
        if j >= |r| - 3 {
          var kind := if j == |r| - 3 then Lag else if j == |r| - 2 then Mean else Delta;
          assert w in ws && r[j] == Feature(rows, ks, col, kind, w);
        } else {
          assert r[j] == WindowFeatures(rows, ks, col, init)[j];
          var kind, w'' :| w'' in init && WindowFeatures(rows, ks, col, init)[j] == Feature(rows, ks, col, kind, w'');
          assert w'' in ws && r[j] == Feature(rows, ks, col, kind, w'');
        }
      }
      forall kind, w' | w' in ws
        ensures Feature(rows, ks, col, kind, w') in r
      {
        if w' != w {
          assert w' in init;
        } else {
          assert Feature(rows, ks, col, kind, w') in WindowTriple(rows, ks, col, w);
        }
      }
      assert forall j :: 0 <= j < |WindowFeatures(rows, ks, col, ws)| ==>
        exists kind: Kind, w: nat :: w in ws && WindowFeatures(rows, ks, col, ws)[j] == Feature(rows, ks, col, kind, w);
    }
  }

  /** `p` is the feature of one of `base`'s columns for one of the configured windows. */
  predicate FeatureOfBase(p: (string, seq<Cell>), rows: seq<Row>, ks: seq<string>, base: seq<string>)
  {
    exists c: string, kind: Kind, w: nat :: c in base && w in Windows && p == Feature(rows, ks, c, kind, w)
  }

  lemma {:induction false} FeaturesContent(rows: seq<Row>, ks: seq<string>, base: seq<string>)
    ensures forall j :: 0 <= j < |Features(rows, ks, base)| ==> FeatureOfBase(Features(rows, ks, base)[j], rows, ks, base)
    ensures forall c: string, kind: Kind, w: nat :: c in base && w in Windows ==> Feature(rows, ks, c, kind, w) in Features(rows, ks, base)
  {
    if base == [] {
      assert Features(rows, ks, base) == [];
    } else {
      var init := base[..|base| - 1];
      var c := base[|base| - 1];
      FeaturesContent(rows, ks, init);
      WindowFeaturesContent(rows, ks, c, Windows);
      var r := Features(rows, ks, base);
      var head := Features(rows, ks, init);
      var tail := WindowFeatures(rows, ks, c, Windows);
      assert r == head + tail;
      assert base == init + [c];
      forall j | 0 <= j < |r|
        ensures FeatureOfBase(r[j], rows, ks, base)
      {
        if j < |head| {
          assert FeatureOfBase(head[j], rows, ks, init);
          var c', kind, w :| c' in init && w in Windows && head[j] == Feature(rows, ks, c', kind, w);
          assert c' in base && r[j] == Feature(rows, ks, c', kind, w);
        } else {
          assert tail[j - |head|] == WindowFeatures(rows, ks, c, Windows)[j - |head|];
          var kind, w :| w in Windows && tail[j - |head|] == Feature(rows, ks, c, kind, w);
          assert c in base && r[j] == Feature(rows, ks, c, kind, w);
        }
      }
      forall c': string, kind: Kind, w: nat | c' in base && w in Windows
        ensures Feature(rows, ks, c', kind, w) in r
      {
        if c' != c {
          assert c' in init;
        }
      }
    }
  }

  /** Feature names never clash, so each name carries one column. */
  lemma FeaturesNamesDetermineColumns(rows: seq<Row>, ks: seq<string>, base: seq<string>)
    ensures NamesDetermineColumns(Features(rows, ks, base))
  {
    var r := Features(rows, ks, base);
    FeaturesContent(rows, ks, base);
    forall j, j' | 0 <= j < |r| && 0 <= j' < |r| && r[j].0 == r[j'].0
      ensures r[j].1 == r[j'].1
    {
      assert FeatureOfBase(r[j], rows, ks, base) && FeatureOfBase(r[j'], rows, ks, base);
      var c, kind, w :| c in base && w in Windows && r[j] == Feature(rows, ks, c, kind, w);
      var c', kind', w' :| c' in base && w' in Windows && r[j'] == Feature(rows, ks, c', kind', w');
      FeatureNameInjective(c, kind, w, c', kind', w');
    }
  }

  /** After the concatenation each appended name holds its column. */
  lemma {:induction false} AddColumnsAt(f: Frame, cols: seq<(string, seq<Cell>)>, j: nat, i: nat)
    requires forall j :: 0 <= j < |cols| ==> |cols[j].1| == |f.rows|
    requires NamesDetermineColumns(cols)
    requires j < |cols| && i < |f.rows|
    ensures cols[j].0 in AddColumns(f, cols).columns
    ensures Get(AddColumns(f, cols).rows[i], cols[j].0) == cols[j].1[i]
  {
    var n := |cols| - 1;
    var init := cols[..n];
    var g := AddColumns(f, init);
    SetColAt(g, cols[n].0, cols[n].1, i, cols[j].0);
    if j < n {
      assert init[j] == cols[j];
      AddColumnsAt(f, init, j, i);
    }
  }

  /** A name that is not appended keeps its membership and its values. */
  lemma {:induction false} AddColumnsOther(f: Frame, cols: seq<(string, seq<Cell>)>, d: string, i: nat)
    requires forall j :: 0 <= j < |cols| ==> |cols[j].1| == |f.rows|
    requires forall j :: 0 <= j < |cols| ==> cols[j].0 != d
    requires i < |f.rows|
    ensures d in AddColumns(f, cols).columns <==> d in f.columns
    ensures Get(AddColumns(f, cols).rows[i], d) == Get(f.rows[i], d)
  {
    if cols != [] {
      var n := |cols| - 1;
      var init := cols[..n];
      assert forall j :: 0 <= j < n ==> init[j] == cols[j];
      AddColumnsOther(f, init, d, i);
      var g := AddColumns(f, init);
      assert AddColumns(f, cols) == SetCol(g, cols[n].0, cols[n].1);
      SetColAt(g, cols[n].0, cols[n].1, i, d);
    }
  }

  /** Every column of the result is an input column or an appended name. */
  lemma {:induction false} AddColumnsNames(f: Frame, cols: seq<(string, seq<Cell>)>, d: string)
    requires forall j :: 0 <= j < |cols| ==> |cols[j].1| == |f.rows|
    requires d in AddColumns(f, cols).columns && d !in f.columns
    ensures exists j :: 0 <= j < |cols| && cols[j].0 == d
  {
    var n := |cols| - 1;
    if cols[n].0 != d {
      AddColumnsNames(f, cols[..n], d);
      var j :| 0 <= j < n && cols[..n][j].0 == d;
      assert cols[j].0 == d;
    }
  }

  // ---------------------------------------------------------------------------
  // What `create_temporal_features` promises

  /** A column the features are derived from: numeric, and neither the year nor a group key. */
  predicate BaseColumn(f: Frame, numeric: set<string>, c: string)
  {
    c in f.columns && c in numeric && c != "year" && c !in GroupKeys
  }

  lemma PresentKeysMeaning(f: Frame, k: string)
    ensures k in PresentKeys(f) <==> k in GroupKeys && k in f.columns
  {
    FilterIn(GroupKeys, InColumns(f.columns), k);
  }

  lemma BaseColumnsMeaning(f: Frame, numeric: set<string>, c: string)
    ensures c in BaseColumns(f, numeric, PresentKeys(f)) <==> BaseColumn(f, numeric, c)
  {
    FilterIn(f.columns, IsBase(numeric, PresentKeys(f)), c);
    PresentKeysMeaning(f, c);
  }

  /** The two errors, and when each is raised. */
  lemma TemporalErrors(f: Frame, numeric: set<string>)
    ensures TemporalFeatures(f, numeric) == Err("Column 'year' is required.") <==> "year" !in f.columns
    ensures TemporalFeatures(f, numeric) == Err("Grouping keys missing.") <==>
      "year" in f.columns && forall k :: k in GroupKeys ==> k !in f.columns
    ensures TemporalFeatures(f, numeric).Ok? <==> "year" in f.columns && exists k :: k in GroupKeys && k in f.columns
  {
    forall k | k in GroupKeys {
      PresentKeysMeaning(f, k);
    }
    if PresentKeys(f) != [] {
      PresentKeysMeaning(f, PresentKeys(f)[0]);
    }
  }

  /** On success the rows are those of the input, sorted by the present group keys and the year. */
  lemma TemporalRowsSorted(f: Frame, numeric: set<string>)
    requires TemporalFeatures(f, numeric).Ok?
    ensures var ks := PresentKeys(f);
      var s := SortedFrame(f, ks).rows;
      && |TemporalFeatures(f, numeric).value.rows| == |f.rows|
      && multiset(s) == multiset(f.rows)
      && Sorted(s, ks + ["year"])
  {
    SortRowsSorted(f.rows, PresentKeys(f) + ["year"]);
  }

  /** The appended column of a base column holds the group-wise computation over the sorted rows. */
  lemma TemporalFeatureColumn(f: Frame, numeric: set<string>, c: string, kind: Kind, w: nat, i: nat)
    requires TemporalFeatures(f, numeric).Ok?
    requires BaseColumn(f, numeric, c) && w in Windows && i < |f.rows|
    ensures var ks := PresentKeys(f);
      var r := TemporalFeatures(f, numeric).value;
      && FeatureName(c, kind, w) in r.columns
      && Get(r.rows[i], FeatureName(c, kind, w)) == FeatureColumn(SortedFrame(f, ks).rows, ks, c, kind, w)[i]
  {
    var ks := PresentKeys(f);
    var sf := SortedFrame(f, ks);
    var base := BaseColumns(f, numeric, ks);
    var feats := Features(sf.rows, ks, base);
    BaseColumnsMeaning(f, numeric, c);
    FeaturesContent(sf.rows, ks, base);
    FeaturesNamesDetermineColumns(sf.rows, ks, base);
    var j :| 0 <= j < |feats| && feats[j] == Feature(sf.rows, ks, c, kind, w);
    AddColumnsAt(sf, feats, j, i);
  }

  /**
   * Each base column gets `_lag_w`, `_mean_w` and `_delta_w` for every
   * configured window, holding at sorted row `i` the value the reference
   * definition gives from the earlier rows of its group.
   */
  lemma TemporalFeatureValues(f: Frame, numeric: set<string>, c: string, kind: Kind, w: nat, i: nat)
    requires TemporalFeatures(f, numeric).Ok?
    requires BaseColumn(f, numeric, c) && w in Windows && i < |f.rows|
    ensures var ks := PresentKeys(f);
      var s := SortedFrame(f, ks).rows;
      var r := TemporalFeatures(f, numeric).value;
      && FeatureName(c, kind, w) in r.columns
      && Get(r.rows[i], FeatureName(c, kind, w)) ==
           if InSomeGroup(s[i], ks) then FromPrior(kind, Prior(s, ks, i, c), w) else Missing
  {
    var ks := PresentKeys(f);
    var s := SortedFrame(f, ks).rows;
    var r := TemporalFeatures(f, numeric).value;
    var n := FeatureName(c, kind, w);
    assert n in r.columns && Get(r.rows[i], n) == FeatureColumn(s, ks, c, kind, w)[i] by {
      TemporalFeatureColumn(f, numeric, c, kind, w, i);
    }
    SingleDigit(w);
    FeatureFromPrior(s, ks, c, kind, w, i);
  }

  /** Every other column keeps its membership and its (sorted) values. */
  lemma TemporalKeepsOthers(f: Frame, numeric: set<string>, d: string, i: nat)
    requires TemporalFeatures(f, numeric).Ok? && i < |f.rows|
    requires forall c: string, kind: Kind, w: nat :: BaseColumn(f, numeric, c) && w in Windows ==> FeatureName(c, kind, w) != d
    ensures var r := TemporalFeatures(f, numeric).value;
      && (d in r.columns <==> d in f.columns)
      && Get(r.rows[i], d) == Get(SortedFrame(f, PresentKeys(f)).rows[i], d)
  {
    var ks := PresentKeys(f);
    var sf := SortedFrame(f, ks);
    var base := BaseColumns(f, numeric, ks);
    var feats := Features(sf.rows, ks, base);
    FeaturesContent(sf.rows, ks, base);
    forall j | 0 <= j < |feats|
      ensures feats[j].0 != d
    {
      var c, kind, w :| c in base && w in Windows && feats[j] == Feature(sf.rows, ks, c, kind, w);
      BaseColumnsMeaning(f, numeric, c);
    }
    AddColumnsOther(sf, feats, d, i);
  }

  /** Every column the operation adds is a feature of a base column for a configured window. */
  lemma TemporalNewColumns(f: Frame, numeric: set<string>, d: string)
    requires TemporalFeatures(f, numeric).Ok?
    requires d in TemporalFeatures(f, numeric).value.columns && d !in f.columns
    ensures exists c: string, kind: Kind, w: nat :: BaseColumn(f, numeric, c) && w in Windows && d == FeatureName(c, kind, w)
  {
    var ks := PresentKeys(f);
    var sf := SortedFrame(f, ks);
    var base := BaseColumns(f, numeric, ks);
    var feats := Features(sf.rows, ks, base);
    AddColumnsNames(sf, feats, d);
    var j :| 0 <= j < |feats| && feats[j].0 == d;
    FeaturesContent(sf.rows, ks, base);
    var c, kind, w :| c in base && w in Windows && feats[j] == Feature(sf.rows, ks, c, kind, w);
    BaseColumnsMeaning(f, numeric, c);
  }
}
