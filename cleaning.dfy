/**
 * The first two steps of feature engineering (backend/ml_engine/feature_engineering.py):
 * `initial_cleaning` drops location and production columns and converts the yield
 * unit; `log_transform` replaces yield and area by their clipped log1p.
 */
module Cleaning {
  import opened Wrappers
  import opened Seqs
  import opened Frames

  predicate IsGeoColumn(c: string)
  {
    StartsWith(c, "latitude") || StartsWith(c, "longitude")
  }

  /** Both location prefixes start with 'l', so no other name is a location column. */
  lemma NotGeoByFirstChar(c: string)
    requires c != [] && c[0] != 'l'
    ensures !IsGeoColumn(c)
  {
    assert "latitude"[0] == 'l' && "longitude"[0] == 'l';
    assert |c| >= 8 ==> c[..8][0] == c[0];
    assert |c| >= 9 ==> c[..9][0] == c[0];
  }

  /** The columns `initial_cleaning` keeps where they are. */
  predicate KeptByCleaning(c: string)
  {
    !IsGeoColumn(c) && c != "production_thousand_tonnes" && c != "yield_ta_per_ha"
  }

  /** Yield per ha in "ta" (tenths of a tonne... per 10-unit area) converted to tonnes per ha. */
  function Div10(c: Cell): Cell
  {
    match AsNum(c)
    case Some(x) => Num(x / 10.0)
    case None => Missing
  }

  function DropGeo(f: Frame): (r: Frame)
    ensures |r.rows| == |f.rows|
  {
    Drop(f, set c | c in f.columns && IsGeoColumn(c))
  }

  function DropProduction(f: Frame): (r: Frame)
    ensures |r.rows| == |f.rows|
  {
    if "production_thousand_tonnes" in f.columns then Drop(f, {"production_thousand_tonnes"}) else f
  }

  function ConvertYield(f: Frame): (r: Frame)
    ensures |r.rows| == |f.rows|
  {
    if "yield_ta_per_ha" in f.columns then
      Drop(SetCol(f, "yield_ton_per_ha", MapCells(Column(f, "yield_ta_per_ha"), Div10)), {"yield_ta_per_ha"})
    else
      f
  }

  /** `initial_cleaning(df)`: three steps, each producing a new frame. */
  function InitialCleaning(f: Frame): (r: Frame)
    ensures |r.rows| == |f.rows|
  {
    ConvertYield(DropProduction(DropGeo(f)))
  }

  /** Two filters that agree on every element of `s` select the same subsequence. */
  lemma {:induction false} FilterCongruent(s: seq<string>, p: string -> bool, q: string -> bool)
    requires forall i :: 0 <= i < |s| ==> p(s[i]) == q(s[i])
    ensures Filter(s, p) == Filter(s, q)
  {
    if s != [] {
      FilterCongruent(s[1..], p, q);
    }
  }

  predicate NotGeo(c: string) { !IsGeoColumn(c) }

  predicate NotGeoOrProduction(c: string) { !IsGeoColumn(c) && c != "production_thousand_tonnes" }

  lemma DropGeoColumns(f: Frame)
    ensures DropGeo(f).columns == Filter(f.columns, NotGeo)
  {
    var geo := set c | c in f.columns && IsGeoColumn(c);
    FilterCongruent(f.columns, NotIn(geo), NotGeo);
  }

  lemma DropProductionColumns(f: Frame)
    ensures DropProduction(DropGeo(f)).columns == Filter(f.columns, NotGeoOrProduction)
  {
    DropGeoColumns(f);
    var f1 := DropGeo(f);
    if "production_thousand_tonnes" in f1.columns {
      FilterFilter(f.columns, NotGeo, NotIn({"production_thousand_tonnes"}), NotGeoOrProduction);
    } else {
      FilterAll(f1.columns, NotIn({"production_thousand_tonnes"}));
      FilterFilter(f.columns, NotGeo, NotIn({"production_thousand_tonnes"}), NotGeoOrProduction);
    }
  }

  /**
   * The columns after cleaning: the kept ones in their original order, then
   * `yield_ton_per_ha` when the conversion creates it.
   */
  lemma InitialCleaningColumns(f: Frame)
    ensures InitialCleaning(f).columns == Filter(f.columns, KeptByCleaning)
      + (if "yield_ta_per_ha" in f.columns && "yield_ton_per_ha" !in f.columns then ["yield_ton_per_ha"] else [])
    ensures forall c :: c in InitialCleaning(f).columns ==> KeptByCleaning(c)
  {
    var f2 := DropProduction(DropGeo(f));
    DropProductionColumns(f);
    NotGeoByFirstChar("yield_ta_per_ha");
    NotGeoByFirstChar("yield_ton_per_ha");
    FilterIn(f.columns, NotGeoOrProduction, "yield_ta_per_ha");
    FilterIn(f.columns, NotGeoOrProduction, "yield_ton_per_ha");
    assert "yield_ta_per_ha" in f2.columns <==> "yield_ta_per_ha" in f.columns;
    assert "yield_ton_per_ha" in f2.columns <==> "yield_ton_per_ha" in f.columns;
    if "yield_ta_per_ha" in f2.columns {
      var g := SetCol(f2, "yield_ton_per_ha", MapCells(Column(f2, "yield_ta_per_ha"), Div10));
      var extra: seq<string> := if "yield_ton_per_ha" in f2.columns then [] else ["yield_ton_per_ha"];
      assert g.columns == f2.columns + extra;
      FilterAppend(f2.columns, extra, NotIn({"yield_ta_per_ha"}));
      FilterFilter(f.columns, NotGeoOrProduction, NotIn({"yield_ta_per_ha"}), KeptByCleaning);
      assert Filter(extra, NotIn({"yield_ta_per_ha"})) == extra;
    } else {
      FilterCongruent(f.columns, NotGeoOrProduction, KeptByCleaning);
    }
  }

  lemma DropGeoAt(f: Frame, i: int, c: string)
    requires 0 <= i < |f.rows| && !IsGeoColumn(c)
    ensures (c in DropGeo(f).columns <==> c in f.columns) && Get(DropGeo(f).rows[i], c) == Get(f.rows[i], c)
  {
    DropAt(f, (set d | d in f.columns && IsGeoColumn(d)), i, c);
  }

  lemma DropProductionAt(f: Frame, i: int, c: string)
    requires 0 <= i < |f.rows| && c != "production_thousand_tonnes"
    ensures (c in DropProduction(f).columns <==> c in f.columns) && Get(DropProduction(f).rows[i], c) == Get(f.rows[i], c)
  {
    if "production_thousand_tonnes" in f.columns {
      DropAt(f, {"production_thousand_tonnes"}, i, c);
    }
  }

  lemma ConvertYieldAt(f: Frame, i: int, c: string)
    requires 0 <= i < |f.rows|
    ensures "yield_ta_per_ha" in f.columns ==>
      "yield_ton_per_ha" in ConvertYield(f).columns &&
      Get(ConvertYield(f).rows[i], "yield_ton_per_ha") == Div10(Get(f.rows[i], "yield_ta_per_ha"))
    ensures c != "yield_ta_per_ha" && !(c == "yield_ton_per_ha" && "yield_ta_per_ha" in f.columns) ==>
      (c in ConvertYield(f).columns <==> c in f.columns) && Get(ConvertYield(f).rows[i], c) == Get(f.rows[i], c)
  {
    if "yield_ta_per_ha" in f.columns {
      var vals := MapCells(Column(f, "yield_ta_per_ha"), Div10);
      var g := SetCol(f, "yield_ton_per_ha", vals);
      SetColAt(f, "yield_ton_per_ha", vals, i, c);
      SetColAt(f, "yield_ton_per_ha", vals, i, "yield_ton_per_ha");
      DropAt(g, {"yield_ta_per_ha"}, i, c);
      DropAt(g, {"yield_ta_per_ha"}, i, "yield_ton_per_ha");
    }
  }

  /**
   * The values after cleaning: `yield_ton_per_ha` holds the old `yield_ta_per_ha`
   * divided by 10 whenever the latter existed; every other kept column keeps its values.
   */
  lemma InitialCleaningValues(f: Frame, i: int, c: string)
    requires 0 <= i < |f.rows|
    ensures var r := InitialCleaning(f);
      && ("yield_ta_per_ha" in f.columns ==>
            "yield_ton_per_ha" in r.columns &&
            Get(r.rows[i], "yield_ton_per_ha") == Div10(Get(f.rows[i], "yield_ta_per_ha")))
      && (KeptByCleaning(c) && !(c == "yield_ton_per_ha" && "yield_ta_per_ha" in f.columns) ==>
            (c in r.columns <==> c in f.columns) && Get(r.rows[i], c) == Get(f.rows[i], c))
  {
    var f2 := DropProduction(DropGeo(f));
    NotGeoByFirstChar("yield_ta_per_ha");
    DropGeoAt(f, i, "yield_ta_per_ha");
    DropProductionAt(DropGeo(f), i, "yield_ta_per_ha");
    ConvertYieldAt(f2, i, c);
    if KeptByCleaning(c) {
      DropGeoAt(f, i, c);
      DropProductionAt(DropGeo(f), i, c);
    }
  }

  /** The two columns `log_transform` works on, in the order it visits them. */
  const LogColumns: seq<string> := ["yield_ton_per_ha", "area_thousand_ha"]

  function LogName(c: string): string
  {
    "log1p_" + c
  }

  /** `np.log1p(x.clip(lower=0))` for one cell, `log1p` being the library function. */
  function Log1pCell(c: Cell, log1p: real -> real): Cell
  {
    match AsNum(c)
    case Some(x) => Num(log1p(if x < 0.0 then 0.0 else x))
    case None => Missing
  }

  function AddLogColumn(f: Frame, c: string, log1p: real -> real): (r: Frame)
    ensures |r.rows| == |f.rows|
  {
    if c in f.columns then SetCol(f, LogName(c), MapCells(Column(f, c), x => Log1pCell(x, log1p))) else f
  }

  /** The in-place half of `log_transform`: a `log1p_` column for each present column of `cols`, in order. */
  function AddLogColumns(f: Frame, cols: seq<string>, log1p: real -> real): (r: Frame)
    ensures |r.rows| == |f.rows|
  {
    if cols == [] then f else AddLogColumn(AddLogColumns(f, cols[..|cols| - 1], log1p), cols[|cols| - 1], log1p)
  }

  /** The frame `log_transform` returns: the log columns added, then the present originals dropped. */
  function LogTransformed(f: Frame, log1p: real -> real): (r: Frame)
    ensures |r.rows| == |f.rows|
  {
    var g := AddLogColumns(f, LogColumns, log1p);
    Drop(g, set c | c in LogColumns && c in g.columns)
  }

  /**
   * `log_transform(df)`: adds the log columns to the caller's frame itself
   * (pandas column assignment), then returns a new frame without the originals.
   */
  method LogTransform(df: Table, log1p: real -> real) returns (r: Frame)
    modifies df
    ensures df.Value() == AddLogColumns(old(df.Value()), LogColumns, log1p)
    ensures r == LogTransformed(old(df.Value()), log1p)
  {
    for k := 0 to |LogColumns|
      invariant df.Value() == AddLogColumns(old(df.Value()), LogColumns[..k], log1p)
    {
      var col := LogColumns[k];
      assert LogColumns[..k + 1][..k] == LogColumns[..k];
      if col in df.columns {
        df.SetColumn(LogName(col), MapCells(Column(df.Value(), col), x => Log1pCell(x, log1p)));
      }
    }
    assert LogColumns[..|LogColumns|] == LogColumns;
    var g := df.Value();
    r := Drop(g, set c | c in LogColumns && c in g.columns);
  }

  lemma AddLogColumnAt(f: Frame, c: string, log1p: real -> real, i: int, d: string)
    requires 0 <= i < |f.rows|
    ensures var r := AddLogColumn(f, c, log1p);
      && (d in r.columns <==> d in f.columns || (c in f.columns && d == LogName(c)))
      && Get(r.rows[i], d) == if c in f.columns && d == LogName(c) then Log1pCell(Get(f.rows[i], c), log1p) else Get(f.rows[i], d)
  {
    if c in f.columns {
      SetColAt(f, LogName(c), MapCells(Column(f, c), x => Log1pCell(x, log1p)), i, d);
    }
  }

  /** The log-column names differ from each other and from both originals. */
  lemma LogNamesDistinct()
    ensures LogName(LogColumns[0]) != LogName(LogColumns[1])
    ensures forall c, d :: c in LogColumns && d in LogColumns ==> LogName(c) != d
  {
    assert LogName(LogColumns[0])[6] == 'y' && LogName(LogColumns[1])[6] == 'a';
    assert LogName(LogColumns[0])[0] == 'l' && LogName(LogColumns[1])[0] == 'l';
  }

  /** Which columns `log_transform` leaves: no original, a log column per present original, everything else as before. */
  lemma LogTransformColumns(f: Frame, log1p: real -> real, d: string)
    ensures var r := LogTransformed(f, log1p);
      && (d in LogColumns ==> d !in r.columns)
      && (d in LogColumns && d in f.columns ==> LogName(d) in r.columns)
      && (d !in LogColumns && d != LogName(LogColumns[0]) && d != LogName(LogColumns[1]) ==> (d in r.columns <==> d in f.columns))
      && (forall c :: c in LogColumns && c !in f.columns ==> (LogName(c) in r.columns <==> LogName(c) in f.columns))
  {
    LogNamesDistinct();
    var y, a := LogColumns[0], LogColumns[1];
    var g1 := AddLogColumns(f, [y], log1p);
    var g := AddLogColumns(f, LogColumns, log1p);
    assert [y][..|[y]| - 1] == [] && LogColumns[..|LogColumns| - 1] == [y];
    assert AddLogColumns(f, [], log1p) == f;
    assert g1 == AddLogColumn(AddLogColumns(f, [], log1p), y, log1p);
    assert g == AddLogColumn(g1, a, log1p);
    var present := set c | c in LogColumns && c in g.columns;
    var r := Drop(g, present);
    forall e | e in [d, y, a, LogName(y), LogName(a)]
      ensures e in g1.columns <==> e in f.columns || (y in f.columns && e == LogName(y))
      ensures e in g.columns <==> e in g1.columns || (a in g1.columns && e == LogName(a))
      ensures e in r.columns <==> e in g.columns && e !in present
    {
      if e in g1.columns && e !in f.columns {
        assert y in f.columns;
      }
      if e in g.columns && e !in g1.columns {
        assert a in g1.columns;
      }
      DropIn(g, present, e);
    }
  }

  /** Which values `log_transform` leaves: log1p of the clipped original in each new log column, everything else as before. */
  lemma LogTransformValues(f: Frame, log1p: real -> real, i: int, d: string)
    requires 0 <= i < |f.rows|
    ensures var r := LogTransformed(f, log1p);
      && (forall c :: c in LogColumns && c in f.columns ==> Get(r.rows[i], LogName(c)) == Log1pCell(Get(f.rows[i], c), log1p))
      && (forall c :: c in LogColumns && c !in f.columns ==> Get(r.rows[i], LogName(c)) == Get(f.rows[i], LogName(c)))
      && (d !in LogColumns && d != LogName(LogColumns[0]) && d != LogName(LogColumns[1]) ==> Get(r.rows[i], d) == Get(f.rows[i], d))
  {
    LogNamesDistinct();
    var y, a := LogColumns[0], LogColumns[1];
    var g1 := AddLogColumns(f, [y], log1p);
    var g := AddLogColumns(f, LogColumns, log1p);
    assert [y][..|[y]| - 1] == [] && LogColumns[..|LogColumns| - 1] == [y];
    assert AddLogColumns(f, [], log1p) == f;
    assert g1 == AddLogColumn(AddLogColumns(f, [], log1p), y, log1p);
    assert g == AddLogColumn(g1, a, log1p);
    var present := set c | c in LogColumns && c in g.columns;
    forall e | e in [d, y, a, LogName(y), LogName(a)]
      ensures Get(LogTransformed(f, log1p).rows[i], e) == if e in present then Missing else Get(g.rows[i], e)
      ensures Get(g.rows[i], e) == if a in g1.columns && e == LogName(a) then Log1pCell(Get(g1.rows[i], a), log1p) else Get(g1.rows[i], e)
      ensures Get(g1.rows[i], e) == if y in f.columns && e == LogName(y) then Log1pCell(Get(f.rows[i], y), log1p) else Get(f.rows[i], e)
      ensures e in g1.columns <==> e in f.columns || (y in f.columns && e == LogName(y))
    {
      AddLogColumnAt(f, y, log1p, i, e);
      AddLogColumnAt(g1, a, log1p, i, e);
      DropAt(g, present, i, e);
    }
  }

}
