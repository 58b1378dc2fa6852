/**
 * Row-wise domain features (`create_domain_features` in
 * backend/ml_engine/feature_engineering.py). The source assigns each new column
 * into the caller's frame in turn, and a missing climate column raises part-way,
 * leaving the columns assigned so far in place.
 */
module Domain {
  import opened Wrappers
  import opened Seqs
  import opened Frames

  /** The small constant added to the denominator of precipitation efficiency. */
  const Eps: real := 0.000001

  /** A soil measurement that has not been scaled already. */
  predicate IsRawSoil(c: string)
  {
    StartsWith(c, "soil_") && !Contains(c, "scaled")
  }

  function SoilColumns(f: Frame): seq<string>
  {
    Filter(f.columns, IsRawSoil)
  }

  /** Row mean of the raw soil columns, NaN for every row when there is none. */
  function SoilIndex(f: Frame): (v: seq<Cell>)
    ensures |v| == |f.rows|
  {
    var soil := SoilColumns(f);
    if soil != [] then seq(|f.rows|, i requires 0 <= i < |f.rows| => MeanOfPresent(RowCells(f.rows[i], soil)))
    else Constant(f, Missing)
  }

  /** The cells of `values` in the rows whose `keys` cell is `k` (pandas drops NaN keys from groups). */
  function CellsWithKey(values: seq<Cell>, keys: seq<Cell>, k: Cell): seq<Cell>
    requires |values| == |keys|
  {
    if values == [] then []
    else CellsWithKey(values[..|values| - 1], keys[..|keys| - 1], k)
         + (if keys[|keys| - 1] == k then [values[|values| - 1]] else [])
  }

  /** `df.groupby("province_name")["avg_temperature"].transform("mean")` for a province `p`. */
  function ProvinceMean(f: Frame, p: Cell): Cell
  {
    MeanOfPresent(CellsWithKey(Column(f, "avg_temperature"), Column(f, "province_name"), p))
  }

  function Anomalies(f: Frame): (v: seq<Cell>)
    ensures |v| == |f.rows|
  {
    seq(|f.rows|, i requires 0 <= i < |f.rows| =>
      var p := Get(f.rows[i], "province_name");
      if p == Missing then Missing else Sub(Get(f.rows[i], "avg_temperature"), ProvinceMean(f, p)))
  }

  function PlusEps(c: Cell): Cell
  {
    match AsNum(c)
    case Some(x) => Num(x + Eps)
    case None => Missing
  }

  /** `(max_temperature - 35).clip(lower=0)`. */
  function HeatStress(maxT: Cell): Cell
  {
    ClipLower(Sub(maxT, Num(35.0)), 0.0)
  }

  /** `(20 - min_temperature).clip(lower=0)`. */
  function ColdStress(minT: Cell): Cell
  {
    ClipLower(Sub(Num(20.0), minT), 0.0)
  }

  /** The first of `cols` that is not a column of `f` (the KeyError pandas raises). */
  function FirstAbsent(f: Frame, cols: seq<string>): Option<string>
  {
    if cols == [] then None
    else if cols[0] !in f.columns then Some(cols[0])
    else FirstAbsent(f, cols[1..])
  }

  /** The climate columns the features read, in the order the source first reads them. */
  const Required: seq<string> :=
    ["max_temperature", "min_temperature", "avg_temperature", "wet_bulb_temperature", "precipitation", "solar_radiation"]

  // The assignments of `create_domain_features`, one function per statement.

  function WithSoilIndex(f: Frame): Frame { SetCol(f, "soil_quality_index", SoilIndex(f)) }

  function WithTempRange(f: Frame): Frame
  {
    SetCol(f, "temp_range", Zip(Column(f, "max_temperature"), Column(f, "min_temperature"), Sub))
  }

  function WithHumidityDeficit(f: Frame): Frame
  {
    SetCol(f, "humidity_deficit", Zip(Column(f, "avg_temperature"), Column(f, "wet_bulb_temperature"), Sub))
  }

  function WithPrecipitationEfficiency(f: Frame): Frame
  {
    SetCol(f, "precipitation_efficiency", Zip(Column(f, "precipitation"), MapCells(Column(f, "avg_temperature"), PlusEps), Div))
  }

  function WithTempAnomaly(f: Frame): Frame
  {
    if "province_name" in f.columns then SetCol(f, "temp_anomaly", Anomalies(f)) else f
  }

  function WithSeasonLengthProxy(f: Frame): Frame
  {
    SetCol(f, "season_length_proxy", Zip(Column(f, "precipitation"), Column(f, "solar_radiation"), Mul))
  }

  function WithStress(f: Frame): Frame
  {
    var g := SetCol(f, "heat_stress", MapCells(Column(f, "max_temperature"), HeatStress));
    SetCol(g, "cold_stress", MapCells(Column(g, "min_temperature"), ColdStress))
  }

  function WithWetnessIndex(f: Frame): Frame
  {
    SetCol(f, "wetness_index", Zip(Column(f, "precipitation"), Column(f, "humidity_deficit"), Mul))
  }

  /** The frame the assignments leave behind, and the column whose absence stopped them (if any). */
  datatype DomainOutcome = DomainOutcome(frame: Frame, missing: Option<string>)

  /**
   * `create_domain_features(df)`. Infinities (division by zero) are already
   * missing in `Div`, so the final `replace` changes nothing here.
   */
  function DomainFeatures(f: Frame): DomainOutcome
  {
    var f1 := WithSoilIndex(f);
    if FirstAbsent(f1, Required[..2]).Some? then DomainOutcome(f1, FirstAbsent(f1, Required[..2])) else
    var f2 := WithTempRange(f1);
    if FirstAbsent(f2, Required[2..4]).Some? then DomainOutcome(f2, FirstAbsent(f2, Required[2..4])) else
    var f3 := WithHumidityDeficit(f2);
    if "precipitation" !in f3.columns then DomainOutcome(f3, Some("precipitation")) else
    var f5 := WithTempAnomaly(WithPrecipitationEfficiency(f3));
    if "solar_radiation" !in f5.columns then DomainOutcome(f5, Some("solar_radiation")) else
    DomainOutcome(WithWetnessIndex(WithStress(WithSeasonLengthProxy(f5))), None)
  }

  /** `create_domain_features(df)` on the caller's frame, one column assignment at a time. */
  method CreateDomainFeatures(df: Table) returns (missing: Option<string>)
    modifies df
    ensures df.Value() == DomainFeatures(old(df.Value())).frame
    ensures missing == DomainFeatures(old(df.Value())).missing
  {
    df.SetColumn("soil_quality_index", SoilIndex(df.Value()));
    missing := FirstAbsent(df.Value(), Required[..2]);
    if missing.Some? {
      return;
    }
    df.SetColumn("temp_range", Zip(Column(df.Value(), "max_temperature"), Column(df.Value(), "min_temperature"), Sub));
    missing := FirstAbsent(df.Value(), Required[2..4]);
    if missing.Some? {
      return;
    }
    df.SetColumn("humidity_deficit", Zip(Column(df.Value(), "avg_temperature"), Column(df.Value(), "wet_bulb_temperature"), Sub));
    if "precipitation" !in df.columns {
      missing := Some("precipitation");
      return;
    }
    df.SetColumn("precipitation_efficiency",
      Zip(Column(df.Value(), "precipitation"), MapCells(Column(df.Value(), "avg_temperature"), PlusEps), Div));
    if "province_name" in df.columns {
      df.SetColumn("temp_anomaly", Anomalies(df.Value()));
    }
    if "solar_radiation" !in df.columns {
      missing := Some("solar_radiation");
      return;
    }
    df.SetColumn("season_length_proxy", Zip(Column(df.Value(), "precipitation"), Column(df.Value(), "solar_radiation"), Mul));
    df.SetColumn("heat_stress", MapCells(Column(df.Value(), "max_temperature"), HeatStress));
    df.SetColumn("cold_stress", MapCells(Column(df.Value(), "min_temperature"), ColdStress));
    df.SetColumn("wetness_index", Zip(Column(df.Value(), "precipitation"), Column(df.Value(), "humidity_deficit"), Mul));
  }

  /** A frame whose columns agree with `f`'s on every name of `cols` reports the same first absent one. */
  lemma {:induction false} FirstAbsentSame(f: Frame, g: Frame, cols: seq<string>)
    requires forall c :: c in cols ==> (c in f.columns <==> c in g.columns)
    ensures FirstAbsent(f, cols) == FirstAbsent(g, cols)
  {
    if cols != [] {
      FirstAbsentSame(f, g, cols[1..]);
    }
  }

  lemma {:induction false} FirstAbsentSplit(f: Frame, cols: seq<string>, k: nat)
    requires k <= |cols|
    ensures FirstAbsent(f, cols) == if FirstAbsent(f, cols[..k]).Some? then FirstAbsent(f, cols[..k]) else FirstAbsent(f, cols[k..])
  {
    if k == 0 {
      assert cols[..0] == [] && cols[0..] == cols;
    } else {
      assert cols[..k][0] == cols[0];
      assert cols[..k][1..] == cols[1..][..k - 1];
      assert cols[1..][k - 1..] == cols[k..];
      FirstAbsentSplit(f, cols[1..], k - 1);
    }
  }

  /** `FirstAbsent` names a column of `cols` missing from `f`, the earliest one; it is `None` when all are present. */
  lemma {:induction false} FirstAbsentMeaning(f: Frame, cols: seq<string>)
    ensures FirstAbsent(f, cols).None? <==> forall c :: c in cols ==> c in f.columns
    ensures FirstAbsent(f, cols).Some? ==>
      exists k :: (0 <= k < |cols| && cols[k] == FirstAbsent(f, cols).value &&
                   cols[k] !in f.columns && forall j :: 0 <= j < k ==> cols[j] in f.columns)
  {
    if cols != [] && cols[0] in f.columns {
      FirstAbsentMeaning(f, cols[1..]);
      if FirstAbsent(f, cols).Some? {
        var k :| 0 <= k < |cols[1..]| && cols[1..][k] == FirstAbsent(f, cols).value
          && cols[1..][k] !in f.columns && forall j :: 0 <= j < k ==> cols[1..][j] in f.columns;
        assert cols[k + 1] == FirstAbsent(f, cols).value;
        assert forall j :: 0 <= j < k + 1 ==> cols[j] in f.columns by {
          forall j | 0 <= j < k + 1 ensures cols[j] in f.columns {
            if j > 0 { assert cols[j] == cols[1..][j - 1]; }
          }
        }
      } else {
        forall c | c in cols ensures c in f.columns {
          if c != cols[0] { assert c in cols[1..]; }
        }
      }
    } else if cols != [] {
      assert cols[0] == FirstAbsent(f, cols).value;
    }
  }

  /** The names the assignments create; none of them is a climate column. */
  const Created: set<string> := {"soil_quality_index", "temp_range", "humidity_deficit", "precipitation_efficiency",
    "temp_anomaly", "season_length_proxy", "heat_stress", "cold_stress", "wetness_index"}

  lemma RequiredNotCreated(c: string)
    requires c in Required
    ensures c !in Created
  {
  }

  // Each assignment leaves every column it does not create as it was.

  lemma SoilIndexKeeps(f: Frame, c: string)
    requires c != "soil_quality_index"
    ensures c in WithSoilIndex(f).columns <==> c in f.columns
    ensures Column(WithSoilIndex(f), c) == Column(f, c)
  {
    SetColOther(f, "soil_quality_index", SoilIndex(f), c);
  }

  lemma TempRangeKeeps(f: Frame, c: string)
    requires c != "temp_range"
    ensures c in WithTempRange(f).columns <==> c in f.columns
    ensures Column(WithTempRange(f), c) == Column(f, c)
  {
    SetColOther(f, "temp_range", Zip(Column(f, "max_temperature"), Column(f, "min_temperature"), Sub), c);
  }

  lemma HumidityDeficitKeeps(f: Frame, c: string)
    requires c != "humidity_deficit"
    ensures c in WithHumidityDeficit(f).columns <==> c in f.columns
    ensures Column(WithHumidityDeficit(f), c) == Column(f, c)
  {
    SetColOther(f, "humidity_deficit", Zip(Column(f, "avg_temperature"), Column(f, "wet_bulb_temperature"), Sub), c);
  }

  lemma EfficiencyKeeps(f: Frame, c: string)
    requires c != "precipitation_efficiency"
    ensures c in WithPrecipitationEfficiency(f).columns <==> c in f.columns
    ensures Column(WithPrecipitationEfficiency(f), c) == Column(f, c)
  {
    SetColOther(f, "precipitation_efficiency", Zip(Column(f, "precipitation"), MapCells(Column(f, "avg_temperature"), PlusEps), Div), c);
  }

  lemma AnomalyKeeps(f: Frame, c: string)
    requires c != "temp_anomaly"
    ensures c in WithTempAnomaly(f).columns <==> c in f.columns
    ensures Column(WithTempAnomaly(f), c) == Column(f, c)
  {
    if "province_name" in f.columns {
      SetColOther(f, "temp_anomaly", Anomalies(f), c);
    }
  }

  lemma SeasonLengthKeeps(f: Frame, c: string)
    requires c != "season_length_proxy"
    ensures c in WithSeasonLengthProxy(f).columns <==> c in f.columns
    ensures Column(WithSeasonLengthProxy(f), c) == Column(f, c)
  {
    SetColOther(f, "season_length_proxy", Zip(Column(f, "precipitation"), Column(f, "solar_radiation"), Mul), c);
  }

  lemma StressKeeps(f: Frame, c: string)
    requires c != "heat_stress" && c != "cold_stress"
    ensures c in WithStress(f).columns <==> c in f.columns
    ensures Column(WithStress(f), c) == Column(f, c)
  {
    var g := SetCol(f, "heat_stress", MapCells(Column(f, "max_temperature"), HeatStress));
    SetColOther(f, "heat_stress", MapCells(Column(f, "max_temperature"), HeatStress), c);
    SetColOther(g, "cold_stress", MapCells(Column(g, "min_temperature"), ColdStress), c);
  }

  lemma WetnessKeeps(f: Frame, c: string)
    requires c != "wetness_index"
    ensures c in WithWetnessIndex(f).columns <==> c in f.columns
    ensures Column(WithWetnessIndex(f), c) == Column(f, c)
  {
    SetColOther(f, "wetness_index", Zip(Column(f, "precipitation"), Column(f, "humidity_deficit"), Mul), c);
  }

  /** The order in which the assignments meet the climate columns. */
  lemma RequiredInStages(f: Frame)
    ensures FirstAbsent(f, Required) ==
      if FirstAbsent(f, Required[..2]).Some? then FirstAbsent(f, Required[..2])
      else if FirstAbsent(f, Required[2..4]).Some? then FirstAbsent(f, Required[2..4])
      else if "precipitation" !in f.columns then Some("precipitation")
      else if "solar_radiation" !in f.columns then Some("solar_radiation")
      else None
  {
    FirstAbsentSplit(f, Required, 2);
    FirstAbsentSplit(f, Required[2..], 2);
    assert Required[2..][..2] == Required[2..4];
    var last := Required[2..][2..];
    assert last == ["precipitation", "solar_radiation"];
    assert last[1..] == ["solar_radiation"] && last[1..][1..] == [];
    assert FirstAbsent(f, last[1..][1..]) == None;
    assert FirstAbsent(f, last[1..]) == if "solar_radiation" !in f.columns then Some("solar_radiation") else None;
    assert FirstAbsent(f, last) == if "precipitation" !in f.columns then Some("precipitation") else FirstAbsent(f, last[1..]);
  }

  /**
   * `create_domain_features` fails exactly when a climate column it reads is
   * absent, and names the first such column in the order the source reads them.
   */
  lemma DomainFeaturesMissing(f: Frame)
    ensures DomainFeatures(f).missing == FirstAbsent(f, Required)
  {
    var f1 := WithSoilIndex(f);
    var f2 := WithTempRange(f1);
    var f3 := WithHumidityDeficit(f2);
    var f5 := WithTempAnomaly(WithPrecipitationEfficiency(f3));
    forall c | c in Required
      ensures c in f1.columns <==> c in f.columns
      ensures c in f2.columns <==> c in f.columns
      ensures c in f3.columns <==> c in f.columns
      ensures c in f5.columns <==> c in f.columns
    {
      RequiredNotCreated(c);
      assert c != "soil_quality_index" && c != "temp_range" && c != "humidity_deficit" && c != "precipitation_efficiency" && c != "temp_anomaly";
      SoilIndexKeeps(f, c);
      TempRangeKeeps(f1, c);
      HumidityDeficitKeeps(f2, c);
      EfficiencyKeeps(f3, c);
      AnomalyKeeps(WithPrecipitationEfficiency(f3), c);
    }
    RequiredInStages(f);
    FirstAbsentSame(f, f1, Required[..2]);
    FirstAbsentSame(f, f2, Required[2..4]);
    assert "precipitation" in f3.columns <==> "precipitation" in f.columns;
    assert "solar_radiation" in f5.columns <==> "solar_radiation" in f.columns;
  }

  /** The frame after the assignments that precede the read of `solar_radiation`. */
  function BeforeSeason(f: Frame): Frame
  {
    WithTempAnomaly(WithPrecipitationEfficiency(WithHumidityDeficit(WithTempRange(WithSoilIndex(f)))))
  }

  lemma SuccessfulFrame(f: Frame)
    requires DomainFeatures(f).missing == None
    ensures DomainFeatures(f).frame == WithWetnessIndex(WithStress(WithSeasonLengthProxy(BeforeSeason(f))))
  {
  }

  /** On success every column the function does not create is left as it was. */
  lemma DomainKeepsOthers(f: Frame, c: string)
    requires DomainFeatures(f).missing == None
    requires c !in Created
    ensures c in DomainFeatures(f).frame.columns <==> c in f.columns
    ensures Column(DomainFeatures(f).frame, c) == Column(f, c)
  {
    SuccessfulFrame(f);
    var f1 := WithSoilIndex(f);
    var f2 := WithTempRange(f1);
    var f3 := WithHumidityDeficit(f2);
    var f4 := WithPrecipitationEfficiency(f3);
    var f5 := WithTempAnomaly(f4);
    var f6 := WithSeasonLengthProxy(f5);
    var f7 := WithStress(f6);
    SoilIndexKeeps(f, c);
    TempRangeKeeps(f1, c);
    HumidityDeficitKeeps(f2, c);
    EfficiencyKeeps(f3, c);
    AnomalyKeeps(f4, c);
    SeasonLengthKeeps(f5, c);
    StressKeeps(f6, c);
    WetnessKeeps(f7, c);
  }

  /** The climate columns reach every assignment unchanged. */
  lemma RequiredThroughStages(f: Frame, c: string)
    requires c in Required
    ensures var f1 := WithSoilIndex(f);
      var f2 := WithTempRange(f1);
      var f3 := WithHumidityDeficit(f2);
      var f5 := WithTempAnomaly(WithPrecipitationEfficiency(f3));
      && Column(f1, c) == Column(f, c) && Column(f2, c) == Column(f, c) && Column(f3, c) == Column(f, c)
      && Column(f5, c) == Column(f, c) && Column(WithSeasonLengthProxy(f5), c) == Column(f, c)
  {
    var f1 := WithSoilIndex(f);
    var f2 := WithTempRange(f1);
    var f3 := WithHumidityDeficit(f2);
    var f4 := WithPrecipitationEfficiency(f3);
    var f5 := WithTempAnomaly(f4);
    RequiredNotCreated(c);
    SoilIndexKeeps(f, c);
    TempRangeKeeps(f1, c);
    HumidityDeficitKeeps(f2, c);
    EfficiencyKeeps(f3, c);
    AnomalyKeeps(f4, c);
    SeasonLengthKeeps(f5, c);
  }

  lemma SoilIndexColumn(f: Frame)
    requires DomainFeatures(f).missing == None
    ensures Column(DomainFeatures(f).frame, "soil_quality_index") == SoilIndex(f)
  {
    SuccessfulFrame(f);
    var f1 := WithSoilIndex(f);
    var f2 := WithTempRange(f1);
    var f3 := WithHumidityDeficit(f2);
    var f4 := WithPrecipitationEfficiency(f3);
    var f5 := WithTempAnomaly(f4);
    var f6 := WithSeasonLengthProxy(f5);
    var f7 := WithStress(f6);
    var r := WithWetnessIndex(f7);
    SetColNew(f, "soil_quality_index", SoilIndex(f));
    TempRangeKeeps(f1, "soil_quality_index");
    HumidityDeficitKeeps(f2, "soil_quality_index");
    EfficiencyKeeps(f3, "soil_quality_index");
    AnomalyKeeps(f4, "soil_quality_index");
    SeasonLengthKeeps(f5, "soil_quality_index");
    StressKeeps(f6, "soil_quality_index");
    WetnessKeeps(f7, "soil_quality_index");
  }

  lemma TempRangeColumn(f: Frame)
    requires DomainFeatures(f).missing == None
    ensures Column(DomainFeatures(f).frame, "temp_range") == Zip(Column(f, "max_temperature"), Column(f, "min_temperature"), Sub)
  {
    SuccessfulFrame(f);
    var f1 := WithSoilIndex(f);
    var f2 := WithTempRange(f1);
    var f3 := WithHumidityDeficit(f2);
    var f4 := WithPrecipitationEfficiency(f3);
    var f5 := WithTempAnomaly(f4);
    var f6 := WithSeasonLengthProxy(f5);
    var f7 := WithStress(f6);
    var r := WithWetnessIndex(f7);
    RequiredThroughStages(f, "max_temperature");
    RequiredThroughStages(f, "min_temperature");
    SetColNew(f1, "temp_range", Zip(Column(f1, "max_temperature"), Column(f1, "min_temperature"), Sub));
    HumidityDeficitKeeps(f2, "temp_range");
    EfficiencyKeeps(f3, "temp_range");
    AnomalyKeeps(f4, "temp_range");
    SeasonLengthKeeps(f5, "temp_range");
    StressKeeps(f6, "temp_range");
    WetnessKeeps(f7, "temp_range");
  }

  lemma HumidityDeficitColumn(f: Frame)
    requires DomainFeatures(f).missing == None
    ensures Column(DomainFeatures(f).frame, "humidity_deficit") == Zip(Column(f, "avg_temperature"), Column(f, "wet_bulb_temperature"), Sub)
  {
    SuccessfulFrame(f);
    var f1 := WithSoilIndex(f);
    var f2 := WithTempRange(f1);
    var f3 := WithHumidityDeficit(f2);
    var f4 := WithPrecipitationEfficiency(f3);
    var f5 := WithTempAnomaly(f4);
    var f6 := WithSeasonLengthProxy(f5);
    var f7 := WithStress(f6);
    var r := WithWetnessIndex(f7);
    RequiredThroughStages(f, "avg_temperature");
    RequiredThroughStages(f, "wet_bulb_temperature");
    SetColNew(f2, "humidity_deficit", Zip(Column(f2, "avg_temperature"), Column(f2, "wet_bulb_temperature"), Sub));
    EfficiencyKeeps(f3, "humidity_deficit");
    AnomalyKeeps(f4, "humidity_deficit");
    SeasonLengthKeeps(f5, "humidity_deficit");
    StressKeeps(f6, "humidity_deficit");
    WetnessKeeps(f7, "humidity_deficit");
  }

  lemma EfficiencyColumn(f: Frame)
    requires DomainFeatures(f).missing == None
    ensures Column(DomainFeatures(f).frame, "precipitation_efficiency") == Zip(Column(f, "precipitation"), MapCells(Column(f, "avg_temperature"), PlusEps), Div)
  {
    SuccessfulFrame(f);
    var f1 := WithSoilIndex(f);
    var f2 := WithTempRange(f1);
    var f3 := WithHumidityDeficit(f2);
    var f4 := WithPrecipitationEfficiency(f3);
    var f5 := WithTempAnomaly(f4);
    var f6 := WithSeasonLengthProxy(f5);
    var f7 := WithStress(f6);
    var r := WithWetnessIndex(f7);
    RequiredThroughStages(f, "avg_temperature");
    RequiredThroughStages(f, "precipitation");
    SetColNew(f3, "precipitation_efficiency", Zip(Column(f3, "precipitation"), MapCells(Column(f3, "avg_temperature"), PlusEps), Div));
    AnomalyKeeps(f4, "precipitation_efficiency");
    SeasonLengthKeeps(f5, "precipitation_efficiency");
    StressKeeps(f6, "precipitation_efficiency");
    WetnessKeeps(f7, "precipitation_efficiency");
  }

  lemma SeasonLengthColumn(f: Frame)
    requires DomainFeatures(f).missing == None
    ensures Column(DomainFeatures(f).frame, "season_length_proxy") == Zip(Column(f, "precipitation"), Column(f, "solar_radiation"), Mul)
  {
    SuccessfulFrame(f);
    var f1 := WithSoilIndex(f);
    var f2 := WithTempRange(f1);
    var f3 := WithHumidityDeficit(f2);
    var f4 := WithPrecipitationEfficiency(f3);
    var f5 := WithTempAnomaly(f4);
    var f6 := WithSeasonLengthProxy(f5);
    var f7 := WithStress(f6);
    var r := WithWetnessIndex(f7);
    RequiredThroughStages(f, "precipitation");
    RequiredThroughStages(f, "solar_radiation");
    SetColNew(f5, "season_length_proxy", Zip(Column(f5, "precipitation"), Column(f5, "solar_radiation"), Mul));
    StressKeeps(f6, "season_length_proxy");
    WetnessKeeps(f7, "season_length_proxy");
  }

  lemma StressColumns(f: Frame)
    requires DomainFeatures(f).missing == None
    ensures Column(DomainFeatures(f).frame, "heat_stress") == MapCells(Column(f, "max_temperature"), HeatStress)
    ensures Column(DomainFeatures(f).frame, "cold_stress") == MapCells(Column(f, "min_temperature"), ColdStress)
  {
    SuccessfulFrame(f);
    var f1 := WithSoilIndex(f);
    var f2 := WithTempRange(f1);
    var f3 := WithHumidityDeficit(f2);
    var f4 := WithPrecipitationEfficiency(f3);
    var f5 := WithTempAnomaly(f4);
    var f6 := WithSeasonLengthProxy(f5);
    var f7 := WithStress(f6);
    var r := WithWetnessIndex(f7);
    RequiredThroughStages(f, "max_temperature");
    RequiredThroughStages(f, "min_temperature");
    var g := SetCol(f6, "heat_stress", MapCells(Column(f6, "max_temperature"), HeatStress));
    SetColOther(f6, "heat_stress", MapCells(Column(f6, "max_temperature"), HeatStress), "min_temperature");
    SetColNew(f6, "heat_stress", MapCells(Column(f6, "max_temperature"), HeatStress));
    SetColOther(g, "cold_stress", MapCells(Column(g, "min_temperature"), ColdStress), "heat_stress");
    SetColNew(g, "cold_stress", MapCells(Column(g, "min_temperature"), ColdStress));
    WetnessKeeps(f7, "heat_stress");
    WetnessKeeps(f7, "cold_stress");
  }

  lemma WetnessColumn(f: Frame)
    requires DomainFeatures(f).missing == None
    ensures Column(DomainFeatures(f).frame, "wetness_index") == Zip(Column(f, "precipitation"), Column(DomainFeatures(f).frame, "humidity_deficit"), Mul)
  {
    SuccessfulFrame(f);
    var f1 := WithSoilIndex(f);
    var f2 := WithTempRange(f1);
    var f3 := WithHumidityDeficit(f2);
    var f4 := WithPrecipitationEfficiency(f3);
    var f5 := WithTempAnomaly(f4);
    var f6 := WithSeasonLengthProxy(f5);
    var f7 := WithStress(f6);
    var r := WithWetnessIndex(f7);
    RequiredThroughStages(f, "precipitation");
    SetColNew(f7, "wetness_index", Zip(Column(f7, "precipitation"), Column(f7, "humidity_deficit"), Mul));
    StressKeeps(f6, "precipitation");
    StressKeeps(f6, "humidity_deficit");
    WetnessKeeps(f7, "humidity_deficit");
  }

  /**
   * Heat stress is the excess of the maximum temperature over 35 degrees and
   * cold stress the shortfall of the minimum below 20, both never negative and
   * missing exactly when the temperature is.
   */
  lemma DomainStress(f: Frame, i: int)
    requires DomainFeatures(f).missing == None
    requires 0 <= i < |f.rows|
    ensures var heat := Get(DomainFeatures(f).frame.rows[i], "heat_stress");
      var hi := AsNum(Get(f.rows[i], "max_temperature"));
      && (heat.Missing? <==> hi.None?)
      && (hi.Some? ==> heat.Num? && heat.x >= 0.0 && (heat.x == 0.0 <==> hi.value <= 35.0)
                       && (hi.value > 35.0 ==> heat.x == hi.value - 35.0))
    ensures var cold := Get(DomainFeatures(f).frame.rows[i], "cold_stress");
      var lo := AsNum(Get(f.rows[i], "min_temperature"));
      && (cold.Missing? <==> lo.None?)
      && (lo.Some? ==> cold.Num? && cold.x >= 0.0 && (cold.x == 0.0 <==> lo.value >= 20.0)
                       && (lo.value < 20.0 ==> cold.x == 20.0 - lo.value))
  {
    StressColumns(f);
    var r := DomainFeatures(f).frame;
    assert Get(r.rows[i], "heat_stress") == Column(r, "heat_stress")[i];
    assert Get(r.rows[i], "cold_stress") == Column(r, "cold_stress")[i];
  }

  /**
   * The collected cells are the cells of the rows whose key is `k`, each
   * once and in row order: `idx` lists those rows, strictly increasing, and
   * every row with key `k` is among them. So the province mean counts every
   * matching row, duplicates of a value included.
   */
  lemma {:induction false} CellsWithKeyMeaning(values: seq<Cell>, keys: seq<Cell>, k: Cell) returns (idx: seq<nat>)
    requires |values| == |keys|
    ensures |idx| == |CellsWithKey(values, keys, k)|
    ensures forall t :: 0 <= t < |idx| ==>
      idx[t] < |keys| && keys[idx[t]] == k && CellsWithKey(values, keys, k)[t] == values[idx[t]]
    ensures forall t, u :: 0 <= t < u < |idx| ==> idx[t] < idx[u]
    ensures forall j :: 0 <= j < |keys| && keys[j] == k ==> j in idx
  {
    if values == [] {
      idx := [];
    } else {
      var n := |values| - 1;
      var prev := CellsWithKeyMeaning(values[..n], keys[..n], k);
      var before := CellsWithKey(values[..n], keys[..n], k);
      var all := CellsWithKey(values, keys, k);
      assert all == before + (if keys[n] == k then [values[n]] else []);
      forall t | 0 <= t < |prev|
        ensures prev[t] < n && keys[prev[t]] == k && all[t] == values[prev[t]]
      {
        assert keys[..n][prev[t]] == keys[prev[t]] && values[..n][prev[t]] == values[prev[t]];
      }
      if keys[n] == k {
        idx := prev + [n];
        assert all[|prev|] == values[n];
      } else {
        idx := prev;
      }
      forall j | 0 <= j < |keys| && keys[j] == k
        ensures j in idx
      {
        if j < n {
          assert keys[..n][j] == k;
          assert j in prev;
        }
      }
    }
  }

  lemma AnomaliesFromColumns(f: Frame, g: Frame)
    requires |f.rows| == |g.rows|
    requires Column(f, "avg_temperature") == Column(g, "avg_temperature")
    requires Column(f, "province_name") == Column(g, "province_name")
    ensures Anomalies(f) == Anomalies(g)
  {
    forall i | 0 <= i < |f.rows|
      ensures Anomalies(f)[i] == Anomalies(g)[i]
    {
      assert Get(f.rows[i], "province_name") == Column(f, "province_name")[i];
      assert Get(g.rows[i], "province_name") == Column(g, "province_name")[i];
      assert Get(f.rows[i], "avg_temperature") == Column(f, "avg_temperature")[i];
      assert Get(g.rows[i], "avg_temperature") == Column(g, "avg_temperature")[i];
    }
  }

  /**
   * The temperature anomaly is created exactly when the frame has a province
   * column; a row's anomaly is its average temperature minus the mean over the
   * rows of its province, and missing for a row without a province.
   */
  lemma DomainTempAnomaly(f: Frame, i: int)
    requires DomainFeatures(f).missing == None
    requires 0 <= i < |f.rows|
    ensures "temp_anomaly" in DomainFeatures(f).frame.columns <==>
      "province_name" in f.columns || "temp_anomaly" in f.columns
    ensures "province_name" in f.columns ==>
      var p := Get(f.rows[i], "province_name");
      Get(DomainFeatures(f).frame.rows[i], "temp_anomaly") ==
        if p.Missing? then Missing else Sub(Get(f.rows[i], "avg_temperature"), ProvinceMean(f, p))
  {
    SuccessfulFrame(f);
    var f1 := WithSoilIndex(f);
    var f2 := WithTempRange(f1);
    var f3 := WithHumidityDeficit(f2);
    var f4 := WithPrecipitationEfficiency(f3);
    var f5 := WithTempAnomaly(f4);
    var f6 := WithSeasonLengthProxy(f5);
    var f7 := WithStress(f6);
    var r := WithWetnessIndex(f7);
    RequiredThroughStages(f, "avg_temperature");
    SoilIndexKeeps(f, "province_name");
    TempRangeKeeps(f1, "province_name");
    HumidityDeficitKeeps(f2, "province_name");
    EfficiencyKeeps(f3, "province_name");
    EfficiencyKeeps(f3, "avg_temperature");
    SoilIndexKeeps(f, "temp_anomaly");
    TempRangeKeeps(f1, "temp_anomaly");
    HumidityDeficitKeeps(f2, "temp_anomaly");
    EfficiencyKeeps(f3, "temp_anomaly");
    SeasonLengthKeeps(f5, "temp_anomaly");
    StressKeeps(f6, "temp_anomaly");
    WetnessKeeps(f7, "temp_anomaly");
    if "province_name" in f.columns {
      AnomaliesFromColumns(f4, f);
      SetColNew(f4, "temp_anomaly", Anomalies(f4));
      assert Get(r.rows[i], "temp_anomaly") == Column(r, "temp_anomaly")[i];
    }
  }
}
