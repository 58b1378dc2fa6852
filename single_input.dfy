/**
 * `process_single_input` in backend/ml_engine/feature_engineering.py: the
 * input observation is appended to the history, the whole table goes through
 * the feature steps, and the one row tagged as the input is taken back out.
 */
module SingleInput {
  import opened Wrappers
  import opened Seqs
  import opened Frames
  import opened Cleaning
  import opened Domain
  import opened Temporal
  import opened Config

  /** `pd.DataFrame([input_data])`: one row, with the dictionary's keys as columns. */
  function InputFrame(fields: seq<string>, input: Row): Frame
  {
    Frame(fields, [input])
  }

  /** `historical_df['is_input'] = False`. */
  function TagHistory(hist: Frame): Frame
  {
    SetCol(hist, "is_input", Constant(hist, Flag(false)))
  }

  /** The history followed by the tagged input row. */
  function Combined(fields: seq<string>, input: Row, hist: Frame): (r: Frame)
    ensures |r.rows| == |hist.rows| + 1
  {
    Concat(TagHistory(hist), SetCol(InputFrame(fields, input), "is_input", [Flag(true)]))
  }

  /** The test `combined_df['is_input'] == True`, as a value that filters can share. */
  function IsInputRow(): Row -> bool
  {
    r => Get(r, "is_input") == Flag(true)
  }

  /** Keeps the tagged rows and drops the tag. */
  function ExtractInput(t: Frame): Frame
  {
    Drop(Frame(t.columns, Filter(t.rows, IsInputRow())), {"is_input"})
  }

  /** The combined frame after cleaning, the log transform and the domain features. */
  function DomainStep(fields: seq<string>, input: Row, hist: Frame, log1p: real -> real): DomainOutcome
  {
    DomainFeatures(LogTransformed(InitialCleaning(Combined(fields, input, hist)), log1p))
  }

  /**
   * The whole function. A missing climate column stops it with that column's
   * name (pandas' `KeyError`); the temporal step's errors pass through. A
   * boolean column is never numeric, so the tag is not a base column.
   */
  function SingleInputFeatures(fields: seq<string>, input: Row, hist: Frame, numeric: set<string>, log1p: real -> real)
    : Result<Frame, string>
  {
    var domain := DomainStep(fields, input, hist, log1p);
    if domain.missing.Some? then Err(domain.missing.value)
    else
      match TemporalFeatures(domain.frame, numeric - {"is_input"})
      case Err(e) => Err(e)
      case Ok(t) => Ok(ExtractInput(t))
  }

  /**
   * `process_single_input(input_data, historical_df)`. The tag column stays in
   * the caller's history afterwards; the combined frame is local.
   */
  method ProcessSingleInput(fields: seq<string>, input: Row, hist: Table, numeric: set<string>, log1p: real -> real)
    returns (r: Result<Frame, string>)
    modifies hist
    ensures hist.Value() == TagHistory(old(hist.Value()))
    ensures r == SingleInputFeatures(fields, input, old(hist.Value()), numeric, log1p)
  {
    var tagged := SetCol(InputFrame(fields, input), "is_input", [Flag(true)]);
    hist.SetColumn("is_input", Constant(hist.Value(), Flag(false)));
    var combined := new Table(InitialCleaning(Concat(hist.Value(), tagged)));
    var logged := LogTransform(combined, log1p);
    var work := new Table(logged);
    var missing := CreateDomainFeatures(work);
    if missing.Some? {
      return Err(missing.value);
    }
    var temporal := CreateTemporalFeatures(work.Value(), numeric - {"is_input"});
    if temporal.Err? {
      return Err(temporal.error);
    }
    r := Ok(ExtractInput(temporal.value));
  }

  /**
   * What a call leaves in the caller's history: the same rows, each with an
   * `is_input` cell set to False, and nothing else changed; no row is appended.
   */
  lemma HistoryAfterCall(hist: Frame, i: nat, c: string)
    requires i < |hist.rows|
    ensures |TagHistory(hist).rows| == |hist.rows|
    ensures c in TagHistory(hist).columns <==> c in hist.columns || c == "is_input"
    ensures Get(TagHistory(hist).rows[i], c) == if c == "is_input" then Flag(false) else Get(hist.rows[i], c)
  {
    SetColAt(hist, "is_input", Constant(hist, Flag(false)), i, c);
  }

  /** A column no step creates, rewrites or drops: only its rows' order can change. */
  predicate Untouched(c: string)
  {
    && KeptByCleaning(c) && c !in LogColumns
    && c != LogName(LogColumns[0]) && c != LogName(LogColumns[1])
    && c !in Created
    && (c == [] || c[|c| - 1] !in Digits)
  }

  lemma FeatureNameEndsInDigit(col: string, kind: Kind, w: nat)
    ensures var n := FeatureName(col, kind, w); n != [] && n[|n| - 1] in Digits
  {
    var d := NatToString(w);
    assert FeatureName(col, kind, w)[|FeatureName(col, kind, w)| - 1] == d[|d| - 1];
  }

  lemma TagUntouched()
    ensures Untouched("is_input")
  {
    NotGeoByFirstChar("is_input");
  }

  /** The tag marks exactly the last row of the combined frame, which holds the input's cells. */
  lemma CombinedRows(fields: seq<string>, input: Row, hist: Frame, i: nat, c: string)
    requires i <= |hist.rows|
    ensures var row := Combined(fields, input, hist).rows[i];
      && Get(row, "is_input") == Flag(i == |hist.rows|)
      && (i == |hist.rows| && c != "is_input" ==> Get(row, c) == Get(input, c))
  {
    var h := TagHistory(hist);
    var tagged := SetCol(InputFrame(fields, input), "is_input", [Flag(true)]);
    if i < |hist.rows| {
      SetColAt(hist, "is_input", Constant(hist, Flag(false)), i, "is_input");
      assert Combined(fields, input, hist).rows[i] == h.rows[i];
    } else {
      SetColAt(InputFrame(fields, input), "is_input", [Flag(true)], 0, c);
      SetColAt(InputFrame(fields, input), "is_input", [Flag(true)], 0, "is_input");
      assert Combined(fields, input, hist).rows[i] == tagged.rows[0];
    }
  }

  /** Through cleaning, the log transform and the domain features an untouched column keeps its cells. */
  lemma UntouchedThroughDomain(fields: seq<string>, input: Row, hist: Frame, log1p: real -> real, c: string, i: nat)
    requires Untouched(c)
    requires DomainStep(fields, input, hist, log1p).missing == None
    requires i <= |hist.rows|
    ensures |DomainStep(fields, input, hist, log1p).frame.rows| == |hist.rows| + 1
    ensures Get(DomainStep(fields, input, hist, log1p).frame.rows[i], c) == Get(Combined(fields, input, hist).rows[i], c)
  {
    var comb := Combined(fields, input, hist);
    var c1 := InitialCleaning(comb);
    var c2 := LogTransformed(c1, log1p);
    var d := DomainStep(fields, input, hist, log1p).frame;
    InitialCleaningValues(comb, i, c);
    LogTransformValues(c1, log1p, i, c);
    DomainKeepsOthers(c2, c);
    assert Get(d.rows[i], c) == Column(d, c)[i];
    assert Get(c2.rows[i], c) == Column(c2, c)[i];
  }

  /** After the sort exactly one row carries the tag, and it is the combined frame's last row. */
  lemma TaggedRowAfterSort(d: Frame, numeric': set<string>, n: nat) returns (k: nat)
    requires TemporalFeatures(d, numeric').Ok?
    requires |d.rows| == n + 1
    requires forall i :: 0 <= i <= n ==> Get(d.rows[i], "is_input") == Flag(i == n)
    requires "is_input" !in numeric'
    ensures var t := TemporalFeatures(d, numeric').value;
      && k < |t.rows| && SortedFrame(d, PresentKeys(d)).rows[k] == d.rows[n]
      && Filter(t.rows, IsInputRow()) == [t.rows[k]]
  {
    var t := TemporalFeatures(d, numeric').value;
    var s := SortedFrame(d, PresentKeys(d)).rows;
    TemporalRowsSorted(d, numeric');
    k := UniqueAfterPermutation(d.rows, s, IsInputRow(), n);
    forall col: string, kind: Kind, w: nat | BaseColumn(d, numeric', col) && w in Windows
      ensures FeatureName(col, kind, w) != "is_input"
    {
      FeatureNameEndsInDigit(col, kind, w);
    }
    forall i | 0 <= i < |t.rows|
      ensures Get(t.rows[i], "is_input") == Get(s[i], "is_input")
    {
      TemporalKeepsOthers(d, numeric', "is_input", i);
    }
    FilterSingle(t.rows, IsInputRow(), k);
  }

  /** Before the temporal step the tag still marks exactly the last row. */
  lemma TagBeforeTemporal(fields: seq<string>, input: Row, hist: Frame, log1p: real -> real)
    requires DomainStep(fields, input, hist, log1p).missing == None
    ensures var d := DomainStep(fields, input, hist, log1p).frame;
      && |d.rows| == |hist.rows| + 1
      && forall i :: 0 <= i <= |hist.rows| ==> Get(d.rows[i], "is_input") == Flag(i == |hist.rows|)
  {
    TagUntouched();
    UntouchedThroughDomain(fields, input, hist, log1p, "is_input", 0);
    forall i | 0 <= i <= |hist.rows|
      ensures Get(DomainStep(fields, input, hist, log1p).frame.rows[i], "is_input") == Flag(i == |hist.rows|)
    {
      UntouchedThroughDomain(fields, input, hist, log1p, "is_input", i);
      CombinedRows(fields, input, hist, i, "is_input");
    }
  }

  /** On success both steps succeeded, and the result is the tagged rows of the temporal step. */
  lemma SuccessSteps(fields: seq<string>, input: Row, hist: Frame, numeric: set<string>, log1p: real -> real)
    requires SingleInputFeatures(fields, input, hist, numeric, log1p).Ok?
    ensures DomainStep(fields, input, hist, log1p).missing == None
    ensures TemporalFeatures(DomainStep(fields, input, hist, log1p).frame, numeric - {"is_input"}).Ok?
    ensures SingleInputFeatures(fields, input, hist, numeric, log1p).value ==
      ExtractInput(TemporalFeatures(DomainStep(fields, input, hist, log1p).frame, numeric - {"is_input"}).value)
  {
  }

  /** `ExtractInput` keeps the one tagged row, without the tag. */
  lemma ExtractTagged(t: Frame, k: nat)
    requires k < |t.rows| && Filter(t.rows, IsInputRow()) == [t.rows[k]]
    ensures ExtractInput(t).rows == [t.rows[k] - {"is_input"}]
    ensures "is_input" !in ExtractInput(t).columns
  {
    FilterIn(t.columns, NotIn({"is_input"}), "is_input");
  }

  /** `process_single_input` returns exactly one row, without the tag column. */
  lemma SingleInputOneRow(fields: seq<string>, input: Row, hist: Frame, numeric: set<string>, log1p: real -> real)
    requires SingleInputFeatures(fields, input, hist, numeric, log1p).Ok?
    ensures var r := SingleInputFeatures(fields, input, hist, numeric, log1p).value;
      |r.rows| == 1 && "is_input" !in r.columns
  {
    SuccessSteps(fields, input, hist, numeric, log1p);
    TagBeforeTemporal(fields, input, hist, log1p);
    var d := DomainStep(fields, input, hist, log1p).frame;
    var k := TaggedRowAfterSort(d, numeric - {"is_input"}, |hist.rows|);
    ExtractTagged(TemporalFeatures(d, numeric - {"is_input"}).value, k);
  }

  /** The temporal step leaves every cell of a column whose name does not end in a digit in place. */
  lemma TemporalKeepsUndigited(d: Frame, numeric': set<string>, c: string, k: nat)
    requires TemporalFeatures(d, numeric').Ok? && k < |d.rows|
    requires c == [] || c[|c| - 1] !in Digits
    ensures Get(TemporalFeatures(d, numeric').value.rows[k], c) == Get(SortedFrame(d, PresentKeys(d)).rows[k], c)
  {
    forall col: string, kind: Kind, w: nat | BaseColumn(d, numeric', col) && w in Windows
      ensures FeatureName(col, kind, w) != c
    {
      FeatureNameEndsInDigit(col, kind, w);
    }
    TemporalKeepsOthers(d, numeric', c, k);
  }

  /** The input's cells reach the last row of the frame the temporal step receives. */
  lemma InputCellsBeforeTemporal(fields: seq<string>, input: Row, hist: Frame, log1p: real -> real, c: string)
    requires DomainStep(fields, input, hist, log1p).missing == None
    requires Untouched(c) && c != "is_input"
    ensures |DomainStep(fields, input, hist, log1p).frame.rows| == |hist.rows| + 1
    ensures Get(DomainStep(fields, input, hist, log1p).frame.rows[|hist.rows|], c) == Get(input, c)
  {
    UntouchedThroughDomain(fields, input, hist, log1p, c, |hist.rows|);
    CombinedRows(fields, input, hist, |hist.rows|, c);
  }

  /**
   * The returned row is the input's own: `year`, the group keys and every
   * other column no step rewrites hold the input's cells, wherever the sort
   * placed the input among the history.
   */
  lemma SingleInputKeepsInput(fields: seq<string>, input: Row, hist: Frame, numeric: set<string>, log1p: real -> real, c: string)
    requires SingleInputFeatures(fields, input, hist, numeric, log1p).Ok?
    requires Untouched(c) && c != "is_input"
    ensures var r := SingleInputFeatures(fields, input, hist, numeric, log1p).value;
      |r.rows| == 1 && Get(r.rows[0], c) == Get(input, c)
  {
    SuccessSteps(fields, input, hist, numeric, log1p);
    TagBeforeTemporal(fields, input, hist, log1p);
    var d := DomainStep(fields, input, hist, log1p).frame;
    var t := TemporalFeatures(d, numeric - {"is_input"}).value;
    var k := TaggedRowAfterSort(d, numeric - {"is_input"}, |hist.rows|);
    ExtractTagged(t, k);
    TemporalKeepsUndigited(d, numeric - {"is_input"}, c, k);
    InputCellsBeforeTemporal(fields, input, hist, log1p, c);
  }

  /** The tagged row's features, read from the frame that `ExtractInput` returns. */
  lemma TaggedFeatureValue(d: Frame, numeric': set<string>, n: nat, c: string, kind: Kind, w: nat) returns (k: nat)
    requires TemporalFeatures(d, numeric').Ok?
    requires |d.rows| == n + 1
    requires forall i :: 0 <= i <= n ==> Get(d.rows[i], "is_input") == Flag(i == n)
    requires "is_input" !in numeric'
    requires BaseColumn(d, numeric', c) && w in Windows
    ensures var s := SortedFrame(d, PresentKeys(d)).rows;
      var r := ExtractInput(TemporalFeatures(d, numeric').value);
      && k < |s| && s[k] == d.rows[n] && |r.rows| == 1
      && Get(r.rows[0], FeatureName(c, kind, w)) ==
           if InSomeGroup(s[k], PresentKeys(d)) then FromPrior(kind, Prior(s, PresentKeys(d), k, c), w) else Missing
  {
    var t := TemporalFeatures(d, numeric').value;
    k := TaggedRowAfterSort(d, numeric', n);
    ExtractTagged(t, k);
    FeatureNameEndsInDigit(c, kind, w);
    TemporalFeatureValues(d, numeric', c, kind, w, k);
  }

  /**
   * The returned row's lag, mean and delta features are those of the input's
   * position `k` in the sorted combined frame: they are computed from the
   * values of the rows sorted before it in its group, and from nothing else.
   */
  lemma SingleInputFeatureValue(fields: seq<string>, input: Row, hist: Frame, numeric: set<string>, log1p: real -> real,
                                c: string, kind: Kind, w: nat) returns (k: nat)
    requires SingleInputFeatures(fields, input, hist, numeric, log1p).Ok?
    requires BaseColumn(DomainStep(fields, input, hist, log1p).frame, numeric - {"is_input"}, c) && w in Windows
    ensures var d := DomainStep(fields, input, hist, log1p).frame;
      var s := SortedFrame(d, PresentKeys(d)).rows;
      var r := SingleInputFeatures(fields, input, hist, numeric, log1p).value;
      && |d.rows| == |hist.rows| + 1 && k < |s| && s[k] == d.rows[|hist.rows|]
      && |r.rows| == 1
      && Get(r.rows[0], FeatureName(c, kind, w)) ==
           if InSomeGroup(s[k], PresentKeys(d)) then FromPrior(kind, Prior(s, PresentKeys(d), k, c), w) else Missing
  {
    SuccessSteps(fields, input, hist, numeric, log1p);
    TagBeforeTemporal(fields, input, hist, log1p);
    k := TaggedFeatureValue(DomainStep(fields, input, hist, log1p).frame, numeric - {"is_input"}, |hist.rows|, c, kind, w);
  }
}
