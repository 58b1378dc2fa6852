/**
 * The `Predictor` of backend/ml_engine/pipeline.py: it holds the history,
 * the optional preprocessor and the model bank, and turns one input
 * observation into a yield and a production estimate.
 *
 * Files are abstract: each resource is absent, present but unreadable (its
 * loader raises), or present with the value its loader returns. The
 * preprocessor, the regressors, `log1p` and `expm1` are opaque functions.
 */
module Pipeline {
  import opened Wrappers
  import opened Seqs
  import opened Frames
  import opened Config
  import opened SingleInput
  import opened ModelBank
  import opened Ensemble

  /** A fitted preprocessor: `transform` followed by the frame built with `get_feature_names_out()`; `None` when it raises. */
  datatype Preprocessor = Preprocessor(transform: Frame -> Option<Matrix>)

  /** A file the pipeline may load. */
  datatype Resource<T> = Absent | Unreadable | Present(value: T)

  /** What the pipeline's environment supplies: the files and the loaders that read them. */
  datatype Resources = Resources(
    data: Resource<Frame>, prep: Resource<Preprocessor>,
    files: seq<ModelFile>, load: string -> Option<Regressor>, loadCat: string -> Option<Regressor>)

  /** The numeric pieces taken as given: which columns pandas infers as numeric, and `np.log1p` / `np.expm1`. */
  datatype Numerics = Numerics(numeric: set<string>, log1p: real -> real, expm1: real -> real)

  /**
   * `input_data`: `fields` are the dictionary's keys in insertion order (so
   * distinct, and exactly the keys of `input`), and `input` maps each key to
   * its value. `pd.DataFrame([input_data])` takes its columns from `fields`.
   */
  datatype Request = Request(fields: seq<string>, input: Row)

  /** The returned dictionary; `production` is `None` when the area is NaN. */
  datatype Prediction = Prediction(yieldTonPerHa: real, productionTonnes: Option<real>)

  const NoHistory: string := "Historical data not loaded."
  const DataUnreadable: string := "historical data could not be read"
  const PreprocessorUnreadable: string := "preprocessor could not be read"
  const PreprocessingFailed: string := "preprocessing failed"
  const ShapeError: string := "prediction arrays differ in length"
  const EmptyPrediction: string := "index 0 is out of bounds"
  const AreaTypeError: string := "unsupported operand type for area"

  /** The data the models receive: the engineered row as is, or the preprocessor's output. */
  function ModelInput(processed: Frame, prep: Option<Preprocessor>): (r: Result<Matrix, string>)
    ensures r.Ok? ==> WellFormed(r.value)
  {
    if prep.None? then Ok(ToMatrix(processed))
    else match prep.value.transform(processed)
      case None => Err(PreprocessingFailed)
      case Some(m) => if WellFormed(m) then Ok(m) else Err(PreprocessingFailed)
  }

  /** The test "this model scored the data", as a value that filters can share. */
  function Scored(models: map<string, Regressor>, x: Matrix): string -> bool
    requires WellFormed(x)
  {
    n => n in models && PredictSingleModel(models[n], x, n).Some?
  }

  /** `model_preds` after the loop over the bank, in the bank's load order. */
  function Scores(models: map<string, Regressor>, x: Matrix, names: seq<string>): seq<(string, seq<real>)>
    requires WellFormed(x)
  {
    if names == [] then []
    else
      var prev := Scores(models, x, names[..|names| - 1]);
      var n := names[|names| - 1];
      if n in models && PredictSingleModel(models[n], x, n).Some? then prev + [(n, PredictSingleModel(models[n], x, n).value)]
      else prev
  }

  /** The names of the models that produced a prediction. */
  function Names(preds: seq<(string, seq<real>)>): (ns: seq<string>)
    ensures |ns| == |preds| && forall i :: 0 <= i < |preds| ==> ns[i] == preds[i].0
  {
    seq(|preds|, i requires 0 <= i < |preds| => preds[i].0)
  }

  /** `input_data.get('area_thousand_ha', 0)` times the yield, times 1000. */
  function Production(yieldTonPerHa: real, input: Row): Result<Option<real>, string>
  {
    if "area_thousand_ha" !in input then Ok(Some(0.0))
    else match input["area_thousand_ha"]
      case Num(a) => Ok(Some(yieldTonPerHa * a * 1000.0))
      case Flag(b) => Ok(Some(if b then yieldTonPerHa * 1000.0 else 0.0))
      case Missing => Ok(None)
      case Text(_) => Err(AreaTypeError)
  }

  /** From the models' predictions to the returned dictionary. */
  function Finish(preds: seq<(string, seq<real>)>, input: Row, expm1: real -> real): Result<Option<Prediction>, string>
  {
    if preds == [] then Ok(None)
    else
      var e := EnsemblePredict(preds);
      if !e.Averaged? then Err(ShapeError)
      else if e.values == [] then Err(EmptyPrediction)
      else
        var y := expm1(e.values[0]);
        match Production(y, input)
        case Err(msg) => Err(msg)
        case Ok(p) => Ok(Some(Prediction(y, p)))
  }

  /** `predict(input_data)` on a predictor holding `hist`, `prep` and `models`. */
  function PredictFrom(hist: Option<Frame>, prep: Option<Preprocessor>, models: map<string, Regressor>,
                       req: Request, num: Numerics): Result<Option<Prediction>, string>
  {
    if hist.None? then Err(NoHistory)
    else match SingleInputFeatures(req.fields, req.input, hist.value, num.numeric, num.log1p)
      case Err(e) => Err(e)
      case Ok(processed) =>
        match ModelInput(processed, prep)
        case Err(e) => Err(e)
        case Ok(x) => Finish(Scores(models, x, ModelNames), req.input, num.expm1)
  }

  class Predictor {
    var historical: Table?
    var preprocessor: Option<Preprocessor>
    var models: map<string, Regressor>

    /** `Predictor()`: nothing loaded. */
    constructor ()
      ensures historical == null && preprocessor == None && models == map[]
    {
      historical := null;
      preprocessor := None;
      models := map[];
    }

    /**
     * `load_resources()`. A missing file leaves its field as it was; a file
     * whose loader raises stops the call there, with the fields set so far.
     */
    method LoadResources(res: Resources) returns (err: Option<string>)
      modifies this
      ensures res.data.Unreadable? ==>
        err == Some(DataUnreadable) && historical == old(historical) && preprocessor == old(preprocessor) && models == old(models)
      ensures res.data.Present? ==> historical != null && fresh(historical) && historical.Value() == res.data.value
      ensures res.data.Absent? ==> historical == old(historical)
      ensures !res.data.Unreadable? && res.prep.Unreadable? ==>
        err == Some(PreprocessorUnreadable) && preprocessor == old(preprocessor) && models == old(models)
      ensures !res.data.Unreadable? && !res.prep.Unreadable? ==>
        && err == None
        && preprocessor == (if res.prep.Present? then Some(res.prep.value) else old(preprocessor))
        && models == LoadedBank(res.files, res.load, res.loadCat)
    {
      match res.data {
        case Unreadable => return Some(DataUnreadable);
        case Present(f) => historical := new Table(f);
        case Absent =>
      }
      match res.prep {
        case Unreadable => return Some(PreprocessorUnreadable);
        case Present(p) => preprocessor := Some(p);
        case Absent =>
      }
      models := LoadModels(res.files, res.load, res.loadCat);
      err := None;
    }

    /**
     * `predict(input_data)`. The engineered row goes to every loaded model in
     * load order; a model whose prediction raises is skipped.
     */
    method Predict(req: Request, num: Numerics) returns (r: Result<Option<Prediction>, string>)
      modifies historical
      ensures historical == old(historical) && preprocessor == old(preprocessor) && models == old(models)
      ensures historical != null ==> historical.Value() == TagHistory(old(historical.Value()))
      ensures r == PredictFrom(if historical == null then None else Some(old(historical.Value())), preprocessor, models, req, num)
    {
      if historical == null {
        return Err(NoHistory);
      }
      var processed := ProcessSingleInput(req.fields, req.input, historical, num.numeric, num.log1p);
      if processed.Err? {
        return Err(processed.error);
      }
      var scaled := ModelInput(processed.value, preprocessor);
      if scaled.Err? {
        return Err(scaled.error);
      }
      var preds := ScoreModels(models, scaled.value);
      r := Finish(preds, req.input, num.expm1);
    }
  }

  /** The loop of `predict` over the bank: each model in load order, a failing one skipped. */
  method ScoreModels(models: map<string, Regressor>, x: Matrix) returns (preds: seq<(string, seq<real>)>)
    requires WellFormed(x)
    ensures preds == Scores(models, x, ModelNames)
  {
    preds := [];
    for i := 0 to |ModelNames|
      invariant preds == Scores(models, x, ModelNames[..i])
    {
      var name := ModelNames[i];
      assert ModelNames[..i + 1][..i] == ModelNames[..i];
      if name in models {
        var p := PredictSingleModel(models[name], x, name);
        if p.Some? {
          preds := preds + [(name, p.value)];
        }
      }
    }
    assert ModelNames[..|ModelNames|] == ModelNames;
  }

  /** `run_pipeline(input_data)` as a value: load everything into a fresh predictor, then predict. */
  function RunFrom(res: Resources, req: Request, num: Numerics): Result<Option<Prediction>, string>
  {
    if res.data.Unreadable? then Err(DataUnreadable)
    else if res.prep.Unreadable? then Err(PreprocessorUnreadable)
    else PredictFrom(if res.data.Present? then Some(res.data.value) else None,
                     if res.prep.Present? then Some(res.prep.value) else None,
                     LoadedBank(res.files, res.load, res.loadCat), req, num)
  }

  /** `run_pipeline(input_data)`. */
  method RunPipeline(res: Resources, req: Request, num: Numerics) returns (r: Result<Option<Prediction>, string>)
    ensures r == RunFrom(res, req, num)
  {
    var predictor := new Predictor();
    var err := predictor.LoadResources(res);
    if err.Some? {
      return Err(err.value);
    }
    r := predictor.Predict(req, num);
  }

  // ---------------------------------------------------------------------
  // Properties
  // ---------------------------------------------------------------------

  /**
   * The models that scored are exactly the bank's models whose prediction
   * succeeded, in load order, each with its own prediction: one model
   * failing never removes another.
   */
  lemma {:induction false} ScoresMeaning(models: map<string, Regressor>, x: Matrix, names: seq<string>)
    requires WellFormed(x)
    ensures Names(Scores(models, x, names)) == Filter(names, Scored(models, x))
    ensures forall i :: 0 <= i < |Scores(models, x, names)| ==>
      var (n, p) := Scores(models, x, names)[i];
      n in models && PredictSingleModel(models[n], x, n) == Some(p)
  {
    ScoresNames(models, x, names);
    ScoresValues(models, x, names);
  }

  lemma {:induction false} ScoresNames(models: map<string, Regressor>, x: Matrix, names: seq<string>)
    requires WellFormed(x)
    ensures Names(Scores(models, x, names)) == Filter(names, Scored(models, x))
  {
    if names != [] {
      var init := names[..|names| - 1];
      var n := names[|names| - 1];
      ScoresNames(models, x, init);
      assert names == init + [n];
      FilterAppend(init, [n], Scored(models, x));
      var prev := Scores(models, x, init);
      if Scored(models, x)(n) {
        assert Scores(models, x, names) == prev + [(n, PredictSingleModel(models[n], x, n).value)];
        assert Names(Scores(models, x, names)) == Names(prev) + [n];
      } else {
        assert Scores(models, x, names) == prev;
      }
    }
  }

  lemma {:induction false} ScoresValues(models: map<string, Regressor>, x: Matrix, names: seq<string>)
    requires WellFormed(x)
    ensures forall i :: 0 <= i < |Scores(models, x, names)| ==>
      var (n, p) := Scores(models, x, names)[i];
      n in models && PredictSingleModel(models[n], x, n) == Some(p)
  {
    if names != [] {
      ScoresValues(models, x, names[..|names| - 1]);
    }
  }

  /** Which models took part: a model is in the ensemble exactly when it is loaded and its prediction succeeded. */
  lemma ScoredModels(models: map<string, Regressor>, x: Matrix, n: string)
    requires WellFormed(x)
    ensures n in Names(Scores(models, x, ModelNames)) <==>
      n in ModelNames && n in models && PredictSingleModel(models[n], x, n).Some?
  {
    ScoresMeaning(models, x, ModelNames);
    FilterIn(ModelNames, Scored(models, x), n);
  }

  /** Without history `predict` fails at once, whatever else is loaded. */
  lemma PredictWithoutHistory(prep: Option<Preprocessor>, models: map<string, Regressor>, req: Request, num: Numerics)
    ensures PredictFrom(None, prep, models, req, num) == Err(NoHistory)
  {
  }

  /** The ensemble stage yields `None` exactly when no model produced a prediction. */
  lemma FinishNone(preds: seq<(string, seq<real>)>, input: Row, expm1: real -> real)
    ensures Finish(preds, input, expm1) == Ok(None) <==> preds == []
  {
  }

  /**
   * `predict` returns `None` exactly when feature engineering and
   * preprocessing succeeded but no loaded model produced a prediction.
   */
  lemma PredictNone(hist: Frame, prep: Option<Preprocessor>, models: map<string, Regressor>, req: Request, num: Numerics)
    ensures var s := SingleInputFeatures(req.fields, req.input, hist, num.numeric, num.log1p);
      PredictFrom(Some(hist), prep, models, req, num) == Ok(None) <==>
        && s.Ok? && ModelInput(s.value, prep).Ok?
        && forall n :: n in models && n in ModelNames ==> PredictSingleModel(models[n], ModelInput(s.value, prep).value, n).None?
  {
    var s := SingleInputFeatures(req.fields, req.input, hist, num.numeric, num.log1p);
    if s.Ok? && ModelInput(s.value, prep).Ok? {
      var x := ModelInput(s.value, prep).value;
      NoScores(models, x);
      FinishNone(Scores(models, x, ModelNames), req.input, num.expm1);
    }
  }

  /** No prediction at all exactly when every loaded model failed. */
  lemma NoScores(models: map<string, Regressor>, x: Matrix)
    requires WellFormed(x)
    ensures Scores(models, x, ModelNames) == [] <==>
      forall n :: n in models && n in ModelNames ==> PredictSingleModel(models[n], x, n).None?
  {
    var preds := Scores(models, x, ModelNames);
    forall n | n in models && n in ModelNames
      ensures PredictSingleModel(models[n], x, n).None? <==> n !in Names(preds)
    {
      ScoredModels(models, x, n);
    }
    if preds != [] {
      assert preds[0].0 in Names(preds);
      ScoredModels(models, x, preds[0].0);
    }
  }

  /** Without a preprocessor the engineered row reaches the models unchanged, column for column. */
  lemma PredictWithoutPreprocessor(processed: Frame)
    ensures ModelInput(processed, None) == Ok(ToMatrix(processed))
    ensures ToMatrix(processed).columns == processed.columns
  {
  }

  /**
   * A returned estimate: the yield is `expm1` of the ensemble's first value,
   * and the production is yield × area × 1000 with a missing area counting as 0.
   */
  lemma PredictEstimate(preds: seq<(string, seq<real>)>, input: Row, expm1: real -> real)
    requires Finish(preds, input, expm1).Ok? && Finish(preds, input, expm1).value.Some?
    ensures preds != [] && EnsemblePredict(preds).Averaged? && EnsemblePredict(preds).values != []
    ensures var p := Finish(preds, input, expm1).value.value;
      && p.yieldTonPerHa == expm1(EnsemblePredict(preds).values[0])
      && ("area_thousand_ha" !in input ==> p.productionTonnes.Some? && p.productionTonnes.value == 0.0)
      && (("area_thousand_ha" in input && input["area_thousand_ha"].Num?) ==>
            p.productionTonnes.Some? && p.productionTonnes.value == p.yieldTonPerHa * input["area_thousand_ha"].x * 1000.0)
  {
    var y := expm1(EnsemblePredict(preds).values[0]);
    assert Production(y, input).Ok?;
    assert Finish(preds, input, expm1).value.value == Prediction(y, Production(y, input).value);
  }

  /**
   * `run_pipeline` never fails because a file is missing: with no data file
   * it fails only in `predict`, and a missing preprocessor means the
   * engineered row is used as is.
   */
  lemma RunWithMissingFiles(res: Resources, req: Request, num: Numerics)
    ensures res.data.Absent? && !res.prep.Unreadable? ==> RunFrom(res, req, num) == Err(NoHistory)
    ensures res.data.Present? && res.prep.Absent? ==>
      RunFrom(res, req, num) == PredictFrom(Some(res.data.value), None, LoadedBank(res.files, res.load, res.loadCat), req, num)
  {
  }
}
