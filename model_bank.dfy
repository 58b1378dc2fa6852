/**
 * The model bank of backend/ml_engine/models.py: which model files are
 * loaded, the LightGBM column renaming, and how the columns handed to each
 * regressor are chosen.
 *
 * The data a regressor sees is a `Matrix`: columns are positional, so a
 * renaming never merges two columns. A regressor is opaque: the names it was
 * fitted with (when it records them) and a prediction function that may fail.
 */
module ModelBank {
  import opened Wrappers
  import opened Seqs
  import opened Frames
  import opened Config

  /**
   * A loaded regressor. `featureName`, `featureNamesIn` and `featureNames` are
   * the attributes `feature_name_` (LightGBM), `feature_names_in_` (scikit-learn)
   * and `feature_names_` (CatBoost), `None` when the model lacks them.
   * `Unfitted` is a CatBoost object whose `load_model` failed: any prediction fails.
   */
  datatype Regressor =
    | Fitted(featureName: Option<seq<string>>, featureNamesIn: Option<seq<string>>,
             featureNames: Option<seq<string>>, predict: Matrix -> Option<seq<real>>)
    | Unfitted

  // ---------------------------------------------------------------------
  // get_underscore_data
  // ---------------------------------------------------------------------

  const OneHotPrefix: string := "province_name_"

  /** The LightGBM-safe name: one-hot province columns get their spaces replaced by `_`. */
  function UnderscoreName(c: string): (r: string)
    ensures |r| == |c|
    ensures StartsWith(c, OneHotPrefix) ==> forall i :: 0 <= i < |c| ==> r[i] == if c[i] == ' ' then '_' else c[i]
    ensures !StartsWith(c, OneHotPrefix) ==> r == c
  {
    if StartsWith(c, OneHotPrefix) then ReplaceChar(c, ' ', '_') else c
  }

  /** A renamed one-hot column keeps its prefix and has no space left. */
  lemma UnderscoreNameNoSpaces(c: string)
    requires StartsWith(c, OneHotPrefix)
    ensures StartsWith(UnderscoreName(c), OneHotPrefix)
    ensures forall i :: 0 <= i < |c| ==> UnderscoreName(c)[i] != ' '
  {
    var r := UnderscoreName(c);
    assert forall i :: 0 <= i < |OneHotPrefix| ==> OneHotPrefix[i] != ' ';
    assert forall i :: 0 <= i < |OneHotPrefix| ==> r[i] == c[i];
    assert r[..|OneHotPrefix|] == c[..|OneHotPrefix|];
  }

  /** Renaming a name twice gives the same name as renaming it once. */
  lemma UnderscoreNameIdempotent(c: string)
    ensures UnderscoreName(UnderscoreName(c)) == UnderscoreName(c)
  {
    if StartsWith(c, OneHotPrefix) {
      UnderscoreNameNoSpaces(c);
      var r := UnderscoreName(c);
      assert UnderscoreName(r) == r;
    }
  }

  /**
   * `get_underscore_data(df)`: a copy of the data whose column names are
   * rewritten one by one; cells, column count and order are kept, and the
   * caller's data is a value the call cannot change.
   */
  method GetUnderscoreData(x: Matrix) returns (r: Matrix)
    ensures r.rows == x.rows
    ensures |r.columns| == |x.columns|
    ensures forall i :: 0 <= i < |x.columns| ==> r.columns[i] == UnderscoreName(x.columns[i])
  {
    var newCols: seq<string> := [];
    for i := 0 to |x.columns|
      invariant |newCols| == i
      invariant forall j :: 0 <= j < i ==> newCols[j] == UnderscoreName(x.columns[j])
    {
      var col := x.columns[i];
      if StartsWith(col, OneHotPrefix) {
        newCols := newCols + [ReplaceChar(col, ' ', '_')];
      } else {
        newCols := newCols + [col];
      }
    }
    r := Matrix(newCols, x.rows);
  }

  /** The renamed data as a value, for the alignment functions. */
  function Underscored(x: Matrix): (r: Matrix)
    ensures r.rows == x.rows && |r.columns| == |x.columns|
    ensures forall i :: 0 <= i < |x.columns| ==> r.columns[i] == UnderscoreName(x.columns[i])
  {
    Matrix(seq(|x.columns|, i requires 0 <= i < |x.columns| => UnderscoreName(x.columns[i])), x.rows)
  }

  /** Applying `get_underscore_data` twice gives the column names of applying it once. */
  lemma UnderscoredIdempotent(x: Matrix)
    ensures Underscored(Underscored(x)) == Underscored(x)
  {
    var u := Underscored(x);
    forall i | 0 <= i < |x.columns|
      ensures Underscored(u).columns[i] == u.columns[i]
    {
      UnderscoreNameIdempotent(x.columns[i]);
    }
  }

  // ---------------------------------------------------------------------
  // predict_single_model: column alignment
  // ---------------------------------------------------------------------

  /** Every row has one cell per column. */
  predicate WellFormed(x: Matrix)
  {
    forall i :: 0 <= i < |x.rows| ==> |x.rows[i]| == |x.columns|
  }

  /** The position of the first column with name `c` (how a label is looked up). */
  function IndexOf(cols: seq<string>, c: string): (k: nat)
    requires c in cols
    ensures k < |cols| && cols[k] == c
    ensures forall j :: 0 <= j < k ==> cols[j] != c
  {
    if cols[0] == c then 0 else 1 + IndexOf(cols[1..], c)
  }

  /** `[c for c in declared if c in X.columns]`. */
  function Available(declared: seq<string>, cols: seq<string>): seq<string>
  {
    Filter(declared, InColumns(cols))
  }

  /** The declared names kept are a subsequence of the declared list, exactly those present in the data. */
  lemma AvailableMeaning(declared: seq<string>, cols: seq<string>)
    ensures IsSubsequence(Available(declared, cols), declared)
    ensures forall c :: c in Available(declared, cols) <==> c in declared && c in cols
  {
    FilterIsSubsequence(declared, InColumns(cols));
    forall c
      ensures c in Available(declared, cols) <==> c in declared && c in cols
    {
      FilterIn(declared, InColumns(cols), c);
    }
  }

  /** `X[names]`: the named columns, in the order given. */
  function Select(x: Matrix, names: seq<string>): (r: Matrix)
    requires WellFormed(x) && forall j :: 0 <= j < |names| ==> names[j] in x.columns
    ensures r.columns == names && |r.rows| == |x.rows| && WellFormed(r)
    ensures forall i, j :: 0 <= i < |x.rows| && 0 <= j < |names| ==>
      r.rows[i][j] == x.rows[i][IndexOf(x.columns, names[j])]
  {
    Matrix(names, seq(|x.rows|, i requires 0 <= i < |x.rows| =>
      seq(|names|, j requires 0 <= j < |names| => x.rows[i][IndexOf(x.columns, names[j])])))
  }

  /** Selects the declared names that are present, in declared order. */
  function Restrict(x: Matrix, declared: seq<string>): Matrix
    requires WellFormed(x)
  {
    AvailableMeaning(declared, x.columns);
    Select(x, Available(declared, x.columns))
  }

  /** The data a fitted regressor of type `kind` receives. */
  function Aligned(m: Regressor, x: Matrix, kind: string): Matrix
    requires m.Fitted? && WellFormed(x)
  {
    if kind == "lgb" then
      var u := Underscored(x);
      if m.featureName.Some? then Restrict(u, m.featureName.value) else u
    else if m.featureNamesIn.Some? then Restrict(x, m.featureNamesIn.value)
    else if m.featureNames.Some? then Restrict(x, m.featureNames.value)
    else x
  }

  /** `predict_single_model(model, X, model_type)`; `None` when the prediction raises. */
  function PredictSingleModel(m: Regressor, x: Matrix, kind: string): Option<seq<real>>
    requires WellFormed(x)
  {
    match m
    case Unfitted => None
    case Fitted(_, _, _, predict) => predict(Aligned(m, x, kind))
  }

  /**
   * LightGBM: the data is renamed first; with `feature_name_` it is restricted
   * to the declared names present after renaming, in declared order.
   */
  lemma AlignedLgb(m: Regressor, x: Matrix)
    requires m.Fitted? && WellFormed(x)
    ensures var a := Aligned(m, x, "lgb");
      var u := Underscored(x);
      && |a.rows| == |x.rows|
      && (m.featureName.None? ==> a == u)
      && (m.featureName.Some? ==>
            && IsSubsequence(a.columns, m.featureName.value)
            && forall c :: c in a.columns <==> c in m.featureName.value && c in u.columns)
  {
    if m.featureName.Some? {
      AvailableMeaning(m.featureName.value, Underscored(x).columns);
    }
  }

  /**
   * Every other type: no renaming. `feature_names_in_` wins over
   * `feature_names_`; with neither the data passes through unchanged; with
   * either, every column given to the model is a column of the data, with that column's cells.
   */
  lemma AlignedOther(m: Regressor, x: Matrix, kind: string, i: nat, j: nat)
    requires m.Fitted? && WellFormed(x) && kind != "lgb"
    ensures var a := Aligned(m, x, kind);
      && (m.featureNamesIn.Some? ==> a.columns == Available(m.featureNamesIn.value, x.columns))
      && (m.featureNamesIn.None? && m.featureNames.Some? ==> a.columns == Available(m.featureNames.value, x.columns))
      && (m.featureNamesIn.None? && m.featureNames.None? ==> a == x)
      && |a.rows| == |x.rows|
      && ((m.featureNamesIn.Some? || m.featureNames.Some?) && i < |a.rows| && j < |a.columns| ==>
            a.columns[j] in x.columns && a.rows[i][j] == x.rows[i][IndexOf(x.columns, a.columns[j])])
  {
    var a := Aligned(m, x, kind);
    if i < |a.rows| && j < |a.columns| {
      if m.featureNamesIn.Some? {
        var names := Available(m.featureNamesIn.value, x.columns);
        AvailableMeaning(m.featureNamesIn.value, x.columns);
        assert a == Select(x, names);
        assert a.columns[j] in a.columns;
        assert a.rows[i][j] == x.rows[i][IndexOf(x.columns, names[j])];
      } else if m.featureNames.Some? {
        var names := Available(m.featureNames.value, x.columns);
        AvailableMeaning(m.featureNames.value, x.columns);
        assert a == Select(x, names);
        assert a.columns[j] in a.columns;
        assert a.rows[i][j] == x.rows[i][IndexOf(x.columns, names[j])];
      }
    }
  }

  // ---------------------------------------------------------------------
  // load_models: file selection
  // ---------------------------------------------------------------------

  /** A file in the models directory with its modification time. */
  datatype ModelFile = ModelFile(name: string, mtime: real)

  const XgbFile: string := "xgb_yield_model.pkl"
  const LgbFile: string := "lgb_yield_model.pkl"

  /** Matches the pattern `*.cbm`. */
  predicate IsCatFile(f: ModelFile)
  {
    EndsWith(f.name, ".cbm")
  }

  /** Matches the pattern `*random_forest*.pkl`. */
  predicate IsRandomForestFile(f: ModelFile)
  {
    EndsWith(f.name, ".pkl") && Contains(f.name[..|f.name| - 4], "random_forest")
  }

  /** Matches the pattern `rf_*.pkl`. */
  predicate IsRfFile(f: ModelFile)
  {
    |f.name| >= 7 && StartsWith(f.name, "rf_") && EndsWith(f.name, ".pkl")
  }

  function CatFiles(fs: seq<ModelFile>): seq<ModelFile>
  {
    Filter(fs, IsCatFile)
  }

  /** The `*random_forest*.pkl` files, or the `rf_*.pkl` ones when there are none. */
  function RfFiles(fs: seq<ModelFile>): seq<ModelFile>
  {
    var primary := Filter(fs, IsRandomForestFile);
    if primary != [] then primary else Filter(fs, IsRfFile)
  }

  /** `max(files, key=mtime)`: the first of the files with the largest modification time. */
  function Latest(fs: seq<ModelFile>): (k: nat)
    requires fs != []
    ensures k < |fs|
    ensures forall j :: 0 <= j < |fs| ==> fs[j].mtime <= fs[k].mtime
    ensures forall j :: 0 <= j < k ==> fs[j].mtime < fs[k].mtime
  {
    if |fs| == 1 then 0
    else
      var k := Latest(fs[..|fs| - 1]);
      if fs[|fs| - 1].mtime > fs[k].mtime then |fs| - 1 else k
  }

  /** `models[key] = model` when the load succeeded; the map unchanged otherwise. */
  function Put(m: map<string, Regressor>, key: string, o: Option<Regressor>): map<string, Regressor>
  {
    if o.Some? then m[key := o.value] else m
  }

  /** The CatBoost entry: none without a `.cbm` file, else the newest one, unfitted when it does not load. */
  function CatEntry(fs: seq<ModelFile>, loadCat: string -> Option<Regressor>): Option<Regressor>
  {
    var cats := CatFiles(fs);
    if cats == [] then None
    else match loadCat(cats[Latest(cats)].name)
      case Some(r) => Some(r)
      case None => Some(Unfitted)
  }

  /** The random-forest entry: the newest candidate file, when there is one and it loads. */
  function RfEntry(fs: seq<ModelFile>, load: string -> Option<Regressor>): Option<Regressor>
  {
    var rfs := RfFiles(fs);
    if rfs == [] then None else load(rfs[Latest(rfs)].name)
  }

  /**
   * What `load_models` returns. `load` is `joblib.load` and `loadCat` is
   * CatBoost's `load_model`, each given a file name and failing with `None`.
   */
  function LoadedBank(fs: seq<ModelFile>, load: string -> Option<Regressor>, loadCat: string -> Option<Regressor>)
    : map<string, Regressor>
  {
    Put(Put(Put(Put(map[], "xgb", load(XgbFile)), "lgb", load(LgbFile)), "cat", CatEntry(fs, loadCat)), "rf", RfEntry(fs, load))
  }

  /** `load_models()`: each model is tried in turn, and one failing never stops the next. */
  method LoadModels(fs: seq<ModelFile>, load: string -> Option<Regressor>, loadCat: string -> Option<Regressor>)
    returns (models: map<string, Regressor>)
    ensures models == LoadedBank(fs, load, loadCat)
  {
    models := map[];
    var xgb := load(XgbFile);
    if xgb.Some? {
      models := models["xgb" := xgb.value];
    }
    var lgb := load(LgbFile);
    if lgb.Some? {
      models := models["lgb" := lgb.value];
    }
    assert models == Put(Put(map[], "xgb", load(XgbFile)), "lgb", load(LgbFile));
    models := LoadCatBoost(models, fs, loadCat);
    models := LoadRandomForest(models, fs, load);
  }

  /** The CatBoost step: the object is stored before its file is read, so a failed read leaves it unfitted. */
  method LoadCatBoost(models: map<string, Regressor>, fs: seq<ModelFile>, loadCat: string -> Option<Regressor>)
    returns (r: map<string, Regressor>)
    ensures r == Put(models, "cat", CatEntry(fs, loadCat))
  {
    r := models;
    var catFiles := Filter(fs, IsCatFile);
    if catFiles != [] {
      var latestCat := catFiles[Latest(catFiles)];
      r := r["cat" := Unfitted];
      var loaded := loadCat(latestCat.name);
      if loaded.Some? {
        r := r["cat" := loaded.value];
      }
    }
  }

  /** The random-forest step: the primary pattern, else the fallback one, then the newest file. */
  method LoadRandomForest(models: map<string, Regressor>, fs: seq<ModelFile>, load: string -> Option<Regressor>)
    returns (r: map<string, Regressor>)
    ensures r == Put(models, "rf", RfEntry(fs, load))
  {
    r := models;
    var rfFiles := Filter(fs, IsRandomForestFile);
    if rfFiles == [] {
      rfFiles := Filter(fs, IsRfFile);
    }
    if rfFiles != [] {
      var latestRf := rfFiles[Latest(rfFiles)];
      var rf := load(latestRf.name);
      if rf.Some? {
        r := r["rf" := rf.value];
      }
    }
  }

  /**
   * Which models end up in the bank, each decided by its own files and its
   * own load alone: the keys are among `xgb`, `lgb`, `cat`, `rf`; `cat` is
   * present whenever a `.cbm` file exists, unfitted if its load failed; `rf`
   * comes from the newest matching file.
   */
  lemma LoadedBankKeys(fs: seq<ModelFile>, load: string -> Option<Regressor>, loadCat: string -> Option<Regressor>)
    ensures var m := LoadedBank(fs, load, loadCat);
      && (forall k :: k in m ==> k in ModelNames)
      && ("xgb" in m <==> load(XgbFile).Some?)
      && ("xgb" in m ==> m["xgb"] == load(XgbFile).value)
      && ("lgb" in m <==> load(LgbFile).Some?)
      && ("lgb" in m ==> m["lgb"] == load(LgbFile).value)
      && ("cat" in m <==> exists f :: f in fs && IsCatFile(f))
      && ("cat" in m ==> m["cat"] == CatEntry(fs, loadCat).value)
      && ("rf" in m <==> RfEntry(fs, load).Some?)
      && ("rf" in m ==> m["rf"] == RfEntry(fs, load).value)
  {
    var m0: map<string, Regressor> := map[];
    var m1 := Put(m0, "xgb", load(XgbFile));
    var m2 := Put(m1, "lgb", load(LgbFile));
    var m3 := Put(m2, "cat", CatEntry(fs, loadCat));
    var m := Put(m3, "rf", RfEntry(fs, load));
    forall k | k in m
      ensures k in ModelNames
    {
      PutMeaning(m3, "rf", RfEntry(fs, load), k);
      PutMeaning(m2, "cat", CatEntry(fs, loadCat), k);
      PutMeaning(m1, "lgb", load(LgbFile), k);
      PutMeaning(m0, "xgb", load(XgbFile), k);
    }
    PutMeaning(m3, "rf", RfEntry(fs, load), "xgb");
    PutMeaning(m2, "cat", CatEntry(fs, loadCat), "xgb");
    PutMeaning(m1, "lgb", load(LgbFile), "xgb");
    PutMeaning(m0, "xgb", load(XgbFile), "xgb");
    PutMeaning(m3, "rf", RfEntry(fs, load), "lgb");
    PutMeaning(m2, "cat", CatEntry(fs, loadCat), "lgb");
    PutMeaning(m1, "lgb", load(LgbFile), "lgb");
    PutMeaning(m3, "rf", RfEntry(fs, load), "cat");
    PutMeaning(m2, "cat", CatEntry(fs, loadCat), "cat");
    PutMeaning(m3, "rf", RfEntry(fs, load), "rf");
    CatEntryMeaning(fs, loadCat);
  }

  lemma PutMeaning(m: map<string, Regressor>, key: string, o: Option<Regressor>, k: string)
    ensures k in Put(m, key, o) <==> k in m || (k == key && o.Some?)
    ensures k in Put(m, key, o) ==> Put(m, key, o)[k] == if k == key && o.Some? then o.value else m[k]
  {
  }

  /** A CatBoost file whose load fails still puts an unfitted `cat` model in the bank. */
  lemma CatEntryMeaning(fs: seq<ModelFile>, loadCat: string -> Option<Regressor>)
    ensures CatEntry(fs, loadCat).Some? <==> exists f :: f in fs && IsCatFile(f)
    ensures CatEntry(fs, loadCat).Some? ==>
      var cats := CatFiles(fs);
      && (forall f :: f in fs && IsCatFile(f) ==> f.mtime <= cats[Latest(cats)].mtime)
      && (loadCat(cats[Latest(cats)].name).None? ==> CatEntry(fs, loadCat) == Some(Unfitted))
      && (loadCat(cats[Latest(cats)].name).Some? ==> CatEntry(fs, loadCat) == loadCat(cats[Latest(cats)].name))
  {
    if exists f :: f in fs && IsCatFile(f) {
      var f :| f in fs && IsCatFile(f);
      FilterIn(fs, IsCatFile, f);
    }
    forall f | f in fs && IsCatFile(f)
      ensures f in CatFiles(fs)
    {
      FilterIn(fs, IsCatFile, f);
    }
  }
  /**
   * The files `rf` is chosen from: the `*random_forest*.pkl` files when any
   * exists, otherwise the `rf_*.pkl` files; the chosen one is the newest of
   * them, the first listed among equals.
   */
  lemma RfSelection(fs: seq<ModelFile>, f: ModelFile)
    ensures (exists g :: g in fs && IsRandomForestFile(g)) ==>
      (f in RfFiles(fs) <==> f in fs && IsRandomForestFile(f))
    ensures (forall g :: g in fs ==> !IsRandomForestFile(g)) ==>
      (f in RfFiles(fs) <==> f in fs && IsRfFile(f))
    ensures f in RfFiles(fs) ==> f.mtime <= RfFiles(fs)[Latest(RfFiles(fs))].mtime
  {
    FilterIn(fs, IsRandomForestFile, f);
    FilterIn(fs, IsRfFile, f);
    if exists g :: g in fs && IsRandomForestFile(g) {
      var g :| g in fs && IsRandomForestFile(g);
      FilterIn(fs, IsRandomForestFile, g);
    }
  }
}
