# Crop-yield inference pipeline, modelled in Dafny

This project models the inference core in `backend/ml_engine`, and proves properties of that model. The core takes one input observation (province, commodity, season, year, climate and soil readings, area) and a historical table. It runs the rows through these steps:

- cleaning;
- a log transform;
- domain features;
- per-group lag / rolling-mean / delta features.

It then takes the input's engineered row back out. That row is scored by up to four regressors (XGBoost, LightGBM, CatBoost, random forest). A fixed-weight ensemble combines the scores, which are turned back into a yield in t/ha and a production in tonnes.

Data model:

- A pandas frame is a `Frame`: column names plus rows. A row maps names to a `Cell`, which is one of:
  - a number;
  - `Missing` (NaN, and an infinity after it has been replaced);
  - text;
  - a boolean.
- The frames the source updates in place are `Table` objects. This covers the caller's history in `process_single_input`, and the combined frame in `log_transform` and `create_domain_features`.
- The data handed to a regressor is a positional `Matrix`.

Opaque pieces, modelled as parameters or datatype fields:

- `np.log1p` and `np.expm1`;
- the fitted preprocessor;
- each regressor's `predict`;
- the loaders for files.

File lookups are abstracted. A file is absent, unreadable, or present with the value its loader returns. The models directory is a list of (name, modification time) pairs.

Module layout follows the source:

| module | file | source |
|---|---|---|
| `Config` | config.dfy | backend/ml_engine/config.py |
| `Frames`, `Seqs`, `Sorting`, `Wrappers` | frames.dfy, seqs.dfy, sorting.dfy, wrappers.dfy | pandas behaviour the core relies on |
| `Cleaning` | cleaning.dfy | `initial_cleaning`, `log_transform` |
| `Domain` | domain.dfy | `create_domain_features` |
| `Temporal` | temporal.dfy | `create_temporal_features` |
| `SingleInput` | single_input.dfy | `process_single_input` |
| `ModelBank` | model_bank.dfy | backend/ml_engine/models.py |
| `Ensemble` | ensemble.dfy | backend/ml_engine/ensemble.py |
| `Pipeline` | pipeline.dfy | backend/ml_engine/pipeline.py |

## Temporal features

The temporal features are defined the way pandas computes them:

- Rows are sorted by the present group keys, then by `year`.
- The sort is a stable insertion sort. It uses a total order on cells: numbers, then text, then booleans, then NaN last.
- Each row reads its group's whole series at its own position in the group:
  - lag: `shift(w)`;
  - mean: `shift(1).rolling(w, min_periods=1).mean()`;
  - delta: `shift(1) - shift(w+1)`.

A second, independent definition reads only `Prior`, the values of the earlier rows of the same group in sorted order:

| feature | value from `Prior` |
|---|---|
| lag_w | the value w positions back |
| mean_w | the mean of the present values among the last w |
| delta_w | the value 1 back minus the value w+1 back |

Each is `Missing` when the history is too short or a value is NaN.

`FeatureFromPrior` proves the two definitions agree. Every property is positional:

- With gap years, `lag_2` is "two rows back".
- With a tied year, "before" is the sort order.

## Model

| member | source | states |
|---|---|---|
| Cleaning.InitialCleaningColumns | backend/ml_engine/feature_engineering.py:9-24 | The cleaned columns are exactly the columns that start with neither `latitude` nor `longitude` and are neither `production_thousand_tonnes` nor `yield_ta_per_ha`, in their order, then `yield_ton_per_ha` when it is new. |
| Cleaning.InitialCleaningValues | backend/ml_engine/feature_engineering.py:16-22 | When `yield_ta_per_ha` is present, every row's `yield_ton_per_ha` is that value / 10. Every other kept column keeps its membership and its cells. |
| Cleaning.LogTransform | backend/ml_engine/feature_engineering.py:26-36 | The method adds the log columns to the caller's frame in place, and returns that frame without the two original columns. |
| Cleaning.LogTransformColumns | backend/ml_engine/feature_engineering.py:28-34 | `yield_ton_per_ha` and `area_thousand_ha` are gone afterwards. `log1p_<col>` exists for each of them that was present. An absent one adds nothing. Every other column's presence is unchanged. |
| Cleaning.LogTransformValues | backend/ml_engine/feature_engineering.py:29-32 | `log1p_<col>` is `log1p(max(value, 0))` in every row, with NaN staying NaN. Other columns keep their cells. |
| Domain.CreateDomainFeatures | backend/ml_engine/feature_engineering.py:38-65 | The method updates the caller's frame to the domain-feature frame. It reports the first required climate column that is missing (pandas' `KeyError`). |
| Domain.DomainFeaturesMissing | backend/ml_engine/feature_engineering.py:50-62 | The step fails exactly with the first of the required climate columns, in statement order, that the frame lacks. |
| Domain.DomainKeepsOthers | backend/ml_engine/feature_engineering.py:38-65 | On success, every column the step does not create keeps its presence and its whole column of cells. |
| Domain.SoilIndexColumn | backend/ml_engine/feature_engineering.py:43-47 | `soil_quality_index` is the row mean over the raw soil columns, or NaN when there are none. |
| Domain.TempRangeColumn | backend/ml_engine/feature_engineering.py:50 | `temp_range` is max_temperature − min_temperature, row by row. |
| Domain.HumidityDeficitColumn | backend/ml_engine/feature_engineering.py:51 | `humidity_deficit` is avg_temperature − wet_bulb_temperature. |
| Domain.EfficiencyColumn | backend/ml_engine/feature_engineering.py:52 | `precipitation_efficiency` is precipitation / (avg_temperature + 1e-6). A zero divisor gives NaN, which is where an infinity is replaced. |
| Domain.SeasonLengthColumn | backend/ml_engine/feature_engineering.py:59 | `season_length_proxy` is precipitation × solar_radiation. |
| Domain.StressColumns | backend/ml_engine/feature_engineering.py:60-61 | `heat_stress` and `cold_stress` are the clipped differences of max_temperature and min_temperature. |
| Domain.WetnessColumn | backend/ml_engine/feature_engineering.py:62 | `wetness_index` is precipitation × the new `humidity_deficit`. |
| Domain.DomainStress | backend/ml_engine/feature_engineering.py:60-61 | Heat stress is NaN iff max_temperature is NaN. Otherwise it is ≥ 0, and 0 exactly when max_temperature ≤ 35, else max − 35. Cold stress is the same with 20 − min_temperature. |
| Domain.CellsWithKeyMeaning | backend/ml_engine/feature_engineering.py:57 | The values averaged for a province are the avg_temperature cells of the rows with that province. Each matching row contributes exactly once, in row order (a strictly increasing list of exactly the matching rows), so repeated values all count in the mean. |
| Domain.DomainTempAnomaly | backend/ml_engine/feature_engineering.py:56-57 | `temp_anomaly` exists afterwards iff `province_name` or an earlier `temp_anomaly` does. With a province column its value is avg_temperature minus the mean of its province over every row of the frame, appended input included. It is NaN for a NaN province. |
| Frames.MeanOfPresentBounds | backend/ml_engine/feature_engineering.py:98 | A mean over present values lies between any bounds of those values. |
| Sorting.SortRowsSorted | backend/ml_engine/feature_engineering.py:82 | The sort puts rows in non-decreasing key order, for a total order on keys (see KeyLeTotal, KeyLeTransitive). |
| Sorting.KeyLeTotal | backend/ml_engine/feature_engineering.py:82 | Any two sort keys are comparable. |
| Sorting.KeyLeTransitive | backend/ml_engine/feature_engineering.py:82 | The key order is transitive. |
| Temporal.CreateTemporalFeatures | backend/ml_engine/feature_engineering.py:67-110 | The method, with its nested loops over base columns and windows, computes exactly `TemporalFeatures`. |
| Temporal.ColumnFeatures | backend/ml_engine/feature_engineering.py:89-103 | The inner loop adds the lag, mean and delta columns of one base column for every window. |
| Temporal.TemporalErrors | backend/ml_engine/feature_engineering.py:69-74 | It fails with "Column 'year' is required." iff `year` is absent. It fails with "Grouping keys missing." iff `year` is present and no group key is. Otherwise it succeeds. |
| Temporal.BaseColumnsMeaning | backend/ml_engine/feature_engineering.py:76-79 | A column gets features iff it is present, numeric, and neither `year` nor a group key. |
| Temporal.TemporalRowsSorted | backend/ml_engine/feature_engineering.py:82 | The result has as many rows as the input. Its rows are a permutation of the input's, sorted by (present group keys, year). |
| Temporal.FeaturesContent | backend/ml_engine/feature_engineering.py:86-103 | The collected features are exactly one lag, mean and delta column per base column and window. |
| Temporal.FeatureNameInjective | backend/ml_engine/feature_engineering.py:90-92 | Distinct (column, kind, window) triples get distinct names. |
| Temporal.TemporalFeatureColumn | backend/ml_engine/feature_engineering.py:86-107 | Every `<col>_{lag,mean,delta}_<w>` column exists, holding the group-series feature at each sorted row. |
| Temporal.GroupPositionMeaning | backend/ml_engine/feature_engineering.py:87 | A row's position in its group's series is the number of earlier rows of the same group. |
| Temporal.SeriesFeatureFromPrior | backend/ml_engine/feature_engineering.py:95-103 | The shift, shift-then-rolling-mean and shift-difference of a series at position k depend only on the values before k. lag_w is the value w back, or NaN with fewer than w. mean_w is the mean of the present values among the last w, NaN for the first. delta_w is (1 back) − (w+1 back). |
| Temporal.FeatureFromPrior | backend/ml_engine/feature_engineering.py:95-103 | Each feature of a row equals its `FromPrior` value, computed from the row's group predecessors. It is NaN for a row with a NaN key. |
| Temporal.TemporalFeatureValues | backend/ml_engine/feature_engineering.py:95-103 | In the result, each feature cell of sorted row i equals `FromPrior` of that row's predecessors in its group. |
| Temporal.NoLeakage | backend/ml_engine/feature_engineering.py:95-103 | Changing a row's own values, or any later row, never changes that row's lag, mean or delta. |
| Temporal.PriorYearsNotLater | backend/ml_engine/feature_engineering.py:82-87 | Every row a feature reads has a year no later than the row's own. |
| Temporal.TemporalKeepsOthers | backend/ml_engine/feature_engineering.py:105-107 | Every other column keeps its presence, and its cells follow the sort. |
| Temporal.TemporalNewColumns | backend/ml_engine/feature_engineering.py:105-107 | Every new column is a feature of a base column. |
| SingleInput.ProcessSingleInput | backend/ml_engine/feature_engineering.py:112-142 | The method returns `SingleInputFeatures`. The caller's history gains `is_input` = False and nothing else. |
| SingleInput.HistoryAfterCall | backend/ml_engine/feature_engineering.py:122 | After a call the history has the same rows, each with an `is_input` cell set to False, and no row appended. |
| SingleInput.CombinedRows | backend/ml_engine/feature_engineering.py:121-123 | The combined frame has history + 1 rows. Only its last row is tagged, and that row carries the input's cells. |
| SingleInput.TaggedRowAfterSort | backend/ml_engine/feature_engineering.py:135-138 | After the temporal sort exactly one row is tagged, and it is the input's row. |
| SingleInput.SingleInputOneRow | backend/ml_engine/feature_engineering.py:118-139 | On success exactly one row is returned, without `is_input`. |
| SingleInput.SingleInputKeepsInput | backend/ml_engine/feature_engineering.py:118-139 | The returned row carries the input's own cells in every column that no step rewrites (year, group keys, climate readings). |
| SingleInput.SingleInputFeatureValue | backend/ml_engine/feature_engineering.py:123-138 | The returned row's lag/mean/delta equal `FromPrior` of the input's predecessors in its group in the sorted combined frame. |
| ModelBank.GetUnderscoreData | backend/ml_engine/models.py:57-67 | The same cells and the same column count and order. Each name is rewritten by `UnderscoreName`: spaces become `_` in names starting with `province_name_`, and other names are kept. |
| ModelBank.UnderscoreNameNoSpaces | backend/ml_engine/models.py:62-63 | A rewritten one-hot name keeps its prefix and has no space left. |
| ModelBank.UnderscoreNameIdempotent | backend/ml_engine/models.py:61-65 | Rewriting a name twice equals rewriting it once. |
| ModelBank.UnderscoredIdempotent | backend/ml_engine/models.py:57-67 | Applying the rewrite to the data twice equals applying it once. |
| ModelBank.AvailableMeaning | backend/ml_engine/models.py:76-86 | The aligned names are a subsequence of the declared list, and contain exactly the declared names present in the data. |
| ModelBank.Select | backend/ml_engine/models.py:79 | `X[names]` has exactly those columns, in that order, with the named columns' cells. |
| ModelBank.AlignedLgb | backend/ml_engine/models.py:71-79 | LightGBM data is renamed first. With `feature_name_` it is restricted to the declared names present after renaming. Without it, the renamed data is passed. |
| ModelBank.AlignedOther | backend/ml_engine/models.py:80-87 | Other models get no renaming. `feature_names_in_` wins over `feature_names_`, and with neither the data is unchanged. Selected columns carry the data's cells. |
| ModelBank.Latest | backend/ml_engine/models.py:30 | The chosen file has the largest modification time, and is the first such in listing order. |
| ModelBank.LoadModels | backend/ml_engine/models.py:6-55 | The method's step-by-step filling of the map yields `LoadedBank`. |
| ModelBank.LoadCatBoost | backend/ml_engine/models.py:25-37 | The CatBoost step stores an object before reading it, so a failed read leaves an unfitted model. |
| ModelBank.LoadRandomForest | backend/ml_engine/models.py:39-53 | The random-forest step uses the primary pattern, else the fallback, then the newest file. |
| ModelBank.LoadedBankKeys | backend/ml_engine/models.py:6-55 | The keys are among xgb/lgb/cat/rf. Each key is present iff its own file(s) and load allow it, so one failing load never affects another. |
| ModelBank.CatEntryMeaning | backend/ml_engine/models.py:28-34 | `cat` is present iff a `.cbm` file exists. The file used is the newest, and a failed load gives an unfitted model. |
| ModelBank.RfSelection | backend/ml_engine/models.py:42-47 | `rf_*.pkl` is used only when no `*random_forest*.pkl` exists. The chosen file is the newest candidate. |
| Ensemble.Weight | backend/ml_engine/ensemble.py:17 | A model missing from the weight table gets weight 0, and every weight is ≥ 0. |
| Ensemble.EnsembleNone | backend/ml_engine/ensemble.py:11-12 | `None` iff there are no predictions. The shape error occurs iff the arrays differ in length. |
| Ensemble.NormalisedWeights | backend/ml_engine/ensemble.py:20-23 | The final weights are ≥ 0 and sum to 1. They are w/Σw when Σw > 0, else 1/n each. |
| Ensemble.ProportionalWeights | backend/ml_engine/ensemble.py:20-21 | With a positive total, each weight is divided by the total and the results sum to 1. |
| Ensemble.UniformWeights | backend/ml_engine/ensemble.py:22-23 | With a zero total, every model gets 1/n and the weights sum to 1. |
| Ensemble.EnsembleFormula | backend/ml_engine/ensemble.py:26-29 | There is one value per sample, Σ wᵢ·pᵢ / Σ wᵢ over the configured weights, or the plain mean when they are all 0. |
| Ensemble.EnsembleBetween | backend/ml_engine/ensemble.py:26-29 | Each output lies between the smallest and largest model prediction for its sample. |
| Ensemble.EnsembleIgnoresZeroWeighted | backend/ml_engine/ensemble.py:17-21 | With the default weights, once lgb or rf is present the xgb and cat predictions cannot change the output. |
| Pipeline.Predictor.constructor | backend/ml_engine/pipeline.py:6-9 | A fresh predictor has no history, no preprocessor and an empty model map. |
| Pipeline.Predictor.LoadResources | backend/ml_engine/pipeline.py:11-27 | A missing data or preprocessor file leaves that field as it was. A present one sets it. A loader that raises stops the call. The model map becomes `LoadedBank`. |
| Pipeline.Predictor.Predict | backend/ml_engine/pipeline.py:30-71 | The method computes `PredictFrom` of the state before the call. Its only effect is the `is_input` column added to the history. |
| Pipeline.ScoreModels | backend/ml_engine/pipeline.py:48-53 | The loop over the bank yields `Scores`: each model in load order, with a failing one skipped. |
| Pipeline.ScoresMeaning | backend/ml_engine/pipeline.py:48-53 | The scored models are exactly those whose prediction succeeded, in order, each paired with its own prediction. |
| Pipeline.ScoredModels | backend/ml_engine/pipeline.py:48-53 | A model takes part iff it is loaded and its prediction succeeds. |
| Pipeline.NoScores | backend/ml_engine/pipeline.py:55-56 | No prediction at all iff every loaded model failed. |
| Pipeline.FinishNone | backend/ml_engine/pipeline.py:55-59 | The final stage returns `None` iff there is no prediction. |
| Pipeline.PredictWithoutHistory | backend/ml_engine/pipeline.py:35-36 | Without history, `predict` fails with "Historical data not loaded." before anything else. |
| Pipeline.PredictNone | backend/ml_engine/pipeline.py:48-56 | `predict` returns `None` iff feature engineering and preprocessing succeeded and every loaded model failed. |
| Pipeline.PredictWithoutPreprocessor | backend/ml_engine/pipeline.py:42-45 | Without a preprocessor, the engineered row reaches the models unchanged. |
| Pipeline.PredictEstimate | backend/ml_engine/pipeline.py:61-71 | The yield is `expm1` of the first ensemble value. Production is yield × area × 1000, and 0 when the area key is missing. |
| Pipeline.RunPipeline | backend/ml_engine/pipeline.py:73-76 | A fresh predictor, loaded and then asked, computes `RunFrom`. |
| Pipeline.RunWithMissingFiles | backend/ml_engine/pipeline.py:13-27 | Missing files never make loading fail. With no data file the run fails only in `predict`. With no preprocessor the engineered row is used as is. |

## Left out

Not modelled, and why:

- `load_data`, `pd.read_csv`, `joblib.load`, CatBoost's `load_model`, `Path.glob`/`stat`: file I/O. Each is a loader parameter, or a list of (name, modification time) pairs in listing order. The texts of the loaders' exceptions are not known, so the model's error strings for them are its own.
- `print` logging is not modelled.
- Floating point: arithmetic is exact over `real`. `1e-6` is exact. `log1p`, `expm1`, the regressors and the preprocessor are opaque functions. An infinity from a division is modelled as NaN directly (a zero divisor gives `Missing`), which is what the `replace` at lines 64 and 109 makes of it.
- pandas dtype inference (`select_dtypes`) is a parameter: the set of numeric columns. A boolean column such as `is_input` is never numeric.
- Text cells: pandas raises when a text cell reaches arithmetic or a mean. In the model the element-wise operations (`Frames.Sub`, `Frames.Mul`, `Frames.Div`, `Frames.ClipLower`) give NaN on text. The means (`Frames.MeanOfPresent`, used for the soil row mean, the province mean and the rolling mean) skip a text cell as they skip NaN. For example, a row with `soil_a` = text and `soil_b` = 4 gets a soil index of 4, where `df[soil_cols].mean(axis=1)` raises.
- Sort keys of mixed types raise in pandas. Here cells have a total order.
- `create_temporal_features` is modelled with its default `windows` (config `WINDOWS`) only.
- Temporal.TemporalRowsSorted: states sortedness and permutation, not the order of rows with equal keys (stability), which the model's sort keeps but no lemma states.
- Temporal.CreateTemporalFeatures: when a feature name equals an existing column, `pd.concat(axis=1)` would produce two columns of that name. The model overwrites the existing column instead. Feature names end in a digit, so no column the pipeline produces clashes.
- ModelBank.Select: with two data columns of one name, `X[[name]]` returns both. The model takes the first. The underscore rewrite could create such a pair only from names differing just in spaces versus underscores.
- ModelBank.PredictSingleModel: the shape and type of `model.predict`'s output are opaque. An unfitted CatBoost model always fails.
- Pipeline.Predictor.Predict: iterates the bank in load order (xgb, lgb, cat, rf), the insertion order of `load_models`' dictionary. The preprocessor, when present, is taken as truthy.
- Pipeline.Request: `fields` stands for the keys of `input_data` in dictionary order, so they are distinct and are exactly the keys of `input`. The model takes this as given and does not check it.
- Pipeline.Production: a NaN area gives no production value, and a text area is a type error.
- Pipeline.RunPipeline: `LoadResources` stops at the first loader that raises, as the source does. The error texts for that case are the model's own.
- The in-place partial state of a frame when a step raises midway is stated for `create_domain_features` only, through the partial frame `DomainFeatures` returns with its error (the columns assigned before the missing one). No lemma describes that frame, and no caller observes it, since the pipeline stops at the error.

`process_single_input` assigns `historical_df['is_input'] = False` on the caller's frame (backend/ml_engine/feature_engineering.py:122). So the `Predictor`'s stored history gains that column. `ProcessSingleInput` and `Predictor.Predict` state this.
