/** Process-wide configuration of the inference pipeline (backend/ml_engine/config.py). */
module Config {

  /** Window sizes of the lag, rolling-mean and delta features. */
  const Windows: seq<nat> := [1, 2, 3, 4, 5, 6, 7]

  /** Columns that define one independent time series, in sort order. */
  const GroupKeys: seq<string> := ["province_name", "commodity", "season"]

  /** Fixed ensemble weights; only lgb and rf carry weight. */
  const DefaultWeights: map<string, real> := map["xgb" := 0.0, "lgb" := 0.5076, "cat" := 0.0, "rf" := 0.4924]

  /** Names of the models the bank knows, in the order it loads them. */
  const ModelNames: seq<string> := ["xgb", "lgb", "cat", "rf"]
}
