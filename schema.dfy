/**
 * The clinical record: the 13 feature columns the model is trained on and
 * the feedback record a clinician submits (the 13 features plus a manual
 * `prediction`), as the feedback table stores it.
 */
module Schema {
  import opened PyValues
  import opened Tables

  /** The feature columns, in the order the training script selects them. */
  const Features: seq<string> :=
    ["age", "sex", "cp", "trestbps", "chol", "fbs", "restecg",
     "thalch", "exang", "oldpeak", "slope", "ca", "thal"]

  /** The label column. */
  const Label: string := "target"

  /** One row of the feedback table. Every column is an integer except
      `oldpeak`, a float, held here in tenths. */
  datatype FeedbackRow = FeedbackRow(
    age: int, sex: int, cp: int, trestbps: int, chol: int, fbs: int,
    restecg: int, thalch: int, exang: int, oldpeakTenths: int,
    slope: int, ca: int, thal: int, prediction: int)

  /** The columns of a feedback row once it is a DataFrame row. */
  const FeedbackColumns: set<string> :=
    {"age", "sex", "cp", "trestbps", "chol", "fbs", "restecg",
     "thalch", "exang", "oldpeak", "slope", "ca", "thal", "target"}

  /** A feedback row as the training script lays it out: the 13 features
      under their own names and the manual `prediction` as the label. */
  function FeedbackToRow(fb: FeedbackRow): (r: Row)
    ensures r.Keys == FeedbackColumns
    ensures r[Label] == Int(fb.prediction)
    ensures forall c :: c in r && c != "oldpeak" ==> r[c].Int?
  {
    map["age" := Int(fb.age), "sex" := Int(fb.sex), "cp" := Int(fb.cp),
        "trestbps" := Int(fb.trestbps), "chol" := Int(fb.chol), "fbs" := Int(fb.fbs),
        "restecg" := Int(fb.restecg), "thalch" := Int(fb.thalch), "exang" := Int(fb.exang),
        "oldpeak" := Decimal(fb.oldpeakTenths), "slope" := Int(fb.slope), "ca" := Int(fb.ca),
        "thal" := Int(fb.thal), "target" := Int(fb.prediction)]
  }

  /** A feedback row carries no legacy `num` cell, and its flags are the
      stored integers. */
  lemma FeedbackRowFlags(fb: FeedbackRow)
    ensures "num" !in FeedbackToRow(fb)
    ensures FeedbackToRow(fb)["fbs"] == Int(fb.fbs) && FeedbackToRow(fb)["exang"] == Int(fb.exang)
  {
  }
}

/** Why preparing the training table stops. */
module PrepErrors {
  datatype PrepError =
    | MissingColumn(name: string)       // `df[name]` on an absent column: KeyError
    | UnmappedColumn(name: string)      // no cell of a categorical column mapped: the NaN median cannot be cast to int
    | NonNumericLabel                   // `df["target"] > 0` met a string: TypeError
    | MissingFeatures(names: seq<string>) // `df[FEATURES]` with absent columns: KeyError
}
