/** The model choice of `train_and_log_models`: the two baselines and then
    the tuned XGBoost model are scored by an oracle, a running best is kept,
    and the cross-validation fold count is derived from the balanced class
    counts. Fitting, resampling and the metrics themselves are not modelled:
    the metric values are inputs. */
module Selection {
  import opened Wrappers

  datatype Candidate = RandomForest | LogisticRegression | XgbTuned

  /** The test-set AUC and accuracy of a fitted candidate. */
  datatype Metrics = Metrics(auc: real, acc: real)

  /** The running best: the winning candidate, if any, and its metrics. */
  datatype Best = Best(model: Option<Candidate>, auc: real, acc: real)

  /** A candidate together with its metrics, in the order it is considered. */
  datatype Entry = Entry(model: Candidate, metrics: Metrics)

  datatype TrainError =
    | EmptyTrainingSet   // fitting, and `min` over the class counts, fail on no data
    | NoModelSelected    // `best` is still None when its predictions are asked for

  /** What training hands on: the chosen model, its metrics, and the fold
      count used by the XGBoost search. */
  datatype Trained = Trained(model: Candidate, auc: real, acc: real, folds: nat)

  /** The baselines, in the insertion order of the candidate dictionary. */
  const Baselines: seq<Candidate> := [RandomForest, LogisticRegression]

  /** Every candidate in the order it is considered. */
  const Candidates: seq<Candidate> := Baselines + [XgbTuned]

  /** No model and both metrics 0. */
  const Initial: Best := Best(None, 0.0, 0.0)

  /** One comparison: a candidate replaces the best exactly when its AUC and
      its accuracy are both strictly greater. */
  function Step(b: Best, e: Entry): (r: Best)
    ensures b.auc <= r.auc && b.acc <= r.acc
    ensures r == b || (r.model == Some(e.model) && r.auc == e.metrics.auc > b.auc && r.acc == e.metrics.acc > b.acc)
    ensures e.metrics.auc > b.auc && e.metrics.acc > b.acc ==> r.model == Some(e.model)
  {
    if e.metrics.auc > b.auc && e.metrics.acc > b.acc then Best(Some(e.model), e.metrics.auc, e.metrics.acc)
    else b
  }

  /** The running best after the entries `s`, considered left to right. */
  function Select(s: seq<Entry>): (r: Best)
    ensures Initial.auc <= r.auc && Initial.acc <= r.acc
  {
    if s == [] then Initial else Step(Select(s[..|s| - 1]), s[|s| - 1])
  }

  /** The candidates with the oracle's metrics, in order. */
  function Entries(cs: seq<Candidate>, score: Candidate -> Metrics): (s: seq<Entry>)
    ensures |s| == |cs|
    ensures forall i :: 0 <= i < |cs| ==> s[i] == Entry(cs[i], score(cs[i]))
  {
    seq(|cs|, i requires 0 <= i < |cs| => Entry(cs[i], score(cs[i])))
  }

  /** `best_auc` and `best_acc` never decrease as more candidates are seen. */
  lemma {:induction false} SelectMonotone(s: seq<Entry>, i: nat)
    requires i <= |s|
    ensures Select(s[..i]).auc <= Select(s).auc && Select(s[..i]).acc <= Select(s).acc
    decreases |s|
  {
    if i < |s| {
      assert s[..|s| - 1][..i] == s[..i];
      SelectMonotone(s[..|s| - 1], i);
    } else {
      assert s[..i] == s;
    }
  }

  /** The best stays None exactly when no candidate has both metrics above 0. */
  lemma {:induction false} SelectNoneIff(s: seq<Entry>)
    ensures Select(s).model.None? <==> forall k :: 0 <= k < |s| ==> !(s[k].metrics.auc > 0.0 && s[k].metrics.acc > 0.0)
  {
    if s != [] {
      var p := s[..|s| - 1];
      SelectNoneIff(p);
      if Select(p).model.None? {
        SelectNoneKeepsZero(p);
      }
      assert forall k :: 0 <= k < |p| ==> p[k] == s[k];
    }
  }

  /** While nothing has won, both metrics are still 0. */
  lemma {:induction false} SelectNoneKeepsZero(s: seq<Entry>)
    requires Select(s).model.None?
    ensures Select(s).auc == 0.0 && Select(s).acc == 0.0
  {
    if s != [] {
      var p := s[..|s| - 1];
      if Select(p).model.None? {
        SelectNoneKeepsZero(p);
      }
    }
  }

  /** A chosen model is one of the candidates and the best metrics are the
      metrics it was scored with. */
  lemma {:induction false} SelectWinner(s: seq<Entry>)
    requires Select(s).model.Some?
    ensures exists k ::
      (0 <= k < |s| && s[k].model == Select(s).model.value && s[k].metrics == Metrics(Select(s).auc, Select(s).acc))
  {
    var p := s[..|s| - 1];
    if Select(s) == Select(p) {
      SelectWinner(p);
      var k :| 0 <= k < |p| && p[k].model == Select(p).model.value
        && p[k].metrics == Metrics(Select(p).auc, Select(p).acc);
      assert s[k] == p[k];
    } else {
      assert s[|s| - 1].metrics == Metrics(Select(s).auc, Select(s).acc);
    }
  }

  /** No candidate beats the final best on both metrics: it would have
      replaced the best of its time, and the best never decreases. */
  lemma {:induction false} NoneBeatsSelected(s: seq<Entry>, k: nat)
    requires k < |s|
    ensures !(s[k].metrics.auc > Select(s).auc && s[k].metrics.acc > Select(s).acc)
  {
    var before := Select(s[..k]);
    assert s[..k + 1][..k] == s[..k];
    assert Select(s[..k + 1]) == Step(before, s[k]);
    SelectMonotone(s, k);
    SelectMonotone(s, k + 1);
  }

  /** A higher AUC does not win without a higher accuracy: RandomForest at
      AUC 0.80 and accuracy 0.75 stays ahead of LogisticRegression at 0.85
      and 0.69, and LogisticRegression wins from a weaker RandomForest. */
  lemma SelectExamples()
    ensures Select([Entry(RandomForest, Metrics(0.80, 0.75)), Entry(LogisticRegression, Metrics(0.85, 0.69))])
      == Best(Some(RandomForest), 0.80, 0.75)
    ensures Select([Entry(RandomForest, Metrics(0.78, 0.70)), Entry(LogisticRegression, Metrics(0.80, 0.75))])
      == Best(Some(LogisticRegression), 0.80, 0.75)
  {
    var s1 := [Entry(RandomForest, Metrics(0.80, 0.75)), Entry(LogisticRegression, Metrics(0.85, 0.69))];
    var s2 := [Entry(RandomForest, Metrics(0.78, 0.70)), Entry(LogisticRegression, Metrics(0.80, 0.75))];
    assert s1[..1][..0] == [] && s2[..1][..0] == [];
  }

  /** The smallest of the class counts. */
  function MinCount(counts: seq<nat>): (m: nat)
    requires counts != []
    ensures m in counts
    ensures forall i :: 0 <= i < |counts| ==> m <= counts[i]
  {
    if |counts| == 1 then counts[0]
    else
      var rest := MinCount(counts[1..]);
      if counts[0] <= rest then counts[0] else rest
  }

  /** The fold count: five, fewer when the smallest class is smaller, and two
      when the smallest class has fewer than two members. */
  function CvFolds(m: nat): (k: nat)
    ensures 2 <= k <= 5
    ensures m >= 2 ==> k <= m
    ensures m >= 5 ==> k == 5
    ensures 2 <= m <= 5 ==> k == m
    ensures m < 2 ==> k == 2
  {
    if m >= 2 then (if m < 5 then m else 5) else 2
  }

  /** The selection and fold logic of `train_and_log_models`. `counts` are
      the class counts of the balanced training labels; `score` gives each
      candidate's test metrics. */
  method TrainAndLogModels(counts: seq<nat>, score: Candidate -> Metrics) returns (r: Result<Trained, TrainError>)
    ensures counts == [] ==> r == Failure(EmptyTrainingSet)
    ensures counts != [] && Select(Entries(Candidates, score)).model.None? ==> r == Failure(NoModelSelected)
    ensures counts != [] && Select(Entries(Candidates, score)).model.Some? ==> r.Success?
    ensures r.Success? ==>
      var b := Select(Entries(Candidates, score));
      && b.model == Some(r.value.model) && r.value.auc == b.auc && r.value.acc == b.acc
      && r.value.folds == CvFolds(MinCount(counts))
  {
    if counts == [] {
      return Failure(EmptyTrainingSet);
    }
    var best := Initial;
    var i := 0;
    while i < |Baselines|
      invariant 0 <= i <= |Baselines|
      invariant best == Select(Entries(Baselines[..i], score))
    {
      var name := Baselines[i];
      var m := score(name);
      if m.auc > best.auc && m.acc > best.acc {
        best := Best(Some(name), m.auc, m.acc);
      }
      assert Entries(Baselines[..i + 1], score)[..i] == Entries(Baselines[..i], score);
      i := i + 1;
    }
    var folds := CvFolds(MinCount(counts));
    var m := score(XgbTuned);
    if m.auc > best.auc && m.acc > best.acc {
      best := Best(Some(XgbTuned), m.auc, m.acc);
    }
    assert Baselines[..i] == Baselines;
    assert Entries(Candidates, score)[..|Baselines|] == Entries(Baselines, score);
    if best.model.None? {
      return Failure(NoModelSelected);
    }
    r := Success(Trained(best.model.value, best.auc, best.acc, folds));
  }
}
