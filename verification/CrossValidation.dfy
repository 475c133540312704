/** crossValidate of internal/risk/model.go: every row is scored by a model that never saw its group. */
module CrossValidation {
  import opened Wrappers
  import opened NaiveBayes
  import opened GroupedFolds
  import RocAuc

  /** Training with a fixed feature extractor, and the probability a model gives an observation: the
      results of TrainWith and Score as functions. */
  type Learner = seq<Observation> -> Model
  type Scorer = (Model, Observation) -> real

  ghost predicate TrainsWith(fit: Learner, feats: Extractor) {
    forall rows :: fit(rows) == ModelOf(rows, feats)
  }

  /** The rows below n that lie on another fold than f. */
  function TrainingRows(obs: seq<Observation>, foldOf: seq<nat>, f: nat, n: nat): seq<Observation>
    requires |foldOf| == |obs| && n <= |obs|
  {
    if n == 0 then []
    else
      var rest := TrainingRows(obs, foldOf, f, n - 1);
      if foldOf[n - 1] != f then rest + [obs[n - 1]] else rest
  }

  /** The model that scores fold f: trained on all other folds. */
  function ModelFor(obs: seq<Observation>, foldOf: seq<nat>, f: nat, fit: Learner): Model
    requires |foldOf| == |obs|
  {
    fit(TrainingRows(obs, foldOf, f, |obs|))
  }

  /** The held-out prediction for row i. */
  function HeldOut(obs: seq<Observation>, foldOf: seq<nat>, i: nat, fit: Learner, score: Scorer): RocAuc.Prediction
    requires |foldOf| == |obs| && i < |obs|
  {
    RocAuc.Prediction(score(ModelFor(obs, foldOf, foldOf[i], fit), obs[i]), LabelOf(obs[i].verdict) == Positive,
                      obs[i].ruleID)
  }

  function FoldPredictions(obs: seq<Observation>, foldOf: seq<nat>, f: nat, n: nat, fit: Learner, score: Scorer)
    : seq<RocAuc.Prediction>
    requires |foldOf| == |obs| && n <= |obs|
  {
    if n == 0 then []
    else
      var rest := FoldPredictions(obs, foldOf, f, n - 1, fit, score);
      if foldOf[n - 1] == f then rest + [HeldOut(obs, foldOf, n - 1, fit, score)] else rest
  }

  /** The predictions of the first n folds, fold by fold. */
  function Predictions(obs: seq<Observation>, foldOf: seq<nat>, n: nat, fit: Learner, score: Scorer)
      : seq<RocAuc.Prediction>
    requires |foldOf| == |obs|
  {
    if n == 0 then []
    else Predictions(obs, foldOf, n - 1, fit, score) + FoldPredictions(obs, foldOf, n - 1, |obs|, fit, score)
  }

  /** The first n folds can all be scored. */
  predicate AllTrained(obs: seq<Observation>, foldOf: seq<nat>, n: nat, fit: Learner)
    requires |foldOf| == |obs|
  {
    n == 0 || (AllTrained(obs, foldOf, n - 1, fit) && ModelFor(obs, foldOf, n - 1, fit).Trained())
  }

  // ---------------------------------------------------------------- the loops

  method FitWithout(labeled: seq<Observation>, foldOf: seq<nat>, fold: nat, fit: Learner) returns (m: Model)
    requires |foldOf| == |labeled|
    ensures m == ModelFor(labeled, foldOf, fold, fit)
  {
    var train := [];
    for i := 0 to |labeled|
      invariant train == TrainingRows(labeled, foldOf, fold, i)
    {
      if foldOf[i] != fold {
        train := train + [labeled[i]];
      }
    }
    m := fit(train);
  }

  method PredictFold(labeled: seq<Observation>, foldOf: seq<nat>, fold: nat, m: Model, fit: Learner, score: Scorer)
    returns (out: seq<RocAuc.Prediction>)
    requires |foldOf| == |labeled| && m == ModelFor(labeled, foldOf, fold, fit)
    ensures out == FoldPredictions(labeled, foldOf, fold, |labeled|, fit, score)
  {
    out := [];
    for i := 0 to |labeled|
      invariant out == FoldPredictions(labeled, foldOf, fold, i, fit, score)
    {
      if foldOf[i] == fold {
        out := out
          + [RocAuc.Prediction(score(m, labeled[i]), LabelOf(labeled[i].verdict) == Positive, labeled[i].ruleID)];
      }
    }
  }

  /** crossValidate's loop over the folds. */
  method ScoreFolds(labeled: seq<Observation>, foldOf: seq<nat>, folds: nat, fit: Learner, score: Scorer)
    returns (out: Option<seq<RocAuc.Prediction>>)
    requires |foldOf| == |labeled|
    ensures out.Some? <==> AllTrained(labeled, foldOf, folds, fit)
    ensures out.Some? ==> out.value == Predictions(labeled, foldOf, folds, fit, score)
  {
    var predictions := [];
    for fold := 0 to folds
      invariant AllTrained(labeled, foldOf, fold, fit)
      invariant predictions == Predictions(labeled, foldOf, fold, fit, score)
    {
      var model := FitWithout(labeled, foldOf, fold, fit);
      if !model.Trained() {
        OneUntrained(labeled, foldOf, folds, fold, fit);
        return None;
      }
      var held := PredictFold(labeled, foldOf, fold, model, fit, score);
      predictions := predictions + held;
    }
    out := Some(predictions);
  }

  lemma {:induction false} OneUntrained(obs: seq<Observation>, foldOf: seq<nat>, n: nat, f: nat, fit: Learner)
    requires |foldOf| == |obs| && f < n && !ModelFor(obs, foldOf, f, fit).Trained()
    ensures !AllTrained(obs, foldOf, n, fit)
  {
    if f == n - 1 {
    } else {
      OneUntrained(obs, foldOf, n - 1, f, fit);
    }
  }

  /** crossValidate; None stands for its nil result. */
  method CrossValidate(labeled: seq<Observation>, folds: int, shuffle: set<GroupKey> -> seq<GroupKey>, fit: Learner,
                       score: Scorer)
    returns (out: Option<seq<RocAuc.Prediction>>, foldOf: seq<nat>, n: nat, keys: seq<GroupKey>)
    requires IsShuffle(shuffle)
    ensures KeyOrder(labeled, keys) && keys == shuffle(Keys(labeled))
    ensures n == FoldCount(labeled, keys, folds)
    ensures n > 0 ==> AssignedBy(labeled, keys, n, foldOf)
    ensures out.Some? <==> n > 0 && AllTrained(labeled, foldOf, n, fit)
    ensures out.Some? ==> out.value == Predictions(labeled, foldOf, n, fit, score)
    ensures out.Some? ==> EachOnce(FoldOrder(foldOf, n), |labeled|) && |out.value| == |labeled|
    ensures out.Some? ==> forall p :: 0 <= p < |labeled| ==>
              FoldOrder(foldOf, n)[p] < |labeled|
              && IsHeldOut(labeled, foldOf, FoldOrder(foldOf, n)[p], fit, score, out.value[p])
  {
    var assignment, count;
    assignment, count, keys := AssignFolds(labeled, folds, shuffle);
    foldOf, n := assignment, count;
    if count < 2 {
      return None, assignment, count, keys;
    }
    out := ScoreFolds(labeled, assignment, count, fit, score);
    PredictionsAreHeldOut(labeled, keys, n, foldOf, fit, score);
  }

  // ---------------------------------------------------------------- every row once, and never its own group

  function FoldRows(foldOf: seq<nat>, f: nat, n: nat): seq<nat>
    requires n <= |foldOf|
  {
    if n == 0 then []
    else
      var rest := FoldRows(foldOf, f, n - 1);
      if foldOf[n - 1] == f then rest + [n - 1] else rest
  }

  /** The rows in the order they are predicted: fold by fold. */
  function FoldOrder(foldOf: seq<nat>, n: nat): seq<nat> {
    if n == 0 then [] else FoldOrder(foldOf, n - 1) + FoldRows(foldOf, n - 1, |foldOf|)
  }

  /** The rows below n on fold f. */
  function RowsOnFold(foldOf: seq<nat>, f: nat, n: nat): set<nat>
    requires n <= |foldOf|
  {
    set i: nat | i < n && foldOf[i] == f
  }

  lemma {:induction false} FoldRowsOnce(foldOf: seq<nat>, f: nat, n: nat)
    requires n <= |foldOf|
    ensures multiset(FoldRows(foldOf, f, n)) == multiset(RowsOnFold(foldOf, f, n))
  {
    if n == 0 {
    } else {
      FoldRowsOnce(foldOf, f, n - 1);
      assert RowsOnFold(foldOf, f, n) == RowsOnFold(foldOf, f, n - 1) + if foldOf[n - 1] == f then {n - 1} else {};
    }
  }

  /** The rows on the first n folds. */
  function RowsOnFirst(foldOf: seq<nat>, n: nat): set<nat> {
    set i: nat | i < |foldOf| && foldOf[i] < n
  }

  lemma BagOfBoth(a: seq<nat>, b: seq<nat>)
    ensures multiset(a + b) == multiset(a) + multiset(b)
  {
  }

  lemma NextFold(foldOf: seq<nat>, n: nat)
    ensures multiset(RowsOnFirst(foldOf, n + 1))
            == multiset(RowsOnFirst(foldOf, n)) + multiset(RowsOnFold(foldOf, n, |foldOf|))
  {
    var before, last := RowsOnFirst(foldOf, n), RowsOnFold(foldOf, n, |foldOf|);
    assert before !! last;
    assert RowsOnFirst(foldOf, n + 1) == before + last;
  }

  lemma {:induction false} FoldOrderOnce(foldOf: seq<nat>, n: nat)
    ensures multiset(FoldOrder(foldOf, n)) == multiset(RowsOnFirst(foldOf, n))
  {
    if n == 0 {
    } else {
      FoldOrderOnce(foldOf, n - 1);
      FoldRowsOnce(foldOf, n - 1, |foldOf|);
      NextFold(foldOf, n - 1);
      var a, b := FoldOrder(foldOf, n - 1), FoldRows(foldOf, n - 1, |foldOf|);
      assert FoldOrder(foldOf, n) == a + b;
      BagOfBoth(a, b);
    }
  }

  /** 0, 1, ... n - 1. */
  function Below(n: nat): (rows: set<nat>)
    ensures |rows| == n && forall i: nat :: i in rows <==> i < n
  {
    if n == 0 then {} else Below(n - 1) + {n - 1}
  }

  /** order lists every row below n once. */
  ghost predicate EachOnce(order: seq<nat>, n: nat) {
    |order| == n && multiset(order) == multiset(Below(n))
  }

  /** The order of prediction lists every row exactly once. */
  lemma EveryRowOnce(obs: seq<Observation>, keys: seq<GroupKey>, n: nat, foldOf: seq<nat>)
    requires n > 0 && AssignedBy(obs, keys, n, foldOf)
    ensures EachOnce(FoldOrder(foldOf, n), |obs|)
  {
    FoldOrderOnce(foldOf, n);
    assert RowsOnFirst(foldOf, n) == Below(|obs|);
    assert |FoldOrder(foldOf, n)| == |multiset(FoldOrder(foldOf, n))|;
  }

  lemma {:induction false} FoldPredictionsAt(obs: seq<Observation>, foldOf: seq<nat>, f: nat, n: nat, fit: Learner,
                                             score: Scorer, p: nat)
    requires |foldOf| == |obs| && n <= |obs|
    ensures |FoldPredictions(obs, foldOf, f, n, fit, score)| == |FoldRows(foldOf, f, n)|
    ensures p < |FoldRows(foldOf, f, n)| ==> FoldRows(foldOf, f, n)[p] < n
    ensures p < |FoldRows(foldOf, f, n)| ==>
            FoldPredictions(obs, foldOf, f, n, fit, score)[p]
              == HeldOut(obs, foldOf, FoldRows(foldOf, f, n)[p], fit, score)
  {
    if n == 0 {
    } else {
      FoldPredictionsAt(obs, foldOf, f, n - 1, fit, score, p);
    }
  }

  lemma {:induction false} FoldPredictionsLength(obs: seq<Observation>, foldOf: seq<nat>, f: nat, n: nat, fit: Learner,
                                                 score: Scorer)
    requires |foldOf| == |obs| && n <= |obs|
    ensures |FoldPredictions(obs, foldOf, f, n, fit, score)| == |FoldRows(foldOf, f, n)|
  {
    if n == 0 {
    } else {
      FoldPredictionsLength(obs, foldOf, f, n - 1, fit, score);
    }
  }

  lemma {:induction false} PredictionsLength(obs: seq<Observation>, foldOf: seq<nat>, n: nat, fit: Learner,
                                             score: Scorer)
    requires |foldOf| == |obs|
    ensures |Predictions(obs, foldOf, n, fit, score)| == |FoldOrder(foldOf, n)|
  {
    if n == 0 {
    } else {
      PredictionsLength(obs, foldOf, n - 1, fit, score);
      FoldPredictionsLength(obs, foldOf, n - 1, |obs|, fit, score);
      assert Predictions(obs, foldOf, n, fit, score)
          == Predictions(obs, foldOf, n - 1, fit, score) + FoldPredictions(obs, foldOf, n - 1, |obs|, fit, score);
    }
  }

  /** Prediction number p is the held-out prediction of the p-th row in that order. */
  lemma {:induction false} PredictionsAt(obs: seq<Observation>, foldOf: seq<nat>, n: nat, fit: Learner, score: Scorer,
                                         p: nat)
    requires |foldOf| == |obs| && p < |FoldOrder(foldOf, n)|
    ensures |Predictions(obs, foldOf, n, fit, score)| == |FoldOrder(foldOf, n)|
    ensures FoldOrder(foldOf, n)[p] < |obs|
    ensures Predictions(obs, foldOf, n, fit, score)[p] == HeldOut(obs, foldOf, FoldOrder(foldOf, n)[p], fit, score)
  {
    PredictionsLength(obs, foldOf, n, fit, score);
    PredictionsLength(obs, foldOf, n - 1, fit, score);
    var before := |FoldOrder(foldOf, n - 1)|;
    if p < before {
      PredictionsAt(obs, foldOf, n - 1, fit, score, p);
    } else {
      FoldPredictionsAt(obs, foldOf, n - 1, |obs|, fit, score, p - before);
    }
  }

  ghost predicate Rising(rows: seq<nat>) {
    forall t, u :: 0 <= t < u < |rows| ==> rows[t] < rows[u]
  }

  /** rows lists, ascending, exactly the rows on other folds than f. */
  ghost predicate OtherFolds(foldOf: seq<nat>, f: nat, rows: seq<nat>) {
    && InRange(rows, |foldOf|) && Rising(rows)
    && (forall j :: j in rows <==> 0 <= j < |foldOf| && foldOf[j] != f)
  }

  function Pick(obs: seq<Observation>, rows: seq<nat>): seq<Observation>
    requires InRange(rows, |obs|)
  {
    seq(|rows|, t requires 0 <= t < |rows| => obs[rows[t]])
  }

  /** The prediction of row i comes from a model fitted to the rows on other folds, all of other units than
      row i, and carries row i's own label and rule. */
  ghost predicate IsHeldOut(obs: seq<Observation>, foldOf: seq<nat>, i: nat, fit: Learner, score: Scorer,
                            p: RocAuc.Prediction)
    requires |foldOf| == |obs| && i < |obs|
  {
    && p.positive == (obs[i].verdict == "true_positive") && p.rule == obs[i].ruleID
    && exists rows :: OtherFolds(foldOf, foldOf[i], rows) && p.prob == score(fit(Pick(obs, rows)), obs[i])
                      && forall t :: 0 <= t < |rows| ==> !SameUnit(obs[i], obs[rows[t]])
  }

  function OtherRows(foldOf: seq<nat>, f: nat, n: nat): (rows: seq<nat>)
    requires n <= |foldOf|
    ensures InRange(rows, n)
  {
    if n == 0 then []
    else if foldOf[n - 1] != f then OtherRows(foldOf, f, n - 1) + [n - 1] else OtherRows(foldOf, f, n - 1)
  }

  lemma {:induction false} OtherRowsMembers(foldOf: seq<nat>, f: nat, n: nat)
    requires n <= |foldOf|
    ensures forall j :: j in OtherRows(foldOf, f, n) <==> 0 <= j < n && foldOf[j] != f
  {
    if n == 0 {
    } else {
      OtherRowsMembers(foldOf, f, n - 1);
    }
  }

  lemma {:induction false} OtherRowsRise(foldOf: seq<nat>, f: nat, n: nat)
    requires n <= |foldOf|
    ensures Rising(OtherRows(foldOf, f, n))
  {
    if n == 0 {
    } else {
      OtherRowsRise(foldOf, f, n - 1);
    }
  }

  lemma OtherRowsAre(foldOf: seq<nat>, f: nat)
    ensures OtherFolds(foldOf, f, OtherRows(foldOf, f, |foldOf|))
  {
    OtherRowsMembers(foldOf, f, |foldOf|);
    OtherRowsRise(foldOf, f, |foldOf|);
  }

  lemma {:induction false} TrainingIsPicked(obs: seq<Observation>, foldOf: seq<nat>, f: nat, n: nat)
    requires |foldOf| == |obs| && n <= |obs|
    ensures TrainingRows(obs, foldOf, f, n) == Pick(obs, OtherRows(foldOf, f, n))
  {
    if n == 0 {
    } else {
      TrainingIsPicked(obs, foldOf, f, n - 1);
    }
  }

  lemma HeldOutIsHeldOut(obs: seq<Observation>, keys: seq<GroupKey>, n: nat, foldOf: seq<nat>, i: nat, fit: Learner,
                         score: Scorer)
    requires n > 0 && AssignedBy(obs, keys, n, foldOf) && i < |obs|
    ensures IsHeldOut(obs, foldOf, i, fit, score, HeldOut(obs, foldOf, i, fit, score))
  {
    var f := foldOf[i];
    var rows := OtherRows(foldOf, f, |obs|);
    OtherRowsAre(foldOf, f);
    TrainingIsPicked(obs, foldOf, f, |obs|);
    forall t | 0 <= t < |rows|
      ensures !SameUnit(obs[i], obs[rows[t]])
    {
      assert rows[t] in rows;
      NoLeak(obs, keys, n, foldOf, i, rows[t]);
    }
    assert OtherFolds(foldOf, f, rows);
  }

  /** Rows of one lab scene or fleet host lie on one fold. */
  lemma NoLeak(obs: seq<Observation>, keys: seq<GroupKey>, n: nat, foldOf: seq<nat>, i: nat, j: nat)
    requires n > 0 && AssignedBy(obs, keys, n, foldOf) && i < |obs| && j < |obs|
    ensures SameUnit(obs[i], obs[j]) ==> foldOf[i] == foldOf[j]
  {
    GroupsAreUnits(obs, i, j);
  }

  /** What crossValidate returns: for every row once, a prediction by a model that never saw its unit. */
  lemma PredictionsAreHeldOut(obs: seq<Observation>, keys: seq<GroupKey>, n: nat, foldOf: seq<nat>, fit: Learner,
                              score: Scorer)
    requires n > 0 && AssignedBy(obs, keys, n, foldOf)
    ensures var order, out := FoldOrder(foldOf, n), Predictions(obs, foldOf, n, fit, score);
            && EachOnce(order, |obs|) && |out| == |obs|
            && forall p :: 0 <= p < |obs| ==> order[p] < |obs| && IsHeldOut(obs, foldOf, order[p], fit, score, out[p])
  {
    EveryRowOnce(obs, keys, n, foldOf);
    PredictionsLength(obs, foldOf, n, fit, score);
    forall p | 0 <= p < |obs|
      ensures FoldOrder(foldOf, n)[p] < |obs|
      ensures IsHeldOut(obs, foldOf, FoldOrder(foldOf, n)[p], fit, score, Predictions(obs, foldOf, n, fit, score)[p])
    {
      PredictionsAt(obs, foldOf, n, fit, score, p);
      HeldOutIsHeldOut(obs, keys, n, foldOf, FoldOrder(foldOf, n)[p], fit, score);
    }
  }

  /** With the folds fixed, no other row of a fold has any influence on the predictions of its rows. */
  lemma OwnFoldDoesNotMatter(obs: seq<Observation>, obs': seq<Observation>, foldOf: seq<nat>, n: nat, fit: Learner,
                             score: Scorer, p: nat)
    requires |foldOf| == |obs| == |obs'| && p < |FoldOrder(foldOf, n)| && FoldOrder(foldOf, n)[p] < |obs|
    requires var i := FoldOrder(foldOf, n)[p];
             obs'[i] == obs[i] && forall j :: 0 <= j < |obs| && foldOf[j] != foldOf[i] ==> obs'[j] == obs[j]
    ensures |Predictions(obs, foldOf, n, fit, score)| == |Predictions(obs', foldOf, n, fit, score)|
            == |FoldOrder(foldOf, n)|
    ensures Predictions(obs', foldOf, n, fit, score)[p] == Predictions(obs, foldOf, n, fit, score)[p]
  {
    var f := foldOf[FoldOrder(foldOf, n)[p]];
    PredictionsAt(obs, foldOf, n, fit, score, p);
    PredictionsAt(obs', foldOf, n, fit, score, p);
    TrainingIsPicked(obs, foldOf, f, |obs|);
    TrainingIsPicked(obs', foldOf, f, |obs|);
    OtherRowsAre(foldOf, f);
    var rows := OtherRows(foldOf, f, |obs|);
    assert forall t :: 0 <= t < |rows| ==> rows[t] in rows;
    assert Pick(obs, rows) == Pick(obs', rows);
  }

  // ---------------------------------------------------------------- when predictions are returned

  ghost predicate SparesRow(obs: seq<Observation>, foldOf: seq<nat>, f: nat, l: Label, n: nat)
    requires |foldOf| == |obs| && n <= |obs|
  {
    exists j :: 0 <= j < n && foldOf[j] != f && LabelOf(obs[j].verdict) == l
  }

  lemma SparesRowStep(obs: seq<Observation>, foldOf: seq<nat>, f: nat, l: Label, n: nat)
    requires |foldOf| == |obs| && 0 < n <= |obs|
    ensures SparesRow(obs, foldOf, f, l, n) <==>
            SparesRow(obs, foldOf, f, l, n - 1) || (foldOf[n - 1] != f && LabelOf(obs[n - 1].verdict) == l)
  {
  }

  lemma {:induction false} DocsOfTrainingRows(obs: seq<Observation>, foldOf: seq<nat>, f: nat, l: Label, n: nat)
    requires |foldOf| == |obs| && n <= |obs|
    ensures Docs(TrainingRows(obs, foldOf, f, n), l) > 0 <==> SparesRow(obs, foldOf, f, l, n)
  {
    if n == 0 {
    } else {
      DocsOfTrainingRows(obs, foldOf, f, l, n - 1);
      SparesRowStep(obs, foldOf, f, l, n);
      DocsAppend(TrainingRows(obs, foldOf, f, n - 1), [obs[n - 1]], l);
      assert [obs[n - 1]][1..] == [];
    }
  }

  /** A fold can be scored exactly when it leaves a row of each class to train on. */
  lemma TrainedExactlyWhenBothClassesRemain(obs: seq<Observation>, foldOf: seq<nat>, f: nat, fit: Learner,
                                            feats: Extractor)
    requires |foldOf| == |obs| && TrainsWith(fit, feats)
    ensures ModelFor(obs, foldOf, f, fit).Trained() <==>
            SparesRow(obs, foldOf, f, Positive, |obs|) && SparesRow(obs, foldOf, f, Negative, |obs|)
  {
    DocsOfTrainingRows(obs, foldOf, f, Positive, |obs|);
    DocsOfTrainingRows(obs, foldOf, f, Negative, |obs|);
    assert fit(TrainingRows(obs, foldOf, f, |obs|)) == ModelOf(TrainingRows(obs, foldOf, f, |obs|), feats);
  }

  lemma {:induction false} AllTrainedMeaning(obs: seq<Observation>, foldOf: seq<nat>, n: nat, fit: Learner)
    requires |foldOf| == |obs|
    ensures AllTrained(obs, foldOf, n, fit) <==> forall f :: 0 <= f < n ==> ModelFor(obs, foldOf, f, fit).Trained()
  {
    if n == 0 {
    } else {
      AllTrainedMeaning(obs, foldOf, n - 1, fit);
    }
  }

  /** crossValidate returns predictions exactly when every fold leaves a row of each class. */
  lemma ScoresExactlyWhenBothClassesRemain(obs: seq<Observation>, foldOf: seq<nat>, n: nat, fit: Learner,
                                           feats: Extractor)
    requires |foldOf| == |obs| && TrainsWith(fit, feats)
    ensures AllTrained(obs, foldOf, n, fit) <==>
            forall f :: 0 <= f < n ==>
              SparesRow(obs, foldOf, f, Positive, |obs|) && SparesRow(obs, foldOf, f, Negative, |obs|)
  {
    AllTrainedMeaning(obs, foldOf, n, fit);
    forall f | 0 <= f < n
      ensures ModelFor(obs, foldOf, f, fit).Trained() <==>
              SparesRow(obs, foldOf, f, Positive, |obs|) && SparesRow(obs, foldOf, f, Negative, |obs|)
    {
      TrainedExactlyWhenBothClassesRemain(obs, foldOf, f, fit, feats);
    }
  }

  /** With single-class groups, two folds or more are enough for crossValidate to return predictions. */
  lemma SingleClassGroupsAlwaysScore(obs: seq<Observation>, keys: seq<GroupKey>, folds: int, foldOf: seq<nat>,
                                     fit: Learner, feats: Extractor)
    requires KeyOrder(obs, keys) && SingleClass(obs) && TrainsWith(fit, feats)
    requires FoldCount(obs, keys, folds) > 0 && AssignedBy(obs, keys, FoldCount(obs, keys, folds), foldOf)
    ensures AllTrained(obs, foldOf, FoldCount(obs, keys, folds), fit)
  {
    var n := FoldCount(obs, keys, folds);
    forall f | 0 <= f < n
      ensures SparesRow(obs, foldOf, f, Positive, |obs|) && SparesRow(obs, foldOf, f, Negative, |obs|)
    {
      var other := if f == 0 then 1 else 0;
      var p := EveryFoldHasBothClasses(obs, keys, n, foldOf, Positive, other);
      var q := EveryFoldHasBothClasses(obs, keys, n, foldOf, Negative, other);
    }
    ScoresExactlyWhenBothClassesRemain(obs, foldOf, n, fit, feats);
  }

  // ---------------------------------------------------------------- groups of mixed class

  function Finding(host: string, verdict: string): Observation {
    Observation("agentless_probe", "", host, "r", verdict, 0, map[])
  }

  /** Four hosts: a and b only false positives, c a true positive, d one of each. */
  datatype Hosts = Hosts(a: string, b: string, c: string, d: string) {
    predicate Distinct() {
      a != "" && b != "" && c != "" && d != "" && a != b && a != c && a != d && b != c && b != d && c != d
    }

    function Rows(): seq<Observation> {
      [Finding(a, "false_positive"), Finding(b, "false_positive"), Finding(b, "false_positive"),
       Finding(c, "true_positive"), Finding(d, "true_positive"), Finding(d, "false_positive")]
    }

    function Groups(): seq<GroupKey> {
      [HostKey(a), HostKey(b), HostKey(c), HostKey(d)]
    }
  }

  /** The group and the label of each of the six rows. */
  predicate RowKeys(h: Hosts, obs: seq<Observation>) {
    && |obs| == 6
    && KeyOf(obs, 0) == HostKey(h.a)
    && KeyOf(obs, 1) == HostKey(h.b) && KeyOf(obs, 2) == HostKey(h.b)
    && KeyOf(obs, 3) == HostKey(h.c)
    && KeyOf(obs, 4) == HostKey(h.d) && KeyOf(obs, 5) == HostKey(h.d)
  }

  predicate RowLabels(obs: seq<Observation>) {
    && |obs| == 6
    && (forall i :: 0 <= i < 3 ==> LabelOf(obs[i].verdict) == Negative)
    && LabelOf(obs[3].verdict) == LabelOf(obs[4].verdict) == Positive
    && LabelOf(obs[5].verdict) == Negative
  }

  lemma HostsHaveRowKeys(h: Hosts)
    requires h.Distinct()
    ensures RowKeys(h, h.Rows()) && RowLabels(h.Rows())
  {
  }

  function Bit(b: bool): nat {
    if b then 1 else 0
  }

  lemma TallyOfSix(obs: seq<Observation>, k: GroupKey, l: Label)
    requires |obs| == 6
    ensures GroupTally(obs, k).Of(l)
         == Bit(InGroup(obs, 0, k, l)) + Bit(InGroup(obs, 1, k, l)) + Bit(InGroup(obs, 2, k, l))
          + Bit(InGroup(obs, 3, k, l)) + Bit(InGroup(obs, 4, k, l)) + Bit(InGroup(obs, 5, k, l))
  {
    TallyCountsRows(obs, k, l, 6);
    for n := 0 to 6
      invariant |GroupRowsWith(obs, k, l, n)|
             == (if n > 0 then Bit(InGroup(obs, 0, k, l)) else 0) + (if n > 1 then Bit(InGroup(obs, 1, k, l)) else 0)
              + (if n > 2 then Bit(InGroup(obs, 2, k, l)) else 0) + (if n > 3 then Bit(InGroup(obs, 3, k, l)) else 0)
              + (if n > 4 then Bit(InGroup(obs, 4, k, l)) else 0) + (if n > 5 then Bit(InGroup(obs, 5, k, l)) else 0)
    {
      NextRowCounted(obs, k, l, n + 1);
    }
  }

  lemma TallyOfHost(h: Hosts, obs: seq<Observation>, k: GroupKey, t: Tally)
    requires h.Distinct() && RowKeys(h, obs) && RowLabels(obs)
    requires (k, t) in [(HostKey(h.a), Tally(0, 1, 0)), (HostKey(h.b), Tally(0, 2, 0)),
                        (HostKey(h.c), Tally(0, 0, 1)), (HostKey(h.d), Tally(0, 1, 1))]
    ensures GroupTally(obs, k) == t
  {
    TallyOfSix(obs, k, Unlabeled);
    TallyOfSix(obs, k, Negative);
    TallyOfSix(obs, k, Positive);
  }

  lemma TalliesOfHosts(h: Hosts)
    requires h.Distinct()
    ensures GroupTally(h.Rows(), HostKey(h.a)) == Tally(0, 1, 0)
    ensures GroupTally(h.Rows(), HostKey(h.b)) == Tally(0, 2, 0)
    ensures GroupTally(h.Rows(), HostKey(h.c)) == Tally(0, 0, 1)
    ensures GroupTally(h.Rows(), HostKey(h.d)) == Tally(0, 1, 1)
  {
    HostsHaveRowKeys(h);
    TallyOfHost(h, h.Rows(), HostKey(h.a), Tally(0, 1, 0));
    TallyOfHost(h, h.Rows(), HostKey(h.b), Tally(0, 2, 0));
    TallyOfHost(h, h.Rows(), HostKey(h.c), Tally(0, 0, 1));
    TallyOfHost(h, h.Rows(), HostKey(h.d), Tally(0, 1, 1));
  }

  /** The two loads after some groups. */
  ghost predicate Carries(obs: seq<Observation>, keys: seq<GroupKey>, n: nat, load0: Tally, load1: Tally) {
    n == 2 && Loads(obs, keys, n)[0] == load0 && Loads(obs, keys, n)[1] == load1
  }

  lemma PlaceFirst(obs: seq<Observation>, keys: seq<GroupKey>, n: nat, k: GroupKey, group: Tally, load0: Tally,
                   load1: Tally)
    requires Carries(obs, keys, n, load0, load1) && GroupTally(obs, k) == group
    requires Cost(group, load0) <= Cost(group, load1)
    ensures Carries(obs, keys + [k], n, load0.Plus(group), load1)
    ensures Placement(obs, keys + [k], n) == Placement(obs, keys, n)[k := 0]
  {
    assert (keys + [k])[..|keys|] == keys;
  }

  lemma PlaceSecond(obs: seq<Observation>, keys: seq<GroupKey>, n: nat, k: GroupKey, group: Tally, load0: Tally,
                    load1: Tally)
    requires Carries(obs, keys, n, load0, load1) && GroupTally(obs, k) == group
    requires Cost(group, load0) > Cost(group, load1)
    ensures Carries(obs, keys + [k], n, load0, load1.Plus(group))
    ensures Placement(obs, keys + [k], n) == Placement(obs, keys, n)[k := 1]
  {
    assert (keys + [k])[..|keys|] == keys;
  }

  lemma PlaceA(h: Hosts, obs: seq<Observation>, n: nat, keys: seq<GroupKey>)
    requires h.Distinct() && obs == h.Rows() && n == 2 && keys == []
    ensures Carries(obs, keys + [HostKey(h.a)], n, Tally(0, 1, 0), NONE)
    ensures Placement(obs, keys + [HostKey(h.a)], n) == map[][HostKey(h.a) := 0]
  {
    TalliesOfHosts(h);
    PlaceFirst(obs, keys, n, HostKey(h.a), Tally(0, 1, 0), NONE, NONE);
  }

  lemma PlaceB(h: Hosts, obs: seq<Observation>, n: nat, keys: seq<GroupKey>)
    requires h.Distinct() && obs == h.Rows() && Carries(obs, keys, n, Tally(0, 1, 0), NONE)
    ensures Carries(obs, keys + [HostKey(h.b)], n, Tally(0, 1, 0), Tally(0, 2, 0))
    ensures Placement(obs, keys + [HostKey(h.b)], n) == Placement(obs, keys, n)[HostKey(h.b) := 1]
  {
    TalliesOfHosts(h);
    PlaceSecond(obs, keys, n, HostKey(h.b), Tally(0, 2, 0), Tally(0, 1, 0), NONE);
  }

  lemma PlaceC(h: Hosts, obs: seq<Observation>, n: nat, keys: seq<GroupKey>)
    requires h.Distinct() && obs == h.Rows() && Carries(obs, keys, n, Tally(0, 1, 0), Tally(0, 2, 0))
    ensures Carries(obs, keys + [HostKey(h.c)], n, Tally(0, 1, 1), Tally(0, 2, 0))
    ensures Placement(obs, keys + [HostKey(h.c)], n) == Placement(obs, keys, n)[HostKey(h.c) := 0]
  {
    TalliesOfHosts(h);
    PlaceFirst(obs, keys, n, HostKey(h.c), Tally(0, 0, 1), Tally(0, 1, 0), Tally(0, 2, 0));
  }

  lemma PlaceD(h: Hosts, obs: seq<Observation>, n: nat, keys: seq<GroupKey>)
    requires h.Distinct() && obs == h.Rows() && Carries(obs, keys, n, Tally(0, 1, 1), Tally(0, 2, 0))
    ensures Placement(obs, keys + [HostKey(h.d)], n) == Placement(obs, keys, n)[HostKey(h.d) := 0]
  {
    TalliesOfHosts(h);
    PlaceFirst(obs, keys, n, HostKey(h.d), Tally(0, 1, 1), Tally(0, 1, 1), Tally(0, 2, 0));
  }

  /** Groups a, c and d all go to fold 0. */
  lemma PlaceAll(h: Hosts, obs: seq<Observation>, n: nat)
    requires h.Distinct() && obs == h.Rows() && n == 2
    ensures Placement(obs, h.Groups(), n)
            == map[][HostKey(h.a) := 0][HostKey(h.b) := 1][HostKey(h.c) := 0][HostKey(h.d) := 0]
  {
    var a, b, c, d := HostKey(h.a), HostKey(h.b), HostKey(h.c), HostKey(h.d);
    PlaceA(h, obs, n, []);
    PlaceB(h, obs, n, [] + [a]);
    PlaceC(h, obs, n, [] + [a] + [b]);
    PlaceD(h, obs, n, [] + [a] + [b] + [c]);
    assert h.Groups() == [] + [a] + [b] + [c] + [d];
  }

  /** The fold of each of the six rows, when groups a, c and d go to fold 0 and group b to fold 1. */
  lemma RowPlaced(h: Hosts, obs: seq<Observation>, at: map<GroupKey, nat>, foldOf: seq<nat>, i: nat)
    requires RowKeys(h, obs) && i < |obs| && foldOf == [0, 1, 1, 0, 0, 0]
    requires forall k :: k in h.Groups() ==> k in at
    requires at[HostKey(h.a)] == at[HostKey(h.c)] == at[HostKey(h.d)] == 0 && at[HostKey(h.b)] == 1
    ensures KeyOf(obs, i) in h.Groups() && foldOf[i] == at[KeyOf(obs, i)]
  {
  }

  lemma FollowPlacement(h: Hosts, obs: seq<Observation>, keys: seq<GroupKey>, n: nat, foldOf: seq<nat>)
    requires h.Distinct() && RowKeys(h, obs) && n > 0 && foldOf == [0, 1, 1, 0, 0, 0]
    requires keys == h.Groups()
    requires var at := Placement(obs, keys, n);
             at[HostKey(h.a)] == at[HostKey(h.c)] == at[HostKey(h.d)] == 0 && at[HostKey(h.b)] == 1
    ensures AssignedBy(obs, keys, n, foldOf)
  {
    forall i | 0 <= i < |obs|
      ensures KeyOf(obs, i) in keys && foldOf[i] == Placement(obs, keys, n)[KeyOf(obs, i)]
    {
      RowPlaced(h, obs, Placement(obs, keys, n), foldOf, i);
    }
  }

  lemma HostAssignment(h: Hosts, obs: seq<Observation>, n: nat)
    requires h.Distinct() && obs == h.Rows() && n == 2
    ensures AssignedBy(obs, h.Groups(), n, [0, 1, 1, 0, 0, 0])
  {
    HostsHaveRowKeys(h);
    PlaceAll(h, obs, n);
    FollowPlacement(h, obs, h.Groups(), n, [0, 1, 1, 0, 0, 0]);
  }

  lemma NextKey(obs: seq<Observation>, n: nat)
    requires n < |obs|
    ensures KeysBelow(obs, n + 1) == KeysBelow(obs, n) + {KeyOf(obs, n)}
  {
  }

  lemma HostKeyOrder(h: Hosts, obs: seq<Observation>)
    requires h.Distinct() && RowKeys(h, obs)
    ensures KeyOrder(obs, h.Groups())
  {
    NextKey(obs, 0);
    NextKey(obs, 1);
    NextKey(obs, 2);
    NextKey(obs, 3);
    NextKey(obs, 4);
    NextKey(obs, 5);
    assert Keys(obs) == {HostKey(h.a), HostKey(h.b), HostKey(h.c), HostKey(h.d)};
  }

  lemma HostGroupCounts(h: Hosts, obs: seq<Observation>)
    requires h.Distinct() && obs == h.Rows()
    ensures GroupsWith(obs, h.Groups(), Positive) == 2 && GroupsWith(obs, h.Groups(), Negative) == 3
  {
    TalliesOfHosts(h);
    var keys := h.Groups();
    assert keys[..3][..2] == keys[..2] && keys[..2][..1] == keys[..1] && keys[..1][..0] == [];
    assert GroupsWith(obs, keys[..1], Positive) == 0 && GroupsWith(obs, keys[..1], Negative) == 1;
    assert GroupsWith(obs, keys[..2], Positive) == 0 && GroupsWith(obs, keys[..2], Negative) == 2;
    assert GroupsWith(obs, keys[..3], Positive) == 1 && GroupsWith(obs, keys[..3], Negative) == 2;
  }

  lemma NoPositiveLeft(h: Hosts, foldOf: seq<nat>, n: nat, fit: Learner, feats: Extractor)
    requires TrainsWith(fit, feats) && n == 2 && foldOf == [0, 1, 1, 0, 0, 0]
    ensures !AllTrained(h.Rows(), foldOf, n, fit)
  {
    TrainedExactlyWhenBothClassesRemain(h.Rows(), foldOf, 0, fit, feats);
    assert !SparesRow(h.Rows(), foldOf, 0, Positive, 6);
    OneUntrained(h.Rows(), foldOf, n, 0, fit);
  }

  /** Once a group may mix classes the guarantee is gone: two folds can be asked for and granted, and
      yet one fold ends up with every positive, so that crossValidate returns nothing. */
  lemma MixedGroupsCanFail(h: Hosts, fit: Learner, feats: Extractor)
    requires h.Distinct() && TrainsWith(fit, feats)
    ensures KeyOrder(h.Rows(), h.Groups()) && FoldCount(h.Rows(), h.Groups(), 2) == 2
    ensures AssignedBy(h.Rows(), h.Groups(), 2, [0, 1, 1, 0, 0, 0])
    ensures !AllTrained(h.Rows(), [0, 1, 1, 0, 0, 0], 2, fit)
  {
    HostsHaveRowKeys(h);
    HostKeyOrder(h, h.Rows());
    HostGroupCounts(h, h.Rows());
    HostAssignment(h, h.Rows(), 2);
    NoPositiveLeft(h, [0, 1, 1, 0, 0, 0], 2, fit, feats);
  }
}
