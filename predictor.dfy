/**
 * The `PotatoDiseasePredictor` class of model_utils.py: a fixed, ordered
 * label list, an optional loaded model, `load_model` and `predict`.
 *
 * Keras, PIL and the filesystem are outside the model. What they produce
 * enters as parameters: whether the model file exists and what loading it
 * gave, what `preprocess_image` returned, and (through the loaded model's
 * `infer` function) what `model.predict` returned.
 */
module Predictor {

  import opened Optional
  import opened Ranking

  /** The preprocessed image array (1 x 255 x 255 x 3 floats); its contents are never inspected. */
  type Tensor = seq<real>

  /**
   * What one call of the model's inference entry point produces: a batch of
   * score rows (row 0 belongs to the one image passed in), or an exception.
   */
  datatype Inference = Output(batch: seq<seq<real>>) | Raised

  /** A loaded model, seen only through its inference entry point. */
  datatype Model = Model(infer: Tensor -> Inference)

  /** What Keras' `load_model` gave for an existing file: a model, or an exception. */
  datatype LoadOutcome = Loaded(model: Model) | LoadFailed

  /** The triple `predict` returns: (predicted class or None, confidence, ranked list). */
  datatype PredictResult = PredictResult(
    predictedClass: Option<string>,
    confidence: real,
    allPredictions: seq<Prediction>)

  /** `(None, 0.0, [])`, returned on every failure. */
  const Failed: PredictResult := PredictResult(None, 0.0, [])

  const DefaultModelPath: string := "my_model.h5"

  /** The label of each output index of the model, in index order. */
  const ClassNames: seq<string> := [
    "Black Scurf",
    "Blackleg",
    "Common Scab",
    "Dry Rot",
    "Healthy",
    "Miscellaneous",
    "Pink Rot"
  ]

  const ImageSize: (nat, nat) := (255, 255)

  /** The records `predict` builds before sorting: one `(class_names[i], scores[i])` per class index. */
  function Entries(classNames: seq<string>, scores: seq<real>): (r: seq<Prediction>)
    requires |classNames| <= |scores|
    ensures |r| == |classNames|
    ensures forall i :: 0 <= i < |r| ==> r[i] == Prediction(classNames[i], scores[i])
  {
    seq(|classNames|, i requires 0 <= i < |classNames| => Prediction(classNames[i], scores[i]))
  }

  /**
   * An inference result `predict` can rank with `n` labels without raising:
   * there is a row 0, argmax of it does not fail (the row is non-empty),
   * the label lookup at the argmax does not fail (it is below `n`), and the
   * per-class records can be built (the row has at least `n` scores).
   */
  predicate Rankable(out: Inference, n: nat)
  {
    && out.Output?
    && |out.batch| > 0
    && |out.batch[0]| > 0
    && Argmax(out.batch[0]) < n <= |out.batch[0]|
  }

  /** The confidences of the per-class records are the first scores of the row, unchanged. */
  lemma EntriesKeepScores(classNames: seq<string>, row: seq<real>)
    requires |classNames| <= |row|
    ensures Confidences(Entries(classNames, row)) == row[..|classNames|]
  {
  }

  /**
   * The top of `predict` agrees with the head of its ranked list: in any
   * sorted, stable permutation of the per-class records of a usable row, the
   * first record is the label at the argmax of the whole row with its score.
   */
  lemma TopIsHead(classNames: seq<string>, row: seq<real>, ranked: seq<Prediction>)
    requires |row| > 0 && Argmax(row) < |classNames| <= |row|
    requires SortedDesc(ranked)
    requires multiset(ranked) == multiset(Entries(classNames, row))
    requires SameTies(ranked, Entries(classNames, row))
    ensures |ranked| > 0 && ranked[0] == Prediction(classNames[Argmax(row)], row[Argmax(row)])
  {
    var entries := Entries(classNames, row);
    SortedStableHead(entries, ranked);
    EntriesKeepScores(classNames, row);
    ArgmaxOfPrefix(row, |classNames|);
    var k := Argmax(row);
    assert Argmax(Confidences(entries)) == k;
    assert entries[k] == Prediction(classNames[k], row[k]);
  }

  class PotatoDiseasePredictor {
    const modelPath: string
    var model: Option<Model>
    const classNames: seq<string>
    const imgSize: (nat, nat)

    constructor (modelPath: string := DefaultModelPath)
      ensures this.modelPath == modelPath && model == None
      ensures classNames == ClassNames && |classNames| == 7
      ensures imgSize == ImageSize
    {
      this.modelPath := modelPath;
      model := None;
      classNames := ClassNames;
      imgSize := ImageSize;
    }

    /**
     * `load_model`: succeeds exactly when the file exists and loading it
     * gives a model, which is then kept; on failure the field is untouched.
     */
    method LoadModel(fileExists: bool, outcome: LoadOutcome) returns (ok: bool)
      modifies this`model
      ensures ok <==> fileExists && outcome.Loaded?
      ensures ok ==> model == Some(outcome.model)
      ensures !ok ==> model == old(model)
    {
      if fileExists {
        match outcome
        case Loaded(m) =>
          model := Some(m);
          ok := true;
        case LoadFailed =>
          ok := false;
      } else {
        ok := false;
      }
    }

    /**
     * `predict`, given what `preprocess_image` returned for the image. It
     * returns the failure triple when no model is loaded, when preprocessing
     * gave nothing, or when inference or the steps after it raise; otherwise
     * the label at argmax, its raw score, and the per-class records sorted
     * stably by descending confidence.
     */
    method Predict(processed: Option<Tensor>) returns (r: PredictResult)
      ensures r.predictedClass.None? ==> r == Failed
      ensures r.predictedClass.Some?
          <==> model.Some? && processed.Some? && Rankable(model.value.infer(processed.value), |classNames|)
      ensures r.predictedClass.Some? ==>
        var row := model.value.infer(processed.value).batch[0];
        var k := Argmax(row);
        && r.predictedClass == Some(classNames[k])
        && r.confidence == row[k]
        && r.allPredictions == Ranked(Entries(classNames, row))
        && |r.allPredictions| == |classNames|
        && multiset(r.allPredictions) == multiset(Entries(classNames, row))
        && SortedDesc(r.allPredictions)
        && SameTies(r.allPredictions, Entries(classNames, row))
        && r.allPredictions[0] == Prediction(classNames[k], row[k])
    {
      if model.None? || processed.None? {
        return Failed;
      }
      var out := model.value.infer(processed.value);
      if out.Raised? || |out.batch| == 0 || |out.batch[0]| == 0 {
        return Failed;
      }
      var row := out.batch[0];
      var k := Argmax(row);
      var names := classNames;
      if k >= |names| || |row| < |names| {
        return Failed;
      }
      var all := new Prediction[|names|](i requires 0 <= i < |names| => Prediction(names[i], row[i]));
      ghost var entries := Entries(names, row);
      assert all[..] == entries;
      SortByConfidence(all);
      r := PredictResult(Some(names[k]), row[k], all[..]);
      RankedPermutation(entries);
      RankedSorted(entries);
      forall c
        ensures WithConfidence(r.allPredictions, c) == WithConfidence(entries, c)
      {
        RankedStable(entries, c);
      }
      TopIsHead(names, row, r.allPredictions);
    }
  }
}
