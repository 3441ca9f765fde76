# Potato disease predictor: decision logic, modelled in Dafny

This project models the decision and bookkeeping logic of `model_utils.py`, the
inference helper of a plant-disease image classifier. The classifier is a
pre-trained Keras model with seven output classes. The modelled logic covers:

- the `PotatoDiseasePredictor` class: its fixed, ordered label list, its
  optional loaded model, `load_model` as a field update that happens only on
  success, and `predict`, which turns the model's score row into a top class
  and a ranked list of `(class, confidence)` records, or the failure triple
  `(None, 0.0, [])`;
- `validate_image`, the precedence of checks an opened image has to pass;
- `cleanup_old_files`, the pass over the upload folder that deletes old
  regular files.

Files:

- `optional.dfy`: module `Optional`, the `Option` type that stands for Python's `None`.
- `ranking.dfy`: module `Ranking`, the argmax and the stable descending sort.
  This module defines `Ranked`, the sorted list as a function. `SortByConfidence`
  sorts an array in place and is proved to produce `Ranked`. The lemmas prove
  that `Ranked` is sorted, is a permutation and is stable. They also prove its
  head is the argmax record, and that any sorted, stable arrangement equals
  `Ranked`.
- `predictor.dfy`: module `Predictor`, the class with its `model` field,
  `LoadModel` and `Predict`.
- `validation.dfy`: module `ImageValidation`, `ValidateImage`.
- `cleanup.dfy`: module `Cleanup`, `CleanupOldFiles` and the lemmas about
  which entries it removes.

Outside inputs become parameters:

- whether the model file exists, and what Keras' loader gave for it;
- what `preprocess_image` returned (an array, or `None`);
- what the model's `predict` returned for that array (a batch of score rows,
  or an exception) — a function stored in the loaded `Model` value;
- what `Image.open` gave (size and mode, or an exception);
- the folder listing, the clock reading `now`, and the names whose removal
  would raise.

Scores, times and ages are `real`. Scores are only compared; an age
(`now` minus the modification time, model_utils.py:119) and the limit
(`max_age_hours * 3600`, model_utils.py:115) are computed exactly. The Python
exceptions that `predict` catches become explicit cases: an empty batch, an
empty score row (numpy's argmax raises on one), an argmax at or past the
number of labels, and a score row shorter than the label list. Every one of
them gives the failure triple. A row longer than the label list is ranked
over its first seven scores, while the argmax is taken over the whole row,
as in the code.

Python's `list.sort(key=..., reverse=True)` is Timsort. The model sorts with a
stable insertion sort instead. `StableSortIsRanked` shows that the choice does
not matter: every arrangement that is sorted by non-increasing confidence and
keeps each group of equal-confidence records in its original order is
`Ranked` of the input.

Three facts about the code that the model keeps:

- `load_model` returns only a boolean: a missing file and a loader exception
  both give `False`, and `self.model` keeps its previous value
  (model_utils.py:28-38).
- `predict` catches any exception raised by inference or by the ranking steps
  after it, and returns `(None, 0.0, [])` for it, as it does for a missing
  model or a failed preprocessing (model_utils.py:65-70, 72-89).
- `predict` uses the model's scores as they are: the code never checks their
  range or their sum, so the model assumes nothing about either
  (model_utils.py:73-82).

## Model

| member | source | states |
|---|---|---|
| `Ranking.Argmax` | model_utils.py:74-76 | the predicted index is inside the score row; its score is at least every other score; every score before it is strictly smaller (numpy's first-occurrence argmax) |
| `Ranking.ArgmaxOfPrefix` | model_utils.py:74-82 | when the argmax of the full row falls among its first n scores, it is also the argmax of those n scores, so the top class matches the list built from the first n scores |
| `Ranking.Ranked` | model_utils.py:83 | the sorted list has as many records as it was given |
| `Ranking.RankedPermutation` | model_utils.py:79-83 | the sorted list is a permutation (same multiset) of the records built per class |
| `Ranking.RankedSorted` | model_utils.py:83 | the sorted list is in non-increasing order of confidence |
| `Ranking.RankedStable` | model_utils.py:83 | for every confidence value, the records with that confidence appear in the same relative order as before sorting (stable even with `reverse=True`) |
| `Ranking.SortedWithSameTiesEqual` | model_utils.py:83 | two lists that are both sorted descending and agree on the order of every group of equal-confidence records are equal |
| `Ranking.StableSortIsRanked` | model_utils.py:83 | any sorted, stable rearrangement of the input (such as Timsort's result) is exactly `Ranked` of it |
| `Ranking.SortedStableHead` | model_utils.py:74-85 | in any sorted, stable permutation of the records, the first record is the one at the first position of a largest confidence |
| `Ranking.RankedHead` | model_utils.py:74-85 | the first record of the sorted list is the record at the argmax of the confidences |
| `Ranking.SortByConfidence` | model_utils.py:83 | sorting the array in place leaves it holding `Ranked` of its old contents |
| `Predictor.Entries` | model_utils.py:79-82 | one record per class index i, pairing the label at i with the raw score at i, with no re-normalisation |
| `Predictor.EntriesKeepScores` | model_utils.py:79-82 | the confidences of the per-class records are the first scores of the row, unchanged |
| `Predictor.TopIsHead` | model_utils.py:74-85 | for a usable row, the first record of the ranked list is the label at the argmax of the whole row, with that row's score |
| `Predictor.PotatoDiseasePredictor.constructor` | model_utils.py:12-24 | a new predictor has no model, the seven labels in their fixed order, the 255 x 255 image size and the given model path, `my_model.h5` by default |
| `Predictor.PotatoDiseasePredictor.LoadModel` | model_utils.py:26-38 | loading succeeds exactly when the file exists and the loader gives a model; on success that model is stored; on failure the field keeps its old value |
| `Predictor.PotatoDiseasePredictor.Predict` | model_utils.py:63-89 | a result with no class is exactly the failure triple. It has a class exactly when a model is loaded, preprocessing gave an array and inference gave a usable row. Then the class and confidence are taken at the first maximal score. The list is the records sorted stably by descending confidence: as many as there are labels, a permutation of them, headed by the top class and its confidence |
| `ImageValidation.ValidateImage` | model_utils.py:91-101 | accepts exactly the readable images of at least 50 x 50 pixels in mode RGB, RGBA or L. Too small is reported whenever a side is below 50, before the mode is looked at. An unsupported mode is reported otherwise. A read failure gives the error message with the exception text |
| `ImageValidation.MessageIdentifiesCause` | model_utils.py:94-101 | each message is given in exactly one case (valid, too small, unsupported mode, read error), so the message tells which check decided |
| `Cleanup.Survivors` | model_utils.py:116-125 | the listing after the pass has at most as many entries as before |
| `Cleanup.SurvivorsExactly` | model_utils.py:116-125 | an entry survives the pass exactly when it was listed and is not an expired regular file whose removal succeeded (age strictly above max_age_hours * 3600) |
| `Cleanup.AtLimitKept` | model_utils.py:119-120 | a file whose age equals the limit exactly is kept |
| `Cleanup.FailuresAreIsolated` | model_utils.py:121-125 | a failed removal keeps only that file: the survivors are those of a pass without failures plus the expired files whose removal failed |
| `Cleanup.CleanupOldFiles` | model_utils.py:112-125 | with the age limit 24 hours unless given, the loop leaves exactly `Survivors` of the listing: an entry remains if and only if it was listed and was not removed |

## Left out

- `preprocess_image` (model_utils.py:40-61): decoding, colour conversion and resizing are PIL calls. The float32 scaling by 1/255 is floating-point numerics. Only its outcome, an array or `None`, is modelled, as a parameter of `Predict`.
- The inference itself (`model.predict`, model_utils.py:73) is an opaque function in the `Model` value. Nothing is assumed about the scores it returns.
- Keras model loading: `os.path.exists` and `load_model` are reduced to the parameters of `LoadModel`.
- `get_model_info` (model_utils.py:128-142) is Keras introspection only.
- `create_upload_folder` (model_utils.py:104-109) is a filesystem call only.
- The interactive loop under `__main__` (model_utils.py:145-177) and all print logging are console I/O.
- model_steup.py is not part of this model: it has no logic of its own, only Keras save and load calls, a Keras layer list that it compiles (model_steup.py:54-91), pickle writes and console output (model_steup.py:113-140).
- Floating point: scores and times are exact reals, so NaN and other IEEE comparison quirks are not modelled, and neither is the float64 rounding of `current_time - os.path.getmtime(...)` or of `max_age_hours * 3600`.
- Timsort: it is replaced by a stable insertion sort. `StableSortIsRanked` proves that both give the same list.
- CleanupOldFiles: it returns the folder's listing after the pass instead of changing a real directory.
- CleanupOldFiles: it does not model the two uncaught errors of the source. `os.listdir` raises when the folder is missing (model_utils.py:116), so the call fails before any deletion. `os.path.getmtime` raises when a file vanishes after the listing (model_utils.py:119), which ends the whole pass and leaves the remaining entries unprocessed. (`os.path.isfile` never raises; it returns False.)
- CleanupOldFiles: which removals fail is given as a set of names, so a failure is assumed to depend on the entry only.
- ValidateImage: `validate_image` is a method of the class in the source. It reads no field, so it is modelled as a module-level function.
