# HeartWatch AI retraining pipeline and form encoder, in Dafny

This project models the two pieces of HeartWatch AI that make decisions.

- **Training-data preparation** (`load_and_prepare_data` in `ml/train_model.py`), in these steps:
  - the baseline CSV table loses its `id` and `dataset` columns;
  - stored clinician feedback is merged in when there are at least 50 rows, with exact duplicates dropped;
  - a legacy `num` label column is renamed to `target`;
  - `fbs` and `exang` become 0/1;
  - `sex`, `cp`, `restecg`, `slope` and `thal` are mapped through their code tables, with unmapped cells filled by the median of the mapped codes;
  - rows without a label are dropped and the label is binarised;
  - a majority class more than twice the minority is cut to exactly twice the minority.
- **Model selection** (`train_and_log_models`): the random forest, the logistic regression and the tuned XGBoost model are compared in that order. A candidate replaces the running best only when its AUC and its accuracy are both strictly higher. The cross-validation fold count comes from the smallest balanced class.
- **The Streamlit form encoder** (`encode_input`): it turns the widget values of the prediction and feedback pages into the integer-coded record the API receives.

The DataFrame that `load_and_prepare_data` changes in place is the class `Tables.Frame`. `Prepare.LoadAndPrepare` drives it through the same steps, using the methods `DropColumn`, `RenameColumn`, `AssignColumn` and `DropNa`. It is proved to agree with `Prepare.Prepared`, which states each step as a function on values, and with `Labels.CappedFrom`, which states what the random majority sample may return. The selection loop is the method `Selection.TrainAndLogModels`, proved against the left-to-right fold `Selection.Select`. The encoder is a pure function, `Encoder.EncodeInput`.

The module `Consistency` relates the two encodings of a patient: the one the form produces and the one training derives from the same answers. Its lemmas show three things:
- the chest-pain, ECG and slope codes agree;
- the `thal` codes are one higher on the form;
- `sex` is flipped.

A feedback record is stored in integer-coded form. When such a record is read back for retraining, its categorical cells map to nothing, so they get the column median. Its `fbs` and `exang` become 0, whatever the patient answered.

Files:
- `pyvalues.dfy`: Python cell values, and `str()`, `strip()` and `lower()`.
- `tables.dfy`: tables and the `Frame` class.
- `schema.dfy`: the feature list and the feedback record.
- `merge.dfy`: the merge gate and `drop_duplicates`.
- `normaliser.dfy`: flag and categorical coding, and the median.
- `labels.dfy`: label cleaning and the majority cap.
- `prepare.dfy`: the pipeline as functions and as methods on a `Frame`.
- `prepared_facts.dfy`: properties of the prepared table.
- `selection.dfy`: model selection and the fold count.
- `encoder.dfy`: `encode_input`.
- `consistency.dfy`: the form encoding set against the training codes.

Three behaviours of the code are easy to miss, and the model keeps each of them:
- **Rename after merge.** The feedback merge runs before the `num` to `target` rename (`ml/train_model.py:49-68`). Feedback rows always carry `target`, so once feedback is merged a legacy `num` column is never renamed. Every baseline row then has a missing label and is dropped (`PreparedFacts.LegacyLabelLostOnMerge`).
- **No guaranteed winner.** `best` starts as `None` with both metrics 0 (`ml/train_model.py:141`), and a candidate wins only with both metrics strictly higher (`:160`, `:203`). A candidate whose AUC or accuracy is 0 never wins. If none wins, `best` stays `None` and `best.predict` fails (`:206`). This is the error `NoModelSelected` (`Selection.SelectNoneIff`).
- **Unmapped column.** A non-empty categorical column in which no value maps has a NaN median, and the `astype(int)` cast then fails (`ml/train_model.py:105-106`). This is the error `UnmappedColumn` (`Normaliser.NothingMapsFails`).

## Model

| member | source | states |
|---|---|---|
| PyValues.Lower | ml/train_model.py:101 | lower-casing keeps the length, leaves no upper-case ASCII letter and changes no other character |
| PyValues.NumberRendersAsNumeral | ml/train_model.py:99 | `str()` of an int, or of a one-decimal float below 1e16 in magnitude, is a numeral: digits, `-` and `.` only |
| PyValues.StripTrims | ml/train_model.py:100 | the stripped string has no whitespace at either end, is the input with only whitespace cut from its two ends, and a trimmed input is unchanged |
| PyValues.NumeralIsCanonical | ml/train_model.py:99-101 | stripping and lower-casing leave a rendered number unchanged |
| Tables.Column | ml/train_model.py:98 | `df[c]` has one cell per row, the row's cell `c`, in order |
| Tables.Drop | ml/train_model.py:39-42 | dropping a column removes exactly that column and keeps every other cell of every row |
| Tables.Rename | ml/train_model.py:67-68 | renaming replaces `from` by `to` in the columns; each row's `to` cell is its old `from` cell and every other cell is kept |
| Tables.SetColumn | ml/train_model.py:97-106 | assigning a column replaces exactly that cell of each row and keeps the columns and row count |
| Tables.KeepPresent | ml/train_model.py:111 | the kept rows are rows of the input with the cell present, and every such row is kept; order and multiplicity are stated by `Tables.KeepPresentConcat`, `Tables.KeepPresentSingle` and `Tables.KeepPresentCounts` |
| Tables.KeepPresentConcat | ml/train_model.py:111 | dropping distributes over concatenation: the kept rows of `a + b` are those of `a` followed by those of `b`, so the input order is kept |
| Tables.KeepPresentSingle | ml/train_model.py:111 | a single row is kept exactly when its cell is present |
| Tables.KeepPresentCounts | ml/train_model.py:111 | each row with the cell present is kept as many times as it occurs, duplicates included, and no other row is kept |
| Tables.KeepPresentSplit | ml/train_model.py:111 | when the missing cells form a prefix, dropping them leaves exactly the suffix, in order |
| Tables.DropMissing | ml/train_model.py:111 | `dropna(subset=[c])` keeps the columns; every kept row is a row of the input with `c` present, and every such row is kept; it is `KeepPresent` of the rows, whose order and multiplicity are `Tables.KeepPresentConcat`, `Tables.KeepPresentSingle` and `Tables.KeepPresentCounts` |
| Tables.Pad | ml/train_model.py:61 | a row widened by concat keeps its cells and has NaN in every new column |
| Tables.Concat | ml/train_model.py:61 | concat has the union of the columns, the first table's rows and then the second's, each padded |
| Tables.Frame.constructor | ml/train_model.py:36 | the new frame holds the given table |
| Tables.Frame.DropColumn | ml/train_model.py:39-42 | the frame afterwards is `Drop` of the frame before |
| Tables.Frame.RenameColumn | ml/train_model.py:67-68 | the frame afterwards is `Rename` of the frame before |
| Tables.Frame.AssignColumn | ml/train_model.py:97-106 | the frame afterwards is `SetColumn` of the frame before |
| Tables.Frame.DropNa | ml/train_model.py:111 | the frame afterwards is `DropMissing` of the frame before |
| Schema.FeedbackToRow | ml/train_model.py:50-58 | a feedback row has exactly the 13 features plus `target`, the label is the stored `prediction`, and every cell but `oldpeak` is an integer |
| Schema.FeedbackRowFlags | ml/train_model.py:52-57 | a feedback row has no `num` cell and its flags are the stored integers |
| Merge.Dedup | ml/train_model.py:59 | `drop_duplicates()` leaves no duplicate and the same set of rows |
| Merge.DedupPrefix | ml/train_model.py:59 | deduplicating a prefix gives a prefix of the result: first occurrences keep their order |
| Merge.DedupLength | ml/train_model.py:59 | the deduplicated rows number as many as the distinct feedback rows |
| Merge.FeedbackTable | ml/train_model.py:50-58 | the feedback DataFrame has one row per feedback record, laid out by `FeedbackToRow` |
| Merge.MergeFeedback | ml/train_model.py:49-64 | below 50 feedback rows the table is left exactly as it was |
| Merge.MergedLayout | ml/train_model.py:49-61 | at 50 or more, the result is the baseline rows then the distinct feedback rows in first-occurrence order, with length baseline plus the number of distinct feedback rows |
| Merge.BaselineRowsKept | ml/train_model.py:61 | a baseline that already has the feedback columns keeps its rows unchanged as the prefix |
| Normaliser.FlagCode | ml/train_model.py:85-86 | a harmonised flag is always 0 or 1 |
| Normaliser.HarmoniseFlags | ml/train_model.py:85-86 | the harmonised column has one flag code per cell, in order |
| Normaliser.FlagOfBool | ml/train_model.py:85-86 | a Python bool keeps its truth value as 1 or 0 |
| Normaliser.FlagOfText | ml/train_model.py:85-86 | a string is 1 exactly when it spells "true" in any case |
| Normaliser.FlagOfNumberOrMissing | ml/train_model.py:85-86 | numbers, 1 included, and NaN harmonise to 0 |
| Normaliser.Lookup | ml/train_model.py:97-102 | a cell maps exactly when its stripped, lower-cased `str()` is a key, and then to that key's code |
| Normaliser.CanonicalKeyShape | ml/train_model.py:99-101 | the looked-up form has no whitespace at either end and no upper-case ASCII letter |
| Normaliser.CanonicalKeyIdempotent | ml/train_model.py:99-101 | a key is its own canonical form |
| Normaliser.Lookups | ml/train_model.py:102 | `map` looks up every cell of the column, in order |
| Normaliser.MappedCodes | ml/train_model.py:102-105 | the codes the median sees are at most as many as the cells |
| Normaliser.MappedCodesCounts | ml/train_model.py:102-105 | each code is collected exactly as many times as cells of the column map to it |
| Normaliser.MappedCodesFromTable | ml/train_model.py:102-105 | every code the median sees is a code of the table |
| Normaliser.MappedCodesEmpty | ml/train_model.py:104-106 | the median has no codes exactly when no cell of the column maps |
| Normaliser.SortCodesSorted | ml/train_model.py:105 | the codes are sorted into an ascending permutation for the median |
| Normaliser.MedianWithin | ml/train_model.py:105-106 | the truncated median lies within any bounds of the codes |
| Normaliser.MedianBetweenMiddles | ml/train_model.py:105-106 | the truncated median of an odd count is one of the mapped codes, and of any count lies between two of them |
| Normaliser.NormaliseValues | ml/train_model.py:96-106 | normalising fails exactly when the column has cells and none maps, and otherwise gives one value per cell |
| Normaliser.NormalisedCell | ml/train_model.py:96-106 | a cell whose canonical form is a key gets that key's code, and every other cell gets the integer median of the mapped codes |
| Normaliser.NormalisedInRange | ml/train_model.py:96-106 | every normalised cell is an integer within any bounds of the table's codes |
| Normaliser.NormalisedSpanned | ml/train_model.py:104-106 | every normalised cell is an integer between two codes of the table |
| Normaliser.SpannedWithin | ml/train_model.py:72-82 | a value between two codes lies within any bounds of the table |
| Normaliser.TableRanges | ml/train_model.py:72-82 | sex codes are 0..1, cp 0..3, and restecg, slope and thal 0..2 |
| Normaliser.AllKeysStartWithLetter | ml/train_model.py:88-94 | every key of every categorical table starts with a lower-case letter |
| Normaliser.NumberNeverMaps | ml/train_model.py:96-106 | an int or float cell never maps, so it always gets the median |
| Normaliser.NothingMapsFails | ml/train_model.py:104-106 | a non-empty column in which nothing maps makes the normaliser fail |
| Prepare.DropIfPresent | ml/train_model.py:39-42 | the column is gone afterwards, whether or not it was there, and every other cell is kept |
| Prepare.DropIdColumns | ml/train_model.py:39-42 | `id` and `dataset` are gone and every other cell of every row is kept |
| Prepare.RenameLegacyLabel | ml/train_model.py:67-68 | a label exists afterwards exactly when `target` or `num` existed; with `target`, or with neither, nothing changes; otherwise `num` is replaced by `target`, its cells become the label and every other cell is kept |
| Prepare.HarmoniseColumn | ml/train_model.py:85-86 | fails with KeyError exactly when the column is absent; otherwise it rewrites only that column, each cell to its flag code |
| Prepare.NormaliseColumn | ml/train_model.py:96-106 | KeyError on an absent column; fails exactly when the column has cells and none maps; otherwise rewrites only that column, with the contents given by `Prepare.NormaliseColumnCells` |
| Prepare.NormaliseColumnCells | ml/train_model.py:96-106 | after a successful step, each cell of the column is `NormaliseValues` of the old column: its key's code when its canonical form is a key, otherwise the integer median of the codes mapped in the column |
| Prepare.Names | ml/train_model.py:88-94 | the names are exactly the columns of the mapping list |
| Prepare.NormaliseAll | ml/train_model.py:96-106 | the loop over the mappings keeps the table well formed |
| Prepare.NormaliseAllStep | ml/train_model.py:96-106 | a successful loop succeeds on its first column and then runs on the rest |
| Prepare.NormaliseAllRound | ml/train_model.py:96-106 | one round of the loop stops with the error of normalising its first column, and otherwise continues on the normalised table |
| Prepare.NormaliseAllKeeps | ml/train_model.py:96-106 | the loop changes no column outside the ones it normalises |
| Prepare.Loaded | ml/train_model.py:36-68 | the loaded frame is well formed |
| Prepare.Normalise | ml/train_model.py:85-106 | flag harmonisation and the categorical loop keep the table well formed |
| Prepare.Normalised | ml/train_model.py:36-106 | loading and normalising keep the table well formed |
| Prepare.Prepared | ml/train_model.py:36-112 | the prepared table, when there is one, has only 0/1 labels |
| Prepare.Absent | ml/train_model.py:122 | the missing feature names are exactly the features that are not columns |
| Prepare.LoadFrame | ml/train_model.py:36-68 | the frame after the drops, the merge and the rename is `Loaded` of the inputs |
| Prepare.HarmoniseInPlace | ml/train_model.py:85-86 | the in-place harmonisation reports exactly the errors of `HarmoniseColumn` and leaves its table |
| Prepare.NormaliseColumnInPlace | ml/train_model.py:96-106 | one in-place round reports exactly the errors of `NormaliseColumn` and leaves its table |
| Prepare.NormaliseInPlace | ml/train_model.py:96-106 | the in-place loop reports exactly the errors of `NormaliseAll` and leaves its table |
| Prepare.CleanLabelInPlace | ml/train_model.py:111-112 | the in-place `dropna` and binarisation report exactly the errors of `CleanLabel` and leave its table |
| Prepare.LoadAndPrepare | ml/train_model.py:30-122 | fails with the first failing step's error or with the missing features; otherwise returns a possible capped outcome of the prepared table, with 0/1 labels and every feature column |
| Labels.BinariseLabels | ml/train_model.py:112 | `(target > 0).astype(int)` fails exactly on a string label; otherwise each label becomes 1 if positive, else 0 |
| Labels.Positive | ml/train_model.py:112 | `v > 0` raises exactly on a string, is False on NaN, and is True exactly for True and positive numbers |
| Labels.CleanLabel | ml/train_model.py:111-112 | a cleaned table has only 0/1 labels and the same columns |
| Labels.CleanedLabels | ml/train_model.py:111-112 | the surviving rows are exactly the rows `KeepPresent` keeps (the labelled rows, in order and with duplicates, by `Tables.KeepPresentConcat` and `Tables.KeepPresentCounts`), each relabelled 1 if its label was positive and 0 otherwise; a string label is the only failure |
| Labels.WithLabel | ml/train_model.py:118 | the selected rows all carry the label and come from the table |
| Labels.WithoutLabel | ml/train_model.py:119 | the selected rows all carry another label and come from the table |
| Labels.WithLabelConcat | ml/train_model.py:120 | selecting by label distributes over concatenation |
| Labels.WithoutIsOther | ml/train_model.py:119 | with 0/1 labels, "not the majority" is "the other label" |
| Labels.LabelCount | ml/train_model.py:115 | the rows with label `l` and the rows without it add up to all rows |
| Labels.CountsSum | ml/train_model.py:115 | the two class counts of a 0/1-labelled table add up to its rows |
| Labels.MinorityCount | ml/train_model.py:116 | `vc.min()` is one of the two class counts and no larger than either |
| Labels.MajorityLabel | ml/train_model.py:117 | `vc.idxmax()` is 0 or 1 and its count is no smaller than the other label's |
| Labels.CapApplies | ml/train_model.py:116 | the cap applies exactly when the minority is non-empty and the `idxmax` class has more than twice its rows |
| Labels.CapMajority | ml/train_model.py:115-120 | the capped table has 0/1 labels and is a possible outcome of the cap: `2*min` majority rows drawn without replacement, then the minority rows in order, or the table itself when the cap does not apply |
| Labels.DrawnRowsKeepLabel | ml/train_model.py:118 | rows sampled from the majority rows carry the majority label |
| Labels.CountsOfSplit | ml/train_model.py:120 | the label counts of a sample followed by the rest are the lengths of the two parts |
| Labels.CappedParts | ml/train_model.py:115-120 | a capped table is the drawn majority rows followed by exactly the minority rows |
| Labels.MinorityIsOtherLabel | ml/train_model.py:115-117 | the minority count is the count of the label that is not `idxmax` |
| Labels.CapRatio | ml/train_model.py:115-120 | after the cap the majority count is exactly twice the minority count, and the minority count is unchanged |
| Labels.NoCapKeepsTable | ml/train_model.py:116 | when the cap condition fails the table is unchanged |
| Labels.Cap250To100 | ml/train_model.py:115-120 | 250 majority and 50 minority rows become 100 and 50 |
| PreparedFacts.NormaliseColumnCodes | ml/train_model.py:96-106 | after one column is normalised, each of its cells is an integer between two of its table's codes |
| PreparedFacts.NormaliseAllCodes | ml/train_model.py:96-106 | after the loop, every normalised column holds codes of its own table in every row |
| PreparedFacts.CategoricalNames | ml/train_model.py:88-94 | the five categorical columns are distinct, each one of sex, cp, restecg, slope and thal, so none is a flag or the label |
| PreparedFacts.FlagsHarmonised | ml/train_model.py:85-86 | after both harmonisations every row has `fbs` and `exang` in {0, 1} |
| PreparedFacts.CodedAfterLoop | ml/train_model.py:85-106 | after the loop every row is coded: flags 0/1 and categorical cells within their tables |
| PreparedFacts.NormalisedRowsCoded | ml/train_model.py:36-106 | every row of the normalised frame is coded |
| PreparedFacts.CodedRowRelabel | ml/train_model.py:112 | rewriting the label keeps a row coded |
| PreparedFacts.CodedAfterClean | ml/train_model.py:111-112 | label cleaning keeps every row coded |
| PreparedFacts.PreparedRowsCoded | ml/train_model.py:36-112 | every row of the prepared table is coded |
| PreparedFacts.CodedRowRanges | ml/train_model.py:72-86 | a coded row has sex and both flags in 0..1, cp in 0..3, and restecg, slope and thal in 0..2 |
| PreparedFacts.PreparedRanges | ml/train_model.py:72-112 | every row of the prepared table holds its codes in those ranges |
| PreparedFacts.StepsKeep | ml/train_model.py:85-106 | the harmonisation and normalisation steps change only the flag and categorical columns |
| PreparedFacts.HarmonisedFlags | ml/train_model.py:85-86 | each harmonised flag is the flag code of the loaded cell of the same row |
| PreparedFacts.StepsFlags | ml/train_model.py:85-106 | the categorical loop leaves the harmonised flags as they are |
| PreparedFacts.NormalisedKeeps | ml/train_model.py:85-106 | the normalised frame agrees with the loaded one outside the rewritten columns, and its flags are the loaded cells' flag codes |
| PreparedFacts.MergedFeedbackRow | ml/train_model.py:50-61 | a merged feedback row has its `prediction` as label, no `num`, and its stored flags |
| PreparedFacts.PaddedFeedbackRow | ml/train_model.py:61 | a feedback row widened to a frame with `num` has NaN there and keeps its label and flags |
| PreparedFacts.LegacyRenameSkipped | ml/train_model.py:67-68 | with 50 or more feedback rows the rename never happens |
| PreparedFacts.LegacyMerged | ml/train_model.py:49-61 | a `num`-labelled CSV merged with feedback has every baseline label missing, followed by the feedback rows as merged |
| PreparedFacts.LegacyRowsKept | ml/train_model.py:85-106 | that layout survives normalisation, the stored feedback flags becoming 0 |
| PreparedFacts.BaselineLabelsKept | ml/train_model.py:85-106 | a missing label stays missing through the normaliser |
| PreparedFacts.FeedbackRowsRepaired | ml/train_model.py:85-86 | the merged feedback rows keep label and `num`, and both flags read 0 |
| PreparedFacts.RowRepaired | ml/train_model.py:85-86 | integer flags harmonise to 0 in a merged feedback row |
| PreparedFacts.LegacyColumnsKept | ml/train_model.py:39-42 | dropping the identifier columns keeps `num`, adds no label and keeps every row |
| PreparedFacts.LegacyNormalise | ml/train_model.py:49-106 | the normalised legacy frame has the legacy layout |
| PreparedFacts.LegacyRowsNormalised | ml/train_model.py:39-106 | from the CSV, the normalised legacy frame has the legacy layout |
| PreparedFacts.LegacyCleaned | ml/train_model.py:111-112 | label cleaning of that layout leaves exactly the feedback rows, each with no `num`, both flags 0 and label `prediction > 0` |
| PreparedFacts.LegacyKept | ml/train_model.py:111 | in that layout the rows with a label are exactly the feedback rows |
| PreparedFacts.RowCleaned | ml/train_model.py:112 | a feedback row's binarised label is `prediction > 0` |
| PreparedFacts.LegacyLabelLostOnMerge | ml/train_model.py:49-112 | a `num`-labelled CSV with 50 or more feedback rows prepares to exactly the distinct feedback rows, in order, with no `num`, flags 0 and label `prediction > 0`: every baseline row is lost |
| Selection.Step | ml/train_model.py:160-161 | a comparison never lowers either metric, and replaces the best exactly when both metrics are strictly higher |
| Selection.Select | ml/train_model.py:141 | the running best never falls below the initial (None, 0, 0) |
| Selection.Entries | ml/train_model.py:143-153 | each candidate in order, paired with its oracle metrics |
| Selection.SelectMonotone | ml/train_model.py:160-161 | `best_auc` and `best_acc` never decrease as more candidates are seen |
| Selection.SelectNoneIff | ml/train_model.py:141-161 | the best stays None exactly when no candidate has both metrics above 0 |
| Selection.SelectNoneKeepsZero | ml/train_model.py:141 | while nothing has won, both best metrics are 0 |
| Selection.SelectWinner | ml/train_model.py:160-161 | the chosen model is one of the candidates, and the best metrics are its own |
| Selection.NoneBeatsSelected | ml/train_model.py:160-161 | no candidate beats the final best on both metrics |
| Selection.SelectExamples | ml/train_model.py:160-161 | a higher AUC with a lower accuracy does not win |
| Selection.MinCount | ml/train_model.py:178 | the smallest class count is one of the counts and no larger than any |
| Selection.CvFolds | ml/train_model.py:179 | the fold count is min(5, m) for m >= 2 and 2 otherwise, always between 2 and 5 |
| Selection.TrainAndLogModels | ml/train_model.py:136-206 | no data is `EmptyTrainingSet`; otherwise the run fails with `NoModelSelected` exactly when the selection rule over RandomForest, LogisticRegression, XgbTuned picks nothing, and succeeds exactly when it picks a model, returning that model, its metrics and the folds from the smallest class |
| Encoder.Name | streamlit_app/streamlit_app.py:54-71 | every field but `prediction` is named by one of the 13 features |
| Encoder.ToInt | streamlit_app/streamlit_app.py:60-63 | `int()` of a bool is 0/1, of an int itself, of a float its truncation toward zero; NaN and strings are not converted |
| Encoder.FirstFailure | streamlit_app/streamlit_app.py:54-68 | no error exactly when every field reads; otherwise the error is that of the first field that fails to read |
| Encoder.OrderCovers | streamlit_app/streamlit_app.py:54-68 | reading every field of the literal makes the form encodable |
| Encoder.EncodedCell | streamlit_app/streamlit_app.py:55-67 | copied fields keep their value and every other field becomes an integer: `sex` 1 exactly for "Male" and otherwise 0, a choice a code of its table, a checkbox 0 or 1 |
| Encoder.EncodeInput | streamlit_app/streamlit_app.py:53-73 | succeeds exactly on encodable forms, with the form's keys and each field encoded; otherwise the error is that of the first failing field in literal order |
| Encoder.FailureFound | streamlit_app/streamlit_app.py:54-68 | a form that is not encodable has a first failing field |
| Encoder.EncodeErrorOrder | streamlit_app/streamlit_app.py:54-57 | a missing `age` is always the error, and an unknown `cp` wins over every later field |
| Encoder.EncodeKeys | streamlit_app/streamlit_app.py:54-73 | the record has the 13 features, and `prediction` exactly when the form has it, copied unchanged |
| Encoder.EncodeSex | streamlit_app/streamlit_app.py:56 | `sex` is 1 exactly for the string "Male", and 0 otherwise |
| Encoder.EncodeCodes | streamlit_app/streamlit_app.py:57-67 | the choices carry their literal table's code and the flags the `int` of the checkbox |
| Encoder.EncodeCopies | streamlit_app/streamlit_app.py:55-66 | age, trestbps, chol, thalch, oldpeak, ca and prediction are copied unchanged |
| Encoder.UnknownChoiceFails | streamlit_app/streamlit_app.py:57-67 | a choice outside its table is an error, never a default code |
| Encoder.EncodeChoiceExamples | streamlit_app/streamlit_app.py:61-67 | "ST-T wave abnormality" is 1, and thal "normal" is 1 |
| Encoder.EncodeSexCaseSensitive | streamlit_app/streamlit_app.py:56 | "male" in lower case encodes as 0 |
| Encoder.EncodeChoiceCaseSensitive | streamlit_app/streamlit_app.py:61 | a lower-cased "st-t wave abnormality" is an error |
| Encoder.WidgetForm | streamlit_app/streamlit_app.py:80-94 | every form the widgets can produce (a Male/Female sex, the four select boxes, two checkboxes; the same widgets at lines 132-147) is encodable |
| Encoder.CellRoundTrip | streamlit_app/streamlit_app.py:55-67 | each field of a widget form survives encoding and decoding |
| Encoder.EncodeRoundTrip | streamlit_app/streamlit_app.py:53-73 | every widget form encodes, and decoding the record gives the form back: nothing is lost |
| Consistency.TrainingTable | ml/train_model.py:88-94 | each categorical form field has its table among the training mappings |
| Consistency.CpAgrees | streamlit_app/streamlit_app.py:57 | every chest-pain answer has the same code in training |
| Consistency.RestecgAgrees | streamlit_app/streamlit_app.py:61 | every ECG answer has the same code in training |
| Consistency.AbnormalityAgrees | ml/train_model.py:76 | "ST-T wave abnormality" is found under its lower-cased training key, with code 1 |
| Consistency.SlopeAgrees | streamlit_app/streamlit_app.py:65 | every slope answer has the same code in training |
| Consistency.ThalShifted | streamlit_app/streamlit_app.py:67 | every thal answer is one higher on the form than in training |
| Consistency.SexKeys | ml/train_model.py:72 | training codes "Male" as 0 and "Female" as 1 |
| Consistency.SexFlipped | streamlit_app/streamlit_app.py:56 | for "Male" and "Female" the training code is one minus the form code |
| Consistency.EncodedChoicesNeverMap | ml/train_model.py:96-106 | an encoded categorical cell, once stored as feedback, never maps in training |
| Consistency.EncodedFlagsLost | ml/train_model.py:85-86 | the encoded `fbs` and `exang`, once stored as feedback, harmonise to 0 whatever the answer |

## Left out

- Reading `data/heart.csv` and querying the feedback table (`ml/train_model.py:36`, `:45-47`) are I/O. The baseline table and the feedback rows are inputs.
- Filling missing feature values with the column median (`ml/train_model.py:122`) is left out. It works on floats, `oldpeak` included. `Prepare.LoadAndPrepare` returns the capped table, after checking that every feature column exists.
- `train_test_split`, `RandomOverSampler`, fitting the classifiers, `RandomizedSearchCV`, and computing AUC, accuracy and F1 are foreign library code over floats. The balanced class counts and each candidate's metrics are inputs, given as the `counts` sequence and the `score` oracle.
- mlflow logging, `joblib.dump`, the confusion matrix and the `print` calls are side effects and are left out. So is line 207, which prints the last model's accuracy rather than `best_acc`.
- Labels.CapMajority: the sample with `random_state=44` is a fixed pseudo-random choice. The model allows any `2*min` majority rows drawn without replacement.
- PyValues.Lower: lower-cases ASCII letters only; Python's `str.lower` also folds other scripts. Every table key is ASCII, so lookups of the listed values are unaffected.
- PyValues.NumberRendersAsNumeral: Python writes a float of magnitude 1e16 or more in exponent form (`1e+16`); the model always writes the digits out. Neither form is a table key or `true`, so no lookup or flag changes.
- Float cells are held in tenths. That covers `oldpeak` in the CSV and on the prediction page, whose input steps by 0.1 (`streamlit_app/streamlit_app.py:91`). The feedback page's input has no step (`:143`), so a stored feedback `oldpeak` may have hundredths; such values are not represented, and neither is how `drop_duplicates` compares them.
- Schema.FeedbackToRow: the feedback columns are nullable in the database. The model's feedback rows always hold integers, so a NULL read back as NaN is not represented.
- Encoder.ToInt: `int()` of a numeric string parses it in Python. The model reports `NotAnInt` for every string, because the form's checkboxes only ever give booleans.
- Encoder.EncodeInput: forms are keyed by the 13 known fields plus `prediction`. Extra keys in a form are not represented; the code ignores them.
- Selection.CvFolds: when the smallest class has fewer than two rows, the code asks for 2 folds, which the cross-validation would reject. The model keeps the value 2 and does not model that failure.
- Everything outside `encode_input` in `streamlit_app/streamlit_app.py` is left out as UI, session state and HTTP code. So are the FastAPI routes, authentication and database setup under `app/`.
