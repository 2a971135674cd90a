/**
 * What the prepared training table is made of: every harmonised flag is
 * 0 or 1, every categorical cell is an integer within its table's codes, and
 * a legacy `num` label meets the feedback merge in a way that leaves only
 * the feedback rows.
 */
module PreparedFacts {
  import opened Wrappers
  import opened PyValues
  import opened Tables
  import opened Schema
  import opened Merge
  import opened Normaliser
  import opened Labels
  import opened Prepare

  /** Cell `c` of `row` is an integer spanned by the codes of `table`. */
  predicate CodedCell(row: Row, c: string, table: CodeTable)
  {
    c in row && row[c].Int? && Spanned(row[c].i, table)
  }

  /** Cell `c` of `row` is 0 or 1. */
  predicate FlagCell(row: Row, c: string)
  {
    c in row && (row[c] == Int(0) || row[c] == Int(1))
  }

  /** A row as the normaliser leaves it. */
  predicate CodedRow(row: Row)
  {
    && FlagCell(row, "fbs") && FlagCell(row, "exang")
    && forall j :: 0 <= j < |CategoricalColumns| ==>
         CodedCell(row, CategoricalColumns[j].0, CategoricalColumns[j].1)
  }

  predicate DistinctNames(ms: seq<(string, CodeTable)>)
  {
    forall j, k :: 0 <= j < k < |ms| ==> ms[j].0 != ms[k].0
  }

  /** After one categorical column is normalised, each of its cells is an
      integer spanned by the table's codes. */
  lemma NormaliseColumnCodes(t: Table, c: string, table: CodeTable)
    requires WellFormed(t) && NormaliseColumn(t, c, table).Success?
    ensures forall i :: 0 <= i < |t.rows| ==> CodedCell(NormaliseColumn(t, c, table).value.rows[i], c, table)
  {
    var col := Column(t, c);
    var r := NormaliseColumn(t, c, table).value;
    assert r == SetColumn(t, c, NormaliseValues(table, col).value);
    forall i | 0 <= i < |t.rows| ensures CodedCell(r.rows[i], c, table) {
      NormalisedSpanned(table, col, i);
    }
  }

  /** Every column of `ms` holds, in every row of `r`, codes of its own table. */
  predicate AllCoded(r: Table, ms: seq<(string, CodeTable)>)
  {
    forall i, j :: 0 <= i < |r.rows| && 0 <= j < |ms| ==> CodedCell(r.rows[i], ms[j].0, ms[j].1)
  }

  /** After the loop, every normalised column holds codes of its own table. */
  lemma {:induction false} NormaliseAllCodes(t: Table, ms: seq<(string, CodeTable)>)
    requires WellFormed(t) && NormaliseAll(t, ms).Success? && DistinctNames(ms)
    ensures AllCoded(NormaliseAll(t, ms).value, ms)
    decreases |ms|
  {
    if ms != [] {
      NormaliseAllStep(t, ms);
      var t1 := NormaliseColumn(t, ms[0].0, ms[0].1).value;
      DistinctTail(ms);
      NormaliseAllCodes(t1, ms[1..]);
      CodedAfterStep(t, t1, NormaliseAll(t, ms).value, ms);
    }
  }

  /** The tail of a list of distinct names is distinct and misses the head. */
  lemma DistinctTail(ms: seq<(string, CodeTable)>)
    requires ms != [] && DistinctNames(ms)
    ensures DistinctNames(ms[1..]) && ms[0].0 !in Names(ms[1..])
  {
    forall j | 0 <= j < |ms[1..]| ensures ms[1..][j].0 != ms[0].0 {
      assert ms[1..][j] == ms[j + 1];
    }
  }

  /** One round of the loop: the first column's codes and the rest's. */
  lemma CodedAfterStep(t: Table, t1: Table, r: Table, ms: seq<(string, CodeTable)>)
    requires ms != [] && WellFormed(t) && NormaliseColumn(t, ms[0].0, ms[0].1) == Success(t1)
    requires WellFormed(t1) && NormaliseAll(t1, ms[1..]) == Success(r)
    requires ms[0].0 !in Names(ms[1..]) && AllCoded(r, ms[1..])
    ensures AllCoded(r, ms)
  {
    NormaliseColumnCodes(t, ms[0].0, ms[0].1);
    NormaliseAllKeeps(t1, ms[1..]);
    assert |t1.rows| == |t.rows| && ms[0].0 in t1.columns;
    HeadStaysCoded(t1, r, ms[0].0, ms[0].1, Names(ms[1..]));
    TailStaysCoded(r, ms);
  }

  /** The column normalised first is not touched again. */
  lemma HeadStaysCoded(t1: Table, r: Table, c: string, table: CodeTable, later: set<string>)
    requires c in t1.columns && forall i :: 0 <= i < |t1.rows| ==> CodedCell(t1.rows[i], c, table)
    requires SameExcept(t1, r, later) && c !in later
    ensures forall i :: 0 <= i < |r.rows| ==> CodedCell(r.rows[i], c, table)
  {
    forall i | 0 <= i < |r.rows| ensures CodedCell(r.rows[i], c, table) {
      CellKept(t1, r, later, i, c);
    }
  }

  lemma CellKept(a: Table, b: Table, cs: set<string>, i: int, c: string)
    requires SameExcept(a, b, cs) && 0 <= i < |a.rows| && c in a.columns && c !in cs
    ensures c in b.rows[i] && b.rows[i][c] == a.rows[i][c]
  {
  }

  /** The columns normalised later keep the codes the rest of the loop gave them. */
  lemma TailStaysCoded(r: Table, ms: seq<(string, CodeTable)>)
    requires ms != []
    requires AllCoded(r, ms[1..])
    requires forall i :: 0 <= i < |r.rows| ==> CodedCell(r.rows[i], ms[0].0, ms[0].1)
    ensures AllCoded(r, ms)
  {
    forall i, j | 0 <= i < |r.rows| && 0 <= j < |ms| ensures CodedCell(r.rows[i], ms[j].0, ms[j].1) {
      if j > 0 {
        assert CodedCell(r.rows[i], ms[1..][j - 1].0, ms[1..][j - 1].1);
        assert ms[j] == ms[1..][j - 1];
      }
    }
  }

  /** The categorical columns are distinct and are none of the columns the
      other steps touch. */
  lemma CategoricalNames()
    ensures DistinctNames(CategoricalColumns)
    ensures forall c :: c in Names(CategoricalColumns) ==> c in {"sex", "cp", "restecg", "slope", "thal"}
  {
    forall c | c in Names(CategoricalColumns) ensures c in {"sex", "cp", "restecg", "slope", "thal"} {
      var j :| 0 <= j < |CategoricalColumns| && CategoricalColumns[j].0 == c;
    }
  }

  /** A column outside the categorical ones keeps its cells through the loop. */
  lemma OutsideCategorical(t4: Table, t5: Table, c: string)
    requires WellFormed(t4) && SameExcept(t4, t5, Names(CategoricalColumns))
    requires c !in {"sex", "cp", "restecg", "slope", "thal"}
    ensures forall i :: 0 <= i < |t4.rows| && c in t4.rows[i] ==> c in t5.rows[i] && t5.rows[i][c] == t4.rows[i][c]
  {
    CategoricalNames();
  }

  /** After the two harmonisation steps both flags are 0 or 1 in every row. */
  lemma FlagsHarmonised(t2: Table, t3: Table, t4: Table)
    requires WellFormed(t2)
    requires HarmoniseColumn(t2, "fbs") == Success(t3)
    requires WellFormed(t3) && HarmoniseColumn(t3, "exang") == Success(t4)
    ensures forall i :: 0 <= i < |t4.rows| ==> FlagCell(t4.rows[i], "fbs") && FlagCell(t4.rows[i], "exang")
  {
    assert forall i :: 0 <= i < |t3.rows| ==> FlagCell(t3.rows[i], "fbs");
  }

  /** Rows whose flags are 0 or 1 are coded once the categorical loop succeeds. */
  lemma CodedAfterLoop(t4: Table, t5: Table)
    requires WellFormed(t4) && NormaliseAll(t4, CategoricalColumns) == Success(t5)
    requires forall i :: 0 <= i < |t4.rows| ==> FlagCell(t4.rows[i], "fbs") && FlagCell(t4.rows[i], "exang")
    ensures forall i :: 0 <= i < |t5.rows| ==> CodedRow(t5.rows[i])
  {
    CategoricalNames();
    NormaliseAllKeeps(t4, CategoricalColumns);
    NormaliseAllCodes(t4, CategoricalColumns);
    OutsideCategorical(t4, t5, "fbs");
    OutsideCategorical(t4, t5, "exang");
  }

  /** Before the labels are cleaned, every row is coded. */
  lemma NormalisedRowsCoded(baseline: Table, feedback: seq<FeedbackRow>)
    requires WellFormed(baseline) && Normalised(baseline, feedback).Success?
    ensures var t5 := Normalised(baseline, feedback).value;
      forall i :: 0 <= i < |t5.rows| ==> CodedRow(t5.rows[i])
  {
    var t2 := Loaded(baseline, feedback);
    var t3 := HarmoniseColumn(t2, "fbs").value;
    var t4 := HarmoniseColumn(t3, "exang").value;
    FlagsHarmonised(t2, t3, t4);
    CodedAfterLoop(t4, Normalised(baseline, feedback).value);
  }

  /** Relabelling a coded row leaves it coded. */
  lemma CodedRowRelabel(x: Row, v: Value)
    requires CodedRow(x)
    ensures CodedRow(x[Label := v])
  {
    CategoricalNames();
    var y := x[Label := v];
    forall j | 0 <= j < |CategoricalColumns|
      ensures CodedCell(y, CategoricalColumns[j].0, CategoricalColumns[j].1)
    {
      assert CategoricalColumns[j].0 in Names(CategoricalColumns);
      assert y[CategoricalColumns[j].0] == x[CategoricalColumns[j].0];
    }
  }

  /** Label cleaning keeps rows coded: it only drops rows and rewrites the label. */
  lemma CodedAfterClean(t5: Table, p: Table)
    requires WellFormed(t5) && CleanLabel(t5) == Success(p)
    requires forall i :: 0 <= i < |t5.rows| ==> CodedRow(t5.rows[i])
    ensures forall i :: 0 <= i < |p.rows| ==> CodedRow(p.rows[i])
  {
    CleanedLabels(t5);
    var kept := KeepPresent(t5.rows, Label);
    forall i | 0 <= i < |p.rows| ensures CodedRow(p.rows[i]) {
      var x := kept[i];
      var k :| 0 <= k < |t5.rows| && t5.rows[k] == x;
      CodedRowRelabel(x, Int(if Positive(x[Label]) == Some(true) then 1 else 0));
    }
  }

  /** Every row of the prepared table is coded: `fbs` and `exang` are 0 or 1
      and each categorical cell is spanned by its table's codes. */
  lemma PreparedRowsCoded(baseline: Table, feedback: seq<FeedbackRow>)
    requires WellFormed(baseline) && Prepared(baseline, feedback).Success?
    ensures var p := Prepared(baseline, feedback).value;
      forall i :: 0 <= i < |p.rows| ==> CodedRow(p.rows[i])
  {
    NormalisedRowsCoded(baseline, feedback);
    CodedAfterClean(Normalised(baseline, feedback).value, Prepared(baseline, feedback).value);
  }

  /** Cell `c` of `row` is an integer in `lo..hi`. */
  predicate InRange(row: Row, c: string, lo: int, hi: int)
  {
    c in row && row[c].Int? && lo <= row[c].i <= hi
  }

  /** The ranges of a coded row: sex 0..1, cp 0..3, restecg, slope and thal
      0..2, fbs and exang 0..1. */
  lemma CodedRowRanges(x: Row)
    requires CodedRow(x)
    ensures InRange(x, "fbs", 0, 1) && InRange(x, "exang", 0, 1)
    ensures InRange(x, "sex", 0, 1) && InRange(x, "cp", 0, 3) && InRange(x, "restecg", 0, 2)
    ensures InRange(x, "slope", 0, 2) && InRange(x, "thal", 0, 2)
  {
    TableRanges();
    assert CodedCell(x, CategoricalColumns[0].0, CategoricalColumns[0].1);
    SpannedWithin(x["sex"].i, SexCodes, 0, 1);
    assert CodedCell(x, CategoricalColumns[1].0, CategoricalColumns[1].1);
    SpannedWithin(x["cp"].i, CpCodes, 0, 3);
    assert CodedCell(x, CategoricalColumns[2].0, CategoricalColumns[2].1);
    SpannedWithin(x["restecg"].i, RestecgCodes, 0, 2);
    assert CodedCell(x, CategoricalColumns[3].0, CategoricalColumns[3].1);
    SpannedWithin(x["slope"].i, SlopeCodes, 0, 2);
    assert CodedCell(x, CategoricalColumns[4].0, CategoricalColumns[4].1);
    SpannedWithin(x["thal"].i, ThalCodes, 0, 2);
  }

  /** Every row of the prepared table holds its codes in range. */
  lemma PreparedRanges(baseline: Table, feedback: seq<FeedbackRow>)
    requires WellFormed(baseline) && Prepared(baseline, feedback).Success?
    ensures var p := Prepared(baseline, feedback).value;
      forall i :: 0 <= i < |p.rows| ==>
        && InRange(p.rows[i], "fbs", 0, 1) && InRange(p.rows[i], "exang", 0, 1)
        && InRange(p.rows[i], "sex", 0, 1) && InRange(p.rows[i], "cp", 0, 3)
        && InRange(p.rows[i], "restecg", 0, 2) && InRange(p.rows[i], "slope", 0, 2)
        && InRange(p.rows[i], "thal", 0, 2)
  {
    var p := Prepared(baseline, feedback).value;
    PreparedRowsCoded(baseline, feedback);
    forall i | 0 <= i < |p.rows|
      ensures InRange(p.rows[i], "fbs", 0, 1) && InRange(p.rows[i], "exang", 0, 1)
      ensures InRange(p.rows[i], "sex", 0, 1) && InRange(p.rows[i], "cp", 0, 3)
      ensures InRange(p.rows[i], "restecg", 0, 2) && InRange(p.rows[i], "slope", 0, 2)
      ensures InRange(p.rows[i], "thal", 0, 2)
    {
      CodedRowRanges(p.rows[i]);
    }
  }

  // ------------------------------------------------- the legacy label

  /** The columns the steps between loading and label cleaning rewrite. */
  const Rewritten: set<string> := {"fbs", "exang", "sex", "cp", "restecg", "slope", "thal"}

  /** Cell `c` of `row` is `v`. */
  predicate Holds(row: Row, c: string, v: Value)
  {
    c in row && row[c] == v
  }

  /** The harmonisation and normalisation steps rewrite only their columns. */
  lemma StepsKeep(t2: Table, t3: Table, t4: Table, t5: Table)
    requires WellFormed(t2) && HarmoniseColumn(t2, "fbs") == Success(t3)
    requires WellFormed(t3) && HarmoniseColumn(t3, "exang") == Success(t4)
    requires WellFormed(t4) && NormaliseAll(t4, CategoricalColumns) == Success(t5)
    ensures SameExcept(t2, t5, Rewritten)
  {
    CategoricalNames();
    NormaliseAllKeeps(t4, CategoricalColumns);
    SameExceptChain(t2, t3, t4, {"fbs"}, {"exang"}, {"fbs", "exang"});
    SameExceptChain(t2, t4, t5, {"fbs", "exang"}, Names(CategoricalColumns), Rewritten);
  }

  /** Every row of `t5` holds the flag codes of the `fbs` and `exang` cells
      of the same row of `t2`. */
  predicate FlagsRecoded(t2: Table, t5: Table)
  {
    && |t5.rows| == |t2.rows|
    && forall i :: 0 <= i < |t2.rows| ==>
      && "fbs" in t2.rows[i] && "exang" in t2.rows[i]
      && Holds(t5.rows[i], "fbs", Int(FlagCode(t2.rows[i]["fbs"])))
      && Holds(t5.rows[i], "exang", Int(FlagCode(t2.rows[i]["exang"])))
  }

  /** The two harmonisation steps turn each flag cell into its flag code. */
  lemma HarmonisedFlags(t2: Table, t3: Table, t4: Table)
    requires WellFormed(t2) && HarmoniseColumn(t2, "fbs") == Success(t3)
    requires WellFormed(t3) && HarmoniseColumn(t3, "exang") == Success(t4)
    ensures FlagsRecoded(t2, t4)
  {
    forall i | 0 <= i < |t2.rows|
      ensures && "fbs" in t2.rows[i] && "exang" in t2.rows[i]
              && Holds(t4.rows[i], "fbs", Int(FlagCode(t2.rows[i]["fbs"])))
              && Holds(t4.rows[i], "exang", Int(FlagCode(t2.rows[i]["exang"])))
    {
      var a2, a3, a4 := t2.rows[i], t3.rows[i], t4.rows[i];
      assert "fbs" in a2 && "exang" in a2 && a3["fbs"] == Int(FlagCode(a2["fbs"]));
      assert "exang" in a3 && a3["exang"] == a2["exang"];
      assert "fbs" in a4 && a4["fbs"] == a3["fbs"];
    }
  }

  /** The flags after the steps are the flag codes of the loaded cells. */
  lemma StepsFlags(t2: Table, t3: Table, t4: Table, t5: Table)
    requires WellFormed(t2) && HarmoniseColumn(t2, "fbs") == Success(t3)
    requires WellFormed(t3) && HarmoniseColumn(t3, "exang") == Success(t4)
    requires WellFormed(t4) && NormaliseAll(t4, CategoricalColumns) == Success(t5)
    ensures FlagsRecoded(t2, t5)
  {
    HarmonisedFlags(t2, t3, t4);
    NormaliseAllKeeps(t4, CategoricalColumns);
    OutsideCategorical(t4, t5, "fbs");
    OutsideCategorical(t4, t5, "exang");
    forall i | 0 <= i < |t2.rows|
      ensures && Holds(t5.rows[i], "fbs", Int(FlagCode(t2.rows[i]["fbs"])))
              && Holds(t5.rows[i], "exang", Int(FlagCode(t2.rows[i]["exang"])))
    {
      assert "fbs" in t4.rows[i] && "exang" in t4.rows[i];
    }
  }

  /** The loaded and the normalised frame agree outside the rewritten columns,
      and the flags are the flag codes of the loaded cells. */
  lemma NormalisedKeeps(t2: Table)
    requires WellFormed(t2) && Normalise(t2).Success?
    ensures SameExcept(t2, Normalise(t2).value, Rewritten)
    ensures FlagsRecoded(t2, Normalise(t2).value)
  {
    var t3 := HarmoniseColumn(t2, "fbs").value;
    var t4 := HarmoniseColumn(t3, "exang").value;
    StepsKeep(t2, t3, t4, Normalise(t2).value);
    StepsFlags(t2, t3, t4, Normalise(t2).value);
  }

  /** A feedback row as merged: its label is the `prediction`, it has no
      `num`, and its flags are the stored integers. */
  predicate MergedCells(x: Row, fb: FeedbackRow)
  {
    && Holds(x, Label, Int(fb.prediction)) && Holds(x, "num", Missing)
    && Holds(x, "fbs", Int(fb.fbs)) && Holds(x, "exang", Int(fb.exang))
  }

  /** A feedback row after harmonisation: both flags are 0. */
  predicate RepairedCells(x: Row, fb: FeedbackRow)
  {
    && Holds(x, Label, Int(fb.prediction)) && Holds(x, "num", Missing)
    && Holds(x, "fbs", Int(0)) && Holds(x, "exang", Int(0))
  }

  /** A distinct feedback row after the merge. */
  lemma MergedFeedbackRow(t0: Table, feedback: seq<FeedbackRow>, i: int)
    requires WellFormed(t0) && |feedback| >= MinFeedback
    requires |t0.rows| <= i < |t0.rows| + |Dedup(feedback)|
    requires "num" in t0.columns
    ensures i < |MergeFeedback(t0, feedback).rows|
    ensures MergedCells(MergeFeedback(t0, feedback).rows[i], Dedup(feedback)[i - |t0.rows|])
  {
    var t1 := MergeFeedback(t0, feedback);
    var d := Dedup(feedback);
    var j := i - |t0.rows|;
    assert i < |t1.rows| && FeedbackColumns <= t1.columns && "num" in t1.columns
        && t1.rows[i] == Pad(FeedbackToRow(d[j]), t1.columns) by {
      MergedLayout(t0, feedback);
      DedupLength(feedback);
    }
    PaddedFeedbackRow(d[j], t1.columns);
  }

  /** A feedback row widened to columns that include `num`. */
  lemma PaddedFeedbackRow(fb: FeedbackRow, cols: set<string>)
    requires FeedbackColumns <= cols && "num" in cols
    ensures MergedCells(Pad(FeedbackToRow(fb), cols), fb)
  {
    FeedbackRowFlags(fb);
  }

  /** With enough feedback the merged frame has the label column, so the
      legacy rename is skipped. */
  lemma LegacyRenameSkipped(baseline: Table, feedback: seq<FeedbackRow>)
    requires WellFormed(baseline) && |feedback| >= MinFeedback
    ensures Loaded(baseline, feedback) == MergeFeedback(DropIdColumns(baseline), feedback)
  {
    MergedLayout(DropIdColumns(baseline), feedback);
  }

  /** The rows of a merged legacy frame: the `n` baseline rows without
      label, then the feedback rows `d` as merged. */
  predicate MergedShape(t: Table, d: seq<FeedbackRow>, n: nat)
  {
    && |t.rows| == n + |d|
    && (forall i :: 0 <= i < n ==> Holds(t.rows[i], Label, Missing))
    && (forall i :: n <= i < |t.rows| ==> MergedCells(t.rows[i], d[i - n]))
  }

  /** A CSV without a label column merged with enough feedback: every
      baseline row has a missing label and every feedback row has its
      `prediction` as label, no `num` and its stored flags. */
  lemma LegacyMerged(t0: Table, feedback: seq<FeedbackRow>)
    requires WellFormed(t0) && "num" in t0.columns && Label !in t0.columns
    requires |feedback| >= MinFeedback
    ensures MergedShape(MergeFeedback(t0, feedback), Dedup(feedback), |t0.rows|)
  {
    MergedLayout(t0, feedback);
    DedupLength(feedback);
    forall i | |t0.rows| <= i < |MergeFeedback(t0, feedback).rows|
      ensures MergedCells(MergeFeedback(t0, feedback).rows[i], Dedup(feedback)[i - |t0.rows|])
    {
      MergedFeedbackRow(t0, feedback, i);
    }
  }

  /** The rows of a normalised legacy frame: baseline rows without label,
      then the feedback rows with their label, no `num` and both flags 0. */
  predicate LegacyShape(t: Table, d: seq<FeedbackRow>, n: nat)
  {
    && |t.rows| == n + |d|
    && (forall i :: 0 <= i < n ==> Holds(t.rows[i], Label, Missing))
    && (forall i :: n <= i < |t.rows| ==> RepairedCells(t.rows[i], d[i - n]))
  }

  /** The steps between loading and label cleaning carry the legacy layout
      over, turning the stored flags into 0. */
  lemma LegacyRowsKept(t2: Table, t5: Table, d: seq<FeedbackRow>, n: nat)
    requires WellFormed(t2) && SameExcept(t2, t5, Rewritten)
    requires MergedShape(t2, d, n) && FlagsRecoded(t2, t5)
    ensures LegacyShape(t5, d, n)
  {
    BaselineLabelsKept(t2, t5, n);
    FeedbackRowsRepaired(t2, t5, d, n);
  }

  /** The label cells are not rewritten: a missing label stays missing. */
  lemma BaselineLabelsKept(t2: Table, t5: Table, n: nat)
    requires WellFormed(t2) && SameExcept(t2, t5, Rewritten) && n <= |t2.rows|
    requires forall i :: 0 <= i < n ==> Holds(t2.rows[i], Label, Missing)
    ensures forall i :: 0 <= i < n ==> Holds(t5.rows[i], Label, Missing)
  {
    forall i | 0 <= i < n ensures Holds(t5.rows[i], Label, Missing) {
      assert Label in t2.rows[i];
    }
  }

  /** The merged feedback rows keep label and `num`, and their flags read 0. */
  lemma FeedbackRowsRepaired(t2: Table, t5: Table, d: seq<FeedbackRow>, n: nat)
    requires WellFormed(t2) && SameExcept(t2, t5, Rewritten) && FlagsRecoded(t2, t5)
    requires |t2.rows| == n + |d|
    requires forall i :: n <= i < |t2.rows| ==> MergedCells(t2.rows[i], d[i - n])
    ensures forall i :: n <= i < |t5.rows| ==> RepairedCells(t5.rows[i], d[i - n])
  {
    assert Label !in Rewritten && "num" !in Rewritten;
    forall i | n <= i < |t5.rows| ensures RepairedCells(t5.rows[i], d[i - n]) {
      var x2, x5 := t2.rows[i], t5.rows[i];
      assert Label in x2 && "num" in x2;
      assert Label in t2.columns && "num" in t2.columns;
      RowRepaired(x2, x5, d[i - n]);
    }
  }

  /** One merged feedback row after the steps: label and `num` as merged,
      the stored flags read as 0. */
  lemma RowRepaired(x2: Row, x5: Row, fb: FeedbackRow)
    requires MergedCells(x2, fb)
    requires Holds(x5, Label, x2[Label]) && Holds(x5, "num", x2["num"])
    requires Holds(x5, "fbs", Int(FlagCode(x2["fbs"]))) && Holds(x5, "exang", Int(FlagCode(x2["exang"])))
    ensures RepairedCells(x5, fb)
  {
    FlagOfNumberOrMissing(Int(fb.fbs));
    FlagOfNumberOrMissing(Int(fb.exang));
  }

  /** Dropping the identifier columns keeps `num` and adds no label. */
  lemma LegacyColumnsKept(baseline: Table)
    requires WellFormed(baseline) && "num" in baseline.columns && Label !in baseline.columns
    ensures "num" in DropIdColumns(baseline).columns && Label !in DropIdColumns(baseline).columns
    ensures |DropIdColumns(baseline).rows| == |baseline.rows|
  {
  }

  /** Normalising a legacy frame merged with enough feedback. */
  lemma LegacyNormalise(t0: Table, feedback: seq<FeedbackRow>)
    requires WellFormed(t0) && "num" in t0.columns && Label !in t0.columns
    requires |feedback| >= MinFeedback
    requires Normalise(MergeFeedback(t0, feedback)).Success?
    ensures LegacyShape(Normalise(MergeFeedback(t0, feedback)).value, Dedup(feedback), |t0.rows|)
  {
    var t1 := MergeFeedback(t0, feedback);
    LegacyMerged(t0, feedback);
    NormalisedKeeps(t1);
    LegacyRowsKept(t1, Normalise(t1).value, Dedup(feedback), |t0.rows|);
  }

  /** The normalised frame of a legacy CSV merged with enough feedback. */
  lemma LegacyRowsNormalised(baseline: Table, feedback: seq<FeedbackRow>)
    requires WellFormed(baseline) && "num" in baseline.columns && Label !in baseline.columns
    requires |feedback| >= MinFeedback
    requires Normalised(baseline, feedback).Success?
    ensures LegacyShape(Normalised(baseline, feedback).value, Dedup(feedback), |baseline.rows|)
  {
    LegacyColumnsKept(baseline);
    LegacyRenameSkipped(baseline, feedback);
    LegacyNormalise(DropIdColumns(baseline), feedback);
  }

  /** A feedback row in the prepared table: no `num`, both flags 0 and the
      label `prediction > 0`. */
  predicate PreparedFeedbackRow(x: Row, fb: FeedbackRow)
  {
    && Holds(x, "num", Missing) && Holds(x, "fbs", Int(0)) && Holds(x, "exang", Int(0))
    && Holds(x, Label, Int(if fb.prediction > 0 then 1 else 0))
  }

  /** Cleaning the labels of a legacy-shaped frame keeps exactly the feedback rows. */
  lemma LegacyCleaned(t5: Table, p: Table, d: seq<FeedbackRow>, n: nat)
    requires WellFormed(t5) && CleanLabel(t5) == Success(p) && LegacyShape(t5, d, n)
    ensures |p.rows| == |d|
    ensures forall j :: 0 <= j < |p.rows| ==> PreparedFeedbackRow(p.rows[j], d[j])
  {
    assert Label in t5.columns;
    LegacyKept(t5, d, n);
    CleanedLabels(t5);
    forall j | 0 <= j < |p.rows| ensures PreparedFeedbackRow(p.rows[j], d[j]) {
      assert RepairedCells(t5.rows[n + j], d[n + j - n]);
      RowCleaned(t5.rows[n + j], p.rows[j], d[j]);
    }
  }

  /** In a legacy-shaped frame the labelled rows are the feedback rows. */
  lemma LegacyKept(t5: Table, d: seq<FeedbackRow>, n: nat)
    requires WellFormed(t5) && Label in t5.columns && LegacyShape(t5, d, n)
    ensures KeepPresent(t5.rows, Label) == t5.rows[n..]
  {
    forall i | n <= i < |t5.rows| ensures t5.rows[i][Label] != Missing {
      assert RepairedCells(t5.rows[i], d[i - n]);
    }
    KeepPresentSplit(t5.rows, Label, n);
  }

  /** A repaired feedback row after its label is binarised. */
  lemma RowCleaned(x: Row, y: Row, fb: FeedbackRow)
    requires RepairedCells(x, fb)
    requires y == x[Label := Int(if Positive(x[Label]) == Some(true) then 1 else 0)]
    ensures PreparedFeedbackRow(y, fb)
  {
  }

  /** With a legacy CSV and at least 50 feedback rows, the baseline rows all
      lose their label and are dropped: the prepared table is exactly the
      distinct feedback rows, in order, each with no `num`, `fbs` and `exang`
      both 0 (stored integers never read as "true") and the label `prediction
      > 0`. */
  lemma LegacyLabelLostOnMerge(baseline: Table, feedback: seq<FeedbackRow>)
    requires WellFormed(baseline) && "num" in baseline.columns && Label !in baseline.columns
    requires |feedback| >= MinFeedback
    requires Prepared(baseline, feedback).Success?
    ensures var p, d := Prepared(baseline, feedback).value, Dedup(feedback);
      && |p.rows| == |d| == |set x | x in feedback|
      && forall j :: 0 <= j < |p.rows| ==> PreparedFeedbackRow(p.rows[j], d[j])
  {
    LegacyRowsNormalised(baseline, feedback);
    DedupLength(feedback);
    LegacyCleaned(Normalised(baseline, feedback).value, Prepared(baseline, feedback).value,
                  Dedup(feedback), |baseline.rows|);
  }
}
