/**
 * `load_and_prepare_data`: the baseline table and the stored feedback go
 * through the drop of the identifier columns, the feedback merge, the legacy
 * label rename, the flag harmonisation, the categorical normaliser, the
 * label cleaning and the majority cap, one DataFrame changed step by step.
 * The functions state each step as a value; `LoadAndPrepare` performs them
 * on a `Frame` and is proved to agree with them.
 */
module Prepare {
  import opened Wrappers
  import opened PyValues
  import opened Tables
  import opened Schema
  import opened PrepErrors
  import opened Merge
  import opened Normaliser
  import opened Labels

  // ------------------------------------------------------------ the steps

  /** `df.drop(columns=c)` guarded by `c in df.columns`. */
  function DropIfPresent(t: Table, c: string): (r: Table)
    requires WellFormed(t)
    ensures WellFormed(r) && r.columns == t.columns - {c} && |r.rows| == |t.rows|
    ensures forall i, k :: 0 <= i < |t.rows| && k in r.columns ==> r.rows[i][k] == t.rows[i][k]
  {
    if c in t.columns then Drop(t, c) else t
  }

  /** The identifier columns `id` and `dataset` are removed where present. */
  function DropIdColumns(t: Table): (r: Table)
    requires WellFormed(t)
    ensures WellFormed(r) && r.columns == t.columns - {"id", "dataset"} && |r.rows| == |t.rows|
    ensures forall i, k :: 0 <= i < |t.rows| && k in r.columns ==> r.rows[i][k] == t.rows[i][k]
  {
    DropIfPresent(DropIfPresent(t, "id"), "dataset")
  }

  /** A legacy label column `num` is renamed to the label when there is no
      label column yet. */
  function RenameLegacyLabel(t: Table): (r: Table)
    requires WellFormed(t)
    ensures WellFormed(r) && |r.rows| == |t.rows|
    ensures Label in r.columns <==> Label in t.columns || "num" in t.columns
    ensures Label in t.columns ==> r == t
    ensures Label !in t.columns && "num" in t.columns ==>
      && r.columns == t.columns - {"num"} + {Label}
      && (forall i :: 0 <= i < |t.rows| ==> r.rows[i][Label] == t.rows[i]["num"])
      && forall i, k :: 0 <= i < |t.rows| && k in t.columns && k != "num" ==> r.rows[i][k] == t.rows[i][k]
    ensures Label !in t.columns && "num" !in t.columns ==> r == t
  {
    if "num" in t.columns && Label !in t.columns then Rename(t, "num", Label) else t
  }

  /** `a` and `b` have the same shape and agree on every column outside `cs`. */
  predicate SameExcept(a: Table, b: Table, cs: set<string>)
  {
    && a.columns == b.columns && |a.rows| == |b.rows|
    && forall i, k :: 0 <= i < |a.rows| && k in a.columns && k !in cs ==>
         k in a.rows[i] && k in b.rows[i] && b.rows[i][k] == a.rows[i][k]
  }

  /** One boolean-like column harmonised to 0/1; an absent column is a KeyError. */
  function HarmoniseColumn(t: Table, c: string): (r: Result<Table, PrepError>)
    requires WellFormed(t)
    ensures r.Failure? <==> c !in t.columns
    ensures r.Failure? ==> r.error == MissingColumn(c)
    ensures r.Success? ==>
      && WellFormed(r.value) && SameExcept(t, r.value, {c})
      && forall i :: 0 <= i < |t.rows| ==> r.value.rows[i][c] == Int(FlagCode(t.rows[i][c]))
  {
    if c !in t.columns then Failure(MissingColumn(c))
    else Success(SetColumn(t, c, HarmoniseFlags(Column(t, c))))
  }

  /** One categorical column mapped through `table`: an absent column is a
      KeyError, a non-empty column none of whose cells maps fails the int
      cast of the NaN median. */
  function NormaliseColumn(t: Table, c: string, table: CodeTable): (r: Result<Table, PrepError>)
    requires WellFormed(t)
    ensures c !in t.columns ==> r == Failure(MissingColumn(c))
    ensures c in t.columns ==>
      (r.Failure? <==> |t.rows| > 0 && forall i :: 0 <= i < |t.rows| ==> Lookup(table, t.rows[i][c]).None?)
    ensures c in t.columns && r.Failure? ==> r.error == UnmappedColumn(c)
    ensures r.Success? ==> WellFormed(r.value) && SameExcept(t, r.value, {c})
  {
    if c !in t.columns then Failure(MissingColumn(c))
    else
      var col := Column(t, c);
      MappedCodesEmpty(table, col);
      match NormaliseValues(table, col)
      case None => Failure(UnmappedColumn(c))
      case Some(vals) => Success(SetColumn(t, c, vals))
  }

  /** What the rewritten column holds: in every row, the cell whose canonical
      form is a key gets that key's code, and every other cell the integer
      median of the codes mapped in the column. */
  lemma NormaliseColumnCells(t: Table, c: string, table: CodeTable)
    requires WellFormed(t) && NormaliseColumn(t, c, table).Success?
    ensures c in t.columns && NormaliseValues(table, Column(t, c)).Some?
    ensures forall i :: 0 <= i < |t.rows| ==>
      NormaliseColumn(t, c, table).value.rows[i][c] == NormaliseValues(table, Column(t, c)).value[i]
    ensures forall i :: 0 <= i < |t.rows| ==>
      NormaliseColumn(t, c, table).value.rows[i][c] ==
        if CanonicalKey(t.rows[i][c]) in table then Int(table[CanonicalKey(t.rows[i][c])])
        else Int(MedianCode(MappedCodes(table, Column(t, c))))
  {
    var col := Column(t, c);
    var r := NormaliseColumn(t, c, table).value;
    assert r == SetColumn(t, c, NormaliseValues(table, col).value);
    forall i | 0 <= i < |t.rows|
      ensures r.rows[i][c] ==
        if CanonicalKey(t.rows[i][c]) in table then Int(table[CanonicalKey(t.rows[i][c])])
        else Int(MedianCode(MappedCodes(table, col)))
    {
      NormalisedCell(table, col, i);
    }
  }

  /** The names of a list of (column, table) pairs. */
  function Names(ms: seq<(string, CodeTable)>): (ns: set<string>)
    ensures forall j :: 0 <= j < |ms| ==> ms[j].0 in ns
    ensures forall n :: n in ns ==> exists j :: 0 <= j < |ms| && ms[j].0 == n
  {
    set j | 0 <= j < |ms| :: ms[j].0
  }

  /** The loop over `cat_mappings`, stopping at the first failure. */
  function NormaliseAll(t: Table, ms: seq<(string, CodeTable)>): (r: Result<Table, PrepError>)
    requires WellFormed(t)
    ensures r.Success? ==> WellFormed(r.value)
    decreases |ms|
  {
    if ms == [] then Success(t)
    else
      var t1 :- NormaliseColumn(t, ms[0].0, ms[0].1);
      NormaliseAll(t1, ms[1..])
  }

  /** The loop after its first round is the loop on the rest. */
  lemma NormaliseAllStep(t: Table, ms: seq<(string, CodeTable)>)
    requires WellFormed(t) && ms != [] && NormaliseAll(t, ms).Success?
    ensures NormaliseColumn(t, ms[0].0, ms[0].1).Success?
    ensures WellFormed(NormaliseColumn(t, ms[0].0, ms[0].1).value)
    ensures NormaliseAll(NormaliseColumn(t, ms[0].0, ms[0].1).value, ms[1..]) == NormaliseAll(t, ms)
  {
  }

  /** The three outcomes of one round of the loop. */
  lemma NormaliseAllRound(t: Table, ms: seq<(string, CodeTable)>)
    requires WellFormed(t) && ms != []
    ensures NormaliseColumn(t, ms[0].0, ms[0].1).Failure? ==>
      NormaliseAll(t, ms) == Failure(NormaliseColumn(t, ms[0].0, ms[0].1).error)
    ensures NormaliseColumn(t, ms[0].0, ms[0].1).Success? ==>
      NormaliseAll(t, ms) == NormaliseAll(NormaliseColumn(t, ms[0].0, ms[0].1).value, ms[1..])
  {
  }

  /** The loop changes no column outside the ones it normalises. */
  lemma {:induction false} NormaliseAllKeeps(t: Table, ms: seq<(string, CodeTable)>)
    requires WellFormed(t) && NormaliseAll(t, ms).Success?
    ensures SameExcept(t, NormaliseAll(t, ms).value, Names(ms))
    decreases |ms|
  {
    if ms != [] {
      NormaliseAllStep(t, ms);
      var t1 := NormaliseColumn(t, ms[0].0, ms[0].1).value;
      NormaliseAllKeeps(t1, ms[1..]);
      NamesCons(ms);
      SameExceptChain(t, t1, NormaliseAll(t, ms).value, {ms[0].0}, Names(ms[1..]), Names(ms));
    }
  }

  /** The names of a non-empty list: its head's and those of its tail. */
  lemma NamesCons(ms: seq<(string, CodeTable)>)
    requires ms != []
    ensures Names(ms) == {ms[0].0} + Names(ms[1..])
  {
    forall n | n in Names(ms[1..]) ensures n in Names(ms) {
      var j :| 0 <= j < |ms[1..]| && ms[1..][j].0 == n;
      assert ms[j + 1] == ms[1..][j];
    }
    forall n | n in Names(ms) ensures n in {ms[0].0} + Names(ms[1..]) {
      var j :| 0 <= j < |ms| && ms[j].0 == n;
      if j > 0 {
        assert ms[1..][j - 1] == ms[j];
      }
    }
  }

  /** Agreement outside `cs` and then outside `ds` is agreement outside any
      superset of both. */
  lemma SameExceptChain(a: Table, b: Table, c: Table, cs: set<string>, ds: set<string>, es: set<string>)
    requires SameExcept(a, b, cs) && SameExcept(b, c, ds) && cs + ds <= es
    ensures SameExcept(a, c, es)
  {
  }

  /** The frame once loaded: identifier columns dropped, feedback merged,
      legacy label renamed. */
  function Loaded(baseline: Table, feedback: seq<FeedbackRow>): (r: Table)
    requires WellFormed(baseline)
    ensures WellFormed(r)
  {
    RenameLegacyLabel(MergeFeedback(DropIdColumns(baseline), feedback))
  }

  /** A loaded frame with `fbs` and `exang` harmonised and the categorical
      columns normalised. */
  function Normalise(t2: Table): (r: Result<Table, PrepError>)
    requires WellFormed(t2)
    ensures r.Success? ==> WellFormed(r.value)
  {
    var t3 :- HarmoniseColumn(t2, "fbs");
    var t4 :- HarmoniseColumn(t3, "exang");
    NormaliseAll(t4, CategoricalColumns)
  }

  /** The frame after loading and normalising. */
  function Normalised(baseline: Table, feedback: seq<FeedbackRow>): (r: Result<Table, PrepError>)
    requires WellFormed(baseline)
    ensures r.Success? ==> WellFormed(r.value)
  {
    Normalise(Loaded(baseline, feedback))
  }

  /** Everything before the cap, as one value: the identifier columns go, the
      feedback is merged, the legacy label is renamed, `fbs` and `exang` are
      harmonised, the categorical columns are normalised and the labels are
      cleaned. The first step that fails decides the error. */
  function Prepared(baseline: Table, feedback: seq<FeedbackRow>): (r: Result<Table, PrepError>)
    requires WellFormed(baseline)
    ensures r.Success? ==> BinaryLabels(r.value)
  {
    var t5 :- Normalised(baseline, feedback);
    CleanLabel(t5)
  }

  /** The names of `fs` that are not columns, in their order: the KeyError
      of `df[FEATURES]` lists them. */
  function Absent(fs: seq<string>, cols: set<string>): (m: seq<string>)
    ensures |m| <= |fs|
    ensures forall f :: f in m <==> f in fs && f !in cols
  {
    if fs == [] then []
    else if fs[0] in cols then Absent(fs[1..], cols)
    else [fs[0]] + Absent(fs[1..], cols)
  }

  // ------------------------------------------------------------ the method

  /** The CSV frame with the identifier columns dropped, the feedback merged
      and the legacy label renamed. */
  method LoadFrame(baseline: Table, feedback: seq<FeedbackRow>) returns (df: Frame)
    requires WellFormed(baseline)
    ensures fresh(df) && df.Valid()
    ensures df.View() == Loaded(baseline, feedback)
  {
    df := new Frame(baseline);
    if "id" in df.columns {
      df.DropColumn("id");
    }
    if "dataset" in df.columns {
      df.DropColumn("dataset");
    }
    assert df.View() == DropIdColumns(baseline);
    if |feedback| >= MinFeedback {
      df := new Frame(Concat(df.View(), FeedbackTable(Dedup(feedback))));
    }
    if "num" in df.columns && Label !in df.columns {
      df.RenameColumn("num", Label);
    }
  }

  /** `df[c] = df[c].astype(str).str.lower().map(...).fillna(0).astype(int)`. */
  method HarmoniseInPlace(df: Frame, c: string) returns (err: Option<PrepError>)
    requires df.Valid()
    modifies df
    ensures df.Valid()
    ensures err.None? <==> HarmoniseColumn(old(df.View()), c).Success?
    ensures err.Some? ==> err.value == HarmoniseColumn(old(df.View()), c).error
    ensures err.None? ==> df.View() == HarmoniseColumn(old(df.View()), c).value
  {
    if c !in df.columns {
      return Some(MissingColumn(c));
    }
    df.AssignColumn(c, HarmoniseFlags(Column(df.View(), c)));
    return None;
  }

  /** One round of the categorical loop: the column mapped, its median
      taken and the gaps filled. */
  method NormaliseColumnInPlace(df: Frame, c: string, table: CodeTable) returns (err: Option<PrepError>)
    requires df.Valid()
    modifies df
    ensures df.Valid()
    ensures err.None? <==> NormaliseColumn(old(df.View()), c, table).Success?
    ensures err.Some? ==> err.value == NormaliseColumn(old(df.View()), c, table).error
    ensures err.None? ==> df.View() == NormaliseColumn(old(df.View()), c, table).value
  {
    if c !in df.columns {
      return Some(MissingColumn(c));
    }
    var vals := NormaliseValues(table, Column(df.View(), c));
    if vals.None? {
      return Some(UnmappedColumn(c));
    }
    df.AssignColumn(c, vals.value);
    return None;
  }

  /** The `for col, mapper in cat_mappings.items()` loop. */
  method NormaliseInPlace(df: Frame) returns (err: Option<PrepError>)
    requires df.Valid()
    modifies df
    ensures df.Valid()
    ensures err.None? <==> NormaliseAll(old(df.View()), CategoricalColumns).Success?
    ensures err.Some? ==> err.value == NormaliseAll(old(df.View()), CategoricalColumns).error
    ensures err.None? ==> df.View() == NormaliseAll(old(df.View()), CategoricalColumns).value
  {
    var items := CategoricalColumns;
    while items != []
      invariant df.Valid()
      invariant NormaliseAll(old(df.View()), CategoricalColumns) == NormaliseAll(df.View(), items)
      decreases |items|
    {
      NormaliseAllRound(df.View(), items);
      err := NormaliseColumnInPlace(df, items[0].0, items[0].1);
      if err.Some? {
        return;
      }
      items := items[1..];
    }
    return None;
  }

  /** `df.dropna(subset=["target"], inplace=True)` and the binarisation. */
  method CleanLabelInPlace(df: Frame) returns (err: Option<PrepError>)
    requires df.Valid()
    modifies df
    ensures df.Valid()
    ensures err.None? <==> CleanLabel(old(df.View())).Success?
    ensures err.Some? ==> err.value == CleanLabel(old(df.View())).error
    ensures err.None? ==> df.View() == CleanLabel(old(df.View())).value
  {
    if Label !in df.columns {
      return Some(MissingColumn(Label));
    }
    df.DropNa(Label);
    var bits := BinariseLabels(Column(df.View(), Label));
    if bits.None? {
      return Some(NonNumericLabel);
    }
    df.AssignColumn(Label, bits.value);
    return None;
  }

  /** `load_and_prepare_data` up to the selection of the feature columns:
      the returned table is the capped table, which holds every feature. */
  method LoadAndPrepare(baseline: Table, feedback: seq<FeedbackRow>) returns (r: Result<Table, PrepError>)
    requires WellFormed(baseline)
    ensures Prepared(baseline, feedback).Failure? ==> r == Failure(Prepared(baseline, feedback).error)
    ensures Prepared(baseline, feedback).Success? ==>
      var p := Prepared(baseline, feedback).value;
      && (Absent(Features, p.columns) != [] ==> r == Failure(MissingFeatures(Absent(Features, p.columns))))
      && (Absent(Features, p.columns) == [] ==>
            r.Success? && BinaryLabels(r.value) && CappedFrom(p, r.value)
            && forall f :: f in Features ==> f in r.value.columns)
  {
    var df := LoadFrame(baseline, feedback);
    var err := HarmoniseInPlace(df, "fbs");
    if err.Some? {
      return Failure(err.value);
    }
    err := HarmoniseInPlace(df, "exang");
    if err.Some? {
      return Failure(err.value);
    }
    err := NormaliseInPlace(df);
    if err.Some? {
      return Failure(err.value);
    }
    err := CleanLabelInPlace(df);
    if err.Some? {
      return Failure(err.value);
    }
    var capped := CapMajority(df.View());
    df := new Frame(capped);
    var absent := Absent(Features, df.columns);
    if absent != [] {
      return Failure(MissingFeatures(absent));
    }
    return Success(df.View());
  }
}
