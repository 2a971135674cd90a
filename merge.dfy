/**
 * The feedback merge gate: feedback rows join the baseline table only when
 * there are at least 50 of them, exact duplicates among them dropped (first
 * occurrence kept), appended after the baseline rows.
 */
module Merge {
  import opened PyValues
  import opened Tables
  import opened Schema

  /** Fewest feedback rows that are merged at all. */
  const MinFeedback: nat := 50

  predicate NoDuplicates<T(==, !new)>(s: seq<T>)
  {
    forall i, j :: 0 <= i < j < |s| ==> s[i] != s[j]
  }

  /** `drop_duplicates()`: the first occurrence of each distinct element, in order. */
  function Dedup<T(==, !new)>(s: seq<T>): (d: seq<T>)
    ensures NoDuplicates(d)
    ensures forall x :: x in d <==> x in s
  {
    if s == [] then []
    else
      var init := Dedup(s[..|s| - 1]);
      if s[|s| - 1] in s[..|s| - 1] then init else init + [s[|s| - 1]]
  }

  /** Removing duplicates from a prefix gives a prefix of the result: an
      element's place is fixed by its first occurrence. */
  lemma {:induction false} DedupPrefix<T(!new)>(s: seq<T>, k: nat)
    requires k <= |s|
    ensures Dedup(s[..k]) <= Dedup(s)
    decreases |s| - k
  {
    if k < |s| {
      DedupPrefix(s, k + 1);
      assert s[..k + 1][..k] == s[..k];
      assert Dedup(s[..k]) <= Dedup(s[..k + 1]);
    } else {
      assert s[..k] == s;
    }
  }

  lemma {:induction false} DistinctLength<T(!new)>(d: seq<T>)
    requires NoDuplicates(d)
    ensures |set x | x in d| == |d|
  {
    if d != [] {
      var init := d[..|d| - 1];
      assert NoDuplicates(init);
      DistinctLength(init);
      assert (set x | x in d) == (set x | x in init) + {d[|d| - 1]};
      assert d[|d| - 1] !in (set x | x in init);
    }
  }

  /** The deduplicated sequence has one entry per distinct element. */
  lemma DedupLength<T(!new)>(s: seq<T>)
    ensures |Dedup(s)| == |set x | x in s|
  {
    var d := Dedup(s);
    DistinctLength(d);
    assert (set x | x in d) == (set x | x in s);
  }

  /** The feedback rows as a DataFrame. */
  function FeedbackTable(fb: seq<FeedbackRow>): (t: Table)
    ensures WellFormed(t) && t.columns == FeedbackColumns && |t.rows| == |fb|
    ensures forall j :: 0 <= j < |fb| ==> t.rows[j] == FeedbackToRow(fb[j])
  {
    Table(FeedbackColumns, seq(|fb|, j requires 0 <= j < |fb| => FeedbackToRow(fb[j])))
  }

  /** The merge step: below the gate the table is left as it is. */
  function MergeFeedback(t: Table, fb: seq<FeedbackRow>): (r: Table)
    requires WellFormed(t)
    ensures WellFormed(r)
    ensures |fb| < MinFeedback ==> r == t
  {
    if |fb| >= MinFeedback then Concat(t, FeedbackTable(Dedup(fb))) else t
  }

  /** At or above the gate: the baseline rows, then one row per distinct
      feedback row in first-occurrence order, all widened to the union of
      the columns. */
  lemma MergedLayout(t: Table, fb: seq<FeedbackRow>)
    requires WellFormed(t) && |fb| >= MinFeedback
    ensures var r := MergeFeedback(t, fb);
      && r.columns == t.columns + FeedbackColumns
      && |r.rows| == |t.rows| + |set x | x in fb|
      && (forall i :: 0 <= i < |t.rows| ==> r.rows[i] == Pad(t.rows[i], r.columns))
      && (forall j :: 0 <= j < |Dedup(fb)| ==>
            r.rows[|t.rows| + j] == Pad(FeedbackToRow(Dedup(fb)[j]), r.columns))
  {
    var d := Dedup(fb);
    DedupLength(fb);
    var r := Concat(t, FeedbackTable(d));
    assert MergeFeedback(t, fb) == r;
    forall j | 0 <= j < |d| ensures r.rows[|t.rows| + j] == Pad(FeedbackToRow(d[j]), r.columns) {
      assert FeedbackTable(d).rows[j] == FeedbackToRow(d[j]);
    }
  }

  /** Where the baseline already has every feedback column, its rows come
      through the merge unchanged. */
  lemma BaselineRowsKept(t: Table, fb: seq<FeedbackRow>)
    requires WellFormed(t) && FeedbackColumns <= t.columns
    ensures var r := MergeFeedback(t, fb);
      |r.rows| >= |t.rows| && r.rows[..|t.rows|] == t.rows
  {
    var r := MergeFeedback(t, fb);
    if |fb| >= MinFeedback {
      forall i | 0 <= i < |t.rows| ensures r.rows[i] == t.rows[i] {
        assert r.rows[i] == Pad(t.rows[i], r.columns);
      }
    }
  }
}
