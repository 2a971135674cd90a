/**
 * The label steps of the training script: rows without a label are dropped,
 * the label is binarised (`> 0`), and a majority class more than twice the
 * minority is cut down to exactly twice the minority by sampling.
 */
module Labels {
  import opened Wrappers
  import opened PyValues
  import opened Tables
  import opened Schema
  import opened PrepErrors

  /** `v > 0` on a label cell, None where Python raises TypeError (a string). */
  function Positive(v: Value): (r: Option<bool>)
    ensures r.None? <==> v.Text?
    ensures v.Missing? ==> r == Some(false)
    ensures r == Some(true) <==> v == Flag(true) || (v.Int? && v.i > 0) || (v.Decimal? && v.tenths > 0)
  {
    match v
    case Missing => Some(false)
    case Flag(b) => Some(b)
    case Int(i) => Some(i > 0)
    case Decimal(t) => Some(t > 0)
    case Text(_) => None
  }

  /** `(labels > 0).astype(int)`. */
  function BinariseLabels(vals: seq<Value>): (r: Option<seq<Value>>)
    ensures r.None? <==> exists i :: 0 <= i < |vals| && vals[i].Text?
    ensures r.Some? ==> |r.value| == |vals|
    ensures r.Some? ==> forall i :: 0 <= i < |vals| ==>
              r.value[i] == Int(if Positive(vals[i]) == Some(true) then 1 else 0)
  {
    if exists i :: 0 <= i < |vals| && vals[i].Text? then None
    else Some(seq(|vals|, i requires 0 <= i < |vals| =>
                   Int(if Positive(vals[i]) == Some(true) then 1 else 0)))
  }

  /** Every label is 0 or 1. */
  predicate BinaryLabels(t: Table)
  {
    WellFormed(t) && Label in t.columns
    && forall i :: 0 <= i < |t.rows| ==> t.rows[i][Label] == Int(0) || t.rows[i][Label] == Int(1)
  }

  /** `df.dropna(subset=["target"])` then the binarisation. */
  function CleanLabel(t: Table): (r: Result<Table, PrepError>)
    requires WellFormed(t)
    ensures r.Success? ==> BinaryLabels(r.value) && r.value.columns == t.columns
  {
    if Label !in t.columns then Failure(MissingColumn(Label))
    else
      var kept := DropMissing(t, Label);
      match BinariseLabels(Column(kept, Label))
      case None => Failure(NonNumericLabel)
      case Some(bits) => Success(SetColumn(kept, Label, bits))
  }

  /** Some row has a string label. */
  predicate SomeTextLabel(rows: seq<Row>)
  {
    exists i :: 0 <= i < |rows| && Label in rows[i] && rows[i][Label].Text?
  }

  /** The rows that survive are exactly the rows with a label, in order, each
      labelled 1 if its label was positive and 0 otherwise; a label that is a
      string stops the run. */
  lemma CleanedLabels(t: Table)
    requires WellFormed(t) && Label in t.columns
    ensures var kept := KeepPresent(t.rows, Label);
      && (CleanLabel(t).Failure? <==> SomeTextLabel(kept))
      && (CleanLabel(t).Failure? ==> CleanLabel(t).error == NonNumericLabel)
      && (CleanLabel(t).Success? ==>
            var r := CleanLabel(t).value;
            && |r.rows| == |kept|
            && (forall i :: 0 <= i < |kept| ==>
                  r.rows[i] == kept[i][Label := Int(if Positive(kept[i][Label]) == Some(true) then 1 else 0)]))
  {
    var kept := DropMissing(t, Label);
    var col := Column(kept, Label);
    if BinariseLabels(col).None? {
      var i :| 0 <= i < |col| && col[i].Text?;
      assert kept.rows[i][Label].Text?;
    }
    if SomeTextLabel(kept.rows) {
      var i :| 0 <= i < |kept.rows| && Label in kept.rows[i] && kept.rows[i][Label].Text?;
      assert col[i].Text?;
    }
  }

  // ------------------------------------------------------------ class counts

  predicate Labelled(rows: seq<Row>)
  {
    forall i :: 0 <= i < |rows| ==> Label in rows[i]
  }

  /** Every row carries label `l`. */
  predicate AllLabelled(rows: seq<Row>, l: int)
  {
    forall i :: 0 <= i < |rows| ==> Label in rows[i] && rows[i][Label] == Int(l)
  }

  /** No row carries label `l`. */
  predicate NoneLabelled(rows: seq<Row>, l: int)
  {
    forall i :: 0 <= i < |rows| ==> Label in rows[i] && rows[i][Label] != Int(l)
  }

  /** `df[df["target"] == l]`. */
  function WithLabel(rows: seq<Row>, l: int): (r: seq<Row>)
    requires Labelled(rows)
    ensures |r| <= |rows| && AllLabelled(r, l)
    ensures forall x :: x in r ==> x in rows
  {
    if rows == [] then []
    else if rows[0][Label] == Int(l) then [rows[0]] + WithLabel(rows[1..], l)
    else WithLabel(rows[1..], l)
  }

  /** `df[df["target"] != l]`. */
  function WithoutLabel(rows: seq<Row>, l: int): (r: seq<Row>)
    requires Labelled(rows)
    ensures |r| <= |rows| && NoneLabelled(r, l)
    ensures forall x :: x in r ==> x in rows
  {
    if rows == [] then []
    else if rows[0][Label] != Int(l) then [rows[0]] + WithoutLabel(rows[1..], l)
    else WithoutLabel(rows[1..], l)
  }

  /** `value_counts()[l]`. */
  function LabelCount(rows: seq<Row>, l: int): (n: nat)
    requires Labelled(rows)
    ensures n + |WithoutLabel(rows, l)| == |rows|
  {
    LabelPartition(rows, l);
    |WithLabel(rows, l)|
  }

  /** Every row is either labelled `l` or not. */
  lemma {:induction false} LabelPartition(rows: seq<Row>, l: int)
    requires Labelled(rows)
    ensures |WithLabel(rows, l)| + |WithoutLabel(rows, l)| == |rows|
  {
    if rows != [] {
      LabelPartition(rows[1..], l);
    }
  }

  /** The two class counts of a 0/1-labelled table add up to its rows. */
  lemma CountsSum(t: Table)
    requires BinaryLabels(t)
    ensures LabelCount(t.rows, 0) + LabelCount(t.rows, 1) == |t.rows|
  {
    WithoutIsOther(t.rows, 0);
  }

  lemma {:induction false} WithLabelConcat(a: seq<Row>, b: seq<Row>, l: int)
    requires Labelled(a) && Labelled(b)
    ensures Labelled(a + b) && WithLabel(a + b, l) == WithLabel(a, l) + WithLabel(b, l)
  {
    if a == [] {
      assert a + b == b;
    } else {
      WithLabelConcat(a[1..], b, l);
      assert (a + b)[1..] == a[1..] + b;
    }
  }

  lemma {:induction false} WithLabelAll(s: seq<Row>, l: int)
    requires AllLabelled(s, l)
    ensures WithLabel(s, l) == s
  {
    if s != [] {
      WithLabelAll(s[1..], l);
    }
  }

  lemma {:induction false} WithLabelNone(s: seq<Row>, l: int)
    requires NoneLabelled(s, l)
    ensures WithLabel(s, l) == []
  {
    if s != [] {
      WithLabelNone(s[1..], l);
    }
  }

  /** With 0/1 labels, "not the majority label" is "the other label". */
  lemma {:induction false} WithoutIsOther(rows: seq<Row>, l: int)
    requires Labelled(rows) && (l == 0 || l == 1)
    requires forall i :: 0 <= i < |rows| ==> rows[i][Label] == Int(0) || rows[i][Label] == Int(1)
    ensures WithoutLabel(rows, l) == WithLabel(rows, 1 - l)
  {
    if rows != [] {
      WithoutIsOther(rows[1..], l);
    }
  }

  // ------------------------------------------------------------ majority cap

  /** Largest majority/minority ratio left alone. */
  const MaxRatio: nat := 2

  /** Both classes present and the larger more than twice the smaller
      (`len(vc) == 2 and vc.max() / vc.min() > 2`). */
  predicate CapApplies(t: Table): (b: bool)
    requires BinaryLabels(t)
    ensures b <==> MinorityCount(t) > 0 && LabelCount(t.rows, MajorityLabel(t)) > MaxRatio * MinorityCount(t)
  {
    var c0, c1 := LabelCount(t.rows, 0), LabelCount(t.rows, 1);
    c0 > 0 && c1 > 0 && (c0 > MaxRatio * c1 || c1 > MaxRatio * c0)
  }

  /** `vc.idxmax()`. */
  function MajorityLabel(t: Table): (l: int)
    requires BinaryLabels(t)
    ensures l == 0 || l == 1
    ensures LabelCount(t.rows, 1 - l) <= LabelCount(t.rows, l)
  {
    if LabelCount(t.rows, 1) > LabelCount(t.rows, 0) then 1 else 0
  }

  /** `vc.min()`. */
  function MinorityCount(t: Table): (m: nat)
    requires BinaryLabels(t)
    ensures m == LabelCount(t.rows, 0) || m == LabelCount(t.rows, 1)
    ensures m <= LabelCount(t.rows, 0) && m <= LabelCount(t.rows, 1)
  {
    var c0, c1 := LabelCount(t.rows, 0), LabelCount(t.rows, 1);
    if c0 < c1 then c0 else c1
  }

  /** `a` is a possible outcome of the cap on `b`: where the cap applies,
      `2 * min` rows drawn without replacement from the majority rows, then
      the minority rows in their order; otherwise `b` itself. */
  predicate CappedFrom(b: Table, a: Table)
    requires BinaryLabels(b)
  {
    if CapApplies(b) then
      var maj, m := MajorityLabel(b), MinorityCount(b);
      && a.columns == b.columns
      && |a.rows| >= MaxRatio * m
      && a.rows[MaxRatio * m..] == WithoutLabel(b.rows, maj)
      && multiset(a.rows[..MaxRatio * m]) <= multiset(WithLabel(b.rows, maj))
    else a == b
  }

  /** The cap, with `DataFrame.sample` drawing one majority row at a time
      without replacement; which row is drawn is left open. */
  method CapMajority(t: Table) returns (r: Table)
    requires BinaryLabels(t)
    ensures BinaryLabels(r)
    ensures CappedFrom(t, r)
  {
    if !CapApplies(t) {
      return t;
    }
    var maj, m := MajorityLabel(t), MinorityCount(t);
    var majority := WithLabel(t.rows, maj);
    var pool, sample := majority, [];
    while |sample| < MaxRatio * m
      invariant |sample| <= MaxRatio * m
      invariant |sample| + |pool| == |majority|
      invariant multiset(sample) + multiset(pool) == multiset(majority)
    {
      var k :| 0 <= k < |pool|;
      assert pool == pool[..k] + [pool[k]] + pool[k + 1..];
      sample, pool := sample + [pool[k]], pool[..k] + pool[k + 1..];
    }
    var rest := WithoutLabel(t.rows, maj);
    r := Table(t.columns, sample + rest);
    assert r.rows[..|sample|] == sample && r.rows[|sample|..] == rest;
    forall x | x in sample ensures x in t.rows && x[Label] == Int(maj) {
      assert x in multiset(sample);
      assert x in multiset(majority);
    }
    forall i | 0 <= i < |r.rows|
      ensures r.rows[i] in t.rows && (r.rows[i][Label] == Int(0) || r.rows[i][Label] == Int(1))
    {
      if i < |sample| {
        assert r.rows[i] in sample;
      } else {
        assert r.rows[i] in rest;
      }
    }
  }

  /** Rows drawn from the rows labelled `l` are labelled `l`. */
  lemma DrawnRowsKeepLabel(drawn: seq<Row>, rows: seq<Row>, l: int)
    requires Labelled(rows)
    requires multiset(drawn) <= multiset(WithLabel(rows, l))
    ensures AllLabelled(drawn, l)
  {
    var w := WithLabel(rows, l);
    forall i | 0 <= i < |drawn| ensures Label in drawn[i] && drawn[i][Label] == Int(l) {
      assert drawn[i] in multiset(drawn);
      assert drawn[i] in multiset(w);
      var j :| 0 <= j < |w| && w[j] == drawn[i];
    }
  }

  /** Label counts of a drawn part followed by a rest, where all of the
      drawn part carries `l` and all of the rest carries the other label. */
  lemma CountsOfSplit(drawn: seq<Row>, rest: seq<Row>, l: int)
    requires AllLabelled(drawn, l) && AllLabelled(rest, 1 - l)
    ensures Labelled(drawn + rest)
    ensures LabelCount(drawn + rest, l) == |drawn|
    ensures LabelCount(drawn + rest, 1 - l) == |rest|
  {
    WithLabelConcat(drawn, rest, l);
    WithLabelConcat(drawn, rest, 1 - l);
    WithLabelAll(drawn, l);
    WithLabelNone(drawn, 1 - l);
    WithLabelAll(rest, 1 - l);
    WithLabelNone(rest, l);
  }

  /** The two parts of a capped table: the drawn majority rows, all carrying
      the majority label, then the minority rows. */
  lemma CappedParts(b: Table, a: Table)
    requires BinaryLabels(b) && CappedFrom(b, a) && CapApplies(b)
    ensures var maj, n := MajorityLabel(b), MaxRatio * MinorityCount(b);
      && n <= |a.rows|
      && AllLabelled(a.rows[..n], maj)
      && a.rows[n..] == WithLabel(b.rows, 1 - maj)
  {
    var maj, n := MajorityLabel(b), MaxRatio * MinorityCount(b);
    var drawn := a.rows[..n];
    assert n <= |a.rows| && a.rows[n..] == WithoutLabel(b.rows, maj)
      && multiset(drawn) <= multiset(WithLabel(b.rows, maj));
    assert AllLabelled(drawn, maj) by {
      DrawnRowsKeepLabel(drawn, b.rows, maj);
    }
    assert WithoutLabel(b.rows, maj) == WithLabel(b.rows, 1 - maj) by {
      WithoutIsOther(b.rows, maj);
    }
  }

  /** The minority count is the count of the label that is not the majority. */
  lemma MinorityIsOtherLabel(b: Table)
    requires BinaryLabels(b) && CapApplies(b)
    ensures LabelCount(b.rows, 1 - MajorityLabel(b)) == MinorityCount(b)
  {
  }

  /** After the cap the majority is exactly twice the minority, and the
      minority count is what it was. */
  lemma CapRatio(b: Table, a: Table)
    requires BinaryLabels(b) && CappedFrom(b, a) && CapApplies(b)
    ensures Labelled(a.rows)
    ensures var maj := MajorityLabel(b);
      && LabelCount(a.rows, 1 - maj) == LabelCount(b.rows, 1 - maj) == MinorityCount(b)
      && LabelCount(a.rows, maj) == MaxRatio * MinorityCount(b)
  {
    var maj, n := MajorityLabel(b), MaxRatio * MinorityCount(b);
    CappedParts(b, a);
    MinorityIsOtherLabel(b);
    var drawn, rest := a.rows[..n], a.rows[n..];
    assert a.rows == drawn + rest;
    CountsOfSplit(drawn, rest, maj);
  }

  /** Without the cap condition nothing changes. */
  lemma NoCapKeepsTable(b: Table, a: Table)
    requires BinaryLabels(b) && CappedFrom(b, a) && !CapApplies(b)
    ensures a == b
  {
  }

  /** A 250/50 table keeps 100 rows of the majority class. */
  lemma Cap250To100(b: Table, a: Table)
    requires BinaryLabels(b) && BinaryLabels(a) && CappedFrom(b, a)
    requires LabelCount(b.rows, 0) == 250 && LabelCount(b.rows, 1) == 50
    ensures LabelCount(a.rows, 0) == 100 && LabelCount(a.rows, 1) == 50
  {
    CapRatio(b, a);
  }
}
