/**
 * The slice of pandas' DataFrame that the training script uses: a set of
 * column names and a sequence of rows, each row a map from column name to
 * cell. The functions are the operations as values; class `Frame` is the
 * DataFrame object that the script changes in place.
 */
module Tables {
  import opened PyValues

  type Row = map<string, Value>

  datatype Table = Table(columns: set<string>, rows: seq<Row>)

  /** Every row has exactly the table's columns. */
  predicate WellFormed(t: Table)
  {
    forall i :: 0 <= i < |t.rows| ==> t.rows[i].Keys == t.columns
  }

  /** `df[c]` as a sequence of cells, in row order. */
  function Column(t: Table, c: string): (col: seq<Value>)
    requires WellFormed(t) && c in t.columns
    ensures |col| == |t.rows|
    ensures forall i :: 0 <= i < |t.rows| ==> col[i] == t.rows[i][c]
  {
    seq(|t.rows|, i requires 0 <= i < |t.rows| => t.rows[i][c])
  }

  /** `df.drop(columns=c)`. */
  function Drop(t: Table, c: string): (r: Table)
    requires WellFormed(t)
    ensures WellFormed(r) && r.columns == t.columns - {c} && |r.rows| == |t.rows|
    ensures forall i, k :: 0 <= i < |t.rows| && k in r.columns ==> r.rows[i][k] == t.rows[i][k]
  {
    Table(t.columns - {c}, seq(|t.rows|, i requires 0 <= i < |t.rows| => t.rows[i] - {c}))
  }

  function RenameRow(r: Row, from: string, to: string): Row
    requires from in r
  {
    (r - {from})[to := r[from]]
  }

  /** `df.rename(columns={from: to})` where `to` is not yet a column. */
  function Rename(t: Table, from: string, to: string): (r: Table)
    requires WellFormed(t) && from in t.columns && to !in t.columns
    ensures WellFormed(r) && r.columns == t.columns - {from} + {to} && |r.rows| == |t.rows|
    ensures forall i :: 0 <= i < |t.rows| ==> r.rows[i][to] == t.rows[i][from]
    ensures forall i, k :: 0 <= i < |t.rows| && k in t.columns && k != from ==> r.rows[i][k] == t.rows[i][k]
  {
    Table(t.columns - {from} + {to},
          seq(|t.rows|, i requires 0 <= i < |t.rows| => RenameRow(t.rows[i], from, to)))
  }

  /** `df[c] = vals` for an existing column `c`. */
  function SetColumn(t: Table, c: string, vals: seq<Value>): (r: Table)
    requires WellFormed(t) && c in t.columns && |vals| == |t.rows|
    ensures WellFormed(r) && r.columns == t.columns && |r.rows| == |t.rows|
    ensures forall i :: 0 <= i < |t.rows| ==> r.rows[i] == t.rows[i][c := vals[i]]
  {
    Table(t.columns, seq(|t.rows|, i requires 0 <= i < |t.rows| => t.rows[i][c := vals[i]]))
  }

  /** The rows whose cell `c` is not missing, in their order. */
  function KeepPresent(rows: seq<Row>, c: string): (r: seq<Row>)
    requires forall i :: 0 <= i < |rows| ==> c in rows[i]
    ensures |r| <= |rows|
    ensures forall i :: 0 <= i < |r| ==> r[i] in rows && c in r[i] && r[i][c] != Missing
    ensures forall x :: x in rows && x[c] != Missing ==> x in r
  {
    if rows == [] then []
    else if rows[0][c] == Missing then KeepPresent(rows[1..], c)
    else [rows[0]] + KeepPresent(rows[1..], c)
  }

  /** Rows missing `c` up to `n` and present from there: dropping the
      missing ones leaves the suffix. */
  lemma {:induction false} KeepPresentSplit(rows: seq<Row>, c: string, n: nat)
    requires n <= |rows| && forall i :: 0 <= i < |rows| ==> c in rows[i]
    requires forall i :: 0 <= i < n ==> rows[i][c] == Missing
    requires forall i :: n <= i < |rows| ==> rows[i][c] != Missing
    ensures KeepPresent(rows, c) == rows[n..]
  {
    if rows != [] {
      var tail := rows[1..];
      assert forall i :: 0 <= i < |tail| ==> tail[i] == rows[i + 1];
      if n == 0 {
        KeepPresentSplit(tail, c, 0);
        assert rows == [rows[0]] + tail;
      } else {
        KeepPresentSplit(tail, c, n - 1);
        assert tail[n - 1..] == rows[n..];
      }
    }
  }

  /** Dropping distributes over concatenation: the kept rows of `a + b` are
      the kept rows of `a` followed by those of `b`. */
  lemma {:induction false} KeepPresentConcat(a: seq<Row>, b: seq<Row>, c: string)
    requires forall i :: 0 <= i < |a| ==> c in a[i]
    requires forall i :: 0 <= i < |b| ==> c in b[i]
    ensures KeepPresent(a + b, c) == KeepPresent(a, c) + KeepPresent(b, c)
    decreases |a|
  {
    if a == [] {
      assert a + b == b;
    } else {
      assert (a + b)[0] == a[0];
      assert (a + b)[1..] == a[1..] + b;
      KeepPresentConcat(a[1..], b, c);
    }
  }

  /** A single row is kept exactly when its cell `c` is present. */
  lemma KeepPresentSingle(x: Row, c: string)
    requires c in x
    ensures KeepPresent([x], c) == if x[c] == Missing then [] else [x]
  {
    assert [x][1..] == [];
  }

  /** Every row with `c` present is kept as often as it occurs, and no
      other row is kept. */
  lemma {:induction false} KeepPresentCounts(rows: seq<Row>, c: string)
    requires forall i :: 0 <= i < |rows| ==> c in rows[i]
    ensures forall x ::
      multiset(KeepPresent(rows, c))[x] == (if x in rows && x[c] != Missing then multiset(rows)[x] else 0)
  {
    if rows != [] {
      var tail := rows[1..];
      assert rows == [rows[0]] + tail;
      KeepPresentCounts(tail, c);
      forall x
        ensures multiset(KeepPresent(rows, c))[x] ==
          (if x in rows && x[c] != Missing then multiset(rows)[x] else 0)
      {
        if x !in tail {
          assert multiset(tail)[x] == 0;
        }
      }
    }
  }

  /** `df.dropna(subset=[c])`. */
  function DropMissing(t: Table, c: string): (r: Table)
    requires WellFormed(t) && c in t.columns
    ensures WellFormed(r) && r.columns == t.columns
    ensures forall i :: 0 <= i < |r.rows| ==> r.rows[i] in t.rows && r.rows[i][c] != Missing
    ensures forall x :: x in t.rows && x[c] != Missing ==> x in r.rows
  {
    Table(t.columns, KeepPresent(t.rows, c))
  }

  /** A row widened to `cols`, absent cells filled with NaN. */
  function Pad(r: Row, cols: set<string>): (p: Row)
    requires r.Keys <= cols
    ensures p.Keys == cols
    ensures forall k :: k in r ==> p[k] == r[k]
    ensures forall k :: k in cols && k !in r ==> p[k] == Missing
  {
    map k | k in cols :: if k in r then r[k] else Missing
  }

  /** `pd.concat([a, b], ignore_index=True)`: the union of the columns, the
      rows of `a` then those of `b`, each padded with NaN. */
  function Concat(a: Table, b: Table): (r: Table)
    requires WellFormed(a) && WellFormed(b)
    ensures WellFormed(r) && r.columns == a.columns + b.columns
    ensures |r.rows| == |a.rows| + |b.rows|
    ensures forall i :: 0 <= i < |a.rows| ==> r.rows[i] == Pad(a.rows[i], r.columns)
    ensures forall j :: 0 <= j < |b.rows| ==> r.rows[|a.rows| + j] == Pad(b.rows[j], r.columns)
  {
    var cols := a.columns + b.columns;
    Table(cols, seq(|a.rows|, i requires 0 <= i < |a.rows| => Pad(a.rows[i], cols))
              + seq(|b.rows|, j requires 0 <= j < |b.rows| => Pad(b.rows[j], cols)))
  }

  /** A DataFrame: the object the training script updates in place. */
  class Frame {
    var columns: set<string>
    var rows: seq<Row>

    ghost predicate Valid()
      reads this
    {
      WellFormed(Table(columns, rows))
    }

    function View(): Table
      reads this
    {
      Table(columns, rows)
    }

    constructor (t: Table)
      requires WellFormed(t)
      ensures Valid() && View() == t
    {
      columns := t.columns;
      rows := t.rows;
    }

    /** `df.drop(columns=c, inplace=True)`. */
    method DropColumn(c: string)
      requires Valid() && c in columns
      modifies this
      ensures Valid() && View() == Drop(old(View()), c)
    {
      var rs := rows;
      rows := seq(|rs|, i requires 0 <= i < |rs| => rs[i] - {c});
      columns := columns - {c};
    }

    /** `df.rename(columns={from: to}, inplace=True)`. */
    method RenameColumn(from: string, to: string)
      requires Valid() && from in columns && to !in columns
      modifies this
      ensures Valid() && View() == Rename(old(View()), from, to)
    {
      var rs := rows;
      rows := seq(|rs|, i requires 0 <= i < |rs| => RenameRow(rs[i], from, to));
      columns := columns - {from} + {to};
    }

    /** `df[c] = vals`. */
    method AssignColumn(c: string, vals: seq<Value>)
      requires Valid() && c in columns && |vals| == |rows|
      modifies this
      ensures Valid() && View() == SetColumn(old(View()), c, vals)
    {
      var rs := rows;
      rows := seq(|rs|, i requires 0 <= i < |rs| => rs[i][c := vals[i]]);
    }

    /** `df.dropna(subset=[c], inplace=True)`. */
    method DropNa(c: string)
      requires Valid() && c in columns
      modifies this
      ensures Valid() && View() == DropMissing(old(View()), c)
    {
      rows := KeepPresent(rows, c);
    }
  }
}
