/**
 * The categorical normaliser of the training script: boolean-like columns
 * become 0/1, and each categorical column is mapped through its table of
 * canonical codes, unmapped cells being filled with the integer part of the
 * column median of the mapped codes.
 */
module Normaliser {
  import opened Wrappers
  import opened PyValues

  /** Canonical form of a value -> code. Keys are lower-case. */
  type CodeTable = map<string, int>

  const SexCodes: CodeTable := map["male" := 0, "female" := 1]
  const CpCodes: CodeTable :=
    map["typical angina" := 0, "atypical angina" := 1, "non-anginal" := 2,
        "non-anginal pain" := 2, "asymptomatic" := 3]
  const RestecgCodes: CodeTable :=
    map["normal" := 0, "st-t wave abnormality" := 1, "lv hypertrophy" := 2,
        "left ventricular hypertrophy" := 2]
  const SlopeCodes: CodeTable := map["upsloping" := 0, "flat" := 1, "downsloping" := 2]
  const ThalCodes: CodeTable :=
    map["normal" := 0, "fixed defect" := 1, "reversable defect" := 2, "reversible defect" := 2]

  /** The categorical columns and their tables, in the order they are normalised. */
  const CategoricalColumns: seq<(string, CodeTable)> :=
    [("sex", SexCodes), ("cp", CpCodes), ("restecg", RestecgCodes),
     ("slope", SlopeCodes), ("thal", ThalCodes)]

  /** The boolean-like columns. */
  const FlagColumns: seq<string> := ["fbs", "exang"]

  // ---------------------------------------------------------------- flags

  /** `fbs`/`exang` harmonisation of one cell: lower-cased `str()` mapped
      through {"true": 1, "false": 0}, anything else (NaN) filled with 0. */
  function FlagCode(v: Value): (code: int)
    ensures code == 0 || code == 1
  {
    if Lower(Str(v)) == "true" then 1 else 0
  }

  /** The harmonised column. */
  function HarmoniseFlags(vals: seq<Value>): (r: seq<Value>)
    ensures |r| == |vals|
    ensures forall i :: 0 <= i < |vals| ==> r[i] == Int(FlagCode(vals[i]))
  {
    seq(|vals|, i requires 0 <= i < |vals| => Int(FlagCode(vals[i])))
  }

  /** A Python bool keeps its truth value. */
  lemma FlagOfBool(b: bool)
    ensures FlagCode(Flag(b)) == if b then 1 else 0
  {
    if b {
      assert Lower("True") == "true";
    } else {
      assert Lower("False")[0] == 'f';
    }
  }

  /** Any text whose lower-case form is "true" is 1, whatever its case. */
  lemma FlagOfText(s: string)
    ensures FlagCode(Text(s)) == 1 <==>
              (|s| == 4 && LowerChar(s[0]) == 't' && LowerChar(s[1]) == 'r'
               && LowerChar(s[2]) == 'u' && LowerChar(s[3]) == 'e')
  {
    var l := Lower(s);
    if |s| == 4 && LowerChar(s[0]) == 't' && LowerChar(s[1]) == 'r'
       && LowerChar(s[2]) == 'u' && LowerChar(s[3]) == 'e' {
      assert l == "true";
    }
  }

  /** A number, including the integers 1 and 0, and NaN are 0. */
  lemma FlagOfNumberOrMissing(v: Value)
    requires v.Int? || v.Decimal? || v.Missing?
    ensures FlagCode(v) == 0
  {
    if v.Missing? {
      assert Lower(Str(v))[0] == 'n';
    } else {
      NumberRendersAsNumeral(v);
      var l := Lower(Str(v));
      assert NumeralChar(Str(v)[0]);
      assert l[0] == Str(v)[0];
    }
  }

  // ---------------------------------------------------------- categorical

  /** `str(v).strip().lower()`, the form looked up in a code table. */
  function CanonicalKey(v: Value): string
  {
    Lower(Strip(Str(v)))
  }

  /** The looked-up form has no surrounding whitespace and no upper-case
      letter. */
  lemma CanonicalKeyShape(v: Value)
    ensures Trimmed(CanonicalKey(v)) && NoUpper(CanonicalKey(v))
  {
    StripTrims(Str(v));
    LowerKeepsTrimmed(Strip(Str(v)));
  }

  /** A key is its own canonical form, so a table keyed by canonical forms
      is looked up by its keys. */
  lemma CanonicalKeyIdempotent(v: Value)
    ensures CanonicalKey(Text(CanonicalKey(v))) == CanonicalKey(v)
  {
    CanonicalKeyShape(v);
    CanonicalOfTrimmed(CanonicalKey(v));
  }

  lemma CanonicalOfTrimmed(k: string)
    requires Trimmed(k) && NoUpper(k)
    ensures CanonicalKey(Text(k)) == k
  {
    StripTrims(k);
    LowerKeepsLower(k);
  }

  /** The code of a cell, None where pandas' `map` gives NaN. */
  function Lookup(table: CodeTable, v: Value): (r: Option<int>)
    ensures r.Some? <==> CanonicalKey(v) in table
    ensures r.Some? ==> r.value == table[CanonicalKey(v)]
  {
    var k := CanonicalKey(v);
    if k in table then Some(table[k]) else None
  }

  /** The lookup of every cell of a column. */
  function Lookups(table: CodeTable, vals: seq<Value>): (r: seq<Option<int>>)
    ensures |r| == |vals|
    ensures forall i :: 0 <= i < |vals| ==> r[i] == Lookup(table, vals[i])
  {
    seq(|vals|, i requires 0 <= i < |vals| => Lookup(table, vals[i]))
  }

  /** Each value occurs in `r` as often as it is present in `s`. */
  ghost predicate SameCounts(r: seq<int>, s: seq<Option<int>>)
  {
    forall c :: multiset(r)[c] == multiset(s)[Some(c)]
  }

  /** The present values, in order: what pandas' `median` sees of a column
      once the unmapped cells are NaN. */
  function Present(s: seq<Option<int>>): (r: seq<int>)
    ensures |r| <= |s|
  {
    if s == [] then []
    else (match s[0] case Some(c) => [c] case None => []) + Present(s[1..])
  }

  /** Each value is kept as many times as it is present. */
  lemma {:induction false} PresentCounts(s: seq<Option<int>>)
    ensures SameCounts(Present(s), s)
  {
    if s != [] {
      var head: seq<int> := match s[0] case Some(c) => [c] case None => [];
      var rest := Present(s[1..]);
      PresentCounts(s[1..]);
      assert Present(s) == head + rest;
      assert multiset(s) == multiset{s[0]} + multiset(s[1..]) by {
        assert s == [s[0]] + s[1..];
      }
      forall c ensures multiset(Present(s))[c] == multiset(s)[Some(c)] {
        assert multiset(head)[c] == multiset{s[0]}[Some(c)];
      }
    }
  }

  /** A present value makes the result non-empty. */
  lemma {:induction false} PresentNonEmpty(s: seq<Option<int>>, i: int)
    requires 0 <= i < |s| && s[i].Some?
    ensures Present(s) != []
  {
    if i > 0 {
      assert s[1..][i - 1] == s[i];
      PresentNonEmpty(s[1..], i - 1);
    }
  }

  /** With nothing present the result is empty. */
  lemma {:induction false} PresentNone(s: seq<Option<int>>)
    requires forall i :: 0 <= i < |s| ==> s[i].None?
    ensures Present(s) == []
  {
    if s != [] {
      assert s[0].None?;
      assert forall i :: 0 <= i < |s[1..]| ==> s[1..][i] == s[i + 1];
      PresentNone(s[1..]);
    }
  }

  /** Every value of the result was present in the input. */
  lemma {:induction false} PresentFrom(s: seq<Option<int>>)
    ensures forall c :: c in Present(s) ==> Some(c) in s
  {
    if s != [] {
      PresentFrom(s[1..]);
      assert forall x :: x in s[1..] ==> x in s;
    }
  }

  /** The codes of the cells that mapped, in column order. */
  function MappedCodes(table: CodeTable, vals: seq<Value>): (codes: seq<int>)
    ensures |codes| <= |vals|
  {
    Present(Lookups(table, vals))
  }

  /** Each code is collected exactly as many times as a cell of the column
      maps to it. */
  lemma MappedCodesCounts(table: CodeTable, vals: seq<Value>)
    ensures SameCounts(MappedCodes(table, vals), Lookups(table, vals))
  {
    PresentCounts(Lookups(table, vals));
  }

  /** Every collected code is a code of the table. */
  lemma MappedCodesFromTable(table: CodeTable, vals: seq<Value>)
    ensures forall c :: c in MappedCodes(table, vals) ==> c in table.Values
  {
    var s := Lookups(table, vals);
    PresentFrom(s);
    forall c | c in MappedCodes(table, vals) ensures c in table.Values {
      assert Some(c) in s;
      var i :| 0 <= i < |s| && s[i] == Some(c);
      var k := CanonicalKey(vals[i]);
      assert Lookup(table, vals[i]) == Some(c);
      assert k in table && table[k] == c;
    }
  }

  /** No code is collected exactly when no cell of the column maps. */
  lemma MappedCodesEmpty(table: CodeTable, vals: seq<Value>)
    ensures MappedCodes(table, vals) == [] <==> forall i :: 0 <= i < |vals| ==> Lookup(table, vals[i]).None?
  {
    var s := Lookups(table, vals);
    if forall i :: 0 <= i < |vals| ==> Lookup(table, vals[i]).None? {
      PresentNone(s);
    } else {
      var i :| 0 <= i < |vals| && Lookup(table, vals[i]).Some?;
      PresentNonEmpty(s, i);
    }
  }

  predicate SortedCodes(s: seq<int>)
  {
    forall i, j :: 0 <= i < j < |s| ==> s[i] <= s[j]
  }

  function InsertCode(x: int, s: seq<int>): seq<int>
  {
    if s == [] || x <= s[0] then [x] + s else [s[0]] + InsertCode(x, s[1..])
  }

  lemma {:induction false} InsertCodePermutes(x: int, s: seq<int>)
    ensures multiset(InsertCode(x, s)) == multiset(s) + multiset{x}
  {
    if s != [] && x > s[0] {
      InsertCodePermutes(x, s[1..]);
      assert s == [s[0]] + s[1..];
    }
  }

  /** Inserting a value no smaller than a bound keeps every element above it. */
  lemma {:induction false} InsertCodeAbove(x: int, s: seq<int>, lo: int)
    requires lo <= x && forall k :: 0 <= k < |s| ==> lo <= s[k]
    ensures forall k :: 0 <= k < |InsertCode(x, s)| ==> lo <= InsertCode(x, s)[k]
  {
    if s != [] && x > s[0] {
      var tail := s[1..];
      assert forall k :: 0 <= k < |tail| ==> tail[k] == s[k + 1];
      InsertCodeAbove(x, tail, lo);
      assert InsertCode(x, s) == [s[0]] + InsertCode(x, tail);
    }
  }

  lemma {:induction false} InsertCodeSorted(x: int, s: seq<int>)
    requires SortedCodes(s)
    ensures SortedCodes(InsertCode(x, s))
  {
    var r := InsertCode(x, s);
    if s == [] || x <= s[0] {
      forall i, j | 0 <= i < j < |r| ensures r[i] <= r[j] {
        if i > 0 {
          assert r[i] == s[i - 1] && r[j] == s[j - 1];
        } else {
          assert r[j] == s[j - 1] && s[0] <= s[j - 1];
        }
      }
    } else {
      var tail := s[1..];
      var rest := InsertCode(x, tail);
      assert SortedCodes(tail);
      InsertCodeSorted(x, tail);
      InsertCodeAbove(x, tail, s[0]);
      assert r == [s[0]] + rest;
      forall i, j | 0 <= i < j < |r| ensures r[i] <= r[j] {
        if i > 0 {
          assert r[i] == rest[i - 1] && r[j] == rest[j - 1];
        } else {
          assert r[j] == rest[j - 1];
        }
      }
    }
  }

  /** The codes in ascending order (insertion sort). */
  function SortCodes(s: seq<int>): seq<int>
  {
    if s == [] then [] else InsertCode(s[0], SortCodes(s[1..]))
  }

  /** Sorting yields an ascending permutation of the codes. */
  lemma {:induction false} SortCodesSorted(s: seq<int>)
    ensures SortedCodes(SortCodes(s)) && multiset(SortCodes(s)) == multiset(s)
  {
    if s != [] {
      SortCodesSorted(s[1..]);
      InsertCodeSorted(s[0], SortCodes(s[1..]));
      InsertCodePermutes(s[0], SortCodes(s[1..]));
      assert s == [s[0]] + s[1..];
    }
  }

  /** Python's `int(x / 2)`: halving truncated toward zero. */
  function TruncHalf(x: int): int
  {
    if x >= 0 then x / 2 else -((-x) / 2)
  }

  /** `m` lies between two of the codes. */
  ghost predicate Between(m: int, codes: seq<int>)
  {
    exists a, b :: a in codes && b in codes && a <= m <= b
  }

  /** `int(Series.median())` over the mapped codes: the middle element, or
      for an even count the mean of the two middle ones truncated. */
  function MedianCode(codes: seq<int>): int
    requires |codes| > 0
  {
    SortCodesSorted(codes);
    var s := SortCodes(codes);
    assert |s| == |multiset(codes)|;
    var n := |s|;
    if n % 2 == 1 then s[n / 2] else TruncHalf(s[n / 2 - 1] + s[n / 2])
  }

  /** The median lies within the range of the codes. */
  lemma MedianWithin(codes: seq<int>, lo: int, hi: int)
    requires |codes| > 0
    requires forall c :: c in codes ==> lo <= c <= hi
    ensures lo <= MedianCode(codes) <= hi
  {
    SortCodesSorted(codes);
    var s := SortCodes(codes);
    forall k | 0 <= k < |s| ensures lo <= s[k] <= hi {
      assert s[k] in multiset(s);
      assert s[k] in multiset(codes);
      assert s[k] in codes;
    }
  }

  /** The median of an odd count is one of the codes, and of any count it
      lies between two of them. */
  lemma MedianBetweenMiddles(codes: seq<int>)
    requires |codes| > 0
    ensures |codes| % 2 == 1 ==> MedianCode(codes) in codes
    ensures Between(MedianCode(codes), codes)
  {
    SortCodesSorted(codes);
    var s := SortCodes(codes);
    assert |s| == |multiset(codes)|;
    var n := |s|;
    var a, b := if n % 2 == 1 then s[n / 2] else s[n / 2 - 1], s[n / 2];
    assert a in multiset(s) && b in multiset(s);
    assert a in codes && b in codes;
    if n % 2 == 1 {
      assert MedianCode(codes) == a;
    } else {
      assert a <= b;
      TruncHalfBetween(a, b);
      assert MedianCode(codes) == TruncHalf(a + b);
    }
  }

  /** The truncated mean of two values lies between them. */
  lemma TruncHalfBetween(a: int, b: int)
    requires a <= b
    ensures a <= TruncHalf(a + b) <= b
  {
  }

  /** One categorical column normalised: None is the failure of `astype(int)`
      when the column is not empty and no cell mapped (the median is NaN). */
  function NormaliseValues(table: CodeTable, vals: seq<Value>): (r: Option<seq<Value>>)
    ensures r.None? <==> |vals| > 0 && MappedCodes(table, vals) == []
    ensures r.Some? ==> |r.value| == |vals|
  {
    var s := Lookups(table, vals);
    var codes := Present(s);
    if codes == [] then
      if vals == [] then Some([]) else None
    else
      var fill := MedianCode(codes);
      Some(seq(|s|, i requires 0 <= i < |s| => Int(match s[i] case Some(c) => c case None => fill)))
  }

  /** A cell whose canonical form is a key gets that key's code; every other
      cell gets the median of the mapped codes of the column. */
  lemma NormalisedCell(table: CodeTable, vals: seq<Value>, i: int)
    requires NormaliseValues(table, vals).Some? && 0 <= i < |vals|
    ensures var out := NormaliseValues(table, vals).value;
      if CanonicalKey(vals[i]) in table then out[i] == Int(table[CanonicalKey(vals[i])])
      else MappedCodes(table, vals) != [] && out[i] == Int(MedianCode(MappedCodes(table, vals)))
  {
  }

  /** Every normalised cell is an integer between the smallest and the
      largest code of the table. */
  lemma {:induction false} NormalisedInRange(table: CodeTable, vals: seq<Value>, lo: int, hi: int)
    requires forall k :: k in table ==> lo <= table[k] <= hi
    requires NormaliseValues(table, vals).Some?
    ensures forall v :: v in NormaliseValues(table, vals).value ==> v.Int? && lo <= v.i <= hi
  {
    var codes := MappedCodes(table, vals);
    var out := NormaliseValues(table, vals).value;
    forall i | 0 <= i < |out| ensures out[i].Int? && lo <= out[i].i <= hi {
      NormalisedCell(table, vals, i);
      if CanonicalKey(vals[i]) !in table {
        MappedCodesFromTable(table, vals);
        forall c | c in codes ensures lo <= c <= hi {
          var k :| k in table && table[k] == c;
        }
        MedianWithin(codes, lo, hi);
      }
    }
  }

  /** `x` lies between two codes of `table`. */
  predicate Spanned(x: int, table: CodeTable)
  {
    exists a, b :: a in table.Values && b in table.Values && a <= x <= b
  }

  /** Every normalised cell is an integer spanned by the codes of the table:
      a mapped cell is a code itself, a filled cell lies between the two
      middle mapped codes. */
  lemma NormalisedSpanned(table: CodeTable, vals: seq<Value>, i: int)
    requires NormaliseValues(table, vals).Some? && 0 <= i < |vals|
    ensures NormaliseValues(table, vals).value[i].Int?
    ensures Spanned(NormaliseValues(table, vals).value[i].i, table)
  {
    var out := NormaliseValues(table, vals).value;
    var k := CanonicalKey(vals[i]);
    NormalisedCell(table, vals, i);
    if k in table {
      assert table[k] in table.Values;
      SpannedBy(table[k], table[k], table[k], table);
    } else {
      var codes := MappedCodes(table, vals);
      var m := MedianCode(codes);
      assert out[i] == Int(m);
      MedianBetweenMiddles(codes);
      var a, b :| a in codes && b in codes && a <= m <= b;
      MappedCodesFromTable(table, vals);
      SpannedBy(m, a, b, table);
    }
  }

  lemma SpannedBy(x: int, a: int, b: int, table: CodeTable)
    requires a in table.Values && b in table.Values && a <= x <= b
    ensures Spanned(x, table)
  {
  }

  /** A value spanned by a table lies within any bounds of its codes. */
  lemma SpannedWithin(x: int, table: CodeTable, lo: int, hi: int)
    requires Spanned(x, table)
    requires forall k :: k in table ==> lo <= table[k] <= hi
    ensures lo <= x <= hi
  {
    var a, b :| a in table.Values && b in table.Values && a <= x <= b;
    var ka :| ka in table && table[ka] == a;
    var kb :| kb in table && table[kb] == b;
  }

  /** The canonical codes of each table: cp takes 0..3, the others 0..2 (sex 0..1). */
  lemma TableRanges()
    ensures forall k :: k in SexCodes ==> 0 <= SexCodes[k] <= 1
    ensures forall k :: k in CpCodes ==> 0 <= CpCodes[k] <= 3
    ensures forall k :: k in RestecgCodes ==> 0 <= RestecgCodes[k] <= 2
    ensures forall k :: k in SlopeCodes ==> 0 <= SlopeCodes[k] <= 2
    ensures forall k :: k in ThalCodes ==> 0 <= ThalCodes[k] <= 2
  {
  }

  /** Every key of every table starts with a lower-case letter. */
  predicate KeysStartWithLetter(table: CodeTable)
  {
    forall k :: k in table ==> |k| > 0 && 'a' <= k[0] <= 'z'
  }

  lemma AllKeysStartWithLetter()
    ensures forall m :: m in CategoricalColumns ==> KeysStartWithLetter(m.1)
  {
  }

  /** Numbers, such as the integer codes a feedback row carries, are never
      keys: the column's median takes their place. */
  lemma NumberNeverMaps(table: CodeTable, v: Value)
    requires KeysStartWithLetter(table)
    requires v.Int? || v.Decimal?
    ensures Lookup(table, v).None?
  {
    NumberRendersAsNumeral(v);
    NumeralIsCanonical(Str(v));
    var k := CanonicalKey(v);
    assert k == Str(v);
    assert NumeralChar(k[0]);
  }

  /** A column with cells but no mappable cell fails. */
  lemma NothingMapsFails(table: CodeTable, vals: seq<Value>)
    requires |vals| > 0
    requires forall i :: 0 <= i < |vals| ==> CanonicalKey(vals[i]) !in table
    ensures NormaliseValues(table, vals).None?
  {
    MappedCodesEmpty(table, vals);
  }
}
