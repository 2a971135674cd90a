/**
 * Python scalar values as they sit in a DataFrame cell or a form field,
 * and the three string operations the training script applies to them:
 * `str(v)`, `str.strip()` and `str.lower()`.
 */
module PyValues {

  /** A cell value. `Missing` is pandas' NaN/None; `Decimal` is a float with
      one decimal place, held in tenths (2.6 is `Decimal(26)`). */
  datatype Value =
    | Missing
    | Flag(b: bool)
    | Int(i: int)
    | Decimal(tenths: int)
    | Text(s: string)

  function DigitChar(d: nat): (c: char)
    requires d < 10
    ensures '0' <= c <= '9'
  {
    "0123456789"[d]
  }

  /** Decimal numeral of a natural number, most significant digit first. */
  function NatToString(n: nat): (s: string)
    ensures |s| > 0
    ensures forall k :: 0 <= k < |s| ==> '0' <= s[k] <= '9'
  {
    if n < 10 then [DigitChar(n)] else NatToString(n / 10) + [DigitChar(n % 10)]
  }

  /** Python's `str(i)` for an int. */
  function IntToString(i: int): string
  {
    if i < 0 then "-" + NatToString(-i) else NatToString(i)
  }

  /** Python's `str(x)` for a one-decimal float, e.g. "-0.5", "2.0". */
  function DecimalToString(tenths: int): string
  {
    var m := if tenths < 0 then -tenths else tenths;
    (if tenths < 0 then "-" else "") + NatToString(m / 10) + "." + [DigitChar(m % 10)]
  }

  /** Python's `str(v)`, which is what `Series.astype(str)` applies to each cell. */
  function Str(v: Value): string
  {
    match v
    case Missing => "nan"
    case Flag(b) => if b then "True" else "False"
    case Int(i) => IntToString(i)
    case Decimal(t) => DecimalToString(t)
    case Text(s) => s
  }

  /** The characters Python's `str.isspace()` accepts. */
  predicate IsSpace(c: char)
  {
    c == ' ' || '\t' <= c <= '\r' || '\U{1c}' <= c <= '\U{1f}' || c == '\U{85}' || c == '\U{a0}'
    || c == '\U{1680}' || '\U{2000}' <= c <= '\U{200a}' || c == '\U{2028}' || c == '\U{2029}'
    || c == '\U{202f}' || c == '\U{205f}' || c == '\U{3000}'
  }

  function StripLeft(s: string): (r: string)
    ensures |r| <= |s| && r == s[|s| - |r|..]
    ensures r == [] || !IsSpace(r[0])
    ensures forall k :: 0 <= k < |s| - |r| ==> IsSpace(s[k])
  {
    if s != [] && IsSpace(s[0]) then StripLeft(s[1..]) else s
  }

  function StripRight(s: string): (r: string)
    ensures |r| <= |s| && r == s[..|r|]
    ensures r == [] || !IsSpace(r[|r| - 1])
    ensures forall k :: |r| <= k < |s| ==> IsSpace(s[k])
  {
    if s != [] && IsSpace(s[|s| - 1]) then StripRight(s[..|s| - 1]) else s
  }

  /** `r` is `s` with its first `a` characters and a tail cut, every cut
      character being whitespace. */
  predicate TrimmedFrom(r: string, s: string, a: int)
  {
    0 <= a <= |s| - |r| && r == s[a..a + |r|]
    && (forall k :: 0 <= k < a ==> IsSpace(s[k]))
    && (forall k :: a + |r| <= k < |s| ==> IsSpace(s[k]))
  }

  /** `r` is `s` with whitespace cut from its two ends and nothing else. */
  ghost predicate StrippedFrom(r: string, s: string)
  {
    exists a :: TrimmedFrom(r, s, a)
  }

  /** No whitespace at either end. */
  predicate Trimmed(s: string)
  {
    s == [] || (!IsSpace(s[0]) && !IsSpace(s[|s| - 1]))
  }

  /** Python's `str.strip()` with no argument. */
  function Strip(s: string): string
  {
    StripRight(StripLeft(s))
  }

  /** Stripping cuts whitespace from both ends and only from the ends, and
      leaves a trimmed string as it is. */
  lemma StripTrims(s: string)
    ensures Trimmed(Strip(s)) && StrippedFrom(Strip(s), s)
    ensures Trimmed(s) ==> Strip(s) == s
  {
    var l := StripLeft(s);
    var r := StripRight(l);
    StripSlice(s, l, r);
    TrimmedEnds(l, r);
    if Trimmed(s) {
      TrimmedKept(s);
    }
  }

  /** A right-cut of a string with no leading whitespace, itself with no
      trailing whitespace, is trimmed. */
  lemma TrimmedEnds(l: string, r: string)
    requires l == [] || !IsSpace(l[0])
    requires |r| <= |l| && r == l[..|r|] && (r == [] || !IsSpace(r[|r| - 1]))
    ensures Trimmed(r)
  {
    if r != [] {
      assert r[0] == l[0];
    }
  }

  /** Neither cut touches a trimmed string. */
  lemma TrimmedKept(s: string)
    requires Trimmed(s)
    ensures StripLeft(s) == s && StripRight(s) == s
  {
  }

  /** Cutting whitespace from the left and then from the right cuts a
      slice out of the middle. */
  lemma StripSlice(s: string, l: string, r: string)
    requires |l| <= |s| && l == s[|s| - |l|..] && forall k :: 0 <= k < |s| - |l| ==> IsSpace(s[k])
    requires |r| <= |l| && r == l[..|r|] && forall k :: |r| <= k < |l| ==> IsSpace(l[k])
    ensures TrimmedFrom(r, s, |s| - |l|)
  {
    var a := |s| - |l|;
    SliceOfSuffix(s, l, r, a);
    SpacesAfter(s, l, |r|, a);
    CutSpaces(r, s, a);
  }

  lemma CutSpaces(r: string, s: string, a: int)
    requires 0 <= a <= |s| - |r| && r == s[a..a + |r|]
    requires forall k :: 0 <= k < a ==> IsSpace(s[k])
    requires forall k :: a + |r| <= k < |s| ==> IsSpace(s[k])
    ensures TrimmedFrom(r, s, a)
  {
  }

  /** A prefix of a suffix is a slice. */
  lemma SliceOfSuffix(s: string, l: string, r: string, a: int)
    requires 0 <= a <= |s| && l == s[a..] && |r| <= |l| && r == l[..|r|]
    ensures r == s[a..a + |r|]
  {
  }

  /** Whitespace past `n` in a suffix is whitespace in the whole string. */
  lemma SpacesAfter(s: string, l: string, n: int, a: int)
    requires 0 <= a <= |s| && l == s[a..] && 0 <= n <= |l|
    requires forall k :: n <= k < |l| ==> IsSpace(l[k])
    ensures forall k :: a + n <= k < |s| ==> IsSpace(s[k])
  {
    forall k | a + n <= k < |s| ensures IsSpace(s[k]) {
      assert s[k] == l[k - a];
    }
  }

  function LowerChar(c: char): char
  {
    if 'A' <= c <= 'Z' then (c as int + 32) as char else c
  }

  /** No upper-case ASCII letter. */
  predicate NoUpper(s: string)
  {
    forall k :: 0 <= k < |s| ==> !('A' <= s[k] <= 'Z')
  }

  /** Python's `str.lower()` on the ASCII letters. */
  function Lower(s: string): (r: string)
    ensures |r| == |s|
    ensures forall k :: 0 <= k < |s| ==> r[k] == LowerChar(s[k])
    ensures NoUpper(r)
  {
    seq(|s|, k requires 0 <= k < |s| => LowerChar(s[k]))
  }

  /** Lower-casing changes no character into or out of whitespace. */
  lemma LowerKeepsTrimmed(s: string)
    requires Trimmed(s)
    ensures Trimmed(Lower(s))
  {
    if s != [] {
      assert Lower(s)[0] == LowerChar(s[0]);
      assert Lower(s)[|s| - 1] == LowerChar(s[|s| - 1]);
    }
  }

  /** A string with no upper-case letter is its own lower case. */
  lemma LowerKeepsLower(s: string)
    requires NoUpper(s)
    ensures Lower(s) == s
  {
    forall k | 0 <= k < |s| ensures Lower(s)[k] == s[k] {
      assert !('A' <= s[k] <= 'Z');
    }
  }

  /** The characters a rendered number is made of. */
  predicate NumeralChar(c: char)
  {
    '0' <= c <= '9' || c == '-' || c == '.'
  }

  predicate IsNumeral(s: string)
  {
    |s| > 0 && forall k :: 0 <= k < |s| ==> NumeralChar(s[k])
  }

  /** `str()` of an int or a float is a numeral. */
  lemma NumberRendersAsNumeral(v: Value)
    requires v.Int? || v.Decimal?
    ensures IsNumeral(Str(v))
  {
    match v
    case Int(i) =>
      var n := NatToString(if i < 0 then -i else i);
      assert forall k :: 0 <= k < |n| ==> NumeralChar(n[k]);
    case Decimal(t) =>
      var m := if t < 0 then -t else t;
      var n := NatToString(m / 10);
      assert forall k :: 0 <= k < |n| ==> NumeralChar(n[k]);
  }

  /** Stripping and lower-casing leave a numeral as it is. */
  lemma NumeralIsCanonical(s: string)
    requires IsNumeral(s)
    ensures Lower(Strip(s)) == s
  {
    NumeralStripped(s);
    NumeralLowered(s);
  }

  /** A numeral has no surrounding whitespace. */
  lemma NumeralStripped(s: string)
    requires IsNumeral(s)
    ensures Strip(s) == s
  {
    assert NumeralChar(s[0]) && NumeralChar(s[|s| - 1]);
    StripTrims(s);
  }

  /** A numeral has no upper-case letter. */
  lemma NumeralLowered(s: string)
    requires IsNumeral(s)
    ensures Lower(s) == s
  {
    forall k | 0 <= k < |s| ensures Lower(s)[k] == s[k] {
      assert NumeralChar(s[k]);
    }
  }
}
