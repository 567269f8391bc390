/** Text operations the two receivers rely on: splitting on a separator,
    substring search, and decimal rendering of timestamps. */
module Strings {
  import opened Wrappers

  // ---------------------------------------------------------------------------
  // Splitting
  // ---------------------------------------------------------------------------

  /** Splits `s` at the first occurrence of `sep`, if there is one. */
  function SplitOnce(s: string, sep: char): (r: Option<(string, string)>)
    ensures r.None? <==> sep !in s
    ensures r.Some? ==> sep !in r.value.0 && s == r.value.0 + [sep] + r.value.1
    decreases |s|
  {
    if |s| == 0 then None
    else if s[0] == sep then Some(([], s[1..]))
    else
      match SplitOnce(s[1..], sep)
      case None =>
        assert s == [s[0]] + s[1..];
        None
      case Some((head, tail)) =>
        Some(([s[0]] + head, tail))
  }

  /** The fields of `s` separated by `sep`, empty fields kept and nothing dropped at
      either end: what JavaScript's `s.split(sep)` and Python's `s.split(sep)` return
      for a one-character separator. */
  function Split(s: string, sep: char): (fields: seq<string>)
    ensures |fields| >= 1
    ensures forall i :: 0 <= i < |fields| ==> sep !in fields[i]
    ensures Join(fields, sep) == s
    decreases |s|
  {
    match SplitOnce(s, sep)
    case None => [s]
    case Some((head, tail)) =>
      var rest := Split(tail, sep);
      assert ([head] + rest)[1..] == rest;
      [head] + rest
  }

  /** The fields glued back together with `sep` between neighbours. */
  function Join(fields: seq<string>, sep: char): string
  {
    if |fields| == 0 then ""
    else if |fields| == 1 then fields[0]
    else fields[0] + [sep] + Join(fields[1..], sep)
  }

  /** Field `i` of a split, or `None` where JavaScript would read `undefined`. */
  function Field(fields: seq<string>, i: nat): Option<string>
  {
    if i < |fields| then Some(fields[i]) else None
  }

  /** The first separator in a string is where its separator-free prefix ends. */
  lemma {:induction false} FirstSeparatorUnique(a: string, b: string, h: string, t: string, sep: char)
    requires sep !in a && sep !in h
    requires a + [sep] + b == h + [sep] + t
    ensures a == h && b == t
  {
    var s := a + [sep] + b;
    SeparatorAt(a, b, sep);
    SeparatorAt(h, t, sep);
    if |a| < |h| {
      PrefixIndex(h, [sep] + t, |a|);
      assert false;
    } else if |h| < |a| {
      PrefixIndex(a, [sep] + b, |h|);
      assert false;
    }
    assert a == s[..|a|] == h;
    assert b == s[|a| + 1..] == t;
  }

  lemma SeparatorAt(a: string, b: string, sep: char)
    ensures (a + [sep] + b)[|a|] == sep
  {
  }

  lemma PrefixIndex(x: string, y: string, k: int)
    ensures 0 <= k < |x| ==> (x + y)[k] == x[k]
  {
  }

  /** SplitOnce finds exactly the separator placed after a separator-free prefix. */
  lemma SplitOnceOfJoin(a: string, b: string, sep: char)
    requires sep !in a
    ensures SplitOnce(a + [sep] + b, sep) == Some((a, b))
  {
    var s := a + [sep] + b;
    assert s[|a|] == sep;
    var r := SplitOnce(s, sep);
    FirstSeparatorUnique(a, b, r.value.0, r.value.1, sep);
  }

  /** Split inverts Join for separator-free fields: together with Split's own
      contract this says Split and Join are mutually inverse. */
  lemma {:induction false} SplitOfJoin(fields: seq<string>, sep: char)
    requires |fields| >= 1
    requires forall i :: 0 <= i < |fields| ==> sep !in fields[i]
    ensures Split(Join(fields, sep), sep) == fields
    decreases |fields|
  {
    if |fields| == 1 {
      assert Join(fields, sep) == fields[0];
    } else {
      var rest := fields[1..];
      assert Join(fields, sep) == fields[0] + [sep] + Join(rest, sep);
      SplitOnceOfJoin(fields[0], Join(rest, sep), sep);
      SplitOfJoin(rest, sep);
      assert fields == [fields[0]] + rest;
    }
  }

  /** A word followed by the separator always becomes the first field on its own. */
  lemma SplitAfterWord(word: string, rest: string, sep: char)
    requires sep !in word
    ensures Split(word + [sep] + rest, sep) == [word] + Split(rest, sep)
  {
    SplitOnceOfJoin(word, rest, sep);
  }

  /** A string without the separator is a single field. */
  lemma SplitWithoutSeparator(s: string, sep: char)
    requires sep !in s
    ensures Split(s, sep) == [s]
  {
  }

  // ---------------------------------------------------------------------------
  // Substring search
  // ---------------------------------------------------------------------------

  /** `sub` appears in `s` starting at index `i`. */
  predicate OccursAt(s: string, sub: string, i: int)
  {
    0 <= i && i + |sub| <= |s| && s[i..i + |sub|] == sub
  }

  /** `sub` appears somewhere in `s`: JavaScript's `s.includes(sub)`, Python's `sub in s`. */
  predicate Contains(s: string, sub: string)
  {
    exists i | 0 <= i <= |s| - |sub| :: OccursAt(s, sub, i)
  }

  /** Every string that starts with `sub` contains it. */
  lemma PrefixIsContained(sub: string, rest: string)
    ensures Contains(sub + rest, sub)
  {
    assert OccursAt(sub + rest, sub, 0);
  }

  /** `a` can be obtained from `b` by deleting characters, order kept. */
  predicate IsSubsequence(a: string, b: string)
    decreases |b|
  {
    if |a| == 0 then true
    else if |b| == 0 then false
    else if a[0] == b[0] then IsSubsequence(a[1..], b[1..])
    else IsSubsequence(a, b[1..])
  }

  // ---------------------------------------------------------------------------
  // Decimal numerals
  // ---------------------------------------------------------------------------

  predicate IsDigit(c: char)
  {
    '0' <= c <= '9'
  }

  predicate AllDigits(s: string)
  {
    forall i :: 0 <= i < |s| ==> IsDigit(s[i])
  }

  function DigitValue(c: char): (d: nat)
    requires IsDigit(c)
    ensures d < 10
  {
    (c as int) - ('0' as int)
  }

  function DigitChar(d: nat): (c: char)
    requires d < 10
    ensures IsDigit(c) && DigitValue(c) == d
  {
    (('0' as int) + d) as char
  }

  /** The number a string of decimal digits denotes, most significant digit first. */
  function DigitsValue(s: string): nat
    requires AllDigits(s)
  {
    if |s| == 0 then 0 else 10 * DigitsValue(s[..|s| - 1]) + DigitValue(s[|s| - 1])
  }

  /** A numeral as a number prints: at least one digit and no leading zero. */
  predicate IsCanonicalDecimal(s: string)
  {
    |s| >= 1 && AllDigits(s) && (|s| > 1 ==> s[0] != '0')
  }

  /** `n` written in base ten, as JavaScript's template literals and Python's f-strings
      print an integer. */
  function Decimal(n: nat): (s: string)
    ensures IsCanonicalDecimal(s)
    ensures DigitsValue(s) == n
    decreases n
  {
    if n < 10 then
      [DigitChar(n)]
    else
      var high := Decimal(n / 10);
      var s := high + [DigitChar(n % 10)];
      assert s[..|s| - 1] == high;
      assert |high| == 1 ==> DigitsValue(high) == DigitValue(high[0]) by {
        if |high| == 1 {
          assert high[..0] == [];
        }
      }
      s
  }

  /** The number a canonical numeral denotes; None for anything else. */
  function ParseDecimal(s: string): (r: Option<nat>)
    ensures r.Some? <==> IsCanonicalDecimal(s)
  {
    if IsCanonicalDecimal(s) then Some(DigitsValue(s)) else None
  }

  /** A digit string whose first digit is not zero denotes a positive number. */
  lemma {:induction false} LeadingDigitPositive(s: string)
    requires |s| >= 1 && AllDigits(s) && s[0] != '0'
    ensures DigitsValue(s) >= 1
    decreases |s|
  {
    if |s| > 1 {
      LeadingDigitPositive(s[..|s| - 1]);
    } else {
      assert s[..0] == [];
    }
  }

  /** Printing the number a canonical numeral denotes gives the numeral back. */
  lemma {:induction false} DecimalOfDigitsValue(s: string)
    requires IsCanonicalDecimal(s)
    ensures Decimal(DigitsValue(s)) == s
    decreases |s|
  {
    var n := DigitsValue(s);
    if |s| == 1 {
      assert s[..0] == [];
      assert DigitsValue(s[..0]) == 0;
      assert n == DigitValue(s[0]);
    } else {
      var high := s[..|s| - 1];
      LeadingDigitPositive(high);
      DecimalOfDigitsValue(high);
      assert n == 10 * DigitsValue(high) + DigitValue(s[|s| - 1]);
      assert n / 10 == DigitsValue(high) && n % 10 == DigitValue(s[|s| - 1]);
      assert s == high + [s[|s| - 1]];
    }
  }

  /** ParseDecimal and Decimal are mutually inverse on canonical numerals. */
  lemma DecimalRoundTrip(n: nat, s: string)
    ensures ParseDecimal(Decimal(n)) == Some(n)
    ensures ParseDecimal(s) == Some(n) ==> Decimal(n) == s
  {
    if ParseDecimal(s) == Some(n) {
      DecimalOfDigitsValue(s);
    }
  }
}
