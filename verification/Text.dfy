/** The string operations of the Go standard library that the scheduler relies on:
    strings.Join and strings.Split with a one-character separator, and decimal numerals. */
module Text {

  function Join(parts: seq<string>, sep: char): string {
    if parts == [] then ""
    else if |parts| == 1 then parts[0]
    else parts[0] + [sep] + Join(parts[1..], sep)
  }

  // strings.Split never returns an empty list: the empty string splits into one empty part.
  function Split(s: string, sep: char): (parts: seq<string>)
    ensures parts != []
  {
    if s == "" then [""]
    else
      var rest := Split(s[1..], sep);
      if s[0] == sep then [""] + rest else [[s[0]] + rest[0]] + rest[1..]
  }

  ghost predicate Free(parts: seq<string>, sep: char) {
    forall i :: 0 <= i < |parts| ==> sep !in parts[i]
  }

  lemma {:induction false} SplitPart(a: string, sep: char)
    requires sep !in a
    ensures Split(a, sep) == [a]
  {
    if a != "" {
      SplitPart(a[1..], sep);
      assert [a[0]] + a[1..] == a;
    }
  }

  lemma {:induction false} SplitCons(a: string, b: string, sep: char)
    requires sep !in a
    ensures Split(a + [sep] + b, sep) == [a] + Split(b, sep)
  {
    var s := a + [sep] + b;
    if a == "" {
      assert s[1..] == b;
    } else {
      SplitCons(a[1..], b, sep);
      assert s[1..] == a[1..] + [sep] + b;
      assert [a[0]] + a[1..] == a;
    }
  }

  lemma {:induction false} SplitJoin(parts: seq<string>, sep: char)
    requires parts != [] && Free(parts, sep)
    ensures Split(Join(parts, sep), sep) == parts
  {
    SplitPart(parts[0], sep);
    if |parts| == 1 {
      assert parts == [parts[0]];
    } else {
      SplitCons(parts[0], Join(parts[1..], sep), sep);
      SplitJoin(parts[1..], sep);
      assert parts == [parts[0]] + parts[1..];
    }
  }

  lemma {:induction false} SplitIsFree(s: string, sep: char)
    ensures Free(Split(s, sep), sep)
  {
    if s != "" {
      SplitIsFree(s[1..], sep);
    }
  }

  lemma {:induction false} JoinSplit(s: string, sep: char)
    ensures Join(Split(s, sep), sep) == s
  {
    if s != "" {
      JoinSplit(s[1..], sep);
      var rest := Split(s[1..], sep);
      var parts := Split(s, sep);
      assert s == [s[0]] + s[1..];
      if s[0] == sep {
        assert parts[1..] == rest;
      } else {
        assert parts[1..] == rest[1..];
      }
    }
  }

  // Joining loses nothing exactly for a non-empty list whose parts do not contain the separator.
  lemma {:induction false} RoundTripCondition(parts: seq<string>, sep: char)
    ensures Split(Join(parts, sep), sep) == parts <==> parts != [] && Free(parts, sep)
  {
    if parts != [] && Free(parts, sep) {
      SplitJoin(parts, sep);
    }
    SplitIsFree(Join(parts, sep), sep);
  }

  // ----- decimal numerals (fmt's %d of a non-negative number) -----

  function Digit(d: nat): char
    requires d < 10
  {
    (48 + d) as char
  }

  predicate IsDigit(c: char) {
    '0' <= c <= '9'
  }

  function Decimal(n: nat): string {
    if n < 10 then [Digit(n)] else Decimal(n / 10) + [Digit(n % 10)]
  }

  function Value(s: string): int {
    if s == "" then 0 else 10 * Value(s[..|s| - 1]) + (s[|s| - 1] as int - 48)
  }

  lemma {:induction false} DecimalValue(n: nat)
    ensures Value(Decimal(n)) == n
    ensures Decimal(n) != "" && forall i :: 0 <= i < |Decimal(n)| ==> IsDigit(Decimal(n)[i])
  {
    if n < 10 {
      assert Decimal(n)[..0] == "";
    } else {
      DecimalValue(n / 10);
      assert Decimal(n)[..|Decimal(n)| - 1] == Decimal(n / 10);
    }
  }

  lemma DecimalInjective(m: nat, n: nat)
    requires Decimal(m) == Decimal(n)
    ensures m == n
  {
    DecimalValue(m);
    DecimalValue(n);
  }

  predicate EndsInDigit(s: string) {
    s != "" && IsDigit(s[|s| - 1])
  }

  lemma IndexedNameSplit(a: string, i: nat, b: string, j: nat)
    requires a + Decimal(i) == b + Decimal(j) && |a| < |b|
    ensures EndsInDigit(b)
  {
    DecimalValue(i);
    assert (a + Decimal(i))[|b| - 1] == Decimal(i)[|b| - 1 - |a|];
    assert (b + Decimal(j))[|b| - 1] == b[|b| - 1];
  }

  // A name followed by its index decodes uniquely when names do not end in a digit.
  lemma IndexedNameInjective(a: string, i: nat, b: string, j: nat)
    requires !EndsInDigit(a) && !EndsInDigit(b)
    requires a + Decimal(i) == b + Decimal(j)
    ensures a == b && i == j
  {
    if |a| < |b| {
      IndexedNameSplit(a, i, b, j);
    } else if |b| < |a| {
      IndexedNameSplit(b, j, a, i);
    } else {
      assert a == (a + Decimal(i))[..|a|] == (b + Decimal(j))[..|b|] == b;
      assert Decimal(i) == (a + Decimal(i))[|a|..] == (b + Decimal(j))[|b|..] == Decimal(j);
      DecimalInjective(i, j);
    }
  }
}
