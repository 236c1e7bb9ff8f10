/** Byte-wise string order, decimal numerals and splitting, as the Go and Python code use them. */
module Strings {

  // ---------- order ----------

  /** Go's `a < b` on strings: lexicographic. */
  predicate Less(a: string, b: string) {
    if b == [] then false
    else if a == [] then true
    else if a[0] != b[0] then a[0] < b[0]
    else Less(a[1..], b[1..])
  }

  lemma {:induction false} LessIsTotal(a: string, b: string)
    ensures Less(a, b) || Less(b, a) || a == b
    ensures !(Less(a, b) && Less(b, a))
    ensures Less(a, b) ==> a != b
  {
    if a != [] && b != [] && a[0] == b[0] {
      LessIsTotal(a[1..], b[1..]);
      assert a == [a[0]] + a[1..] && b == [b[0]] + b[1..];
    }
  }

  lemma {:induction false} LessIsTransitive(a: string, b: string, c: string)
    requires Less(a, b) && Less(b, c)
    ensures Less(a, c)
  {
    if a != [] && a[0] == b[0] == c[0] {
      LessIsTransitive(a[1..], b[1..], c[1..]);
    }
  }

  /** The string that is less is a proper prefix of the other, or it has the smaller character at the
      first place where they differ. */
  lemma {:induction false} LessSpec(a: string, b: string)
    ensures Less(a, b) <==> exists k: nat :: IsBefore(a, b, k)
  {
    if a != [] && b != [] && a[0] == b[0] {
      LessSpec(a[1..], b[1..]);
      forall k: nat | IsBefore(a[1..], b[1..], k) ensures IsBefore(a, b, k + 1) {
        assert a[..k + 1] == [a[0]] + a[1..][..k] && b[..k + 1] == [b[0]] + b[1..][..k];
      }
      forall k: nat | IsBefore(a, b, k) ensures k > 0 && IsBefore(a[1..], b[1..], k - 1) {
        assert a[1..][..k - 1] == a[..k][1..] && b[1..][..k - 1] == b[..k][1..];
      }
    } else if b != [] {
      assert a == [] || a[0] < b[0] ==> IsBefore(a, b, 0);
      forall k: nat | IsBefore(a, b, k) ensures k == 0 {
        SamePrefix(a, b, k);
      }
    }
  }

  lemma SamePrefix(a: string, b: string, k: nat)
    requires IsBefore(a, b, k)
    ensures k > 0 ==> a != [] && a[0] == b[0]
  {
    assert k > 0 ==> a[..k][0] == b[..k][0];
  }

  /** `a` and `b` agree on the first k characters, where `a` ends or has the smaller next one. */
  ghost predicate IsBefore(a: string, b: string, k: nat) {
    k <= |a| && k < |b| && a[..k] == b[..k] && (k == |a| || a[k] < b[k])
  }

  // ---------- decimal numerals ----------

  predicate IsDigit(c: char) {
    '0' <= c <= '9'
  }

  predicate AllDigits(s: string) {
    forall i :: 0 <= i < |s| ==> IsDigit(s[i])
  }

  function DigitChar(d: nat): (c: char)
    requires d < 10
    ensures IsDigit(c) && c as int - '0' as int == d
  {
    (d + '0' as int) as char
  }

  /** `%d` of a non-negative number. */
  function Decimal(n: nat): (s: string)
    ensures s != [] && AllDigits(s)
    ensures |s| > 1 ==> s[0] != '0'
    ensures |s| == 1 ==> n < 10
    ensures s[0] == '0' ==> n == 0
  {
    if n < 10 then [DigitChar(n)] else Decimal(n / 10) + [DigitChar(n % 10)]
  }

  /** The number that a string of digits denotes. */
  function Value(s: string): nat
    requires AllDigits(s)
  {
    if s == [] then 0 else 10 * Value(s[..|s| - 1]) + (s[|s| - 1] as int - '0' as int)
  }

  lemma {:induction false} ValueOfDecimal(n: nat)
    ensures Value(Decimal(n)) == n
  {
    if n >= 10 {
      ValueOfDecimal(n / 10);
      assert Decimal(n)[..|Decimal(n)| - 1] == Decimal(n / 10);
    }
  }

  function Power10(n: nat): nat {
    if n == 0 then 1 else 10 * Power10(n - 1)
  }

  lemma ShiftNumeral(first: int, power: int, rest: int, last: int)
    ensures 10 * (first * power + rest) + last == first * (10 * power) + (10 * rest + last)
  {
  }

  /** A numeral is positional: its first digit counts most. */
  lemma {:induction false} FirstDigitCountsMost(s: string)
    requires AllDigits(s) && s != []
    ensures Value(s) == (s[0] as int - '0' as int) * Power10(|s| - 1) + Value(s[1..])
  {
    if |s| > 1 {
      var n := |s| - 1;
      var front, middle := s[..n], s[1..n];
      FirstDigitCountsMost(front);
      assert front[1..] == middle && s[1..][..n - 1] == middle;
      ShiftNumeral(s[0] as int - '0' as int, Power10(n - 1), Value(middle), s[n] as int - '0' as int);
    } else {
      assert s[..0] == [] && s[1..] == [];
    }
  }

  // ---------- splitting ----------

  /** `strings.Split` at a one-character separator. */
  function Split(s: string, sep: char): (parts: seq<string>)
    ensures parts != []
  {
    if s == [] then [[]]
    else
      var parts, c := Split(s[..|s| - 1], sep), s[|s| - 1];
      if c == sep then parts + [[]]
      else parts[..|parts| - 1] + [parts[|parts| - 1] + [c]]
  }

  /** A separator ends a part, and what follows the last separator is the last part. */
  lemma {:induction false} SplitAtSeparator(a: string, sep: char, b: string)
    requires sep !in b
    ensures Split(a + [sep] + b, sep) == Split(a, sep) + [b]
  {
    var s := a + [sep] + b;
    if b == [] {
      assert s[..|s| - 1] == a;
    } else {
      var b' := b[..|b| - 1];
      assert s[..|s| - 1] == a + [sep] + b';
      SplitAtSeparator(a, sep, b');
      assert b == b' + [b[|b| - 1]];
    }
  }

  lemma {:induction false} SplitWithoutSeparator(s: string, sep: char)
    requires sep !in s
    ensures Split(s, sep) == [s]
  {
    if s != [] {
      SplitWithoutSeparator(s[..|s| - 1], sep);
      assert s == s[..|s| - 1] + [s[|s| - 1]];
    }
  }

  /** Joining the parts with the separator gives the string back. */
  function Join(parts: seq<string>, sep: char): string
    requires parts != []
  {
    if |parts| == 1 then parts[0] else Join(parts[..|parts| - 1], sep) + [sep] + parts[|parts| - 1]
  }

  lemma {:induction false} JoinOfSplit(s: string, sep: char)
    ensures Join(Split(s, sep), sep) == s
  {
    if s != [] {
      var parts, c := Split(s[..|s| - 1], sep), s[|s| - 1];
      JoinOfSplit(s[..|s| - 1], sep);
      if c == sep {
        assert (parts + [[]])[..|parts|] == parts;
      } else {
        JoinExtended(parts, c, sep);
      }
    }
  }

  lemma JoinExtended(parts: seq<string>, c: char, sep: char)
    requires parts != []
    ensures Join(parts[..|parts| - 1] + [parts[|parts| - 1] + [c]], sep) == Join(parts, sep) + [c]
  {
  }

  /** Two strings that split at a mark into a head and a mark-free tail agree only part by part. */
  lemma UniqueSplit(a: string, b: string, a': string, b': string, mark: char)
    requires mark !in b && mark !in b'
    requires a + [mark] + b == a' + [mark] + b'
    ensures a == a' && b == b'
  {
    var s := a + [mark] + b;
    assert s[|a|] == mark && s[|a'|] == mark;
    assert forall j :: |a| < j < |s| ==> s[j] == b[j - |a| - 1];
    assert forall j :: |a'| < j < |s| ==> s[j] == b'[j - |a'| - 1];
    assert |a| == |a'|;
    assert a == s[..|a|] && b == s[|a| + 1..];
    assert a' == s[..|a'|] && b' == s[|a'| + 1..];
  }
}
