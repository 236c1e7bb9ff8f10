/** How many hosts a test asks for, read off its file name twice: by the runner (Go) and by the
    scheduler (Python). */
module TestNames {
  import opened Wrappers
  import opened Strings

  /** Go's largest int on a 64-bit platform. */
  const MAX_INT: nat := 0x7fff_ffff_ffff_ffff

  const SUFFIX := "_test.sh"

  // ---------- the runner ----------

  /** `strings.TrimSuffix`. */
  function TrimSuffix(s: string, suffix: string): string {
    if |suffix| <= |s| && s[|s| - |suffix|..] == suffix then s[..|s| - |suffix|] else s
  }

  /** The range check of `strconv.Atoi`. */
  function Signed(negative: bool, n: int): Option<int> {
    if negative then (if n <= MAX_INT + 1 then Some(-n) else None)
    else (if n <= MAX_INT then Some(n) else None)
  }

  /** `strconv.Atoi`; None stands for its error, out-of-range numerals included. */
  function Atoi(s: string): Option<int> {
    var negative := s != [] && s[0] == '-';
    var digits := if s != [] && (s[0] == '-' || s[0] == '+') then s[1..] else s;
    if digits == [] || !AllDigits(digits) then None
    else
      Signed(negative, Value(digits))
  }

  /** The runner's host count. It can be negative: "a_-2_test.sh" asks for -2 hosts. */
  function HostCount(name: string): int {
    var parts := Split(TrimSuffix(name, SUFFIX), '_');
    match Atoi(parts[|parts| - 1])
    case Some(n) => n
    case None => 1
  }

  /** What `strconv.Atoi` accepts: an optional sign and at least one digit, within 64 bits. */
  ghost predicate IsGoInt(s: string, n: int) {
    && -0x8000_0000_0000_0000 <= n <= 0x7fff_ffff_ffff_ffff
    && exists sign, digits :: IsSigned(s, sign, digits)
                            && (if sign == "-" then n == -(Value(digits) as int) else n == Value(digits))
  }

  ghost predicate IsSigned(s: string, sign: string, digits: string) {
    s == sign + digits && (sign == "" || sign == "+" || sign == "-") && digits != "" && AllDigits(digits)
  }

  lemma AtoiOfSigned(s: string, sign: string, digits: string)
    requires IsSigned(s, sign, digits)
    ensures Atoi(s) == Signed(sign == "-", Value(digits))
  {
    assert IsDigit(digits[0]);
    if sign == "" {
      assert s == digits;
    } else {
      assert s[1..] == digits && s[0] == sign[0];
    }
  }

  lemma AtoiSpec(s: string, n: int)
    ensures Atoi(s) == Some(n) <==> IsGoInt(s, n)
  {
    if Atoi(s).Some? {
      var sign, digits := if s[0] == '-' || s[0] == '+' then s[..1] else "", if s[0] == '-' || s[0] == '+' then s[1..] else s;
      assert s == sign + digits;
      assert s[0] == '-' ==> sign == "-";
      assert s[0] == '+' ==> sign == "+";
      assert IsSigned(s, sign, digits);
      AtoiOfSigned(s, sign, digits);
    }
    forall sign, digits | IsSigned(s, sign, digits) ensures Atoi(s) == Signed(sign == "-", Value(digits)) {
      AtoiOfSigned(s, sign, digits);
    }
  }

  /** The runner's count of a name whose last underscore-separated part, once a final "_test.sh" is
      gone, is `part`: the integer that the part denotes, and 1 if it denotes none. */
  lemma HostCountSpec(name: string, front: string, part: string)
    requires (front == "" || front[|front| - 1] == '_') && '_' !in part
    requires name == front + part + "_test.sh" || (name == front + part && !exists stem :: name == stem + "_test.sh")
    ensures forall n :: IsGoInt(part, n) ==> HostCount(name) == n
    ensures (!exists n :: IsGoInt(part, n)) ==> HostCount(name) == 1
  {
    TrimSpec(name, front + part);
    LastPartIs(front, part);
    forall n ensures Atoi(part) == Some(n) <==> IsGoInt(part, n) {
      AtoiSpec(part, n);
    }
    if Atoi(part).Some? {
      assert IsGoInt(part, Atoi(part).value);
    }
  }

  lemma TrimSpec(name: string, stem: string)
    requires name == stem + "_test.sh" || (name == stem && !exists s :: name == s + "_test.sh")
    ensures TrimSuffix(name, SUFFIX) == stem
  {
    if name == stem + "_test.sh" {
      assert name[..|name| - 8] == stem && name[|name| - 8..] == SUFFIX;
    } else if |name| >= 8 && name[|name| - 8..] == SUFFIX {
      assert name == name[..|name| - 8] + "_test.sh";
    }
  }

  lemma LastPartIs(front: string, part: string)
    requires (front == "" || front[|front| - 1] == '_') && '_' !in part
    ensures var parts := Split(front + part, '_'); parts[|parts| - 1] == part
  {
    if front == "" {
      assert front + part == part;
      SplitWithoutSeparator(part, '_');
    } else {
      assert front == front[..|front| - 1] + ['_'];
      SplitAtSeparator(front[..|front| - 1], '_', part);
    }
  }

  // ---------- the scheduler ----------

  /** The length of the longest run of digits that `s` starts with. */
  function DigitRun(s: string): (k: nat)
    ensures k <= |s| && AllDigits(s[..k])
    ensures k < |s| ==> !IsDigit(s[k])
  {
    if s == [] || !IsDigit(s[0]) then 0
    else
      var k := DigitRun(s[1..]);
      assert s[..k + 1] == [s[0]] + s[1..][..k];
      k + 1
  }

  /** What `_test.sh$` matches: the dot is any character but a newline, and the dollar sign also
      matches before a final newline. */
  predicate IsTail(s: string) {
    && (|s| == 8 || (|s| == 9 && s[8] == '\n'))
    && s[..5] == "_test" && s[5] != '\n' && s[6..8] == "sh"
  }

  /** `re.search('(\d+)_test.sh$', name)`, group 1: the leftmost match. A numeral is never cut
      short, because what must follow it is not a digit. */
  function Search(name: string): Option<string> {
    if name == [] then None
    else
      var k := DigitRun(name);
      if k > 0 && IsTail(name[k..]) then Some(name[..k]) else Search(name[1..])
  }

  /** The scheduler's host count. */
  function Parallelism(name: string): nat {
    match Search(name)
    case Some(digits) => if AllDigits(digits) then Value(digits) else 1
    case None => 1
  }

  // ---------- what the search finds ----------

  /** `name` is `front`, a numeral that `front` cannot extend, and the tail. */
  ghost predicate EndsWithNumeral(name: string, front: string, digits: string, tail: string) {
    && name == front + digits + tail
    && digits != [] && AllDigits(digits)
    && (front != [] ==> !IsDigit(front[|front| - 1]))
    && IsTail(tail)
  }

  lemma {:induction false} DigitRunStops(digits: string, rest: string)
    requires AllDigits(digits) && (rest != [] ==> !IsDigit(rest[0]))
    ensures DigitRun(digits + rest) == |digits|
  {
    if digits != [] {
      assert (digits + rest)[1..] == digits[1..] + rest;
      DigitRunStops(digits[1..], rest);
    } else {
      assert digits + rest == rest;
    }
  }

  lemma SearchAtNumeral(digits: string, tail: string)
    requires digits != [] && AllDigits(digits) && IsTail(tail)
    ensures Search(digits + tail) == Some(digits)
  {
    DigitRunStops(digits, tail);
    assert (digits + tail)[|digits|..] == tail && (digits + tail)[..|digits|] == digits;
  }

  /** A run of digits at the start of `front` is not followed by a tail: the rest is too long. */
  lemma SearchSkips(name: string, front: string, end: string)
    requires name == front + end && |end| >= 9
    requires front != [] && !IsDigit(front[|front| - 1])
    ensures Search(name) == Search(name[1..])
  {
    var k := DigitRun(name);
    assert name[|front| - 1] == front[|front| - 1];
    assert k < |front| by {
      assert forall i :: 0 <= i < k ==> IsDigit(name[..k][i]);
    }
  }

  lemma {:induction false} SearchFinds(name: string, front: string, digits: string, tail: string)
    requires EndsWithNumeral(name, front, digits, tail)
    ensures Search(name) == Some(digits)
    decreases |front|
  {
    if front == [] {
      SearchAtNumeral(digits, tail);
      assert name == digits + tail;
    } else {
      assert name == front + (digits + tail);
      SearchSkips(name, front, digits + tail);
      assert name[1..] == front[1..] + digits + tail;
      SearchFinds(name[1..], front[1..], digits, tail);
    }
  }

  lemma NumeralIsTakenWhole(name: string, digits: string, tail: string)
    requires name == digits + tail && AllDigits(digits) && IsTail(tail)
    ensures DigitRun(name) == |digits| && name[|digits|..] == tail
  {
    DigitRunStops(digits, tail);
  }

  /** A match found further right is not preceded by a digit: the search would have taken it. */
  lemma NoDigitBefore(name: string, digits: string, tail: string)
    requires name != [] && name[1..] == digits + tail && AllDigits(digits) && IsTail(tail)
    requires !(DigitRun(name) > 0 && IsTail(name[DigitRun(name)..]))
    ensures !IsDigit(name[0])
  {
    if IsDigit(name[0]) {
      var longer := [name[0]] + digits;
      assert name == longer + tail by { assert name == [name[0]] + name[1..]; }
      NumeralIsTakenWhole(name, longer, tail);
      assert false;
    }
  }

  lemma ExtendNumeral(name: string, rest: string, digits: string, tail: string)
    requires name != [] && EndsWithNumeral(name[1..], rest, digits, tail)
    requires rest == [] ==> !IsDigit(name[0])
    ensures EndsWithNumeral(name, [name[0]] + rest, digits, tail)
  {
  }

  lemma {:induction false} SearchIsSound(name: string) returns (front: string, tail: string)
    requires Search(name).Some?
    ensures EndsWithNumeral(name, front, Search(name).value, tail)
    decreases |name|
  {
    var k, digits := DigitRun(name), Search(name).value;
    if k > 0 && IsTail(name[k..]) {
      front, tail := [], name[k..];
    } else {
      assert digits == Search(name[1..]).value;
      var rest;
      rest, tail := SearchIsSound(name[1..]);
      if rest == [] {
        assert name[1..] == digits + tail by { assert [] + digits + tail == digits + tail; }
        NoDigitBefore(name, digits, tail);
      }
      ExtendNumeral(name, rest, digits, tail);
      front := [name[0]] + rest;
    }
  }

  /** `name` matches the regular expression with the numeral `digits`, which no digit precedes. The
      dot stands for any character but a newline, and a newline may follow. */
  ghost predicate Matches(name: string, front: string, digits: string, dot: char, end: string) {
    && name == front + digits + ("_test" + [dot] + "sh" + end)
    && digits != [] && (forall i :: 0 <= i < |digits| ==> '0' <= digits[i] <= '9')
    && (front != [] ==> !('0' <= front[|front| - 1] <= '9'))
    && dot != '\n' && (end == "" || end == "\n")
  }

  lemma TailOf(dot: char, end: string)
    requires dot != '\n' && (end == "" || end == "\n")
    ensures IsTail("_test" + [dot] + "sh" + end)
  {
  }

  /** The search succeeds exactly on names that end with a numeral and the tail, and then returns
      the whole numeral. */
  lemma SearchSpec(name: string, digits: string)
    ensures Search(name) == Some(digits) <==> exists front, tail :: EndsWithNumeral(name, front, digits, tail)
    ensures Search(name) == Some(digits) <==> exists front, dot, end :: Matches(name, front, digits, dot, end)
  {
    forall front, tail | EndsWithNumeral(name, front, digits, tail)
      ensures Matches(name, front, digits, tail[5], tail[8..])
    {
      assert tail == "_test" + [tail[5]] + "sh" + tail[8..] by {
        assert tail == tail[..5] + [tail[5]] + tail[6..8] + tail[8..];
      }
    }
    forall front, dot, end | Matches(name, front, digits, dot, end)
      ensures EndsWithNumeral(name, front, digits, "_test" + [dot] + "sh" + end)
    {
      TailOf(dot, end);
    }
    if Search(name) == Some(digits) {
      var front, tail := SearchIsSound(name);
    }
    forall front, tail | EndsWithNumeral(name, front, digits, tail) ensures Search(name) == Some(digits) {
      SearchFinds(name, front, digits, tail);
    }
  }

  /** The scheduler's count is the number in front of the tail, and 1 if there is none. */
  lemma ParallelismSpec(name: string)
    ensures forall front, digits, dot, end :: Matches(name, front, digits, dot, end) ==>
              AllDigits(digits) && Parallelism(name) == Value(digits)
    ensures (!exists front, digits, dot, end :: Matches(name, front, digits, dot, end)) ==> Parallelism(name) == 1
  {
    forall front, digits, dot, end | Matches(name, front, digits, dot, end)
      ensures AllDigits(digits) && Search(name) == Some(digits)
    {
      SearchSpec(name, digits);
    }
    if Search(name).Some? {
      SearchSpec(name, Search(name).value);
    }
  }

  // ---------- the two counts compared ----------

  /** `stem` ends with the numeral `digits`, which may be empty and cannot be extended. */
  ghost predicate StemOf(stem: string, front: string, digits: string) {
    && stem == front + digits && AllDigits(digits)
    && (front != [] ==> !IsDigit(front[|front| - 1]))
  }

  lemma TrimOfSuffixed(stem: string)
    ensures TrimSuffix(stem + SUFFIX, SUFFIX) == stem
  {
  }

  lemma NumeralOfSuffixed(stem: string, front: string, digits: string, tail: string)
    requires EndsWithNumeral(stem + SUFFIX, front, digits, tail)
    ensures stem != [] && IsDigit(stem[|stem| - 1])
  {
    var name := stem + SUFFIX;
    assert name[|name| - 1] == 'h' && name[|name| - 1] == tail[|tail| - 1];
    assert |tail| == 8;
    assert stem == name[..|name| - 8] == front + digits;
    assert stem[|stem| - 1] == digits[|digits| - 1];
  }

  lemma ParallelismOfStem(stem: string, front: string, digits: string)
    requires StemOf(stem, front, digits)
    ensures Parallelism(stem + SUFFIX) == if digits == [] then 1 else Value(digits)
  {
    var name := stem + SUFFIX;
    if digits != [] {
      assert name == front + digits + SUFFIX;
      SearchFinds(name, front, digits, SUFFIX);
    } else if Search(name).Some? {
      var front', tail := SearchIsSound(name);
      NumeralOfSuffixed(stem, front', Search(name).value, tail);
      assert false;
    }
  }

  /** The part of `front` after its last underscore: what the runner sees before the numeral. */
  function Lead(front: string): string {
    var parts := Split(front, '_');
    parts[|parts| - 1]
  }

  lemma LastPartOfStem(front: string, digits: string)
    requires AllDigits(digits)
    ensures Lead(front + digits) == Lead(front) + digits
    decreases |digits|
  {
    if digits == [] {
      assert front + digits == front;
    } else {
      var s, n := front + digits, |digits| - 1;
      assert s[..|s| - 1] == front + digits[..n];
      LastPartOfStem(front, digits[..n]);
      assert digits == digits[..n] + [digits[n]];
    }
  }

  lemma HostCountOfStem(stem: string, front: string, digits: string)
    requires StemOf(stem, front, digits)
    ensures HostCount(stem + SUFFIX) ==
            match Atoi(Lead(front) + digits) case Some(n) => n case None => 1
  {
    TrimOfSuffixed(stem);
    LastPartOfStem(front, digits);
  }

  /** When the two tools agree on a name that ends as test names must: the name carries no
      numeral, or the numeral is a whole part that fits a Go int, or it is one of the two numerals
      that the runner's fallback or sign happens to give. */
  predicate Agreeable(front: string, digits: string)
    requires AllDigits(digits)
  {
    var lead := Lead(front);
    || digits == []
    || ((lead == "" || lead == "+") && Value(digits) <= MAX_INT)
    || (lead == "-" && Value(digits) == 0)
    || (lead != "-" && Value(digits) == 1)
  }

  lemma LeadOfFront(front: string)
    requires front != [] ==> !IsDigit(front[|front| - 1])
    ensures Lead(front) != [] ==> !IsDigit(Lead(front)[|Lead(front)| - 1])
  {
  }

  lemma AtoiOfNonNumber(lead: string, digits: string)
    requires AllDigits(digits) && lead != [] && !IsDigit(lead[|lead| - 1])
    requires digits == [] || (lead != "+" && lead != "-")
    ensures Atoi(lead + digits) == None
  {
    var s := lead + digits;
    if |lead| > 1 && (s[0] == '-' || s[0] == '+') {
      assert s[1..][|lead| - 2] == lead[|lead| - 1];
    } else {
      assert s[|lead| - 1] == lead[|lead| - 1];
    }
  }

  /** The runner and the scheduler read the same number off a suffixed name exactly in the cases
      above; "a1x2_test.sh" is 1 host for the runner and 2 for the scheduler. */
  lemma CountsAgree(stem: string, front: string, digits: string)
    requires StemOf(stem, front, digits)
    ensures HostCount(stem + SUFFIX) == Parallelism(stem + SUFFIX) <==> Agreeable(front, digits)
  {
    var lead := Lead(front);
    ParallelismOfStem(stem, front, digits);
    HostCountOfStem(stem, front, digits);
    LeadOfFront(front);
    if digits == [] {
      assert lead + digits == lead;
      if lead != [] {
        AtoiOfNonNumber(lead, digits);
      }
    } else if lead == "" || lead == "+" || lead == "-" {
      AtoiOfSigned(lead + digits, lead, digits);
    } else {
      AtoiOfNonNumber(lead, digits);
    }
  }

  /** Every name has such a stem and numeral, so CountsAgree covers all suffixed names. */
  lemma {:induction false} EveryStemSplits(stem: string) returns (front: string, digits: string)
    ensures StemOf(stem, front, digits)
  {
    if stem == [] || !IsDigit(stem[|stem| - 1]) {
      front, digits := stem, [];
    } else {
      var n := |stem| - 1;
      front, digits := EveryStemSplits(stem[..n]);
      digits := digits + [stem[n]];
      assert stem == front + digits;
    }
  }

  // ---------- every name ----------

  /** The last underscore-separated part of a trimmed name: what the runner parses. */
  function LastPart(name: string): string {
    Lead(TrimSuffix(name, SUFFIX))
  }

  predicate HasSuffix(name: string) {
    |SUFFIX| <= |name| && name[|name| - |SUFFIX|..] == SUFFIX
  }

  /** When the two tools agree on an arbitrary name. Without a numeral in front of a tail the
      scheduler says 1, so the runner must not find any other number. With one in front of a tail
      that is not the exact suffix, the runner says 1. In front of the exact suffix the condition is
      Agreeable. */
  predicate AgreeableName(name: string) {
    match Search(name)
    case None => Atoi(LastPart(name)) == None || Atoi(LastPart(name)) == Some(1)
    case Some(digits) =>
      if !AllDigits(digits) then false
      else if HasSuffix(name) then
        var stem := TrimSuffix(name, SUFFIX);
        |digits| <= |stem| && Agreeable(stem[..|stem| - |digits|], digits)
      else Value(digits) == 1
  }

  lemma TailWithUnderscore(name: string, base: string, tail: string)
    requires name == base + tail && IsTail(tail) && tail[5] == '_'
    ensures Atoi(Lead(name)) == None
  {
    var end := tail[6..];
    assert end == tail[6..8] + tail[8..];
    assert end[0] == 's';
    assert name == (base + tail[..5]) + ['_'] + end;
    SplitAtSeparator(base + tail[..5], '_', end);
  }

  lemma TailWithoutUnderscore(name: string, base: string, tail: string)
    requires name == base + tail && IsTail(tail) && tail[5] != '_'
    ensures Atoi(Lead(name)) == None
  {
    var end := tail[1..];
    assert tail[..5][0] == '_' && tail[..5][1] == 't';
    assert end == tail[..5][1..] + [tail[5]] + tail[6..8] + tail[8..];
    assert end[0] == 't';
    assert name == base + ['_'] + end;
    SplitAtSeparator(base, '_', end);
  }

  /** A tail that is not the suffix leaves a last part that starts with a letter. */
  lemma OddTailIsNoNumber(name: string, base: string, tail: string)
    requires name == base + tail && IsTail(tail) && tail != SUFFIX
    ensures !HasSuffix(name) && Atoi(LastPart(name)) == None
  {
    OddTailIsNoSuffix(name, base, tail);
    if tail[5] == '_' {
      TailWithUnderscore(name, base, tail);
    } else {
      TailWithoutUnderscore(name, base, tail);
    }
  }

  lemma OddTailIsNoSuffix(name: string, base: string, tail: string)
    requires name == base + tail && IsTail(tail) && tail != SUFFIX
    ensures !HasSuffix(name)
  {
    if |tail| == 8 {
      assert name[|name| - 8..] == tail;
    } else {
      assert name[|name| - 1] == '\n' && SUFFIX[7] == 'h';
    }
  }

  lemma SuffixIsTheTail(name: string, front: string, digits: string)
    requires EndsWithNumeral(name, front, digits, SUFFIX)
    ensures HasSuffix(name) && TrimSuffix(name, SUFFIX) == front + digits
    ensures StemOf(front + digits, front, digits) && (front + digits)[..|front|] == front
  {
    assert name[|name| - 8..] == SUFFIX;
    assert name[..|name| - 8] == front + digits;
  }

  /** The runner and the scheduler read the same number off a name, whatever it looks like, exactly
      when the name is agreeable. */
  lemma CountsAgreeOnEveryName(name: string)
    ensures HostCount(name) == Parallelism(name) <==> AgreeableName(name)
  {
    if Search(name).Some? {
      var digits := Search(name).value;
      var front, tail := SearchIsSound(name);
      if tail == SUFFIX {
        SuffixIsTheTail(name, front, digits);
        CountsAgree(front + digits, front, digits);
      } else {
        OddTailIsNoNumber(name, front + digits, tail);
      }
    }
  }

  // ---------- names on which the tools differ ----------

  /** The runner wants the numeral to be a whole part. */
  lemma DifferOnPartialNumeral(name: string)
    requires name == "a1x2_test.sh"
    ensures HostCount(name) == 1 && Parallelism(name) == 2
  {
    var front, digits := ['a', '1', 'x'], ['2'];
    var stem := front + digits;
    assert name == stem + SUFFIX;
    SplitWithoutSeparator(front, '_');
    ParallelismOfStem(stem, front, digits);
    HostCountOfStem(stem, front, digits);
    AtoiOfNonNumber(front, digits);
    ValueOfDigit('2');
  }

  lemma ValueOfDigit(c: char)
    requires IsDigit(c)
    ensures Value([c]) == c as int - '0' as int
  {
    assert [c][..0] == [];
  }

  lemma ShortNameHasNoNumeral(name: string)
    requires |name| <= 8
    ensures Search(name) == None
  {
    if Search(name).Some? {
      var front, tail := SearchIsSound(name);
      assert false;
    }
  }

  /** The scheduler wants the suffix. */
  lemma DifferWithoutSuffix(name: string)
    requires name == "a_5"
    ensures HostCount(name) == 5 && Parallelism(name) == 1
  {
    var base, digits := ['a'], ['5'];
    assert name == base + ['_'] + digits;
    SplitAtSeparator(base, '_', digits);
    assert [] + digits == digits;
    AtoiOfSigned([] + digits, [], digits);
    ValueOfDigit('5');
    ShortNameHasNoNumeral(name);
  }

  /** Only the runner reads a sign. */
  lemma DifferOnSign(name: string)
    requires name == "a_-2_test.sh"
    ensures HostCount(name) == -2 && Parallelism(name) == 2
  {
    var front, digits := ['a'] + ['_'] + ['-'], ['2'];
    var stem := front + digits;
    assert name == stem + SUFFIX;
    SplitAtSeparator(['a'], '_', ['-']);
    ParallelismOfStem(stem, front, digits);
    HostCountOfStem(stem, front, digits);
    AtoiOfSigned(['-'] + digits, ['-'], digits);
    ValueOfDigit('2');
  }

  /** Names of the documented form: the scheduler reads back the count that was written, and so does
      the runner up to Go's largest int; beyond it the runner says 1. */
  lemma CountRoundTrip(base: string, n: nat)
    ensures HostCount(base + "_" + Decimal(n) + "_test.sh") == if n <= 0x7fff_ffff_ffff_ffff then n else 1
    ensures Parallelism(base + "_" + Decimal(n) + "_test.sh") == n
  {
    var front, digits := base + "_", Decimal(n);
    ValueOfDecimal(n);
    SplitAtSeparator(base, '_', "");
    assert base + ['_'] + "" == front;
    ParallelismOfStem(front + digits, front, digits);
    HostCountOfStem(front + digits, front, digits);
    AtoiOfSigned("" + digits, "", digits);
  }
}
