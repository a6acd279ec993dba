/**
 * String helpers with the meaning of the Go library functions the program
 * calls: strings.HasPrefix/HasSuffix/TrimSuffix/Replace/Join, strconv.Itoa,
 * the `<` operator on strings and a separator-only filepath.Join.
 */
module Text {

  predicate HasPrefix(s: string, prefix: string) {
    |prefix| <= |s| && s[..|prefix|] == prefix
  }

  predicate HasSuffix(s: string, suffix: string) {
    |suffix| <= |s| && s[|s| - |suffix|..] == suffix
  }

  /** strings.TrimSuffix: removes `suffix` once if `s` ends with it. */
  function TrimSuffix(s: string, suffix: string): (r: string)
    ensures HasSuffix(s, suffix) ==> r + suffix == s
    ensures !HasSuffix(s, suffix) ==> r == s
  {
    if HasSuffix(s, suffix) then s[..|s| - |suffix|] else s
  }

  // ---------------------------------------------------------------------
  // Go's order on strings. Go compares the UTF-8 bytes lexicographically;
  // UTF-8 preserves the order of code points, so comparing the characters
  // of a Dafny string lexicographically gives the same answer.
  // (Dafny's own `<` on sequences means "proper prefix", which is not it.)
  // ---------------------------------------------------------------------

  /** Go's `a < b` on strings. */
  predicate Less(a: string, b: string)
    decreases |a|
  {
    if a == [] then b != []
    else b != [] && (a[0] < b[0] || (a[0] == b[0] && Less(a[1..], b[1..])))
  }

  lemma {:induction false} LessIrreflexive(a: string)
    ensures !Less(a, a)
    decreases |a|
  {
    if a != [] {
      LessIrreflexive(a[1..]);
    }
  }

  lemma {:induction false} LessTransitive(a: string, b: string, c: string)
    requires Less(a, b) && Less(b, c)
    ensures Less(a, c)
    decreases |a|
  {
    if a != [] && a[0] == b[0] && b[0] == c[0] {
      LessTransitive(a[1..], b[1..], c[1..]);
    }
  }

  /** Any two distinct strings are ordered one way or the other. */
  lemma {:induction false} LessTotal(a: string, b: string)
    ensures a == b || Less(a, b) || Less(b, a)
    decreases |a|
  {
    if a != [] && b != [] && a[0] == b[0] {
      LessTotal(a[1..], b[1..]);
      if a[1..] == b[1..] {
        assert a == [a[0]] + a[1..] && b == [b[0]] + b[1..];
      }
    }
  }

  lemma {:induction false} LessAsymmetric(a: string, b: string)
    requires Less(a, b)
    ensures !Less(b, a)
  {
    if Less(b, a) {
      LessTransitive(a, b, a);
      LessIrreflexive(a);
    }
  }

  /** "Not less than" is transitive: the descending sorts rely on it. */
  lemma NotLessTransitive(a: string, b: string, c: string)
    requires !Less(a, b) && !Less(b, c)
    ensures !Less(a, c)
  {
    LessTotal(a, b);
    LessTotal(b, c);
    if Less(a, c) {
      if b == a {
      } else if b == c {
      } else {
        LessTransitive(c, b, a);
        LessAsymmetric(c, a);
      }
    }
  }

  /** Under this order "9" sorts after "10": ids are not compared as numbers. */
  lemma NineAfterTen()
    ensures Less("10", "9") && !Less("9", "10")
  {
  }

  // ---------------------------------------------------------------------
  // Decimal text of integers (strconv.Itoa and the %d verb).
  // ---------------------------------------------------------------------

  predicate IsDigit(c: char) {
    '0' <= c <= '9'
  }

  predicate AllDigits(s: string) {
    forall k :: 0 <= k < |s| ==> IsDigit(s[k])
  }

  function DigitChar(d: nat): (c: char)
    requires d < 10
    ensures IsDigit(c)
  {
    ('0' as int + d) as char
  }

  function DigitValue(c: char): (d: nat)
    requires IsDigit(c)
    ensures d < 10
  {
    c as int - '0' as int
  }

  /** strconv.Itoa of a non-negative value: the shortest decimal text. */
  function NatString(n: nat): (s: string)
    ensures |s| >= 1 && AllDigits(s)
  {
    if n < 10 then [DigitChar(n)] else NatString(n / 10) + [DigitChar(n % 10)]
  }

  /** Reads a string of decimal digits back as a number. */
  function ParseDigits(s: string): nat
    requires AllDigits(s)
  {
    if s == [] then 0 else ParseDigits(s[..|s| - 1]) * 10 + DigitValue(s[|s| - 1])
  }

  lemma {:induction false} NatStringRoundTrip(n: nat)
    ensures ParseDigits(NatString(n)) == n
  {
    if n >= 10 {
      var s := NatString(n);
      assert s[..|s| - 1] == NatString(n / 10);
      NatStringRoundTrip(n / 10);
    }
  }

  lemma NatStringInjective(m: nat, n: nat)
    requires NatString(m) == NatString(n)
    ensures m == n
  {
    NatStringRoundTrip(m);
    NatStringRoundTrip(n);
  }

  /** strconv.Itoa / fmt "%d" of any int. */
  function IntString(i: int): string
  {
    if i < 0 then "-" + NatString(-i) else NatString(i)
  }

  // ---------------------------------------------------------------------
  // strings.Replace(s, from, to, -1), strings.Join, filepath.Join
  // ---------------------------------------------------------------------

  /**
   * Replaces every non-overlapping occurrence of `from`, scanning from the
   * left, as strings.Replace with n = -1 does for a non-empty `from`.
   */
  function ReplaceAll(s: string, from: string, to: string): string
    requires from != []
    decreases |s|
  {
    if |s| < |from| then s
    else if s[..|from|] == from then to + ReplaceAll(s[|from|..], from, to)
    else [s[0]] + ReplaceAll(s[1..], from, to)
  }

  /** `from` occurs in s starting at index i. */
  predicate OccursAt(s: string, from: string, i: nat) {
    i + |from| <= |s| && s[i..i + |from|] == from
  }

  /** A string in which `from` never occurs is left as it is. */
  lemma {:induction false} ReplaceAllAbsent(s: string, from: string, to: string)
    requires from != []
    requires forall i: nat :: !OccursAt(s, from, i)
    ensures ReplaceAll(s, from, to) == s
    decreases |s|
  {
    if |s| >= |from| {
      assert !OccursAt(s, from, 0);
      assert s[0..|from|] == s[..|from|];
      forall i: nat
        ensures !OccursAt(s[1..], from, i)
      {
        assert !OccursAt(s, from, i + 1);
        if i + |from| <= |s| - 1 {
          assert s[1..][i..i + |from|] == s[i + 1..i + 1 + |from|];
        }
      }
      ReplaceAllAbsent(s[1..], from, to);
      assert s == [s[0]] + s[1..];
    }
  }

  /**
   * The first occurrence is replaced and the scan goes on after it: when
   * `from` does not start anywhere inside a, a + from + b becomes
   * a + to + (b with its occurrences replaced).
   */
  lemma {:induction false} ReplaceAllFirst(a: string, from: string, to: string, b: string)
    requires from != []
    requires forall i: nat :: i < |a| ==> !OccursAt(a + from + b, from, i)
    ensures ReplaceAll(a + from + b, from, to) == a + to + ReplaceAll(b, from, to)
    decreases |a|
  {
    if a == [] {
      assert a + from + b == from + b;
      ReplaceAllAtStart(from, to, b);
    } else {
      var s := a + from + b;
      assert !OccursAt(s, from, 0);
      ReplaceAllSkip(s, from, to);
      NoOccurrenceShift(a, from, b);
      assert s[1..] == a[1..] + from + b;
      ReplaceAllFirst(a[1..], from, to, b);
      assert a == [a[0]] + a[1..];
    }
  }

  lemma ReplaceAllAtStart(from: string, to: string, b: string)
    requires from != []
    ensures ReplaceAll(from + b, from, to) == to + ReplaceAll(b, from, to)
  {
    var s := from + b;
    assert s[..|from|] == from && s[|from|..] == b;
  }

  /** Where `from` does not start at 0, the first character is kept and the scan moves on. */
  lemma ReplaceAllSkip(s: string, from: string, to: string)
    requires from != [] && s != [] && !OccursAt(s, from, 0)
    ensures ReplaceAll(s, from, to) == [s[0]] + ReplaceAll(s[1..], from, to)
  {
    if |s| < |from| {
      assert ReplaceAll(s[1..], from, to) == s[1..];
      assert s == [s[0]] + s[1..];
    } else {
      assert s[0..|from|] == s[..|from|];
    }
  }

  lemma NoOccurrenceShift(a: string, from: string, b: string)
    requires a != []
    requires forall i: nat :: i < |a| ==> !OccursAt(a + from + b, from, i)
    ensures forall i: nat :: i < |a[1..]| ==> !OccursAt(a[1..] + from + b, from, i)
  {
    var s, s' := a + from + b, a[1..] + from + b;
    forall i: nat | i < |a[1..]|
      ensures !OccursAt(s', from, i)
    {
      assert !OccursAt(s, from, i + 1);
      if i + |from| <= |s'| {
        assert s'[i..i + |from|] == s[i + 1..i + 1 + |from|];
      }
    }
  }

  /** Replacing a pattern by itself changes nothing. */
  lemma {:induction false} ReplaceAllSelf(s: string, from: string)
    requires from != []
    ensures ReplaceAll(s, from, from) == s
    decreases |s|
  {
    if |s| >= |from| {
      if s[..|from|] == from {
        ReplaceAllSelf(s[|from|..], from);
        assert s == from + s[|from|..];
      } else {
        ReplaceAllSelf(s[1..], from);
        assert s == [s[0]] + s[1..];
      }
    }
  }

  /** strings.Join. */
  function JoinStrings(parts: seq<string>, sep: string): string
  {
    if parts == [] then ""
    else if |parts| == 1 then parts[0]
    else parts[0] + sep + JoinStrings(parts[1..], sep)
  }

  /**
   * filepath.Join of two elements: empty elements are dropped and the rest
   * are separated by "/". The lexical clean-up Join also performs is not
   * modelled (see README).
   */
  function PathJoin(a: string, b: string): string
  {
    if a == "" then b else if b == "" then a else a + "/" + b
  }
}
