/** Decimal digit strings and the two conversions of Go's strconv package
    that the server uses on them: Atoi (parse, 64-bit `int`) and Itoa
    (format). */
module Decimal {
  import opened Wrappers

  /** Largest value of Go's `int` on a 64-bit platform. */
  const MaxInt: nat := 0x7FFF_FFFF_FFFF_FFFF

  /** ASCII decimal digit, the class `\d` of Go's regexp package. */
  predicate IsDigit(c: char) {
    '0' <= c <= '9'
  }

  predicate AllDigits(s: string) {
    forall k :: 0 <= k < |s| ==> IsDigit(s[k])
  }

  function DigitValue(c: char): (d: nat)
    requires IsDigit(c)
    ensures d < 10
  {
    (c as int - '0' as int) as nat
  }

  function DigitChar(d: nat): (c: char)
    requires d < 10
    ensures IsDigit(c) && DigitValue(c) == d
  {
    ('0' as int + d) as char
  }

  /** The number a digit string denotes (leading zeros allowed). */
  function Value(s: string): nat
    requires AllDigits(s)
  {
    if s == [] then 0 else 10 * Value(s[..|s| - 1]) + DigitValue(s[|s| - 1])
  }

  /** Canonical decimal form: no leading zero except for "0" itself. */
  predicate IsCanonical(s: string) {
    |s| > 0 && AllDigits(s) && (s[0] == '0' ==> |s| == 1)
  }

  /** strconv.Itoa on a non-negative value. */
  function Itoa(n: nat): (s: string)
    ensures IsCanonical(s)
    ensures Value(s) == n
  {
    if n < 10 then [DigitChar(n)]
    else
      var prefix := Itoa(n / 10);
      var s := prefix + [DigitChar(n % 10)];
      assert s[..|s| - 1] == prefix;
      s
  }

  /** strconv.Atoi on a string of digits: the value, or None when the value
      does not fit in a 64-bit `int` (a range error). */
  function Atoi(s: string): (r: Option<nat>)
    requires AllDigits(s)
    ensures r.Some? <==> Value(s) <= MaxInt
    ensures r.Some? ==> r.value == Value(s)
  {
    if Value(s) <= MaxInt then Some(Value(s)) else None
  }

  /** The digit loop behind strconv.Atoi: accumulates n * 10 + d from the
      left and stops with a range error as soon as the value passes the
      64-bit maximum. */
  method ParseDigits(s: string) returns (r: Option<nat>)
    requires AllDigits(s)
    ensures r.Some? <==> Value(s) <= MaxInt
    ensures r.Some? ==> r.value == Value(s)
    ensures r == Atoi(s)
  {
    var n: nat := 0;
    var i := 0;
    while i < |s|
      invariant 0 <= i <= |s|
      invariant n == Value(s[..i]) && n <= MaxInt
    {
      assert s[..i + 1][..i] == s[..i];
      n := 10 * n + DigitValue(s[i]);
      if n > MaxInt {
        PrefixValueBound(s, i + 1);
        return None;
      }
      i := i + 1;
    }
    assert s[..i] == s;
    return Some(n);
  }

  /** A prefix of a digit string denotes no more than the whole string. */
  lemma {:induction false} PrefixValueBound(s: string, k: nat)
    requires AllDigits(s) && k <= |s|
    ensures Value(s[..k]) <= Value(s)
    decreases |s|
  {
    if k < |s| {
      var n := |s| - 1;
      assert s[..n][..k] == s[..k];
      PrefixValueBound(s[..n], k);
    } else {
      assert s[..k] == s;
    }
  }

  /** A digit string with a leading zero removed denotes the same value. */
  lemma {:induction false} ValueDropLeadingZero(s: string)
    requires AllDigits(s) && |s| > 0 && s[0] == '0'
    ensures Value(s[1..]) == Value(s)
  {
    if |s| > 1 {
      ValueDropLeadingZero(s[..|s| - 1]);
      assert s[..|s| - 1][1..] == s[1..][..|s[1..]| - 1];
    } else {
      assert s[1..] == [];
    }
  }

  /** Any number of leading zeros leaves the value unchanged. */
  lemma {:induction false} ValueAfterZeros(zeros: string, digits: string)
    requires forall k :: 0 <= k < |zeros| ==> zeros[k] == '0'
    requires AllDigits(digits)
    ensures AllDigits(zeros + digits) && Value(zeros + digits) == Value(digits)
    decreases |zeros|
  {
    if zeros == [] {
      assert zeros + digits == digits;
    } else {
      var s := zeros + digits;
      assert s[0] == '0';
      assert AllDigits(s) by {
        forall k | 0 <= k < |s| ensures IsDigit(s[k]) {
          if k < |zeros| { assert s[k] == zeros[k]; } else { assert s[k] == digits[k - |zeros|]; }
        }
      }
      ValueDropLeadingZero(s);
      assert s[1..] == zeros[1..] + digits;
      ValueAfterZeros(zeros[1..], digits);
    }
  }

  function Power10(n: nat): (p: nat)
    ensures p >= 1
  {
    if n == 0 then 1 else 10 * Power10(n - 1)
  }

  lemma {:induction false} Power10Monotone(m: nat, n: nat)
    requires m <= n
    ensures Power10(m) <= Power10(n)
    decreases n - m
  {
    if m < n {
      Power10Monotone(m + 1, n);
    }
  }

  /** A string of n digits denotes less than 10^n. */
  lemma {:induction false} ValueBelowPower(s: string)
    requires AllDigits(s)
    ensures Value(s) < Power10(|s|)
  {
    if s != [] {
      ValueBelowPower(s[..|s| - 1]);
    }
  }

  /** Two canonical digit strings with the same value are the same string. */
  lemma {:induction false} CanonicalUnique(s: string, t: string)
    requires IsCanonical(s) && IsCanonical(t)
    requires Value(s) == Value(t)
    ensures s == t
  {
    if |s| == 1 && |t| == 1 {
    } else if |s| == 1 {
      CanonicalAtLeastTen(t);
    } else if |t| == 1 {
      CanonicalAtLeastTen(s);
    } else {
      var s', t' := s[..|s| - 1], t[..|t| - 1];
      assert IsCanonical(s') && IsCanonical(t');
      assert Value(s') == Value(t') && DigitValue(s[|s| - 1]) == DigitValue(t[|t| - 1]) by {
        DivModOfDigitAppend(Value(s'), DigitValue(s[|s| - 1]));
        DivModOfDigitAppend(Value(t'), DigitValue(t[|t| - 1]));
      }
      CanonicalUnique(s', t');
      assert s[|s| - 1] == t[|t| - 1];
      assert s == s' + [s[|s| - 1]] && t == t' + [t[|t| - 1]];
    }
  }

  lemma DivModOfDigitAppend(v: nat, d: nat)
    requires d < 10
    ensures (10 * v + d) / 10 == v && (10 * v + d) % 10 == d
  {
  }

  lemma {:induction false} CanonicalAtLeastTen(s: string)
    requires IsCanonical(s) && |s| >= 2
    ensures Value(s) >= 10
  {
    var p := s[..|s| - 1];
    assert IsCanonical(p);
    if |p| >= 2 {
      CanonicalAtLeastTen(p);
    } else {
      assert p[0] != '0';
    }
  }

  /** Formatting the parsed value of a canonical string gives it back. */
  lemma ItoaOfValue(s: string)
    requires IsCanonical(s)
    ensures Itoa(Value(s)) == s
  {
    CanonicalUnique(Itoa(Value(s)), s);
  }
}
