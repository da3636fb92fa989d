/**
 * Decimal digit runs: the `[0-9]+` groups read with `int(...)` by the version
 * and application-id parsers, and `str(n)` used for the request serial.
 */
module Decimal {
  import opened Wrappers

  /** `[0-9]` (and Python 2's `\d` on a byte-string pattern): ASCII digits only. */
  predicate IsDigit(c: char)
  {
    '0' <= c <= '9'
  }

  predicate AllDigits(s: string)
  {
    forall i :: 0 <= i < |s| ==> IsDigit(s[i])
  }

  /** Length of the longest run of digits at the start of `s`, as a greedy `[0-9]*` takes it. */
  function DigitRun(s: string): (n: nat)
    ensures n <= |s|
    ensures AllDigits(s[..n])
    ensures n < |s| ==> !IsDigit(s[n])
  {
    if s == [] || !IsDigit(s[0]) then 0
    else
      var n := 1 + DigitRun(s[1..]);
      assert s[..n] == [s[0]] + s[1..][..n - 1];
      n
  }

  function DigitValue(c: char): nat
    requires IsDigit(c)
  {
    (c as int - '0' as int) as nat
  }

  function DigitChar(d: nat): (c: char)
    requires d < 10
    ensures IsDigit(c) && DigitValue(c) == d
  {
    ('0' as int + d) as char
  }

  /** `int(ds)` for a run of ASCII digits; leading zeros are allowed, as in Python. */
  function Value(ds: string): nat
    requires AllDigits(ds)
  {
    if ds == [] then 0 else Value(ds[..|ds| - 1]) * 10 + DigitValue(ds[|ds| - 1])
  }

  /** `str(n)` for a natural number: canonical decimal, no leading zero. */
  function NatToString(n: nat): (s: string)
    ensures |s| > 0 && AllDigits(s)
    ensures |s| > 1 ==> s[0] != '0'
  {
    if n < 10 then [DigitChar(n)] else NatToString(n / 10) + [DigitChar(n % 10)]
  }

  /** `int(str(n)) == n`. */
  lemma {:induction false} ValueOfNatToString(n: nat)
    ensures Value(NatToString(n)) == n
  {
    if n >= 10 {
      var s := NatToString(n / 10);
      assert NatToString(n) == s + [DigitChar(n % 10)];
      assert (s + [DigitChar(n % 10)])[..|s|] == s;
      ValueOfNatToString(n / 10);
    }
  }

  /** A greedy `([0-9]+)` group converted with `int`: the value and what follows the run. */
  function TakeNumber(s: string): (r: Option<(nat, string)>)
    ensures r.Some? <==> |s| > 0 && IsDigit(s[0])
    ensures r.Some? ==> exists n :: 0 < n <= |s| && AllDigits(s[..n]) && r.value == (Value(s[..n]), s[n..])
    ensures r.Some? ==> r.value.1 == [] || !IsDigit(r.value.1[0])
  {
    var n := DigitRun(s);
    if n == 0 then None else Some((Value(s[..n]), s[n..]))
  }

  /**
   * Any run of digits followed by a non-digit is read whole: its value, and
   * the reading stops where the run ends (leading zeros included).
   */
  lemma {:induction false} DigitsThen(ds: string, rest: string)
    requires |ds| > 0 && AllDigits(ds)
    requires rest == [] || !IsDigit(rest[0])
    ensures TakeNumber(ds + rest) == Some((Value(ds), rest))
  {
    DigitRunOfDigitsThen(ds, rest);
    assert (ds + rest)[..|ds|] == ds;
    assert (ds + rest)[|ds|..] == rest;
  }

  /** What `TakeNumber` read: a non-empty digit run, and the rest of the input after it. */
  lemma {:induction false} TakeNumberParts(s: string) returns (ds: string, rest: string)
    requires TakeNumber(s).Some?
    ensures |ds| > 0 && AllDigits(ds) && s == ds + rest
    ensures TakeNumber(s) == Some((Value(ds), rest))
  {
    var n := DigitRun(s);
    ds, rest := s[..n], s[n..];
    assert s == ds + rest;
  }

  /** Reading back a printed number stops exactly where the number ends. */
  lemma {:induction false} NumberRoundTrip(n: nat, rest: string)
    requires rest == [] || !IsDigit(rest[0])
    ensures TakeNumber(NatToString(n) + rest) == Some((n, rest))
  {
    DigitsThen(NatToString(n), rest);
    ValueOfNatToString(n);
  }

  /** The digit run of a run of digits followed by a non-digit is the whole run. */
  lemma {:induction false} DigitRunOfDigitsThen(ds: string, rest: string)
    requires AllDigits(ds)
    requires rest == [] || !IsDigit(rest[0])
    ensures DigitRun(ds + rest) == |ds|
  {
    if ds != [] {
      assert (ds + rest)[1..] == ds[1..] + rest;
      DigitRunOfDigitsThen(ds[1..], rest);
    } else {
      assert ds + rest == rest;
    }
  }
}
