/** Numerals in base 10 and 16: what a span of digits stands for, and the text of a number.
    HTTP's chunk sizes and lengths, JSON's integers and the string builder all write and read them. */
module Numerals {

  datatype Radix = Decimal | Hex {
    function Size(): nat { if Decimal? then 10 else 16 }

    /** Multiplying by the base, and dividing by it, with the constant in each case. */
    function Times(n: nat): nat { if Decimal? then n * 10 else n * 16 }

    function Rest(n: nat): (q: nat)
      ensures n > 0 ==> q < n
    {
      if Decimal? then n / 10 else n / 16
    }

    function Last(n: nat): (d: nat)
      ensures d < Size() && Times(Rest(n)) + d == n
    {
      if Decimal? then n % 10 else n % 16
    }
  }

  /** The value of a digit, of either case, or -1. */
  function Digit(c: char, r: Radix): (d: int)
    ensures -1 <= d < r.Size()
  {
    if '0' <= c <= '9' then c as int - '0' as int
    else if r.Hex? && 'a' <= c <= 'f' then c as int - 'a' as int + 10
    else if r.Hex? && 'A' <= c <= 'F' then c as int - 'A' as int + 10
    else -1
  }

  /** The digit of a value, in lower case. */
  function DigitChar(d: nat): (c: char)
    requires d < 16
    ensures Digit(c, Hex) == d
    ensures d < 10 ==> Digit(c, Decimal) == d
  {
    if d < 10 then ('0' as int + d) as char else ('a' as int + d - 10) as char
  }

  /** Digits in either case, by where they stand. */
  lemma DigitIsPlace(c: char, d: nat)
    ensures d < 10 ==> (Digit(c, Decimal) == d <==> c == "0123456789"[d])
    ensures d < 16 ==> (Digit(c, Hex) == d <==> c == "0123456789abcdef"[d] || c == "0123456789ABCDEF"[d])
  {
  }

  predicate AllDigits(s: string, r: Radix) {
    forall i :: 0 <= i < |s| ==> Digit(s[i], r) >= 0
  }

  /** What the digits of s stand for, however many there are. */
  function Value(s: string, r: Radix): nat
    requires AllDigits(s, r)
  {
    if s == [] then 0 else r.Times(Value(s[..|s| - 1], r)) + Digit(s[|s| - 1], r)
  }

  /** The shortest text of n. */
  function Text(n: nat, r: Radix): (s: string)
    ensures s != []
  {
    if n < r.Size() then [DigitChar(n)] else Text(r.Rest(n), r) + [DigitChar(r.Last(n))]
  }

  function Pow(r: Radix, k: nat): (p: nat)
    ensures p >= 1
  {
    if k == 0 then 1 else r.Times(Pow(r, k - 1))
  }

  function Pow2(n: nat): (p: nat)
    ensures p >= 1
  {
    if n == 0 then 1 else 2 * Pow2(n - 1)
  }

  lemma {:induction false} ValueOfText(n: nat, r: Radix)
    ensures AllDigits(Text(n, r), r)
    ensures Value(Text(n, r), r) == n
  {
    if n >= r.Size() {
      ValueOfText(r.Rest(n), r);
      assert Text(n, r)[..|Text(n, r)| - 1] == Text(r.Rest(n), r);
    } else {
      assert Text(n, r)[..0] == [];
    }
  }

  /** A longer span stands for what its start does, shifted, plus the rest. */
  lemma ValueOfAppend(s: string, c: char, r: Radix)
    requires AllDigits(s, r) && Digit(c, r) >= 0
    ensures AllDigits(s + [c], r)
    ensures Value(s + [c], r) == r.Times(Value(s, r)) + Digit(c, r)
  {
    assert (s + [c])[..|s|] == s;
  }

  /** The first digit counts for most: each place is worth the base times the next. */
  lemma {:induction false} ValueByPlaces(s: string, r: Radix)
    requires s != [] && AllDigits(s, r)
    ensures Value(s, r) == Digit(s[0], r) * Pow(r, |s| - 1) + Value(s[1..], r)
    ensures Pow(r, |s|) == r.Size() * Pow(r, |s| - 1)
  {
    var n := |s| - 1;
    if n > 0 {
      ValueByPlaces(s[..n], r);
      assert s[1..][..n - 1] == s[..n][1..];
      Distributed(Digit(s[0], r), Pow(r, n - 1), Value(s[1..][..n - 1], r), r);
    } else {
      assert s[1..] == [] && s[..n] == [];
    }
  }

  lemma Distributed(d: nat, p: nat, v: nat, r: Radix)
    ensures r.Times(d * p + v) == d * r.Times(p) + r.Times(v)
  {
  }

  lemma {:induction false} ValueMonotone(s: string, k: nat, r: Radix)
    requires AllDigits(s, r) && k <= |s|
    ensures Value(s[..k], r) <= Value(s, r)
  {
    if k == |s| {
      assert s[..k] == s;
    } else {
      assert s[..|s| - 1][..k] == s[..k];
      ValueMonotone(s[..|s| - 1], k, r);
    }
  }

  lemma {:induction false} ValueBelowPow(s: string, r: Radix)
    requires AllDigits(s, r)
    ensures Value(s, r) < Pow(r, |s|)
  {
    if s != [] {
      ValueBelowPow(s[..|s| - 1], r);
    }
  }

  lemma {:induction false} TextLengthMonotone(a: nat, b: nat, r: Radix)
    requires a <= b
    ensures |Text(a, r)| <= |Text(b, r)|
    decreases b
  {
    if a >= r.Size() {
      TextLengthMonotone(r.Rest(a), r.Rest(b), r);
    }
  }

  /** n takes no more digits than a power above it has zeros. */
  lemma {:induction false} TextLengthBelowPow(n: nat, k: nat, r: Radix)
    requires n < Pow(r, k) && k > 0
    ensures |Text(n, r)| <= k
  {
    if n >= r.Size() {
      assert k > 1 by { assert Pow(r, 1) == r.Times(Pow(r, 0)); }
      TextLengthBelowPow(r.Rest(n), k - 1, r);
    }
  }
}
