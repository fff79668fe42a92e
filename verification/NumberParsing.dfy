/** Parsing what StringBuilder writes, and only that: numbers of 64 bits, exact to their limits. */
module NumberParsing {
  import opened Numerals
  import opened Options
  import opened Sequences
  import opened StringBuilder

  datatype Parsed<T> = Good(value: T) | Empty | Invalid | Range

  // ---------- Digits ----------

  /** _parse_digits(): good exactly if all bytes are digits and what they stand for is at most max. No
      step of it is beyond 64 bits. */
  method ParseDigits(s: string, r: Radix, max: nat) returns (p: Parsed<nat>)
    requires max <= UINT64_MAX
    ensures p.Empty? <==> s == ""
    ensures p.Invalid? <==> !AllDigits(s, r)
    ensures p.Good? ==> p.value == Value(s, r) <= max
    ensures p.Range? ==> s != "" && AllDigits(s, r) && Value(s, r) > max
  {
    if |s| == 0 {
      return Empty;
    }
    for i := 0 to |s|
      invariant AllDigits(s[..i], r)
    {
      if Digit(s[i], r) < 0 {
        return Invalid;
      }
      assert s[..i + 1] == s[..i] + [s[i]];
    }
    assert s[..|s|] == s;
    var value := 0;
    for i := 0 to |s|
      invariant value == Value(s[..i], r) <= max
    {
      assert s[..i + 1] == s[..i] + [s[i]];
      ValueOfAppend(s[..i], s[i], r);
      ValueMonotone(s, i + 1, r);
      var d: nat := Digit(s[i], r);
      if d > max || value > Over(max - d, r) {
        return Range;
      }
      value := r.Times(value) + d;
      assert value <= UINT64_MAX;
    }
    return Good(value);
  }

  function Over(n: nat, r: Radix): nat {
    if r.Decimal? then n / 10 else n / 16
  }

  // ---------- Signed ----------

  predicate HasSign(s: string) {
    s != [] && (s[0] == '+' || s[0] == '-')
  }

  function Unsigned(s: string): string {
    if HasSign(s) then s[1..] else s
  }

  predicate IsNegative(s: string) {
    s != [] && s[0] == '-'
  }

  function Negated(n: nat, negative: bool): int {
    var v: int := n;
    if negative then -v else v
  }

  predicate IsInt64(v: int) {
    INT64_MIN <= v <= INT64_MAX
  }

  /** _signed_value() */
  function SignedValue(n: nat, negative: bool, min: int, max: int): (p: Parsed<int>)
    requires IsInt64(min) && IsInt64(max)
    ensures p == if min <= Negated(n, negative) <= max then Good(Negated(n, negative)) else Range
  {
    if negative then
      if n > INT64_MAX + 1 then Range
      else
        var value := if n == INT64_MAX + 1 then INT64_MIN else Negated(n, true);
        if value < min || value > max then Range else Good(value)
    else if n > INT64_MAX || n < min || n > max then Range
    else Good(n)
  }

  /** What s stands for, with its sign. */
  function IntOf(s: string): Option<int> {
    if Unsigned(s) != [] && AllDigits(Unsigned(s), Decimal) then Some(Negated(Value(Unsigned(s), Decimal), IsNegative(s))) else None
  }

  /** ebisu_parse_int(): good exactly if s is an integer from min up to max, which it then gives. */
  method ParseInt(s: string, min: int, max: int) returns (p: Parsed<int>)
    requires IsInt64(min) && IsInt64(max)
    ensures p == if s == "" then Empty
                 else if IntOf(s).None? then Invalid
                 else if min <= IntOf(s).value <= max then Good(IntOf(s).value)
                 else Range
  {
    if |s| == 0 {
      return Empty;
    }
    var t := Unsigned(s);
    if HasSign(s) && |t| == 0 {
      return Invalid;
    }
    var d := ParseDigits(t, Decimal, INT64_MAX + 1);
    if !d.Good? {
      return match d case Range => Range case Invalid => Invalid case Empty => Empty;
    }
    p := SignedValue(d.value, IsNegative(s), min, max);
  }

  /** Integers are digits, with a sign before them or none. */
  lemma IntIsDigits(s: string)
    ensures IntOf(s).Some? <==> && s != "" && (forall i :: 1 <= i < |s| ==> '0' <= s[i] <= '9')
                                && if s[0] == '+' || s[0] == '-' then |s| > 1 else '0' <= s[0] <= '9'
  {
    var t := Unsigned(s);
    if s != [] && (s[0] == '+' || s[0] == '-') {
      assert forall i :: 0 <= i < |t| ==> t[i] == s[i + 1];
      assert forall i :: 1 <= i < |s| ==> s[i] == t[i - 1];
    }
  }

  /** '+' says nothing, and '-' the opposite. */
  lemma SignIs(t: string, decimals: nat, min: int, max: int)
    requires t != "" ==> t[0] != '+' && t[0] != '-'
    ensures IntOf(['+'] + t) == IntOf(t)
    ensures IntOf(['-'] + t) == match IntOf(t) case None => None case Some(v) => Some(-v)
    ensures t != "" ==> FixedOf(['+'] + t, decimals, min, max) == FixedOf(t, decimals, min, max)
    ensures t != "" ==> FixedOf(['-'] + t, decimals, -max, -min) == match FixedOf(t, decimals, min, max) case Good(v) => Good(-v) case p => p
  {
    hide Scaled, IsFixed, Value, AllDigits;
    HeadAndTail('+', t);
    HeadAndTail('-', t);
  }

  /** Numbers are digits, or digits on both sides of a point. */
  lemma FixedIsDigits(t: string)
    ensures IsFixed(t) <==> (t != "" && AreDecimals(t)) || exists p: nat :: 0 < p < |t| - 1 && t[p] == '.' && AreDecimals(t[..p]) && AreDecimals(t[p + 1..])
  {
    if IsFixed(t) {
      var p := PointOf(t);
      assert p == |t| ==> t[..p] == t;
    }
    if t != "" && AreDecimals(t) {
      PointIs(t, |t|);
      assert t[..|t|] == t;
    } else if p: nat :| 0 < p < |t| - 1 && t[p] == '.' && AreDecimals(t[..p]) && AreDecimals(t[p + 1..]) {
      assert forall i :: 0 <= i < p ==> t[i] == t[..p][i];
      PointIs(t, p);
    }
  }

  predicate AreDecimals(s: string) {
    forall i :: 0 <= i < |s| ==> '0' <= s[i] <= '9'
  }

  /** What was written of a number is read as it. */
  lemma IntRoundTrip(v: int)
    ensures IntOf(IntText(v)) == Some(v)
  {
    ValueOfText(Abs(v), Decimal);
    var text := Text(Abs(v), Decimal);
    var s := IntText(v);
    if v < 0 {
      HeadAndTail('-', text);
    } else {
      assert s == text;
    }
  }

  lemma HexRoundTrip(v: nat, min: nat)
    ensures AllDigits(HexText(v, min), Hex) && Value(HexText(v, min), Hex) == v && HexText(v, min) != ""
  {
    var n := if min > 16 then 16 else if min == 0 then 1 else min;
    ValueOfPadded(v, Hex, n);
  }

  // ---------- With decimals ----------

  /** Where the point is, or the end. */
  function PointOf(s: string): (p: nat)
    ensures p <= |s| && (p < |s| ==> s[p] == '.') && '.' !in s[..p]
  {
    if s == [] || s[0] == '.' then 0
    else
      var p := PointOf(s[1..]);
      assert s[..p + 1] == [s[0]] + s[1..][..p];
      p + 1
  }

  function Whole(t: string): string { t[..PointOf(t)] }

  function Fraction(t: string): string {
    if PointOf(t) < |t| then t[PointOf(t) + 1..] else []
  }

  /** Digits, and, if there is a point, digits after it. */
  predicate IsFixed(t: string) {
    && Whole(t) != [] && AllDigits(Whole(t), Decimal) && AllDigits(Fraction(t), Decimal)
    && (PointOf(t) < |t| ==> Fraction(t) != [])
  }

  /** What they stand for, scaled. */
  function Scaled(t: string, decimals: nat): nat
    requires IsFixed(t) && |Fraction(t)| <= decimals
  {
    Value(Whole(t), Decimal) * Pow10(decimals) + ScaledFraction(t, decimals)
  }

  function ScaledFraction(t: string, decimals: nat): nat
    requires AllDigits(Fraction(t), Decimal) && |Fraction(t)| <= decimals
  {
    Value(Fraction(t), Decimal) * Pow10(decimals - |Fraction(t)|)
  }

  /** What a number with a fixed number of decimals is to be parsed as. */
  function FixedOf(s: string, decimals: nat, min: int, max: int): Parsed<int> {
    var t := Unsigned(s);
    if s == "" then Empty
    else if !IsFixed(t) then Invalid
    else if decimals > MAX_DECIMALS then Range
    else if |Fraction(t)| > decimals then Invalid
    else
      var v := Negated(Scaled(t, decimals), IsNegative(s));
      if min <= v <= max then Good(v) else Range
  }

  /** ebisu_parse_fixed(): good exactly if s is a number with no more decimals than asked for, that comes
      to no less than min and no more than max. */
  method ParseFixed(s: string, decimals: nat, min: int, max: int) returns (p: Parsed<int>)
    requires IsInt64(min) && IsInt64(max)
    ensures p == FixedOf(s, decimals, min, max)
  {
    hide Value, Pow, IsFixed, Scaled, ScaledFraction;
    if |s| == 0 {
      return Empty;
    }
    var t := Unsigned(s);
    if HasSign(s) && |t| == 0 {
      NothingThere(t);
      return Invalid;
    }
    var good := IsNumber(t);
    if !good {
      return Invalid;
    }
    if decimals > MAX_DECIMALS {
      return Range;
    }
    if |Fraction(t)| > decimals {
      return Invalid;
    }
    var n := ParseScaled(t, decimals);
    if n.None? {
      return Range;
    }
    p := SignedValue(n.value, IsNegative(s), min, max);
  }

  lemma NothingThere(t: string)
    requires t == ""
    ensures !IsFixed(t)
  {
  }

  /** Whether t has digits on both sides of one point, or no point. */
  method IsNumber(t: string) returns (good: bool)
    ensures good <==> IsFixed(t)
  {
    var size := PointOf(t);
    var hasPoint := size < |t|;
    for i := 0 to |t|
      invariant forall k :: 0 <= k < i && k != size ==> Digit(t[k], Decimal) >= 0
    {
      if i != size && Digit(t[i], Decimal) < 0 {
        ghost var c := if i < size then Whole(t)[i] else Fraction(t)[i - size - 1];
        return false;
      }
    }
    good := size > 0 && !(hasPoint && |t| - size - 1 == 0);
  }

  /** What t stands for, scaled, if that is no more than the magnitude of INT64_MIN. No step of it is
      beyond 64 bits. */
  method ParseScaled(t: string, decimals: nat) returns (n: Option<nat>)
    requires IsFixed(t) && |Fraction(t)| <= decimals <= MAX_DECIMALS
    ensures n == if Scaled(t, decimals) <= INT64_MAX + 1 then Some(Scaled(t, decimals)) else None
  {
    hide Value, Pow, Quot, Rem;
    var limit: nat := INT64_MAX + 1;
    var scale := Pow10(decimals);
    PowersOfTen();
    FractionSmall(t, decimals);
    var max := Quot(limit, scale);
    IntegerPart(limit, scale);
    var w := ParseDigits(Whole(t), Decimal, max);
    TooMuch(Value(Whole(t), Decimal), limit, scale);
    if !w.Good? {
      return None;
    }
    var f := 0;
    if |Fraction(t)| > 0 {
      var d := ParseDigits(Fraction(t), Decimal, scale - 1);
      f := d.value * Pow10(decimals - |Fraction(t)|);
    }
    TooMuch(w.value, limit - f, scale);
    if w.value > Quot(limit - f, scale) {
      return None;
    }
    return Some(w.value * scale + f);
  }

  lemma TooMuch(w: nat, n: nat, p: nat)
    requires p > 0
    ensures w > Quot(n, p) <==> w * p > n
  {
    hide Quot, Rem;
    var q, r := Quot(n, p), Rem(n, p);
    if w > q {
      ProductInOrder(q + 1, w, p);
    } else {
      ProductInOrder(w, q, p);
    }
  }

  lemma ProductInOrder(a: nat, b: nat, p: nat)
    requires a <= b
    ensures a * p <= b * p
    ensures (a + 1) * p == a * p + p
  {
  }

  lemma {:induction false} PowAdd(a: nat, b: nat)
    ensures Pow10(a + b) == Pow10(a) * Pow10(b)
  {
    if a > 0 {
      PowAdd(a - 1, b);
    }
  }

  lemma FractionSmall(t: string, decimals: nat)
    requires IsFixed(t) && |Fraction(t)| <= decimals
    ensures ScaledFraction(t, decimals) < Pow10(decimals) && Value(Fraction(t), Decimal) < Pow10(decimals)
    ensures Fraction(t) == [] ==> ScaledFraction(t, decimals) == 0
  {
    var n := |Fraction(t)|;
    ValueBelowPow(Fraction(t), Decimal);
    PowAdd(n, decimals - n);
    Shifted(Value(Fraction(t), Decimal), Pow10(n), Pow10(decimals - n));
  }

  lemma Shifted(v: nat, p: nat, q: nat)
    requires v < p && q > 0
    ensures v * q < p * q && v < p * q
  {
  }

  /** What was written with decimals is read as it. */
  lemma FixedRoundTrip(v: int, decimals: nat, min: int, max: int)
    requires IsInt64(min) && IsInt64(max) && decimals <= MAX_DECIMALS && min <= v <= max
    ensures FixedOf(FixedText(v, decimals), decimals, min, max) == Good(v)
  {
    hide Value, Pow, Quot, Rem, Text, Padded, IsFixed, Scaled, FixedText, PointOf, Whole, Fraction;
    var n := Abs(v);
    if decimals == 0 {
      var text := Text(n, Decimal);
      ValueOfText(n, Decimal);
      SignOff(v, text);
      NoPoint(text);
      ScaledWhole(text);
      NoDecimals(v);
    } else {
      var scale := Pow10(decimals);
      var whole, fraction := Text(Quot(n, scale), Decimal), Padded(Rem(n, scale), Decimal, decimals);
      FixedIs(v, decimals);
      ValueOfText(Quot(n, scale), Decimal);
      ValueOfPadded(Rem(n, scale), Decimal, decimals);
      PaddedSize(Rem(n, scale), Decimal, decimals, decimals);
      SignOff(v, whole + ['.'] + fraction);
      PointBetween(whole, fraction);
      ScaledParts(whole, fraction, decimals);
    }
  }

  lemma NoDecimals(v: int)
    ensures FixedText(v, 0) == Sign(v) + Text(Abs(v), Decimal)
  {
  }

  lemma ScaledParts(whole: string, fraction: string, decimals: nat)
    requires |fraction| == decimals && AllDigits(whole, Decimal) && AllDigits(fraction, Decimal)
    requires var t := whole + ['.'] + fraction; IsFixed(t) && Whole(t) == whole && Fraction(t) == fraction
    ensures Scaled(whole + ['.'] + fraction, decimals) == Value(whole, Decimal) * Pow10(decimals) + Value(fraction, Decimal)
  {
    NoScale(Value(fraction, Decimal));
  }

  lemma NoScale(r: nat)
    ensures Pow10(0) == 1 && r * Pow10(0) == r
  {
  }

  /** The text without its sign. */
  lemma SignOff(v: int, text: string)
    requires text != [] && Digit(text[0], Decimal) >= 0
    ensures var s := Sign(v) + text; Unsigned(s) == text && IsNegative(s) == (v < 0) && s != ""
    ensures Negated(Abs(v), v < 0) == v
  {
    if v < 0 {
      HeadAndTail('-', text);
    } else {
      assert Sign(v) + text == text;
      assert text[0] != '-' && text[0] != '+';
    }
  }

  lemma PointIs(t: string, p: nat)
    requires p <= |t| && (forall i :: 0 <= i < p ==> t[i] != '.') && (p < |t| ==> t[p] == '.')
    ensures PointOf(t) == p
    decreases |t|
  {
    if p > 0 {
      PointIs(t[1..], p - 1);
    }
  }

  lemma NoPoint(text: string)
    requires text != [] && AllDigits(text, Decimal)
    ensures PointOf(text) == |text| && Whole(text) == text && Fraction(text) == [] && IsFixed(text)
  {
    assert forall i :: 0 <= i < |text| ==> Digit(text[i], Decimal) >= 0;
    PointIs(text, |text|);
  }

  lemma ScaledWhole(text: string)
    requires text != [] && AllDigits(text, Decimal) && IsFixed(text) && Whole(text) == text && Fraction(text) == []
    ensures Scaled(text, 0) == Value(text, Decimal)
  {
    NoScale(Value(text, Decimal));
    assert Value([], Decimal) == 0;
  }

  lemma PointBetween(whole: string, fraction: string)
    requires whole != [] && fraction != [] && AllDigits(whole, Decimal) && AllDigits(fraction, Decimal)
    ensures var t := whole + ['.'] + fraction; IsFixed(t) && Whole(t) == whole && Fraction(t) == fraction
  {
    var t := whole + ['.'] + fraction;
    assert forall i :: 0 <= i < |whole| ==> t[i] == whole[i];
    PointIs(t, |whole|);
  }
}
