/** Building strings in a buffer, and parsing numbers of 64 bits: decimal, hex, and with a fixed number
    of decimals. */
module StringBuilder {
  import opened Numerals
  import opened Options
  import opened Sequences

  const NUL := 0 as char
  const INT64_MIN: int := -0x8000_0000_0000_0000
  const INT64_MAX: int := 0x7FFF_FFFF_FFFF_FFFF
  const UINT64_MAX: nat := 0xFFFF_FFFF_FFFF_FFFF
  const MAX_DECIMALS: nat := 18

  // ---------- The texts of numbers ----------

  /** v's digits, at least min of them, and none of 0 if that is. */
  function Padded(v: nat, r: Radix, min: nat): string
    decreases v, min
  {
    if v == 0 && min == 0 then [] else Padded(r.Rest(v), r, Less(min)) + [DigitChar(r.Last(v))]
  }

  function Less(n: nat): nat {
    if n == 0 then 0 else n - 1
  }

  lemma {:induction false} PaddedIsText(v: nat, r: Radix)
    ensures Padded(v, r, 1) == Text(v, r) && (v > 0 ==> Padded(v, r, 0) == Text(v, r))
  {
    if v >= r.Size() {
      PaddedIsText(r.Rest(v), r);
    } else {
      assert r.Rest(v) == 0 && Padded(0, r, 0) == [] && [] + [DigitChar(v)] == [DigitChar(v)];
    }
  }

  /** Leading zeros change nothing. */
  lemma {:induction false} ValueOfPadded(v: nat, r: Radix, min: nat)
    ensures AllDigits(Padded(v, r, min), r) && Value(Padded(v, r, min), r) == v
    decreases v, min
  {
    if v > 0 || min > 0 {
      ValueOfPadded(r.Rest(v), r, Less(min));
      ValueOfAppend(Padded(r.Rest(v), r, Less(min)), DigitChar(r.Last(v)), r);
    }
  }

  /** A number below a power takes no more digits than that, unless more are asked for. */
  lemma {:induction false} PaddedSize(v: nat, r: Radix, min: nat, n: nat)
    requires v < Pow(r, n)
    ensures min <= |Padded(v, r, min)| <= if min < n then n else min
    decreases v, min
  {
    if v > 0 || min > 0 {
      assert n > 0 || v == 0;
      PaddedSize(r.Rest(v), r, Less(min), Less(n));
    }
  }

  function Abs(v: int): nat {
    if v < 0 then -v else v
  }

  function Sign(v: int): string {
    if v < 0 then ['-'] else []
  }

  function IntText(v: int): string {
    Sign(v) + Text(Abs(v), Decimal)
  }

  function Pow10(k: nat): nat {
    Pow(Decimal, k)
  }

  function Quot(n: nat, p: nat): (q: nat)
    requires p > 0
  {
    n / p
  }

  function Rem(n: nat, p: nat): (r: nat)
    requires p > 0
    ensures r < p && n == Quot(n, p) * p + r
  {
    n % p
  }

  /** A number scaled by a power of ten, with its point. */
  function FixedText(v: int, decimals: nat): string {
    if decimals == 0 then IntText(v)
    else Sign(v) + Text(Quot(Abs(v), Pow10(decimals)), Decimal) + ['.'] + Padded(Rem(Abs(v), Pow10(decimals)), Decimal, decimals)
  }

  lemma PowersOfTen()
    ensures Pow10(0) == 1 && Pow10(1) == 10 && Pow10(18) == 1000000000000000000 && Pow10(19) == 10000000000000000000
    ensures Pow10(20) == 100000000000000000000 && Pow(Hex, 16) == UINT64_MAX + 1
    ensures forall k :: 0 <= k < 19 ==> Pow10(k) <= Pow10(18)
  {
    var p, h := 1, 1;
    for k := 0 to 20
      invariant p == Pow10(k)
      invariant p == [1, 10, 100, 1000, 10000, 100000, 1000000, 10000000, 100000000, 1000000000, 10000000000, 100000000000,
                      1000000000000, 10000000000000, 100000000000000, 1000000000000000, 10000000000000000, 100000000000000000,
                      1000000000000000000, 10000000000000000000, 100000000000000000000][k]
      invariant forall i :: 0 <= i <= k && i < 19 ==> Pow10(i) <= 1000000000000000000
      invariant k >= 1 ==> Pow10(1) == 10
      invariant k >= 18 ==> Pow10(18) == 1000000000000000000
      invariant k >= 19 ==> Pow10(19) == 10000000000000000000
    {
      p := p * 10;
    }
    for k := 0 to 16
      invariant h == Pow(Hex, k)
      invariant h == [1, 0x10, 0x100, 0x1000, 0x1_0000, 0x10_0000, 0x100_0000, 0x1000_0000, 0x1_0000_0000, 0x10_0000_0000, 0x100_0000_0000,
                      0x1000_0000_0000, 0x1_0000_0000_0000, 0x10_0000_0000_0000, 0x100_0000_0000_0000, 0x1000_0000_0000_0000,
                      0x1_0000_0000_0000_0000][k]
    {
      h := h * 16;
    }
  }

  // ---------- Building ----------

  /** _udigits(): v's digits, at least min of them, so that they end before end. */
  method WriteDigits(buff: array<char>, end: nat, v: nat, r: Radix, min: nat) returns (p: nat)
    requires end <= buff.Length && min >= 1 && |Padded(v, r, min)| <= end
    modifies buff
    ensures p == end - |Padded(v, r, min)| && buff[p..end] == Padded(v, r, min)
    ensures forall k :: (0 <= k < p || end <= k < buff.Length) ==> buff[k] == old(buff[k])
  {
    hide Padded;
    ghost var text := Padded(v, r, min);
    var left: nat, written := v, 0;
    p := end;
    while left > 0 || written < min
      invariant written == end - p && p >= 0
      invariant text == Padded(left, r, MinLeft(min, written)) + buff[p..end]
      invariant forall k :: (0 <= k < p || end <= k < buff.Length) ==> buff[k] == old(buff[k])
      decreases left, MinLeft(min, written)
    {
      ghost var done := buff[p..end];
      OneDigit(left, r, MinLeft(min, written), done);
      p := p - 1;
      buff[p] := DigitChar(r.Last(left));
      assert buff[p..end] == [buff[p]] + done;
      left, written := r.Rest(left), written + 1;
    }
    NoDigits(r);
    assert [] + buff[p..end] == buff[p..end];
  }

  /** How many digits are still asked for. */
  function MinLeft(min: nat, written: nat): nat {
    if written < min then min - written else 0
  }

  lemma NoDigits(r: Radix)
    ensures Padded(0, r, 0) == []
  {
  }

  lemma OneDigit(v: nat, r: Radix, min: nat, done: string)
    requires v > 0 || min > 0
    ensures Padded(v, r, min) + done == Padded(r.Rest(v), r, Less(min)) + ([DigitChar(r.Last(v))] + done)
    ensures |Padded(v, r, min)| > 0
  {
    Assoc(Padded(r.Rest(v), r, Less(min)), [DigitChar(r.Last(v))], done);
  }

  class StrBuf {
    const buff: array<char>
    var len: nat
    var overflow: bool

    constructor (buff: array<char>)
      modifies buff
      ensures this.buff == buff && Valid() && Contents() == "" && !overflow
    {
      this.buff := buff;
      len, overflow := 0, false;
      new;
      if buff.Length > 0 {
        buff[0] := NUL;
      }
    }

    /** Terminated, if there is room for that at all. */
    ghost predicate Valid()
      reads this, buff
    {
      if buff.Length > 0 then len < buff.Length && buff[len] == NUL else len == 0
    }

    ghost function Contents(): string
      requires Valid()
      reads this, buff
    {
      buff[..len]
    }

    /** What appending s comes to: all of it, or, if it doesn't fit with its terminator, none of it and
        nothing after it. */
    ghost predicate Appended(s: string, was: string, overflowed: bool)
      requires Valid()
      reads this, buff
    {
      if overflowed || (s != "" && |was| + |s| + 1 > buff.Length) then overflow && Contents() == was
      else !overflow && Contents() == was + s
    }

    /** ebisu_strbuf_append_n() */
    method Append(s: string)
      requires Valid()
      modifies this, buff
      ensures Valid() && Appended(s, old(Contents()), old(overflow))
    {
      if overflow || |s| == 0 {
        return;
      }
      if buff.Length == 0 || |s| > buff.Length - len - 1 {
        overflow := true;
        return;
      }
      ghost var was := buff[..len];
      forall k | 0 <= k < |s| {
        buff[len + k] := s[k];
      }
      len := len + |s|;
      buff[len] := NUL;
      assert buff[..len] == was + s;
    }

    /** ebisu_strbuf_append_uint() */
    method AppendUint(v: nat)
      requires Valid() && v <= UINT64_MAX
      modifies this, buff
      ensures Valid() && Appended(Text(v, Decimal), old(Contents()), old(overflow))
    {
      hide Padded, Text, Pow;
      var digits := new char[20];
      PowersOfTen();
      PaddedSize(v, Decimal, 1, 20);
      PaddedIsText(v, Decimal);
      var p := WriteDigits(digits, 20, v, Decimal, 1);
      Append(digits[p..]);
    }

    /** ebisu_strbuf_append_int(), INT64_MIN included. */
    method AppendInt(v: int)
      requires Valid() && INT64_MIN <= v <= INT64_MAX
      modifies this, buff
      ensures Valid() && Appended(IntText(v), old(Contents()), old(overflow))
    {
      hide Padded, Text, Pow;
      var digits := new char[21];
      PowersOfTen();
      PaddedSize(Abs(v), Decimal, 1, 19);
      PaddedIsText(Abs(v), Decimal);
      var p := WriteDigits(digits, 21, Abs(v), Decimal, 1);
      ghost var text := digits[p..];
      if v < 0 {
        p := p - 1;
        digits[p] := '-';
        assert digits[p..] == ['-'] + text;
      }
      Append(digits[p..]);
    }

    /** ebisu_strbuf_append_hex(): at least one digit, and no more than 16. */
    method AppendHex(v: nat, min: nat)
      requires Valid() && v <= UINT64_MAX
      modifies this, buff
      ensures Valid() && Appended(HexText(v, min), old(Contents()), old(overflow))
    {
      hide Padded, Text, Pow;
      var digits := new char[16];
      var n := if min > 16 then 16 else if min == 0 then 1 else min;
      PowersOfTen();
      PaddedSize(v, Hex, n, 16);
      var p := WriteDigits(digits, 16, v, Hex, n);
      Append(digits[p..]);
    }

    /** ebisu_strbuf_append_fixed() */
    method AppendFixed(v: int, decimals: nat)
      requires Valid() && INT64_MIN <= v <= INT64_MAX
      modifies this, buff
      ensures Valid()
      ensures if decimals > MAX_DECIMALS then overflow && Contents() == old(Contents())
              else Appended(FixedText(v, decimals), old(Contents()), old(overflow))
    {
      hide Padded, Text, Quot, Rem;
      if decimals > MAX_DECIMALS {
        overflow := true;
        return;
      }
      if decimals == 0 {
        AppendInt(v);
        return;
      }
      // The sign, 19 digits at most, the point and the decimals.
      var digits := new char[39];
      var p := WriteFixed(digits, Abs(v), decimals);
      ghost var text := digits[p..];
      if v < 0 {
        p := p - 1;
        digits[p] := '-';
        assert digits[p..] == ['-'] + text;
      }
      FixedIs(v, decimals);
      Append(digits[p..]);
    }
  }

  /** A magnitude with its point, at the end of buff, with room for a sign before it. */
  method WriteFixed(digits: array<char>, n: nat, decimals: nat) returns (p: nat)
    requires digits.Length == 39 && 1 <= decimals <= MAX_DECIMALS && n <= INT64_MAX + 1
    modifies digits
    ensures 0 < p <= digits.Length && digits[p..] == FixedText(n, decimals)
  {
    hide Padded, Text, Quot, Rem, Pow;
    PowersOfTen();
    var scale := Pow10(decimals);
    IntegerPart(n, scale);
    PaddedSize(Rem(n, scale), Decimal, decimals, decimals);
    PaddedSize(Quot(n, scale), Decimal, 1, 19);
    PaddedIsText(Quot(n, scale), Decimal);
    var point := WriteDigits(digits, 39, Rem(n, scale), Decimal, decimals);
    point := point - 1;
    ghost var fraction := digits[point + 1..39];
    digits[point] := '.';
    assert digits[point + 1..39] == fraction;
    p := WriteDigits(digits, point, Quot(n, scale), Decimal, 1);
    assert digits[p..] == digits[p..point] + [digits[point]] + digits[point + 1..39];
    assert digits[point + 1..39] == fraction;
    FixedIs(n, decimals);
    assert Sign(n) + digits[p..] == digits[p..];
  }

  lemma FixedIs(v: int, decimals: nat)
    requires decimals > 0
    ensures FixedText(v, decimals) ==
            Sign(v) + (Text(Quot(Abs(v), Pow10(decimals)), Decimal) + ['.'] + Padded(Rem(Abs(v), Pow10(decimals)), Decimal, decimals))
    ensures FixedText(v, decimals) == Sign(v) + FixedText(Abs(v), decimals)
  {
    hide Padded, Text, Quot, Rem, Pow;
  }

  function HexText(v: nat, min: nat): string {
    Padded(v, Hex, if min > 16 then 16 else if min == 0 then 1 else min)
  }

  lemma IntegerPart(n: nat, p: nat)
    requires p > 0
    ensures Quot(n, p) <= n
  {
    hide Quot, Rem;
    var r := Rem(n, p);
  }
}
