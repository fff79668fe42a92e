/** UTF-8 as RFC 3629 has it: the bytes of a code point, and which bytes are those of text. */
module Utf8 {

  type Byte = b: int | 0 <= b < 256

  /** A code point other than a surrogate. */
  predicate IsScalar(cp: nat) {
    cp <= 0x10FFFF && !(0xD800 <= cp <= 0xDFFF)
  }

  type Scalar = cp: nat | IsScalar(cp)

  /** _jkii_utf8(): the bytes of a code point, as few as it takes. */
  function Encode(cp: nat): (s: seq<Byte>)
    requires cp <= 0x10FFFF
    ensures 1 <= |s| <= 4
  {
    if cp < 0x80 then [cp]
    else if cp < 0x800 then [0xC0 + cp / 0x40, 0x80 + cp % 0x40]
    else if cp < 0x10000 then [0xE0 + cp / 0x1000, 0x80 + cp / 0x40 % 0x40, 0x80 + cp % 0x40]
    else [0xF0 + cp / 0x40000, 0x80 + cp / 0x1000 % 0x40, 0x80 + cp / 0x40 % 0x40, 0x80 + cp % 0x40]
  }

  function EncodeAll(cps: seq<Scalar>): seq<Byte> {
    if cps == [] then [] else Encode(cps[0]) + EncodeAll(cps[1..])
  }

  /** Code points MQTT 3.1.1 allows in the topic of a PUBLISH: not U+0000, nor the wildcards. */
  predicate InTopic(cp: nat) {
    IsScalar(cp) && cp != 0 && cp != '+' as int && cp != '#' as int
  }

  ghost predicate IsTopicText(s: seq<Byte>) {
    exists cps: seq<Scalar> :: AllInTopic(cps) && EncodeAll(cps) == s
  }

  predicate AllInTopic(cps: seq<Scalar>) {
    forall i :: 0 <= i < |cps| ==> InTopic(cps[i])
  }

  // ---------- Decoding ----------

  /** How many bytes a first byte says there are, or 0 for one that can't be first. */
  function LengthOf(c: Byte): (n: nat)
    ensures n <= 4
  {
    if c < 0x80 then 1 else if 0xC0 <= c < 0xE0 then 2 else if 0xE0 <= c < 0xF0 then 3 else if 0xF0 <= c < 0xF8 then 4 else 0
  }

  /** The bits of a first byte that are the code point's. */
  function FirstBits(c: Byte): nat {
    if c < 0x80 then c else if c < 0xE0 then c % 0x20 else if c < 0xF0 then c % 0x10 else c % 8
  }

  /** The least code point that takes n bytes. */
  function Least(n: nat): nat {
    if n <= 1 then 0 else if n == 2 then 0x80 else if n == 3 then 0x800 else 0x10000
  }

  predicate IsNext(c: Byte) {
    c / 0x40 == 2
  }

  /** The code point of n bytes, by their bits. */
  function Bits(s: seq<Byte>, n: nat): nat
    requires 1 <= n <= |s|
  {
    if n == 1 then FirstBits(s[0]) else Bits(s, n - 1) * 0x40 + s[n - 1] % 0x40
  }

  /** s starts with a code point written as UTF-8 has it. */
  predicate StartsWithPoint(s: seq<Byte>) {
    && s != []
    && var n := LengthOf(s[0]);
       && n > 0 && n <= |s|
       && (forall k :: 1 <= k < n ==> IsNext(s[k]))
       && Least(n) <= Bits(s, n) && IsScalar(Bits(s, n))
  }

  /** The six bits each byte after the first adds. */
  lemma Added(high: nat, c: Byte)
    requires IsNext(c)
    ensures c == 0x80 + c % 0x40
    ensures (high * 0x40 + c % 0x40) / 0x40 == high && (high * 0x40 + c % 0x40) % 0x40 == c % 0x40
  {
  }

  lemma BitsOf(s: seq<Byte>)
    ensures |s| >= 1 ==> Bits(s, 1) == FirstBits(s[0])
    ensures |s| >= 2 ==> Bits(s, 2) == FirstBits(s[0]) * 0x40 + s[1] % 0x40
    ensures |s| >= 3 ==> Bits(s, 3) == Bits(s, 2) * 0x40 + s[2] % 0x40
    ensures |s| >= 4 ==> Bits(s, 4) == Bits(s, 3) * 0x40 + s[3] % 0x40
  {
  }

  lemma TwoByteForm(a: Byte, b: Byte)
    requires 0xC0 <= a < 0xE0 && IsNext(b)
    ensures var cp := a % 0x20 * 0x40 + b % 0x40; cp < 0x800 && (cp >= 0x80 ==> Encode(cp) == [a, b])
  {
    Added(a % 0x20, b);
  }

  lemma ThreeByteForm(a: Byte, b: Byte, c: Byte)
    requires 0xE0 <= a < 0xF0 && IsNext(b) && IsNext(c)
    ensures var cp := (a % 0x10 * 0x40 + b % 0x40) * 0x40 + c % 0x40; cp < 0x10000 && (cp >= 0x800 ==> Encode(cp) == [a, b, c])
  {
    Added(a % 0x10, b);
    Added(a % 0x10 * 0x40 + b % 0x40, c);
    var cp := (a % 0x10 * 0x40 + b % 0x40) * 0x40 + c % 0x40;
    assert cp / 0x1000 == cp / 0x40 / 0x40;
  }

  lemma FourByteForm(a: Byte, b: Byte, c: Byte, d: Byte)
    requires 0xF0 <= a < 0xF8 && IsNext(b) && IsNext(c) && IsNext(d)
    ensures var cp := ((a % 8 * 0x40 + b % 0x40) * 0x40 + c % 0x40) * 0x40 + d % 0x40;
            0x10000 <= cp <= 0x10FFFF ==> Encode(cp) == [a, b, c, d]
  {
    Added(a % 8, b);
    Added(a % 8 * 0x40 + b % 0x40, c);
    Added((a % 8 * 0x40 + b % 0x40) * 0x40 + c % 0x40, d);
    var cp := ((a % 8 * 0x40 + b % 0x40) * 0x40 + c % 0x40) * 0x40 + d % 0x40;
    assert cp / 0x1000 == cp / 0x40 / 0x40 && cp / 0x40000 == cp / 0x40 / 0x40 / 0x40;
  }

  lemma PointIsEncoded(s: seq<Byte>)
    requires StartsWithPoint(s)
    ensures var n := LengthOf(s[0]); s[..n] == Encode(Bits(s, n))
  {
    hide Bits, Encode;
    var n := LengthOf(s[0]);
    BitsOf(s);
    if n == 1 {
      OneByte(s[0]);
    } else if n == 2 {
      TwoByteForm(s[0], s[1]);
    } else if n == 3 {
      ThreeByteForm(s[0], s[1], s[2]);
    } else {
      FourByteForm(s[0], s[1], s[2], s[3]);
    }
  }

  lemma OneByte(a: Byte)
    requires a < 0x80
    ensures Encode(a) == [a]
  {
  }

  /** The bytes of a code point, by how many there are. */
  lemma EncodedBytes(cp: nat)
    requires IsScalar(cp)
    ensures var e := Encode(cp);
            && (|e| == 1 ==> e[0] < 0x80 && e[0] == cp)
            && (|e| == 2 ==> 0xC0 <= e[0] < 0xE0 && IsNext(e[1]) && FirstBits(e[0]) * 0x40 + e[1] % 0x40 == cp >= 0x80)
            && (|e| == 3 ==> 0xE0 <= e[0] < 0xF0 && IsNext(e[1]) && IsNext(e[2]) &&
                             (FirstBits(e[0]) * 0x40 + e[1] % 0x40) * 0x40 + e[2] % 0x40 == cp >= 0x800)
            && (|e| == 4 ==> 0xF0 <= e[0] < 0xF8 && IsNext(e[1]) && IsNext(e[2]) && IsNext(e[3]) &&
                             ((FirstBits(e[0]) * 0x40 + e[1] % 0x40) * 0x40 + e[2] % 0x40) * 0x40 + e[3] % 0x40 == cp >= 0x10000)
  {
    assert cp / 0x1000 == cp / 0x40 / 0x40 && cp / 0x40000 == cp / 0x40 / 0x40 / 0x40;
  }

  lemma EncodedIsPoint(cp: nat, rest: seq<Byte>)
    requires IsScalar(cp)
    ensures var s := Encode(cp) + rest;
            StartsWithPoint(s) && LengthOf(s[0]) == |Encode(cp)| && Bits(s, |Encode(cp)|) == cp
  {
    hide Bits, Encode;
    var e := Encode(cp);
    var s := e + rest;
    BitsOf(s);
    EncodedBytes(cp);
    assert forall k | 0 <= k < |e| :: s[k] == e[k];
  }

  /** What a code point a topic may have is written as is text of a topic. */
  lemma EncodedIsTopic(cp: Scalar)
    requires InTopic(cp)
    ensures IsTopicText(Encode(cp))
  {
    hide Encode;
    var cps: seq<Scalar> := [cp];
    assert cps[1..] == [] && Encode(cp) + [] == Encode(cp);
    assert AllInTopic(cps) && EncodeAll(cps) == Encode(cp);
  }

  predicate StartsInTopic(s: seq<Byte>) {
    && s != [] && 0 < LengthOf(s[0]) <= |s|
    && StartsWithPoint(s) && InTopic(Bits(s, LengthOf(s[0])))
  }

  lemma TopicTextStarts(s: seq<Byte>, cps: seq<Scalar>)
    requires s != [] && AllInTopic(cps) && EncodeAll(cps) == s
    ensures StartsInTopic(s) && IsTopicText(s[LengthOf(s[0])..])
  {
    hide StartsWithPoint, Bits, Encode, LengthOf;
    var rest := EncodeAll(cps[1..]);
    EncodedIsPoint(cps[0], rest);
    assert InTopic(cps[0]);
    assert AllInTopic(cps[1..]) && rest == s[|Encode(cps[0])|..];
  }

  lemma TopicTextGoesOn(s: seq<Byte>, cps: seq<Scalar>)
    requires StartsInTopic(s) && AllInTopic(cps) && EncodeAll(cps) == s[LengthOf(s[0])..]
    ensures IsTopicText(s)
  {
    var n := LengthOf(s[0]);
    PointIsEncoded(s);
    hide StartsWithPoint, Bits, Encode, LengthOf;
    var cp: Scalar := Bits(s, n);
    var all := [cp] + cps;
    assert all[1..] == cps;
    assert s == s[..n] + s[n..];
    assert AllInTopic(all) && EncodeAll(all) == s;
  }

  /** The text of a topic, point by point. */
  predicate IsTopic(s: seq<Byte>) {
    s == [] || (StartsInTopic(s) && IsTopic(s[LengthOf(s[0])..]))
  }

  lemma {:induction false} IsTopicExactly(s: seq<Byte>)
    ensures IsTopic(s) <==> IsTopicText(s)
  {
    hide StartsWithPoint, Bits, InTopic, IsTopicText;
    TopicTextStep(s);
    if StartsInTopic(s) {
      IsTopicExactly(s[LengthOf(s[0])..]);
    }
  }

  /** Text is its first code point and the rest of it. */
  lemma TopicTextStep(s: seq<Byte>)
    ensures IsTopicText([])
    ensures s != [] ==> (IsTopicText(s) <==> StartsInTopic(s) && IsTopicText(s[LengthOf(s[0])..]))
  {
    hide StartsWithPoint, Bits;
    assert AllInTopic([]) && EncodeAll([]) == [];
    if s != [] {
      if IsTopicText(s) {
        var cps: seq<Scalar> :| AllInTopic(cps) && EncodeAll(cps) == s;
        TopicTextStarts(s, cps);
      } else if StartsInTopic(s) && IsTopicText(s[LengthOf(s[0])..]) {
        var cps: seq<Scalar> :| AllInTopic(cps) && EncodeAll(cps) == s[LengthOf(s[0])..];
        TopicTextGoesOn(s, cps);
      }
    }
  }

  /** _is_publish_topic() */
  method IsPublishTopic(topic: seq<Byte>) returns (ok: bool)
    ensures ok <==> topic != [] && IsTopicText(topic)
  {
    if |topic| == 0 {
      return false;
    }
    var i := 0;
    while i < |topic|
      invariant i <= |topic|
      invariant IsTopicText(topic) <==> IsTopicText(topic[i..])
    {
      var c := topic[i];
      ghost var s := topic[i..];
      TopicTextStep(s);
      if c == 0 || c == '+' as int || c == '#' as int {
        return false;
      }
      if c < 0x80 {
        assert topic[i..][1..] == topic[i + 1..];
        i := i + 1;
        continue;
      }
      var len, cp, least := Lead(c);
      if len == 0 || |topic| - i < len {
        return false;
      }
      var ok', point := Rest(topic[i..i + len], cp);
      assert s[..len] == topic[i..i + len];
      BitsOfPrefix(s, len);
      if !ok' || point < least || 0xD800 <= point <= 0xDFFF || point > 0x10FFFF {
        return false;
      }
      assert topic[i..][len..] == topic[i + len..];
      i := i + len;
    }
    assert topic[i..] == [];
    TopicTextStep([]);
    return true;
  }

  lemma BitsOfPrefix(s: seq<Byte>, n: nat)
    requires 1 <= n <= |s|
    ensures Bits(s[..n], n) == Bits(s, n)
  {
    BitsOfSame(s[..n], s, n);
  }

  lemma {:induction false} BitsOfSame(s: seq<Byte>, t: seq<Byte>, n: nat)
    requires 1 <= n <= |s| && n <= |t| && forall k :: 0 <= k < n ==> s[k] == t[k]
    ensures Bits(s, n) == Bits(t, n)
  {
    if n > 1 {
      BitsOfSame(s, t, n - 1);
    }
  }

  /** What the first byte of a longer point says. */
  method Lead(c: Byte) returns (len: nat, cp: nat, least: nat)
    requires c >= 0x80
    ensures len == LengthOf(c) && (len > 0 ==> cp == FirstBits(c) && least == Least(len) && len >= 2)
  {
    if c / 0x20 == 6 {
      return 2, c % 0x20, 0x80;
    } else if c / 0x10 == 14 {
      return 3, c % 0x10, 0x800;
    } else if c / 8 == 30 {
      return 4, c % 8, 0x10000;
    }
    return 0, 0, 0;
  }

  method Rest(s: seq<Byte>, first: nat) returns (ok: bool, cp: nat)
    requires |s| >= 1 && first == FirstBits(s[0])
    ensures ok <==> forall k :: 1 <= k < |s| ==> IsNext(s[k])
    ensures ok ==> cp == Bits(s, |s|)
  {
    cp := first;
    for j := 1 to |s|
      invariant forall k :: 1 <= k < j ==> IsNext(s[k])
      invariant cp == Bits(s, j)
    {
      if s[j] / 0x40 != 2 {
        return false, 0;
      }
      cp := cp * 0x40 + s[j] % 0x40;
    }
    return true, cp;
  }
}
