/** The characters of JSON strings (RFC 8259, section 7): bytes written escaped, and what is read of
    them. Each char is a byte. */
module JsonText {
  import opened Numerals
  import opened Options
  import opened Sequences
  import Utf8

  const NUL := 0 as char
  const INT_MAX: nat := 0x7FFF_FFFF

  // ---------- Escaping ----------

  /** The letter of a byte that has a short escape. */
  function Letter(c: char): Option<char> {
    if c == '"' || c == '/' || c == '\\' then Some(c)
    else if c == 8 as char then Some('b')
    else if c == 12 as char then Some('f')
    else if c == '\n' then Some('n')
    else if c == '\r' then Some('r')
    else if c == '\t' then Some('t')
    else None
  }

  /** Seven bytes and the slash take two, the other control characters six, and all else is itself. */
  lemma EscapesAre(c: char)
    ensures |EscapeChar(c)| == 2 <==> c as int in {8, 9, 10, 12, 13, 34, 47, 92}
    ensures |EscapeChar(c)| == 6 <==> c as int < 32 && c as int !in {8, 9, 10, 12, 13}
    ensures |EscapeChar(c)| == 1 <==> c as int >= 32 && c as int !in {34, 47, 92}
    ensures |EscapeChar(c)| == 1 ==> EscapeChar(c) == [c]
    ensures |EscapeChar(c)| == 2 ==> EscapeChar(c) in ["\\b", "\\t", "\\n", "\\f", "\\r", "\\\"", "\\/", "\\\\"]
    ensures |EscapeChar(c)| == 6 ==> EscapeChar(c)[..4] == "\\u00" && EscapeChar(c)[4] == "01"[c as int / 16]
                                     && EscapeChar(c)[5] == "0123456789abcdef"[c as int % 16]
  {
  }

  function EscapeChar(c: char): (s: string)
    ensures 1 <= |s| <= 6
  {
    if Letter(c).Some? then ['\\', Letter(c).value]
    else if c < ' ' then ['\\', 'u', '0', '0', DigitChar(c as int / 16), DigitChar(c as int % 16)]
    else [c]
  }

  function Escape(s: string): string {
    if s == [] then [] else Escape(s[..|s| - 1]) + EscapeChar(s[|s| - 1])
  }

  lemma EscapeMore(s: string, c: char)
    ensures Escape(s + [c]) == Escape(s) + EscapeChar(c)
  {
    InitAndLast(s, c);
  }

  lemma {:induction false} EscapeAppend(s: string, t: string)
    ensures Escape(s + t) == Escape(s) + Escape(t)
  {
    hide EscapeChar;
    if t == [] {
      assert s + t == s;
    } else {
      var u, c := t[..|t| - 1], t[|t| - 1];
      EscapeAppend(s, u);
      assert s + t == (s + u) + [c];
      EscapeMore(s + u, c);
      Assoc(Escape(s), Escape(u), EscapeChar(c));
    }
  }

  lemma EscapeSize(s: string, n: nat)
    requires n <= |s|
    ensures |s| - n <= |Escape(s)| - |Escape(s[..n])|
    decreases |s| - n
  {
    hide EscapeChar;
    if n < |s| {
      EscapeSize(s, n + 1);
      assert s[..n + 1] == s[..n] + [s[n]];
      EscapeMore(s[..n], s[n]);
    } else {
      assert s[..n] == s;
    }
  }

  /** jkii_escape_str(): fails exactly if the escaped string and its terminator don't fit. */
  method EscapeStr(str: string, buff: array<char>) returns (size: int)
    modifies buff
    ensures size >= 0 <==> |Escape(str)| + 1 <= buff.Length
    ensures size >= 0 ==> size == |Escape(str)| && buff[..size] == Escape(str) && buff[size] == NUL
    ensures size < 0 ==> size == -1 && (buff.Length > 0 ==> buff[0] == NUL)
  {
    hide EscapeChar;
    EscapeSize(str, 0);
    if buff.Length < |str| + 1 {
      FailEscape(buff);
      return -1;
    }
    var pos := 0;
    for i := 0 to |str|
      invariant pos == |Escape(str[..i])| < buff.Length && buff[..pos] == Escape(str[..i])
    {
      var c := str[i];
      assert str[..i + 1] == str[..i] + [c];
      EscapeMore(str[..i], c);
      EscapeSize(str, i + 1);
      EscapeCharSize(c);
      var size := if Letter(c).Some? then 2 else if c < ' ' then 6 else 1;
      if buff.Length - pos < size + 1 {
        FailEscape(buff);
        return -1;
      }
      PutEscape(buff, pos, c);
      pos := pos + size;
    }
    assert str[..|str|] == str;
    buff[pos] := NUL;
    return pos;
  }

  lemma EscapeCharSize(c: char)
    ensures |EscapeChar(c)| == if Letter(c).Some? then 2 else if c < ' ' then 6 else 1
  {
  }

  /** Writes a byte escaped after the first pos. */
  method PutEscape(buff: array<char>, pos: nat, c: char)
    requires pos + |EscapeChar(c)| < buff.Length
    modifies buff
    ensures buff[..pos + |EscapeChar(c)|] == old(buff[..pos]) + EscapeChar(c)
  {
    var letter := Letter(c);
    if letter.Some? {
      buff[pos], buff[pos + 1] := '\\', letter.value;
    } else if c < ' ' {
      buff[pos], buff[pos + 1], buff[pos + 2], buff[pos + 3] := '\\', 'u', '0', '0';
      buff[pos + 4], buff[pos + 5] := DigitChar(c as int / 16), DigitChar(c as int % 16);
    } else {
      buff[pos] := c;
    }
  }

  /** _jkii_escape_fail(): a caller that doesn't look at the result still finds a string. */
  method FailEscape(buff: array<char>)
    modifies buff
    ensures buff.Length > 0 ==> buff[0] == NUL
  {
    if buff.Length > 0 {
      buff[0] := NUL;
    }
  }

  // ---------- What a string's characters are ----------

  /** A character as a string may write it: a byte as it is, a short escape, a code unit of four hex
      digits, or a surrogate pair. */
  datatype Item = Plain(c: char) | Short(letter: char) | Unit(digits: string) | Pair(high: string, low: string)

  predicate IsPlain(c: char) {
    c >= ' ' && c != '"' && c != '\\'
  }

  /** The byte a short escape's letter stands for. */
  function OfLetter(letter: char): Option<char> {
    if letter == '"' || letter == '/' || letter == '\\' then Some(letter)
    else if letter == 'b' then Some(8 as char)
    else if letter == 'f' then Some(12 as char)
    else if letter == 'n' then Some('\n')
    else if letter == 'r' then Some('\r')
    else if letter == 't' then Some('\t')
    else None
  }

  predicate IsFourHex(s: string) {
    |s| == 4 && AllDigits(s, Hex)
  }

  /** What four hex digits stand for. */
  function UnitOf(s: string): (u: nat)
    requires IsFourHex(s)
    ensures u < 0x10000
  {
    ((Digit(s[0], Hex) * 16 + Digit(s[1], Hex)) * 16 + Digit(s[2], Hex)) * 16 + Digit(s[3], Hex)
  }

  /** As hex digits stand for a number, and a surrogate pair for a code point (section 7 of RFC 8259):
      ten bits of what is past 0x10000 in each. */
  lemma UnitIsValue(s: string)
    requires IsFourHex(s)
    ensures UnitOf(s) == Value(s, Hex)
  {
    var a, b, c := s[..3], s[..2], s[..1];
    assert s == a + [s[3]] && a == b + [s[2]] && b == c + [s[1]] && c == [] + [s[0]];
    assert AllDigits(a, Hex) && AllDigits(b, Hex) && AllDigits(c, Hex);
    ValueOfAppend(a, s[3], Hex);
    ValueOfAppend(b, s[2], Hex);
    ValueOfAppend(c, s[1], Hex);
    ValueOfAppend([], s[0], Hex);
  }

  predicate IsItem(item: Item) {
    match item
    case Plain(c) => IsPlain(c)
    case Short(letter) => OfLetter(letter).Some?
    case Unit(digits) => IsFourHex(digits) && !(0xD800 <= UnitOf(digits) <= 0xDFFF)
    case Pair(high, low) => IsFourHex(high) && IsFourHex(low) && 0xD800 <= UnitOf(high) <= 0xDBFF && 0xDC00 <= UnitOf(low) <= 0xDFFF
  }

  function Written(item: Item): string {
    match item
    case Plain(c) => [c]
    case Short(letter) => ['\\', letter]
    case Unit(digits) => ['\\', 'u'] + digits
    case Pair(high, low) => ['\\', 'u'] + high + ['\\', 'u'] + low
  }

  function Chars(s: seq<Utf8.Byte>): string {
    seq(|s|, i requires 0 <= i < |s| => s[i] as char)
  }

  /** The bytes it stands for, in UTF-8. */
  function Meant(item: Item): (s: string)
    requires IsItem(item)
    ensures 1 <= |s| <= 4
  {
    match item
    case Plain(c) => [c]
    case Short(letter) => [OfLetter(letter).value]
    case Unit(digits) => Chars(Utf8.Encode(UnitOf(digits)))
    case Pair(high, low) => Chars(Utf8.Encode(0x10000 + (UnitOf(high) - 0xD800) * 0x400 + (UnitOf(low) - 0xDC00)))
  }

  predicate AreItems(items: seq<Item>) {
    forall i :: 0 <= i < |items| ==> IsItem(items[i])
  }

  function WrittenAll(items: seq<Item>): string {
    if items == [] then [] else Written(items[0]) + WrittenAll(items[1..])
  }

  function MeantAll(items: seq<Item>): string
    requires AreItems(items)
  {
    if items == [] then [] else Meant(items[0]) + MeantAll(items[1..])
  }

  /** The item a string starts with, if it does with one. */
  function First(s: string): Option<Item> {
    if s == [] || s[0] < ' ' || s[0] == '"' then None
    else if s[0] != '\\' then Some(Plain(s[0]))
    else if |s| < 2 then None
    else if s[1] != 'u' then if OfLetter(s[1]).Some? then Some(Short(s[1])) else None
    else if |s| < 6 || !IsFourHex(s[2..6]) || 0xDC00 <= UnitOf(s[2..6]) <= 0xDFFF then None
    else if UnitOf(s[2..6]) < 0xD800 || UnitOf(s[2..6]) > 0xDFFF then Some(Unit(s[2..6]))
    else if |s| < 12 || s[6] != '\\' || s[7] != 'u' || !IsFourHex(s[8..12]) then None
    else if 0xDC00 <= UnitOf(s[8..12]) <= 0xDFFF then Some(Pair(s[2..6], s[8..12]))
    else None
  }

  lemma FirstIsWritten(s: string)
    ensures First(s).Some? ==> IsItem(First(s).value) && Written(First(s).value) <= s
  {
    hide UnitOf, AllDigits;
    var f := First(s);
    if f.Some? && f.value.Unit? {
      assert Written(f.value) == s[..6];
    } else if f.Some? && f.value.Pair? {
      assert Written(f.value) == s[..12];
    }
  }

  lemma WrittenIsFirst(item: Item, rest: string)
    requires IsItem(item)
    ensures First(Written(item) + rest) == Some(item)
  {
    hide UnitOf, AllDigits;
    var s := Written(item) + rest;
    if item.Unit? {
      assert s[2..6] == item.digits;
    } else if item.Pair? {
      assert s[2..6] == item.high && s[8..12] == item.low;
    }
  }

  /** The items all of s is, if it is so many. */
  function Items(s: string): (r: Option<seq<Item>>)
    ensures r.Some? ==> AreItems(r.value) && WrittenAll(r.value) == s
  {
    if s == [] then Some([])
    else if First(s).None? then None
    else
      FirstIsWritten(s);
      var n := |Written(First(s).value)|;
      match Items(s[n..])
      case None => None
      case Some(rest) => Some([First(s).value] + rest)
  }

  /** No string is written as items in two ways. */
  lemma {:induction false} ItemsOfWritten(items: seq<Item>)
    requires AreItems(items)
    ensures Items(WrittenAll(items)) == Some(items)
  {
    hide First, Written, IsItem;
    if items != [] {
      var s := WrittenAll(items);
      var first, rest := Written(items[0]), WrittenAll(items[1..]);
      WrittenIsFirst(items[0], rest);
      WrittenSize(items[0]);
      ItemsOfWritten(items[1..]);
      assert s[|first|..] == rest;
      assert [items[0]] + items[1..] == items;
    }
  }

  lemma WrittenSize(item: Item)
    ensures |Written(item)| >= 1
  {
  }

  lemma {:induction false} MeantMore(items: seq<Item>, item: Item)
    requires AreItems(items) && IsItem(item)
    ensures AreItems(items + [item]) && MeantAll(items + [item]) == MeantAll(items) + Meant(item)
  {
    hide Meant, IsItem;
    if items != [] {
      MeantMore(items[1..], item);
      assert (items + [item])[1..] == items[1..] + [item];
      Assoc(Meant(items[0]), MeantAll(items[1..]), Meant(item));
    }
  }

  // ---------- Unescaping ----------

  /** No \u0000, which would end the string. */
  predicate NoNul(items: seq<Item>) {
    forall i :: 0 <= i < |items| ==> !IsNul(items[i])
  }

  predicate IsNul(item: Item) {
    item.Unit? && IsFourHex(item.digits) && UnitOf(item.digits) == 0
  }

  /** What a buffer of this size takes. */
  predicate Unescapes(items: seq<Item>, room: nat)
    requires AreItems(items)
  {
    NoNul(items) && |MeantAll(items)| + 1 <= room && |MeantAll(items)| <= INT_MAX
  }

  /** The escape at s, if it is one, as _jkii_unicode_escape() reads it. */
  method UnicodeEscape(s: string) returns (unit: int)
    ensures unit >= 0 <==> |s| >= 6 && s[0] == '\\' && s[1] == 'u' && IsFourHex(s[2..6])
    ensures unit >= 0 ==> unit == UnitOf(s[2..6])
  {
    if |s| < 6 || s[0] != '\\' || s[1] != 'u' {
      return -1;
    }
    var u := 0;
    for i := 2 to 6
      invariant AllDigits(s[2..i], Hex)
      invariant u == if i == 2 then 0 else if i == 3 then Digit(s[2], Hex) else if i == 4 then Digit(s[2], Hex) * 16 + Digit(s[3], Hex)
                     else if i == 5 then (Digit(s[2], Hex) * 16 + Digit(s[3], Hex)) * 16 + Digit(s[4], Hex)
                     else ((Digit(s[2], Hex) * 16 + Digit(s[3], Hex)) * 16 + Digit(s[4], Hex)) * 16 + Digit(s[5], Hex)
    {
      var d := Digit(s[i], Hex);
      if d < 0 {
        assert s[2..6][i - 2] == s[i];
        return -1;
      }
      assert s[2..i + 1] == s[2..i] + [s[i]];
      u := u * 16 + d;
    }
    return u;
  }

  /** The item at s and what it stands for, or none where jkii_unescape_str() fails. */
  method NextItem(s: string) returns (r: Option<Item>, out: string)
    requires s != []
    ensures r.Some? <==> First(s).Some? && !IsNul(First(s).value)
    ensures r.Some? ==> r == First(s) && IsItem(r.value) && out == Meant(r.value)
  {
    hide UnitOf, AllDigits, Utf8.Encode, Chars;
    out := [];
    FirstIsWritten(s);
    if s[0] == '"' || s[0] < ' ' {
      return None, out;
    }
    if s[0] != '\\' {
      return Some(Plain(s[0])), [s[0]];
    }
    if |s| < 2 {
      return None, out;
    }
    if s[1] != 'u' {
      var c := OfLetter(s[1]);
      if c.None? {
        return None, out;
      }
      return Some(Short(s[1])), [c.value];
    }
    var unit := UnicodeEscape(s);
    if unit <= 0 || 0xDC00 <= unit <= 0xDFFF {
      return None, out;
    }
    var cp: nat := unit;
    r := Some(Unit(s[2..6]));
    if 0xD800 <= unit <= 0xDBFF {
      var low := UnicodeEscape(s[6..]);
      assert |s| >= 12 ==> s[6..][2..6] == s[8..12];
      if low < 0xDC00 || low > 0xDFFF {
        return None, out;
      }
      cp := 0x10000 + (unit - 0xD800) * 0x400 + (low - 0xDC00);
      r := Some(Pair(s[2..6], s[8..12]));
    }
    out := Chars(Utf8.Encode(cp));
  }

  /** jkii_unescape_str(): exactly the strings RFC 8259 allows, but for \u0000 and lone surrogates,
      that fit. */
  method UnescapeStr(str: string, buff: array<char>) returns (size: int)
    modifies buff
    ensures size >= 0 <==> Items(str).Some? && Unescapes(Items(str).value, buff.Length)
    ensures size >= 0 ==> size == |MeantAll(Items(str).value)| && buff[..size] == MeantAll(Items(str).value) && buff[size] == NUL
    ensures size < 0 ==> size == -1 && (buff.Length > 0 ==> buff[0] == NUL)
  {
    hide First, Meant, IsItem, IsNul, UnitOf, Written, MeantAll, Items;
    Nothing(str);
    if buff.Length == 0 {
      return -1;
    }
    var pos, i := 0, 0;
    ghost var done: seq<Item> := [];
    while i < |str|
      invariant i <= |str| && AreItems(done) && NoNul(done)
      invariant pos == |MeantAll(done)| < buff.Length && buff[..pos] == MeantAll(done) && pos <= INT_MAX
      invariant IsSoFar(str, i, done)
    {
      var item, out := NextItem(str[i..]);
      if item.None? {
        NoMore(str, i, done);
        FailEscape(buff);
        return -1;
      }
      GoesOn(str, i, done, item.value);
      MeantMore(done, item.value);
      if buff.Length - pos < |out| + 1 || pos + |out| > INT_MAX {
        FailEscape(buff);
        return -1;
      }
      ghost var had := MeantAll(done);
      forall k | 0 <= k < |out| {
        buff[pos + k] := out[k];
      }
      assert buff[..pos + |out|] == had + out;
      done := done + [item.value];
      pos := pos + |out|;
      i := i + |Written(item.value)|;
    }
    AllDone(str, done);
    buff[pos] := NUL;
    return pos;
  }

  /** All of str is items if and only if what is left of it after i is, which are done and those. */
  ghost predicate IsSoFar(str: string, i: nat, done: seq<Item>)
    requires i <= |str|
  {
    Items(str) == match Items(str[i..]) case None => None case Some(rest) => Some(done + rest)
  }

  lemma Nothing(str: string)
    ensures IsSoFar(str, 0, []) && MeantAll([]) == []
  {
    assert str[0..] == str;
    assert Items(str).Some? ==> [] + Items(str).value == Items(str).value;
  }

  lemma AllDone(str: string, done: seq<Item>)
    requires IsSoFar(str, |str|, done)
    ensures Items(str) == Some(done)
  {
    assert str[|str|..] == [] && done + [] == done;
  }

  /** After the items done, and the next: what all of it stands for is no shorter. */
  lemma GoesOn(str: string, i: nat, done: seq<Item>, item: Item)
    requires i < |str| && IsSoFar(str, i, done) && First(str[i..]) == Some(item) && AreItems(done)
    ensures IsItem(item) && 1 <= |Written(item)| <= |str| - i && IsSoFar(str, i + |Written(item)|, done + [item])
    ensures Items(str).Some? ==> |MeantAll(Items(str).value)| >= |MeantAll(done)| + |Meant(item)|
  {
    hide First, Written, Meant, IsItem;
    FirstIsWritten(str[i..]);
    WrittenSize(item);
    var n := |Written(item)|;
    assert str[i..][n..] == str[i + n..];
    var r := Items(str[i + n..]);
    if r.Some? {
      Assoc(done, [item], r.value);
      MeantMore(done, item);
      MeantPrefix(done + [item], r.value);
    }
  }

  /** Nor can the rest be read, or with its next item none of it may be unescaped. */
  lemma NoMore(str: string, i: nat, done: seq<Item>)
    requires i < |str| && IsSoFar(str, i, done) && (First(str[i..]).None? || IsNul(First(str[i..]).value))
    ensures Items(str).None? || !NoNul(Items(str).value)
  {
    hide First, IsNul;
    var r := Items(str[i..]);
    if r.Some? {
      assert r.value[0] == First(str[i..]).value;
      assert Items(str).value[|done|] == r.value[0];
    }
  }

  /** What was done is how all of it starts, so what all of it stands for is no shorter. */
  lemma {:induction false} MeantPrefix(done: seq<Item>, rest: seq<Item>)
    requires AreItems(done) && AreItems(rest)
    ensures AreItems(done + rest) && MeantAll(done + rest) == MeantAll(done) + MeantAll(rest)
  {
    hide Meant, IsItem;
    if done == [] {
      assert done + rest == rest;
    } else {
      MeantPrefix(done[1..], rest);
      assert (done + rest)[1..] == done[1..] + rest;
      Assoc(Meant(done[0]), MeantAll(done[1..]), MeantAll(rest));
    }
  }

  /** A string can be unescaped if and only if it is written as characters RFC 8259 allows, none of
      them \u0000, that fit, and it has only one such reading. */
  lemma UnescapesExactly(str: string, room: nat)
    ensures Items(str).Some? && Unescapes(Items(str).value, room) <==>
              exists items: seq<Item> :: AreItems(items) && WrittenAll(items) == str && Unescapes(items, room)
    ensures forall items: seq<Item> :: AreItems(items) && WrittenAll(items) == str ==> Items(str) == Some(items)
  {
    hide Unescapes;
    forall items: seq<Item> | AreItems(items) && WrittenAll(items) == str ensures Items(str) == Some(items) {
      ItemsOfWritten(items);
    }
  }

  /** A buffer one longer than the string is always enough. */
  lemma {:induction false} MeantIsNoLonger(items: seq<Item>)
    requires AreItems(items)
    ensures |MeantAll(items)| <= |WrittenAll(items)|
  {
    hide IsItem, Meant, Written;
    if items != [] {
      OneIsNoLonger(items[0]);
      MeantIsNoLonger(items[1..]);
    }
  }

  lemma OneIsNoLonger(item: Item)
    requires IsItem(item)
    ensures |Meant(item)| <= |Written(item)|
  {
  }

  // ---------- There and back ----------

  /** What escaping writes for a byte. */
  function ItemOf(c: char): Item {
    if Letter(c).Some? then Short(Letter(c).value)
    else if c < ' ' then Unit(['0', '0', DigitChar(c as int / 16), DigitChar(c as int % 16)])
    else Plain(c)
  }

  function ItemsOf(s: string): seq<Item> {
    seq(|s|, i requires 0 <= i < |s| => ItemOf(s[i]))
  }

  lemma ItemOfRight(c: char)
    ensures IsItem(ItemOf(c)) && Written(ItemOf(c)) == EscapeChar(c) && Meant(ItemOf(c)) == [c]
    ensures IsNul(ItemOf(c)) <==> c == NUL
  {
    if Letter(c).None? && c < ' ' {
      var n := c as int;
      var digits := ['0', '0', DigitChar(n / 16), DigitChar(n % 16)];
      assert UnitOf(digits) == n;
      assert Utf8.Encode(n) == [n];
    }
  }

  lemma {:induction false} ItemsOfRight(s: string)
    ensures AreItems(ItemsOf(s)) && WrittenAll(ItemsOf(s)) == Escape(s) && MeantAll(ItemsOf(s)) == s
  {
    hide IsItem, Meant, Written, EscapeChar, ItemOf;
    forall i | 0 <= i < |s| ensures IsItem(ItemsOf(s)[i]) {
      ItemOfRight(s[i]);
    }
    if s != [] {
      ItemOfRight(s[0]);
      ItemsOfRight(s[1..]);
      assert ItemsOf(s)[1..] == ItemsOf(s[1..]);
      EscapeAppend([s[0]], s[1..]);
      assert Escape([]) == [] && Escape([s[0]]) == EscapeChar(s[0]) by { EscapeMore([], s[0]); assert [] + [s[0]] == [s[0]]; }
      assert [s[0]] + s[1..] == s;
    }
  }

  /** Unescaping what escaping writes gives back any string without NUL, into any buffer that holds it. */
  lemma UnescapeOfEscape(s: string, room: nat)
    requires |s| < room && |s| <= INT_MAX && NUL !in s
    ensures Items(Escape(s)).Some? && Unescapes(Items(Escape(s)).value, room) && MeantAll(Items(Escape(s)).value) == s
  {
    ItemsOfRight(s);
    ItemsOfWritten(ItemsOf(s));
    forall i | 0 <= i < |s| ensures !IsNul(ItemsOf(s)[i]) {
      ItemOfRight(s[i]);
    }
  }
}
