/** The JSON writer: one call at a time, into a buffer, out through a callback, or nowhere, counting. */
module JsonWriter {
  import opened JsonCalls
  import opened JsonDocument
  import opened JsonText
  import opened Numerals
  import opened Options
  import opened Sequences

  datatype WriteErr = Ok | TooLarge | Structure | TooDeep | Value | Callback

  datatype Mode = DryRun | ToBuffer | ToCallback

  /** What the application's callback has taken, out of all it will. It refuses what goes beyond. */
  class Sink {
    const size: nat
    const limit: nat
    var taken: string

    constructor (size: nat, limit: nat)
      ensures this.size == size && this.limit == limit && taken == ""
    {
      this.size, this.limit := size, limit;
      taken := "";
    }

    /** Never given more than the writer's buffer holds. */
    method Take(data: string) returns (n: nat)
      requires 0 < |data| <= size
      modifies this
      ensures n == |data| <==> |old(taken)| + |data| <= limit
      ensures taken == if n == |data| then old(taken) + data else old(taken)
    {
      if |taken| + |data| > limit {
        n :| n != |data|;
        return;
      }
      taken := taken + data;
      return |data|;
    }
  }

  // ---------- The bits of a level ----------

  const OBJECT: bv8 := 1
  const HAS_MEMBER: bv8 := 2
  const AFTER_KEY: bv8 := 4

  /** What _levels has for an open container. Below the innermost, a member is under way. */
  function Bits(f: Frame, innermost: bool): bv8 {
    match f
    case InArr(items) => if items != [] || !innermost then HAS_MEMBER else 0
    case InObj(members, pending) =>
      if pending.Some? then if innermost then OBJECT | HAS_MEMBER | AFTER_KEY else OBJECT | HAS_MEMBER
      else if members != [] then OBJECT | HAS_MEMBER
      else OBJECT
  }

  lemma BitsOf(f: Frame)
    ensures var b := Bits(f, true);
            && (b & OBJECT != 0 <==> f.InObj?)
            && (b & HAS_MEMBER != 0 <==> if f.InArr? then f.items != [] else f.members != [] || f.pending.Some?)
            && (b & AFTER_KEY != 0 <==> f.InObj? && f.pending.Some?)
            && (f.InArr? ==> b | HAS_MEMBER == Bits(f, false))
            && (f.InObj? && f.pending.Some? ==> b & !AFTER_KEY == Bits(f, false))
            && (f.InObj? && f.pending.None? ==> forall k: string :: b | (HAS_MEMBER | AFTER_KEY) == Bits(f.(pending := Some(k)), true))
  {
  }

  lemma BitsWithValue(f: Frame, j: Json)
    requires f.InArr? || f.pending.Some?
    ensures Bits(FrameWith(f, j), true) == Bits(f, false)
  {
  }

  /** _decimal(): v's digits, which are never more than 20. */
  method Decimals(v: nat) returns (out: array<char>, size: nat)
    requires v < 0x1_0000_0000_0000_0000
    ensures fresh(out) && size <= out.Length && out[..size] == Text(v, Decimal)
  {
    var digits := new char[20];
    out := new char[20];
    TwentyDigits(v);
    size := LastFirst(v, digits);
    ghost var text := Text(v, Decimal);
    for i := 0 to size
      modifies out
      invariant forall k :: 0 <= k < i ==> out[k] == text[k]
    {
      var k := size - 1 - i;
      assert digits[k] == text[size - 1 - k];
      out[i] := digits[k];
    }
  }

  method LastFirst(v: nat, digits: array<char>) returns (size: nat)
    requires |Text(v, Decimal)| <= digits.Length
    modifies digits
    ensures size == |Text(v, Decimal)|
    ensures forall k :: 0 <= k < size ==> digits[k] == Text(v, Decimal)[size - 1 - k]
  {
    ghost var text := Text(v, Decimal);
    digits[0] := DigitChar(v % 10);
    size := 1;
    var left := v / 10;
    while left != 0
      invariant 0 <= left && size <= |text|
      invariant text[..|text| - size] == if left == 0 then [] else Text(left, Decimal)
      invariant forall k :: 0 <= k < size ==> digits[k] == text[|text| - 1 - k]
    {
      digits[size] := DigitChar(left % 10);
      size := size + 1;
      left := left / 10;
    }
  }

  lemma TwentyDigits(v: nat)
    requires v < 0x1_0000_0000_0000_0000
    ensures |Text(v, Decimal)| <= 20
  {
    var p := 1;
    for k := 0 to 20
      invariant p == Pow(Decimal, k)
      invariant p == [1, 10, 100, 1000, 10000, 100000, 1000000, 10000000, 100000000, 1000000000, 10000000000, 100000000000,
                      1000000000000, 10000000000000, 100000000000000, 1000000000000000, 10000000000000000, 100000000000000000,
                      1000000000000000000, 10000000000000000000, 100000000000000000000][k]
    {
      p := p * 10;
    }
    TextLengthBelowPow(v, 20, Decimal);
  }

  class Writer {
    const mode: Mode
    const buff: array<char>
    const sink: Sink
    var used: nat
    var total: nat
    var err: WriteErr
    var depth: nat
    var levels: seq<bv8>
    var topDone: bool
    var records: nat
    /** All that was to be written, and what the calls so far describe. */
    ghost var text: string
    ghost var doc: Doc

    /** jkii_writer_init_buff(), with no buffer for a dry run, and jkii_writer_init_cb(). */
    constructor (mode: Mode, buff: array<char>, sink: Sink)
      requires sink.taken == "" && sink.size == buff.Length
      requires mode == ToCallback ==> buff.Length > 0
      modifies buff
      ensures this.mode == mode && this.buff == buff && this.sink == sink
      ensures Valid() && doc == EMPTY && err == Ok
    {
      this.mode, this.buff, this.sink := mode, buff, sink;
      used, total, err, depth, topDone, records := 0, 0, Ok, 0, false, 0;
      levels := seq(MAX_DEPTH, i => 0);
      text, doc := "", EMPTY;
      new;
      NothingYet();
      if mode == ToBuffer && buff.Length > 0 {
        buff[0] := NUL;
      }
    }

    /** _stopped() */
    predicate Stopped()
      reads this`err
    {
      err != Ok && err != TooLarge
    }

    /** The text is where it should be: in the buffer, if it fits with its terminator, or with the
        callback and the rest of it in the buffer. */
    ghost predicate OutputRight()
      reads this`used, this`total, this`err, this`text, buff, sink
    {
      && used <= buff.Length && sink.size == buff.Length && |sink.taken| <= sink.limit
      && (mode == ToCallback ==> buff.Length > 0 && sink.taken <= text && (err == Callback ==> |text| > sink.limit))
      && (mode != ToCallback ==> err != Callback)
      && (!Stopped() ==> total == |text|)
      && (!Stopped() && mode != ToBuffer ==> err == Ok)
      && (!Stopped() && mode == ToBuffer ==> (err == Ok <==> text == "" || |text| < buff.Length))
      && (err == Ok && mode == ToBuffer ==> used == |text| && buff[..used] == text && (buff.Length > 0 ==> used < buff.Length && buff[used] == NUL))
      && (err == Ok && mode == ToCallback ==> used < buff.Length && text == sink.taken + buff[..used])
    }

    /** The fields are an image of the containers open and the values whole. */
    ghost predicate DocRight()
      reads this`depth, this`topDone, this`records, this`doc, this`levels
    {
      && IsDoc(doc) && depth == |doc.frames| && topDone == doc.top.Some? && records == |doc.records|
      && LevelsRight(true)
    }

    ghost predicate LevelsRight(innermost: bool)
      requires depth <= |doc.frames|
      reads this`depth, this`doc, this`levels
    {
      |levels| == MAX_DEPTH >= depth
      && forall i :: 0 <= i < depth ==> levels[i] == Bits(doc.frames[i], innermost && i == depth - 1)
    }

    ghost predicate Valid()
      reads this, buff, sink
    {
      && OutputRight() && |levels| == MAX_DEPTH
      && (!Stopped() ==> DocRight() && text == TextOf(doc))
    }

    /** _fail() */
    method Fail(e: WriteErr)
      requires e != Ok && e != TooLarge && e != Callback && OutputRight()
      modifies this`err
      ensures err == (if old(Stopped()) then old(err) else e) && OutputRight()
    {
      if !Stopped() {
        err := e;
      }
    }

    // ---------- Output ----------

    /** _flush() */
    method Flush()
      requires OutputBut(used) && mode == ToCallback
      modifies this`used, this`err, sink
      ensures used == 0 && OutputBut(0)
      ensures err == old(err) || (err == Callback && !old(Stopped()))
      ensures old(Stopped()) ==> sink.taken == old(sink.taken)
    {
      if used > 0 && !Stopped() {
        var taken := sink.Take(buff[..used]);
        if taken != used {
          err := Callback;
        }
      }
      used := 0;
      assert buff[..0] == [];
    }

    /** Through a callback, with as much in the buffer as given, even all of it. */
    ghost predicate OutputBut(n: nat)
      reads this`err, this`text, buff, sink
    {
      && n <= buff.Length && sink.size == buff.Length > 0 && |sink.taken| <= sink.limit && sink.taken <= text
      && (err == Callback ==> |text| > sink.limit) && err != TooLarge
      && (!Stopped() ==> text == sink.taken + buff[..n])
    }

    /** _put(): counts what is written, and keeps what fits, or gives it to the callback. */
    method Put(s: string)
      requires OutputRight()
      modifies this`used, this`total, this`err, this`text, buff, sink
      ensures OutputRight() && Keeps(old(err), err)
      ensures !Stopped() ==> text == old(text) + s
      ensures |text| <= |old(text)| + |s|
      ensures old(Stopped()) ==> err == old(err) && text == old(text) && sink.taken == old(sink.taken)
    {
      if Stopped() || |s| == 0 {
        return;
      }
      total := total + |s|;
      if mode == ToCallback {
        PutThrough(s);
        return;
      }
      text := text + s;
      if mode == DryRun || err == TooLarge {
        return;
      }
      // Room for the terminator too.
      if |s| >= buff.Length - used {
        err := TooLarge;
        return;
      }
      forall k | 0 <= k < |s| {
        buff[used + k] := s[k];
      }
      used := used + |s|;
      buff[used] := NUL;
      assert buff[..used] == text;
    }

    method PutThrough(s: string)
      requires OutputBut(used) && used < buff.Length && !Stopped() && mode == ToCallback
      modifies this`used, this`err, this`text, buff, sink
      ensures OutputBut(used) && used < buff.Length && text == old(text) + s
      ensures err == Ok || err == Callback
    {
      var i := 0;
      ghost var before := text;
      while i < |s| && !Stopped()
        invariant i <= |s| && OutputBut(used) && used < buff.Length && text == before + s[..i]
        invariant err == Ok || err == Callback
        decreases |s| - i
      {
        var room := buff.Length - used;
        var part := if |s| - i < room then |s| - i else room;
        Further(before, s, i, part);
        Keep(s[i..i + part]);
        i := i + part;
        if used == buff.Length {
          Flush();
        }
      }
      Further(before, s, i, |s| - i);
      text := before + s;
    }

    static lemma Further(before: string, s: string, i: nat, n: nat)
      requires i + n <= |s|
      ensures before + s[..i] + s[i..i + n] == before + s[..i + n]
      ensures i + n == |s| ==> s[..i + n] == s
    {
      assert s[..i + n] == s[..i] + s[i..i + n];
    }

    method Keep(part: string)
      requires OutputBut(used) && used + |part| <= buff.Length && !Stopped()
      modifies this`used, this`text, buff
      ensures OutputBut(used) && used == old(used) + |part| && text == old(text) + part
    {
      ghost var had := buff[..used];
      forall k | 0 <= k < |part| {
        buff[used + k] := part[k];
      }
      assert buff[..used + |part|] == had + part;
      text := text + part;
      used := used + |part|;
    }

    /** _put_escaped(): each run of bytes that go out as they are, and what the others are escaped to. */
    method PutEscaped(s: string)
      requires OutputRight()
      modifies this`used, this`total, this`err, this`text, buff, sink
      ensures OutputRight() && Keeps(old(err), err)
      ensures !Stopped() ==> text == old(text) + Quoted(s)
      ensures |text| <= |old(text)| + |Quoted(s)|
      ensures old(Stopped()) ==> err == old(err) && text == old(text) && sink.taken == old(sink.taken)
    {
      hide EscapeChar, Escape, Letter;
      ghost var before := text + ['"'];
      Put(['"']);
      var plain := 0;
      NothingEscaped(s, before);
      for i := 0 to |s|
        invariant OutputRight() && Keeps(old(err), err) && plain <= i
        invariant Escape(s[..i]) == Escape(s[..plain]) + s[plain..i]
        invariant !Stopped() ==> text == before + Escape(s[..plain])
        invariant |text| <= |before| + |Escape(s[..plain])|
        invariant old(Stopped()) ==> err == old(err) && text == old(text) && sink.taken == old(sink.taken)
      {
        var c := s[i];
        EscapeRun(s, plain, i);
        if Letter(c).Some? || c < ' ' {
          // What came before it goes out as it is.
          PutBoth(s[plain..i], EscapeChar(c));
          Assoc(before, Escape(s[..plain]), s[plain..i] + EscapeChar(c));
          plain := i + 1;
        }
      }
      PutBoth(s[plain..], ['"']);
      assert s[..|s|] == s && s[plain..|s|] == s[plain..];
      Assoc(before, Escape(s[..plain]), s[plain..] + ['"']);
      Assoc(Escape(s[..plain]), s[plain..], ['"']);
      Assoc(old(text), ['"'], Escape(s) + ['"']);
      assert ['"'] + (Escape(s) + ['"']) == Quoted(s);
    }

    method PutBoth(s: string, t: string)
      requires OutputRight()
      modifies this`used, this`total, this`err, this`text, buff, sink
      ensures OutputRight() && Keeps(old(err), err)
      ensures !Stopped() ==> text == old(text) + (s + t)
      ensures |text| <= |old(text)| + |s| + |t|
      ensures old(Stopped()) ==> err == old(err) && text == old(text) && sink.taken == old(sink.taken)
    {
      ghost var before := text;
      Put(s);
      Put(t);
      Assoc(before, s, t);
    }

    // ---------- Calls ----------

    /** _begin_value(): where a value can go, the containers are as with one open below them. */
    method BeginValue()
      requires Valid()
      modifies this`used, this`total, this`err, this`text, this`levels, buff, sink
      ensures OutputRight() && |levels| == MAX_DEPTH
      ensures !old(Stopped()) && TakesValue(doc) ==> LevelsRight(false) && Keeps(old(err), err)
      ensures !Stopped() ==> TakesValue(doc) && text == old(text) + Before(doc)
      ensures |text| <= |old(text)| + |Before(doc)|
      ensures !old(Stopped()) && !TakesValue(doc) ==> err == Structure
      ensures old(Stopped()) ==> err == old(err) && text == old(text)
    {
      hide Bits, TextOf, Render, RenderItems, RenderMembers;
      if Stopped() {
        return;
      }
      if depth == 0 {
        if topDone {
          Fail(Structure);
        }
        return;
      }
      ghost var f := doc.frames[depth - 1];
      BitsOf(f);
      var level := levels[depth - 1];
      if level & OBJECT != 0 {
        if level & AFTER_KEY == 0 {
          Fail(Structure);
          return;
        }
        levels := levels[depth - 1 := level & !AFTER_KEY];
      } else {
        if level & HAS_MEMBER != 0 {
          Put([',']);
        }
        levels := levels[depth - 1 := level | HAS_MEMBER];
      }
    }

    /** _end_value() */
    method EndValue()
      requires |levels| == MAX_DEPTH
      modifies this`topDone
      ensures topDone == (old(topDone) || (depth == 0 && !Stopped()))
    {
      if depth == 0 && !Stopped() {
        topDone := true;
      }
    }

    /** _start() */
    method Start(kind: bv8, open: char, ghost c: Call)
      requires Valid() && ((c == ObjectStart && kind == OBJECT && open == '{') || (c == ArrayStart && kind == 0 && open == '['))
      modifies this, buff, sink
      ensures Valid() && Made(c, old(err), old(doc), old(|text|), err, doc, |text|)
    {
      hide Bits, TextOf, TakesValue, Before, IsDoc, CallsOf, After, Added, Refusal;
      ghost var d := doc;
      if !Stopped() {
        StartWorks(d, c);
      }
      BeginValue();
      if Stopped() {
        if !old(Stopped()) && After(d, c).Some? {
          CallAdds(d, c);
          doc := After(d, c).value;
        }
        return;
      }
      if depth == MAX_DEPTH {
        Fail(TooDeep);
        return;
      }
      levels := levels[depth := kind];
      depth := depth + 1;
      Put([open]);
      CallAdds(d, c);
      StartLevels(d, kind, c);
      Assoc(old(text), Before(d), [open]);
      doc := After(d, c).value;
    }

    /** _end() */
    method End(kind: bv8, close: char, ghost c: Call)
      requires Valid() && ((c == ObjectEnd && kind == OBJECT && close == '}') || (c == ArrayEnd && kind == 0 && close == ']'))
      modifies this, buff, sink
      ensures Valid() && Made(c, old(err), old(doc), old(|text|), err, doc, |text|)
    {
      hide Bits, TextOf, IsDoc, CallsOf, After, Added, Refusal;
      ghost var d := doc;
      if Stopped() {
        return;
      }
      EndWorks(d, c);
      if depth == 0 {
        Fail(Structure);
        return;
      }
      var level := levels[depth - 1];
      BitsOf(Innermost(d));
      ZeroOrOne(level);
      if level & OBJECT != kind || level & AFTER_KEY != 0 {
        Fail(Structure);
        return;
      }
      depth := depth - 1;
      Put([close]);
      EndValue();
      CallAdds(d, c);
      EndLevels(d, c);
      doc := After(d, c).value;
    }

    method StartObject()
      requires Valid()
      modifies this, buff, sink
      ensures Valid() && Made(ObjectStart, old(err), old(doc), old(|text|), err, doc, |text|)
    {
      Start(OBJECT, '{', ObjectStart);
    }

    method EndObject()
      requires Valid()
      modifies this, buff, sink
      ensures Valid() && Made(ObjectEnd, old(err), old(doc), old(|text|), err, doc, |text|)
    {
      End(OBJECT, '}', ObjectEnd);
    }

    method StartArray()
      requires Valid()
      modifies this, buff, sink
      ensures Valid() && Made(ArrayStart, old(err), old(doc), old(|text|), err, doc, |text|)
    {
      Start(0, '[', ArrayStart);
    }

    method EndArray()
      requires Valid()
      modifies this, buff, sink
      ensures Valid() && Made(ArrayEnd, old(err), old(doc), old(|text|), err, doc, |text|)
    {
      End(0, ']', ArrayEnd);
    }

    method PutKey(comma: bool, key: string)
      requires OutputRight() && !Stopped()
      modifies this`used, this`total, this`err, this`text, buff, sink
      ensures OutputRight() && Keeps(old(err), err)
      ensures !Stopped() ==> text == old(text) + (Comma(comma) + Quoted(key) + [':'])
      ensures |text| <= |old(text)| + |Comma(comma) + Quoted(key) + [':']|
    {
      hide Quoted, OutputRight;
      if comma {
        Put([',']);
      }
      PutEscaped(key);
      Put([':']);
      assert old(text) + Comma(false) == old(text);
    }

    /** jkii_write_key(), of none for NULL. */
    method WriteKey(key: Option<string>)
      requires Valid()
      modifies this, buff, sink
      ensures Valid()
      ensures if key.Some? then Made(Key(key.value), old(err), old(doc), old(|text|), err, doc, |text|) else NotMade(old(err), old(doc), err, doc)
    {
      hide Bits, TextOf, IsDoc, Quoted, CallsOf, After, Added, Refusal, OutputRight, WithValue, TakesValue, Before;
      ghost var d := doc;
      if Stopped() {
        return;
      }
      if key.Some? {
        KeyWorks(d, key.value);
      }
      if key.None? {
        Fail(Value);
        return;
      }
      if depth == 0 {
        Fail(Structure);
        return;
      }
      ghost var f := Innermost(d);
      BitsOf(f);
      var level := levels[depth - 1];
      if level & OBJECT == 0 || level & AFTER_KEY != 0 {
        Fail(Structure);
        return;
      }
      levels := levels[depth - 1 := level | (HAS_MEMBER | AFTER_KEY)];
      PutKey(level & HAS_MEMBER != 0, key.value);
      CallAdds(d, Key(key.value));
      KeyLevels(d, key.value);
      doc := After(d, Key(key.value)).value;
    }

    /** The part of each scalar's call after its value has been begun, once its text is put. */
    method EndScalar(ghost j: Json, ghost d: Doc, ghost was: WriteErr, ghost before: string)
      requires OutputRight() && |levels| == MAX_DEPTH && doc == d && IsScalar(j) && !IsStop(was) && Keeps(was, err)
      requires IsDoc(d) && depth == |d.frames| && topDone == d.top.Some? && records == |d.records| && TakesValue(d)
      requires before == TextOf(d)
      requires !Stopped() ==> LevelsRight(false) && text == before + Before(d) + Render(j)
      requires |text| <= |before| + |Before(d)| + |Render(j)|
      modifies this`topDone, this`doc
      ensures Valid() && Made(Scalar(j), was, d, |before|, err, doc, |text|)
    {
      hide Bits, TextOf, IsDoc, Render, Before, CallsOf, WithValue, TakesValue;
      EndValue();
      CallAdds(d, Scalar(j));
      ScalarLevels(d, j);
      Assoc(before, Before(d), Render(j));
      doc := WithValue(d, j);
    }

    /** jkii_write_string_n(), of none for NULL. */
    method WriteString(s: Option<string>, n: nat)
      requires Valid() && (s.Some? ==> |s.value| == n)
      modifies this, buff, sink
      ensures Valid()
      ensures if s.None? && n > 0 then NotMade(old(err), old(doc), err, doc)
              else Made(Scalar(Str(if s.Some? then s.value else "")), old(err), old(doc), old(|text|), err, doc, |text|)
    {
      hide Bits, TextOf, IsDoc, Quoted, Before, TakesValue;
      if s.None? && n > 0 {
        Fail(Value);
        return;
      }
      ghost var d := doc;
      BeginValue();
      if Stopped() {
        SkipScalar(Str(if s.Some? then s.value else ""), d, old(err), old(|text|));
        return;
      }
      var value := if s.Some? then s.value else "";
      PutEscaped(value);
      EndScalar(Str(value), d, old(err), old(text));
    }

    /** A value that couldn't be begun. */
    ghost method SkipScalar(j: Json, d: Doc, was: WriteErr, before: nat)
      requires Stopped() && OutputRight() && |levels| == MAX_DEPTH && IsScalar(j) && doc == d && (!IsStop(was) ==> IsDoc(d))
      requires !IsStop(was) && TakesValue(d) ==> |text| <= |TextOf(d)| + |Before(d)|
      requires if IsStop(was) then err == was && |text| == before else if TakesValue(d) then Keeps(was, err) else err == Structure
      modifies this`doc
      ensures Valid() && Made(Scalar(j), was, d, before, err, doc, |text|)
    {
      hide TextOf, TakesValue, Before, CallsOf;
      if !IsStop(was) && TakesValue(d) {
        ScalarLevels(d, j);
        CallAdds(d, Scalar(j));
        doc := WithValue(d, j);
      }
    }

    method WriteNumber(negative: bool, magnitude: nat)
      requires Valid() && magnitude < 0x1_0000_0000_0000_0000 && (negative ==> magnitude > 0)
      modifies this, buff, sink
      ensures Valid() && Made(Scalar(Num(Signed(negative, magnitude))), old(err), old(doc), old(|text|), err, doc, |text|)
    {
      hide Bits, TextOf, IsDoc, Text, Before, TakesValue;
      ghost var d, j := doc, Num(Signed(negative, magnitude));
      BeginValue();
      if Stopped() {
        SkipScalar(j, d, old(err), old(|text|));
        return;
      }
      ghost var before := text;
      var digits, size := Decimals(magnitude);
      if negative {
        Put(['-']);
      }
      Put(digits[..size]);
      Assoc(before, ['-'], Text(magnitude, Decimal));
      EndScalar(j, d, old(err), old(text));
    }

    /** jkii_write_int() */
    method WriteInt(v: int)
      requires Valid() && -0x8000_0000_0000_0000 <= v < 0x8000_0000_0000_0000
      modifies this, buff, sink
      ensures Valid() && Made(Scalar(Num(v)), old(err), old(doc), old(|text|), err, doc, |text|)
    {
      hide TextOf, Bits, IsDoc, LevelsRight, Made, OutputRight;
      // No step of it beyond 64 bits.
      var magnitude: nat := if v < 0 then -(v + 1) + 1 else v;
      WriteNumber(v < 0, magnitude);
    }

    /** jkii_write_uint() */
    method WriteUint(v: nat)
      requires Valid() && v < 0x1_0000_0000_0000_0000
      modifies this, buff, sink
      ensures Valid() && Made(Scalar(Num(v)), old(err), old(doc), old(|text|), err, doc, |text|)
    {
      WriteNumber(false, v);
    }

    method WriteLiteral(literal: string, ghost j: Json)
      requires Valid() && IsScalar(j) && Render(j) == literal
      modifies this, buff, sink
      ensures Valid() && Made(Scalar(j), old(err), old(doc), old(|text|), err, doc, |text|)
    {
      hide Bits, TextOf, IsDoc, Before, TakesValue, Render;
      ghost var d := doc;
      BeginValue();
      if Stopped() {
        SkipScalar(j, d, old(err), old(|text|));
        return;
      }
      Put(literal);
      EndScalar(j, d, old(err), old(text));
    }

    method WriteBool(b: bool)
      requires Valid()
      modifies this, buff, sink
      ensures Valid() && Made(Scalar(Bool(b)), old(err), old(doc), old(|text|), err, doc, |text|)
    {
      WriteLiteral(if b then "true" else "false", Bool(b));
    }

    method WriteNull()
      requires Valid()
      modifies this, buff, sink
      ensures Valid() && Made(Scalar(Null), old(err), old(doc), old(|text|), err, doc, |text|)
    {
      WriteLiteral("null", Null);
    }

    /** jkii_write_record_end() */
    method EndRecord()
      requires Valid()
      modifies this, buff, sink
      ensures Valid() && Made(RecordEnd, old(err), old(doc), old(|text|), err, doc, |text|)
    {
      hide Bits, TextOf;
      ghost var d := doc;
      if Stopped() {
        return;
      }
      if depth > 0 || !topDone {
        Fail(Structure);
        return;
      }
      Put(['\n']);
      topDone := false;
      records := records + 1;
      CallAdds(d, RecordEnd);
      doc := After(d, RecordEnd).value;
    }

    /** jkii_writer_finish() */
    method Finish() returns (e: WriteErr, size: nat)
      requires Valid()
      modifies this, buff, sink
      ensures e == err && size == total && doc == old(doc)
      ensures old(Stopped()) ==> e == old(err)
      ensures !old(Stopped()) && !IsWhole(doc) ==> e == Structure
      ensures !old(Stopped()) && IsWhole(doc) ==> size == |TextOf(doc)|
      ensures !old(Stopped()) && IsWhole(doc) && mode == DryRun ==> e == Ok
      ensures !old(Stopped()) && IsWhole(doc) && mode == ToBuffer ==>
                if size < buff.Length then e == Ok && buff[..size] == TextOf(doc) && buff[size] == NUL else e == TooLarge
      ensures !old(Stopped()) && IsWhole(doc) && mode == ToCallback ==>
                if size <= sink.limit then e == Ok && sink.taken == TextOf(doc) else e == Callback
    {
      WholeIsText(doc);
      hide TextOf, Bits;
      if !Stopped() && (depth > 0 || (!topDone && records == 0)) {
        Fail(Structure);
      }
      if mode == ToCallback {
        Flush();
      }
      return err, total;
    }

    // ---------- Any calls ----------

    /** One call of any kind. */
    method Make(c: Call)
      requires Valid() && InRange(c)
      modifies this, buff, sink
      ensures Valid() && Made(c, old(err), old(doc), old(|text|), err, doc, |text|)
    {
      hide TextOf, Bits, IsDoc, LevelsRight, Made, OutputRight;
      match c
      case ObjectStart => StartObject();
      case ObjectEnd => EndObject();
      case ArrayStart => StartArray();
      case ArrayEnd => EndArray();
      case Key(k) => WriteKey(Some(k));
      case RecordEnd => EndRecord();
      case Scalar(j) =>
        if j.Bool? {
          WriteBool(j.b);
        } else if j.Num? && j.n >= 0 {
          WriteUint(j.n);
        } else if j.Num? {
          WriteInt(j.n);
        } else if j.Str? {
          WriteString(Some(j.s), |j.s|);
        } else {
          WriteNull();
        }
    }

    /** Any calls, and then jkii_writer_finish(): JKII_WRITE_OK only for what the calls describe, which is
        then where it should be, and is as long in each mode. */
    method WriteAll(calls: seq<Call>) returns (e: WriteErr, size: nat)
      requires Valid() && doc == EMPTY && err == Ok && forall i :: 0 <= i < |calls| ==> InRange(calls[i])
      modifies this, buff, sink
      ensures e == Ok ==> IsDescribed(calls)
      ensures IsDescribed(calls) && mode == DryRun ==> e == Ok && size == |Described(calls)|
      ensures IsDescribed(calls) && mode == ToBuffer ==> size == |Described(calls)|
      ensures IsDescribed(calls) && mode == ToBuffer ==>
                if size < buff.Length then e == Ok && buff[..size] == Described(calls) && buff[size] == NUL else e == TooLarge
      ensures IsDescribed(calls) && mode == ToCallback && |Described(calls)| <= sink.limit ==>
                e == Ok && size == |Described(calls)| && sink.taken == Described(calls)
      ensures mode == ToCallback && e == Ok ==> sink.taken == Described(calls)
    {
      MakeAll(calls);
      hide Bits, DocRight, After, InRange, TextOf, Afters;
      e, size := Finish();
    }

    method MakeAll(calls: seq<Call>)
      requires Valid() && doc == EMPTY && err == Ok && forall i :: 0 <= i < |calls| ==> InRange(calls[i])
      modifies this, buff, sink
      ensures Valid() && Reached(calls, err, doc, |text|)
    {
      hide TextOf, Bits, LevelsRight, OutputRight, InRange, Made, Reached, Afters, IsDoc;
      var i := 0;
      NothingMade();
      assert calls[..0] == [];
      while i < |calls|
        invariant i <= |calls| && Valid() && Reached(calls[..i], err, doc, |text|)
      {
        assert calls[..i + 1] == calls[..i] + [calls[i]];
        ReachesMore(calls[..i], calls[i], err, doc, |text|);
        Make(calls[i]);
        i := i + 1;
      }
      assert calls[..i] == calls;
    }
  }

  /** What the calls so far have come to. */
  ghost predicate Reached(calls: seq<Call>, e: WriteErr, doc: Doc, size: nat) {
    && IsDoc(EMPTY) && (!IsStop(e) ==> IsDoc(doc))
    && match Afters(EMPTY, calls)
       case None => IsStop(e)
       case Some(d) => if IsStop(e) then e == Callback && size <= |TextOf(d)| else doc == d
  }

  lemma NothingMade()
    ensures forall e: WriteErr, size: nat :: !IsStop(e) ==> Reached([], e, EMPTY, size)
  {
  }

  lemma ReachesMore(calls: seq<Call>, c: Call, e: WriteErr, d: Doc, size: nat)
    requires Reached(calls, e, d, size)
    ensures forall e': WriteErr, d': Doc, size': nat ::
              (!IsStop(e') ==> IsDoc(d')) && Made(c, e, d, size, e', d', size') ==> Reached(calls + [c], e', d', size')
  {
    hide TextOf, After;
    AftersMore(EMPTY, calls, c);
    if Afters(EMPTY, calls + [c]).Some? {
      CallAdds(Afters(EMPTY, calls).value, c);
    }
  }

  /** A number 64 bits hold, signed or not. */
  predicate InRange(c: Call) {
    c.Scalar? ==> IsScalar(c.value) && (c.value.Num? ==> -0x8000_0000_0000_0000 <= c.value.n < 0x1_0000_0000_0000_0000)
  }

  /** The calls describe something whole. */
  predicate IsDescribed(calls: seq<Call>) {
    IsDoc(EMPTY) && Afters(EMPTY, calls).Some? && IsWhole(Afters(EMPTY, calls).value)
  }

  function Described(calls: seq<Call>): string
    requires IsDescribed(calls)
  {
    TextOf(Afters(EMPTY, calls).value)
  }

  function Signed(negative: bool, magnitude: nat): int {
    var n: int := magnitude;
    if negative then -n else n
  }

  predicate IsStop(e: WriteErr) {
    e != Ok && e != TooLarge
  }

  /** What a call comes to: an error before it stays, and one it can't be made for stops the writer. One
      a callback stops hasn't put out more than its text. */
  ghost predicate Made(c: Call, was: WriteErr, d: Doc, before: nat, now: WriteErr, d': Doc, size: nat)
    requires !IsStop(was) ==> IsDoc(d)
  {
    if IsStop(was) then now == was && d' == d && size == before
    else
      match After(d, c)
      case Some(after) => d' == after && Keeps(was, now) && (now == Callback ==> size <= |TextOf(after)|)
      case None => d' == d && (now == Refusal(d, c) || now == Callback)
  }

  /** What a container nested too deep, or a call that can't be made there, gets. */
  function Refusal(d: Doc, c: Call): WriteErr {
    if (c.ObjectStart? || c.ArrayStart?) && TakesValue(d) then TooDeep else Structure
  }

  /** A NULL value stops the writer. */
  predicate NotMade(was: WriteErr, d: Doc, now: WriteErr, d': Doc) {
    now == (if IsStop(was) then was else Value) && d' == d
  }

  /** Nothing but a callback that refuses stops a writer while it writes, and only what doesn't fit makes
      it go on counting. */
  predicate Keeps(was: WriteErr, now: WriteErr) {
    now == was || (was == Ok && (now == TooLarge || now == Callback))
  }

  lemma NothingEscaped(s: string, before: string)
    ensures Escape(s[..0]) == Escape(s[..0]) + s[0..0] && before + Escape(s[..0]) == before
  {
  }

  /** A run of bytes that go out as they are, up to i, and the byte there. */
  lemma EscapeRun(s: string, plain: nat, i: nat)
    requires plain <= i < |s| && Escape(s[..i]) == Escape(s[..plain]) + s[plain..i]
    ensures Escape(s[..i + 1]) == Escape(s[..plain]) + (s[plain..i] + EscapeChar(s[i]))
    ensures Letter(s[i]).None? && s[i] >= ' ' ==> Escape(s[..i + 1]) == Escape(s[..plain]) + s[plain..i + 1]
    ensures Escape(s[..i + 1]) == Escape(s[..i + 1]) + s[i + 1..i + 1]
  {
    hide Escape;
    assert s[..i + 1] == s[..i] + [s[i]];
    EscapeMore(s[..i], s[i]);
    Assoc(Escape(s[..plain]), s[plain..i], EscapeChar(s[i]));
    assert s[plain..i + 1] == s[plain..i] + [s[i]];
  }

  // ---------- The levels after a call ----------

  lemma StartWorks(d: Doc, c: Call)
    requires IsDoc(d) && (c == ObjectStart || c == ArrayStart)
    ensures After(d, c).Some? <==> TakesValue(d) && |d.frames| < MAX_DEPTH
    ensures Refusal(d, c) == if TakesValue(d) then TooDeep else Structure
    ensures Added(d, c) == Before(d) + if c == ObjectStart then ['{'] else ['[']
    ensures |d.frames| <= MAX_DEPTH
  {
  }

  lemma EndWorks(d: Doc, c: Call)
    requires IsDoc(d) && (c == ObjectEnd || c == ArrayEnd)
    ensures After(d, c).Some? <==> d.frames != [] && if c == ArrayEnd then Innermost(d).InArr? else Innermost(d).InObj? && Innermost(d).pending.None?
    ensures Refusal(d, c) == Structure
    ensures Added(d, c) == if c == ObjectEnd then ['}'] else [']']
    ensures |d.frames| <= MAX_DEPTH
  {
  }

  lemma KeyWorks(d: Doc, k: string)
    requires IsDoc(d)
    ensures After(d, Key(k)).Some? <==> d.frames != [] && Innermost(d).InObj? && Innermost(d).pending.None?
    ensures Refusal(d, Key(k)) == Structure
    ensures After(d, Key(k)).Some? ==> Added(d, Key(k)) == Comma(Innermost(d).members != []) + Quoted(k) + [':']
    ensures |d.frames| <= MAX_DEPTH
  {
    hide Quoted;
  }

  lemma StartLevels(d: Doc, kind: bv8, c: Call)
    requires IsDoc(d) && After(d, c).Some? && ((c == ObjectStart && kind == OBJECT) || (c == ArrayStart && kind == 0))
    ensures var d' := After(d, c).value;
            && |d'.frames| == |d.frames| + 1 && d'.top == d.top == None && d'.records == d.records
            && (forall i :: 0 <= i < |d.frames| ==> d'.frames[i] == d.frames[i]) && Bits(d'.frames[|d.frames|], true) == kind
  {
  }

  lemma ZeroOrOne(level: bv8)
    ensures level & OBJECT == 0 || level & OBJECT == OBJECT
  {
  }

  lemma EndLevels(d: Doc, c: Call)
    requires IsDoc(d) && After(d, c).Some? && (c == ObjectEnd || c == ArrayEnd)
    ensures var d' := After(d, c).value;
            && d.top.None? && |d'.frames| == |d.frames| - 1 && d'.records == d.records && d'.top.Some? == (d'.frames == [])
            && (forall i :: 0 <= i < |d'.frames| ==> Bits(d'.frames[i], i == |d'.frames| - 1) == Bits(d.frames[i], false))
  {
    if |d.frames| > 1 {
      BitsWithValue(d.frames[|d.frames| - 2], Closed(Innermost(d)));
    }
  }

  lemma KeyLevels(d: Doc, k: string)
    requires IsDoc(d) && After(d, Key(k)).Some?
    ensures var d' := After(d, Key(k)).value;
            && |d'.frames| == |d.frames| && d'.top == d.top && d'.records == d.records
            && (forall i :: 0 <= i < |d.frames| - 1 ==> d'.frames[i] == d.frames[i])
            && d'.frames[|d.frames| - 1] == Innermost(d).(pending := Some(k))
  {
  }

  lemma ScalarLevels(d: Doc, j: Json)
    requires IsDoc(d) && TakesValue(d) && IsScalar(j)
    ensures After(d, Scalar(j)) == Some(WithValue(d, j)) && d.top.None?
    ensures var d' := WithValue(d, j);
            && |d'.frames| == |d.frames| && d'.records == d.records && d'.top.Some? == (d.frames == [])
            && (forall i :: 0 <= i < |d.frames| ==> Bits(d'.frames[i], i == |d.frames| - 1) == Bits(d.frames[i], false))
  {
    if d.frames != [] {
      BitsWithValue(Innermost(d), j);
    }
  }

  /** The text of what is whole is that of its records and its value, and isn't empty. */
  lemma WholeIsText(d: Doc)
    ensures IsWhole(d) ==> TextOf(d) == RenderRecords(d.records) + (if d.top.Some? then Render(d.top.value) else []) && TextOf(d) != ""
  {
  }
}
