/** What a JSON writer is told, call by call, and the text that is: trees of values, rendered, one a
    record, and the containers still open on the way there. */
module JsonDocument {
  import opened JsonText
  import opened Numerals
  import opened Options
  import opened Sequences

  const MAX_DEPTH: nat := 16

  datatype Json = Null | Bool(b: bool) | Num(n: int) | Str(s: string) | Arr(items: seq<Json>) | Obj(members: seq<Member>)

  datatype Member = Member(key: string, value: Json)

  // ---------- Rendering ----------

  function Quoted(s: string): string {
    ['"'] + Escape(s) + ['"']
  }

  function Number(n: int): string {
    if n < 0 then ['-'] + Text(-n, Decimal) else Text(n, Decimal)
  }

  function Render(j: Json): (s: string)
    ensures s != []
  {
    match j
    case Null => "null"
    case Bool(b) => if b then "true" else "false"
    case Num(n) => Number(n)
    case Str(s) => Quoted(s)
    case Arr(items) => ['['] + RenderItems(items) + [']']
    case Obj(members) => ['{'] + RenderMembers(members) + ['}']
  }

  function RenderItems(items: seq<Json>): string {
    if items == [] then []
    else RenderItems(items[..|items| - 1]) + Comma(|items| > 1) + Render(items[|items| - 1])
  }

  function RenderMembers(members: seq<Member>): string {
    if members == [] then []
    else
      var m := members[|members| - 1];
      RenderMembers(members[..|members| - 1]) + Comma(|members| > 1) + Quoted(m.key) + [':'] + Render(m.value)
  }

  function Comma(due: bool): string {
    if due then [','] else []
  }

  /** Each record on a line of its own. */
  function RenderRecords(records: seq<Json>): string {
    if records == [] then [] else RenderRecords(records[..|records| - 1]) + Render(records[|records| - 1]) + ['\n']
  }

  // ---------- Calls ----------

  datatype Call = ObjectStart | ObjectEnd | ArrayStart | ArrayEnd | Key(key: string) | Scalar(value: Json) | RecordEnd

  /** The calls that describe a value. */
  function Calls(j: Json): seq<Call> {
    match j
    case Arr(items) => [ArrayStart] + CallsOfItems(items) + [ArrayEnd]
    case Obj(members) => [ObjectStart] + CallsOfMembers(members) + [ObjectEnd]
    case _ => [Scalar(j)]
  }

  function CallsOfItems(items: seq<Json>): seq<Call> {
    if items == [] then [] else CallsOfItems(items[..|items| - 1]) + Calls(items[|items| - 1])
  }

  function CallsOfMembers(members: seq<Member>): seq<Call> {
    if members == [] then []
    else
      var m := members[|members| - 1];
      CallsOfMembers(members[..|members| - 1]) + [Key(m.key)] + Calls(m.value)
  }

  function CallsOfRecords(records: seq<Json>): seq<Call> {
    if records == [] then [] else CallsOfRecords(records[..|records| - 1]) + Calls(records[|records| - 1]) + [RecordEnd]
  }

  // ---------- Where the calls have come to ----------

  /** An open container, with the members it has so far, and the key that waits for its value. */
  datatype Frame = InArr(items: seq<Json>) | InObj(members: seq<Member>, pending: Option<string>)

  /** The records ended, the containers open, the innermost last, and the value at the top, once it is
      whole. */
  datatype Doc = Doc(records: seq<Json>, frames: seq<Frame>, top: Option<Json>)

  const EMPTY: Doc := Doc([], [], None)

  function Innermost(d: Doc): Frame
    requires d.frames != []
  {
    d.frames[|d.frames| - 1]
  }

  function Outer(d: Doc): Doc
    requires d.frames != []
  {
    d.(frames := d.frames[..|d.frames| - 1])
  }

  /** A value can go next. */
  predicate TakesValue(d: Doc) {
    if d.frames == [] then d.top.None? else Innermost(d).InArr? || Innermost(d).pending.Some?
  }

  function WithValue(d: Doc, j: Json): Doc
    requires TakesValue(d)
  {
    if d.frames == [] then d.(top := Some(j))
    else
      var f := Innermost(d);
      Outer(d).(frames := Outer(d).frames + [FrameWith(f, j)])
  }

  function FrameWith(f: Frame, j: Json): Frame
    requires f.InArr? || f.pending.Some?
  {
    if f.InArr? then InArr(f.items + [j]) else InObj(f.members + [Member(f.pending.value, j)], None)
  }

  predicate IsScalar(j: Json) {
    !j.Arr? && !j.Obj?
  }

  function Closed(f: Frame): Json {
    if f.InArr? then Arr(f.items) else Obj(f.members)
  }

  /** Only values are open below the innermost container. */
  predicate IsDoc(d: Doc) {
    && |d.frames| <= MAX_DEPTH
    && (d.frames != [] ==> d.top.None?)
    && (forall i :: 0 <= i < |d.frames| - 1 ==> d.frames[i].InArr? || d.frames[i].pending.Some?)
  }

  /** What a call makes of it, if it can be made there. */
  function After(d: Doc, c: Call): (r: Option<Doc>)
    requires IsDoc(d)
    ensures r.Some? ==> IsDoc(r.value)
  {
    match c
    case ObjectStart => if TakesValue(d) && |d.frames| < MAX_DEPTH then Some(d.(frames := d.frames + [InObj([], None)])) else None
    case ArrayStart => if TakesValue(d) && |d.frames| < MAX_DEPTH then Some(d.(frames := d.frames + [InArr([])])) else None
    case ObjectEnd => if d.frames != [] && Innermost(d).InObj? && Innermost(d).pending.None? then Some(WithValue(Outer(d), Closed(Innermost(d)))) else None
    case ArrayEnd => if d.frames != [] && Innermost(d).InArr? then Some(WithValue(Outer(d), Closed(Innermost(d)))) else None
    case Key(k) =>
      if d.frames != [] && Innermost(d).InObj? && Innermost(d).pending.None?
      then Some(Outer(d).(frames := Outer(d).frames + [Innermost(d).(pending := Some(k))])) else None
    case Scalar(j) => if TakesValue(d) && IsScalar(j) then Some(WithValue(d, j)) else None
    case RecordEnd => if d.frames == [] && d.top.Some? then Some(d.(records := d.records + [d.top.value], top := None)) else None
  }

  /** It can end there: with a value or a record, and nothing open. */
  predicate IsWhole(d: Doc) {
    d.frames == [] && (d.top.Some? || d.records != [])
  }

  // ---------- Its text ----------

  /** The text of an open container. In one below another, what is open is the value it waits for. */
  function OpenText(f: Frame, innermost: bool): string {
    match f
    case InArr(items) => ['['] + RenderItems(items) + Comma(!innermost && items != [])
    case InObj(members, pending) =>
      ['{'] + RenderMembers(members) + (if pending.Some? then Comma(members != []) + Quoted(pending.value) + [':'] else [])
  }

  function OpenTexts(frames: seq<Frame>, all: bool): string {
    if frames == [] then []
    else OpenTexts(frames[..|frames| - 1], false) + OpenText(frames[|frames| - 1], all)
  }

  function TextOf(d: Doc): string {
    RenderRecords(d.records) + OpenTexts(d.frames, true) + if d.top.Some? then Render(d.top.value) else []
  }

  /** What goes before a value: a comma, in an array that has members. */
  function Before(d: Doc): string {
    Comma(d.frames != [] && Innermost(d).InArr? && Innermost(d).items != [])
  }

  /** What a call that can be made adds. */
  function Added(d: Doc, c: Call): string {
    match c
    case ObjectStart => Before(d) + ['{']
    case ArrayStart => Before(d) + ['[']
    case ObjectEnd => ['}']
    case ArrayEnd => [']']
    case Key(k) => Comma(d.frames != [] && Innermost(d).InObj? && Innermost(d).members != []) + Quoted(k) + [':']
    case Scalar(j) => Before(d) + Render(j)
    case RecordEnd => ['\n']
  }

  // ---------- Its calls ----------

  function OpenCalls(f: Frame): seq<Call> {
    match f
    case InArr(items) => [ArrayStart] + CallsOfItems(items)
    case InObj(members, pending) => [ObjectStart] + CallsOfMembers(members) + if pending.Some? then [Key(pending.value)] else []
  }

  function AllOpenCalls(frames: seq<Frame>): seq<Call> {
    if frames == [] then [] else AllOpenCalls(frames[..|frames| - 1]) + OpenCalls(frames[|frames| - 1])
  }

  function CallsOf(d: Doc): seq<Call> {
    CallsOfRecords(d.records) + AllOpenCalls(d.frames) + if d.top.Some? then Calls(d.top.value) else []
  }

  // ---------- Each call adds to both ----------

  /** With the value open below it whole, a container's text goes on with it, and so do its calls. */
  lemma FrameTakes(f: Frame, j: Json)
    requires f.InArr? || f.pending.Some?
    ensures OpenText(FrameWith(f, j), true) == OpenText(f, false) + Render(j)
    ensures OpenCalls(FrameWith(f, j)) == OpenCalls(f) + Calls(j)
  {
    hide Render, Calls, Quoted, RenderItems, RenderMembers, CallsOfItems, CallsOfMembers;
    if f.InArr? {
      ItemsMore(f.items, j);
      Rest(['['], RenderItems(f.items), Comma(f.items != []), Render(j));
      Assoc(['['] + RenderItems(f.items), Comma(f.items != []), Render(j));
      Assoc([ArrayStart], CallsOfItems(f.items), Calls(j));
    } else {
      var m := Member(f.pending.value, j);
      MembersMore(f.members, m);
      var start := Comma(f.members != []) + Quoted(m.key) + [':'];
      Rest(['{'], RenderMembers(f.members), start, Render(j));
      Assoc(['{'] + RenderMembers(f.members), start, Render(j));
      Rest([ObjectStart], CallsOfMembers(f.members), [Key(m.key)], Calls(j));
      Assoc([ObjectStart] + CallsOfMembers(f.members), [Key(m.key)], Calls(j));
    }
  }

  lemma ItemsMore(items: seq<Json>, j: Json)
    ensures RenderItems(items + [j]) == RenderItems(items) + (Comma(items != []) + Render(j))
    ensures CallsOfItems(items + [j]) == CallsOfItems(items) + Calls(j)
  {
    hide Render, Calls;
    InitAndLast(items, j);
    Assoc(RenderItems(items), Comma(items != []), Render(j));
  }

  lemma MembersMore(members: seq<Member>, m: Member)
    ensures RenderMembers(members + [m]) == RenderMembers(members) + (Comma(members != []) + Quoted(m.key) + [':'] + Render(m.value))
    ensures CallsOfMembers(members + [m]) == CallsOfMembers(members) + ([Key(m.key)] + Calls(m.value))
  {
    hide Render, Calls, Quoted;
    InitAndLast(members, m);
    Assoc(CallsOfMembers(members), [Key(m.key)], Calls(m.value));
  }

  lemma OpenTextsMore(frames: seq<Frame>, f: Frame, all: bool)
    ensures OpenTexts(frames + [f], all) == OpenTexts(frames, false) + OpenText(f, all)
    ensures AllOpenCalls(frames + [f]) == AllOpenCalls(frames) + OpenCalls(f)
  {
    hide OpenText, OpenCalls;
    InitAndLast(frames, f);
  }

  /** Before a value, the text with what goes before it is that of the containers with one open below. */
  lemma BeforeValue(d: Doc)
    requires IsDoc(d) && TakesValue(d)
    ensures TextOf(d) + Before(d) == RenderRecords(d.records) + OpenTexts(d.frames, false)
    ensures CallsOf(d) == CallsOfRecords(d.records) + AllOpenCalls(d.frames)
  {
    hide RenderItems, RenderMembers, RenderRecords, Quoted, CallsOfItems, CallsOfMembers, CallsOfRecords, OpenCalls, AllOpenCalls;
    if d.frames != [] {
      var f := Innermost(d);
      assert OpenText(f, true) + Before(d) == OpenText(f, false);
    }
  }

  lemma ValueAdds(d: Doc, j: Json, text: string, calls: seq<Call>)
    requires IsDoc(d) && TakesValue(d)
    requires text == RenderRecords(d.records) + OpenTexts(d.frames, false) + Render(j)
    requires calls == CallsOfRecords(d.records) + AllOpenCalls(d.frames) + Calls(j)
    ensures TextOf(WithValue(d, j)) == text && CallsOf(WithValue(d, j)) == calls
  {
    hide RenderRecords, Render, OpenText, CallsOfRecords, Calls, OpenCalls;
    if d.frames != [] {
      var f, outer := Innermost(d), Outer(d).frames;
      FrameTakes(f, j);
      OpenTextsMore(outer, FrameWith(f, j), true);
      Assoc(OpenTexts(outer, false), OpenText(f, false), Render(j));
      Assoc(RenderRecords(d.records), OpenTexts(d.frames, false), Render(j));
      Assoc(AllOpenCalls(outer), OpenCalls(f), Calls(j));
      Assoc(CallsOfRecords(d.records), AllOpenCalls(d.frames), Calls(j));
    }
  }

  /** A call that can be made adds what it adds to the text, and itself to the calls. */
  lemma CallAdds(d: Doc, c: Call)
    requires IsDoc(d) && After(d, c).Some?
    ensures TextOf(After(d, c).value) == TextOf(d) + Added(d, c)
    ensures CallsOf(After(d, c).value) == CallsOf(d) + [c]
  {
    hide RenderItems, RenderMembers, RenderRecords, Render, CallsOfItems, CallsOfMembers, CallsOfRecords, Calls, Quoted, TextOf, CallsOf;
    match c
    case ObjectStart => StartAdds(d, InObj([], None), c);
    case ArrayStart => StartAdds(d, InArr([]), c);
    case ObjectEnd => EndAdds(d, c);
    case ArrayEnd => EndAdds(d, c);
    case Key(k) => KeyAdds(d, k);
    case Scalar(j) => ScalarAdds(d, j);
    case RecordEnd => RecordEndAdds(d);
  }

  lemma StartAdds(d: Doc, f: Frame, c: Call)
    requires IsDoc(d) && TakesValue(d) && |d.frames| < MAX_DEPTH
    requires (f == InArr([]) && c == ArrayStart) || (f == InObj([], None) && c == ObjectStart)
    ensures var d' := d.(frames := d.frames + [f]); TextOf(d') == TextOf(d) + Added(d, c) && CallsOf(d') == CallsOf(d) + [c]
  {
    hide RenderRecords, CallsOfRecords;
    var d' := d.(frames := d.frames + [f]);
    BeforeValue(d);
    OpenTextsMore(d.frames, f, true);
    assert OpenText(f, true) == (if f.InArr? then ['['] else ['{']) && OpenCalls(f) == [c];
    Assoc(TextOf(d), Before(d), OpenText(f, true));
    Assoc(RenderRecords(d.records), OpenTexts(d.frames, false), OpenText(f, true));
    Assoc(CallsOfRecords(d.records), AllOpenCalls(d.frames), [c]);
  }

  lemma EndAdds(d: Doc, c: Call)
    requires IsDoc(d) && After(d, c).Some? && (c == ObjectEnd || c == ArrayEnd)
    ensures TextOf(After(d, c).value) == TextOf(d) + Added(d, c) && CallsOf(After(d, c).value) == CallsOf(d) + [c]
  {
    hide RenderItems, RenderMembers, RenderRecords, CallsOfItems, CallsOfMembers, CallsOfRecords;
    var f, outer := Innermost(d), Outer(d);
    var j := Closed(f);
    assert Render(j) == OpenText(f, true) + Added(d, c);
    assert Calls(j) == OpenCalls(f) + [c];
    assert TextOf(d) == RenderRecords(d.records) + (OpenTexts(outer.frames, false) + OpenText(f, true));
    assert CallsOf(d) == CallsOfRecords(d.records) + (AllOpenCalls(outer.frames) + OpenCalls(f));
    Rest(RenderRecords(d.records), OpenTexts(outer.frames, false), OpenText(f, true), Added(d, c));
    Rest(CallsOfRecords(d.records), AllOpenCalls(outer.frames), OpenCalls(f), [c]);
    ValueAdds(outer, j, TextOf(d) + Added(d, c), CallsOf(d) + [c]);
  }

  lemma Rest<T>(a: seq<T>, b: seq<T>, c: seq<T>, e: seq<T>)
    ensures a + (b + c) + e == a + b + (c + e)
  {
  }

  lemma KeyAdds(d: Doc, k: string)
    requires IsDoc(d) && After(d, Key(k)).Some?
    ensures TextOf(After(d, Key(k)).value) == TextOf(d) + Added(d, Key(k)) && CallsOf(After(d, Key(k)).value) == CallsOf(d) + [Key(k)]
  {
    hide RenderItems, RenderMembers, RenderRecords, CallsOfItems, CallsOfMembers, CallsOfRecords, Quoted, OpenTexts, AllOpenCalls, OpenText, OpenCalls;
    var f, outer := Innermost(d), Outer(d).frames;
    var f' := f.(pending := Some(k));
    OpenTextsMore(outer, f', true);
    OpenTextsMore(outer, f, true);
    assert outer + [f] == d.frames;
    KeyOpens(f, k);
    Assoc(OpenTexts(outer, false), OpenText(f, true), Added(d, Key(k)));
    Assoc(RenderRecords(d.records), OpenTexts(d.frames, true), Added(d, Key(k)));
    Assoc(AllOpenCalls(outer), OpenCalls(f), [Key(k)]);
    Assoc(CallsOfRecords(d.records), AllOpenCalls(d.frames), [Key(k)]);
  }

  lemma KeyOpens(f: Frame, k: string)
    requires f.InObj? && f.pending.None?
    ensures var f' := f.(pending := Some(k));
            && OpenText(f', true) == OpenText(f, true) + (Comma(f.members != []) + Quoted(k) + [':'])
            && OpenCalls(f') == OpenCalls(f) + [Key(k)]
  {
    hide RenderMembers, CallsOfMembers, Quoted;
  }

  lemma ScalarAdds(d: Doc, j: Json)
    requires IsDoc(d) && TakesValue(d) && IsScalar(j)
    ensures TextOf(WithValue(d, j)) == TextOf(d) + Added(d, Scalar(j)) && CallsOf(WithValue(d, j)) == CallsOf(d) + [Scalar(j)]
  {
    hide RenderItems, RenderMembers, RenderRecords, Render, CallsOfItems, CallsOfMembers, CallsOfRecords, Quoted, TextOf, CallsOf, OpenTexts, AllOpenCalls, Before;
    BeforeValue(d);
    assert Calls(j) == [Scalar(j)];
    Assoc(TextOf(d), Before(d), Render(j));
    ValueAdds(d, j, TextOf(d) + Added(d, Scalar(j)), CallsOf(d) + [Scalar(j)]);
  }

  lemma RecordEndAdds(d: Doc)
    requires IsDoc(d) && After(d, RecordEnd).Some?
    ensures TextOf(After(d, RecordEnd).value) == TextOf(d) + ['\n'] && CallsOf(After(d, RecordEnd).value) == CallsOf(d) + [RecordEnd]
  {
    hide Render, Calls;
    InitAndLast(d.records, d.top.value);
  }
}
