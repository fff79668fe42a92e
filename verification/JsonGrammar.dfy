/** JSON as ECMA-404 reads it, for numbers that are integers: what a text says, if it is JSON. */
module JsonGrammar {
  import opened JsonCalls
  import opened JsonDocument
  import opened JsonText
  import opened Numerals
  import opened Options
  import opened Sequences

  predicate IsSpace(c: char) {
    c == ' ' || c == '\t' || c == '\n' || c == '\r'
  }

  function SkipSpace(s: string): (t: string)
    ensures |t| <= |s|
  {
    if s != [] && IsSpace(s[0]) then SkipSpace(s[1..]) else s
  }

  predicate IsDigit(c: char) {
    '0' <= c <= '9'
  }

  /** The digits s starts with. */
  function Digits(s: string): (t: string)
    ensures t <= s && forall i :: 0 <= i < |t| ==> IsDigit(t[i])
  {
    if s != [] && IsDigit(s[0]) then [s[0]] + Digits(s[1..]) else []
  }

  /** What comes before the quote that ends a string. */
  function ReadChars(s: string): (r: Option<(string, string)>)
    ensures r.Some? ==> |r.value.1| < |s|
  {
    if s == [] then None
    else if s[0] == '"' then Some(([], s[1..]))
    else if First(s).None? then None
    else
      FirstIsWritten(s);
      WrittenSize(First(s).value);
      match ReadChars(s[|Written(First(s).value)|..])
      case None => None
      case Some((t, rest)) => Some((Meant(First(s).value) + t, rest))
  }

  function ReadNumber(s: string): (r: Option<(Json, string)>)
    ensures r.Some? ==> |r.value.1| < |s|
  {
    var negative := s != [] && s[0] == '-';
    var t := if negative then s[1..] else s;
    var digits := Digits(t);
    var rest := t[|digits|..];
    if digits == [] || (|digits| > 1 && digits[0] == '0') || (rest != [] && (rest[0] == '.' || rest[0] == 'e' || rest[0] == 'E')) then None
    else
      var n: int := Value(digits, Decimal);
      Some((Num(if negative then -n else n), rest))
  }

  function ReadWord(s: string, word: string, j: Json): (r: Option<(Json, string)>)
    requires word != []
    ensures r.Some? ==> |r.value.1| < |s|
  {
    if word <= s then Some((j, s[|word|..])) else None
  }

  /** The value s starts with, after any space, and what follows it. */
  function ReadValue(s: string): (r: Option<(Json, string)>)
    ensures r.Some? ==> |r.value.1| < |s|
    decreases |s|, 0
  {
    var t := SkipSpace(s);
    if t == [] then None
    else if t[0] == 'n' then ReadWord(t, "null", Null)
    else if t[0] == 't' then ReadWord(t, "true", Bool(true))
    else if t[0] == 'f' then ReadWord(t, "false", Bool(false))
    else if t[0] == '"' then
      match ReadChars(t[1..])
      case None => None
      case Some((chars, rest)) => Some((Str(chars), rest))
    else if t[0] == '[' then
      var u := SkipSpace(t[1..]);
      if u != [] && u[0] == ']' then Some((Arr([]), u[1..]))
      else
        match ReadItems(t[1..])
        case None => None
        case Some((items, rest)) => Some((Arr(items), rest))
    else if t[0] == '{' then
      var u := SkipSpace(t[1..]);
      if u != [] && u[0] == '}' then Some((Obj([]), u[1..]))
      else
        match ReadMembers(t[1..])
        case None => None
        case Some((members, rest)) => Some((Obj(members), rest))
    else ReadNumber(t)
  }

  /** Items, one at least, up to the bracket that ends them. */
  function ReadItems(s: string): (r: Option<(seq<Json>, string)>)
    ensures r.Some? ==> |r.value.1| < |s|
    decreases |s|, 1
  {
    match ReadValue(s)
    case None => None
    case Some((j, after)) =>
      var t := SkipSpace(after);
      if t != [] && t[0] == ']' then Some(([j], t[1..]))
      else if t == [] || t[0] != ',' then None
      else
        match ReadItems(t[1..])
        case None => None
        case Some((items, rest)) => Some(([j] + items, rest))
  }

  function ReadMembers(s: string): (r: Option<(seq<Member>, string)>)
    ensures r.Some? ==> |r.value.1| < |s|
    decreases |s|, 1
  {
    var k := SkipSpace(s);
    if k == [] || k[0] != '"' then None
    else
      match ReadChars(k[1..])
      case None => None
      case Some((key, afterKey)) =>
        var c := SkipSpace(afterKey);
        if c == [] || c[0] != ':' then None
        else
          match ReadValue(c[1..])
          case None => None
          case Some((j, after)) =>
            var t := SkipSpace(after);
            if t != [] && t[0] == '}' then Some(([Member(key, j)], t[1..]))
            else if t == [] || t[0] != ',' then None
            else
              match ReadMembers(t[1..])
              case None => None
              case Some((members, rest)) => Some(([Member(key, j)] + members, rest))
  }

  /** Values with space between them, or none, to the end. */
  function ReadAll(s: string): Option<seq<Json>>
    decreases |s|
  {
    if SkipSpace(s) == [] then Some([])
    else
      match ReadValue(s)
      case None => None
      case Some((j, rest)) =>
        match ReadAll(rest)
        case None => None
        case Some(more) => Some([j] + more)
  }

  // ---------- What was rendered is read ----------

  /** What may follow a number without going on with it. */
  predicate Ends(rest: string) {
    rest == [] || (!IsDigit(rest[0]) && rest[0] != '.' && rest[0] != 'e' && rest[0] != 'E')
  }

  lemma {:induction false} CharsRead(s: string, rest: string)
    ensures ReadChars(Escape(s) + (['"'] + rest)) == Some((s, rest))
  {
    hide First, EscapeChar, Written, Meant, IsItem, ItemOf, Escape;
    var end := ['"'] + rest;
    if s == [] {
      EscapeNothing();
      assert Escape(s) + end == end && end[1..] == rest;
    } else {
      var c, t := s[0], s[1..];
      EscapeFront(c, t);
      assert [c] + t == s;
      ItemOfRight(c);
      CharsRead(t, rest);
      var after := Escape(t) + end;
      Assoc(EscapeChar(c), Escape(t), end);
      WrittenIsFirst(ItemOf(c), after);
      EscapeNoQuote(c);
      assert (EscapeChar(c) + after)[|EscapeChar(c)|..] == after;
    }
  }

  lemma EscapeNothing()
    ensures Escape([]) == []
  {
  }

  lemma EscapeFront(c: char, t: string)
    ensures Escape([c] + t) == EscapeChar(c) + Escape(t)
  {
    EscapeAppend([c], t);
    EscapeMore([], c);
    assert [] + [c] == [c];
  }

  lemma EscapeNoQuote(c: char)
    ensures EscapeChar(c)[0] != '"'
  {
  }

  lemma {:induction false} DigitsRead(s: string, rest: string)
    requires AllDigits(s, Decimal) && Ends(rest)
    ensures Digits(s + rest) == s
  {
    if s == [] {
      assert s + rest == rest;
    } else {
      assert (s + rest)[1..] == s[1..] + rest;
      assert [s[0]] + s[1..] == s;
      DigitsRead(s[1..], rest);
    }
  }

  lemma {:induction false} NoLeadingZero(n: nat)
    ensures |Text(n, Decimal)| > 1 ==> Text(n, Decimal)[0] != '0'
    ensures n > 0 ==> Text(n, Decimal)[0] != '0'
  {
    if n >= 10 {
      NoLeadingZero(n / 10);
    }
  }

  lemma NumberRead(n: int, rest: string)
    requires Ends(rest)
    ensures ReadNumber(Number(n) + rest) == Some((Num(n), rest))
    ensures Number(n)[0] == '-' || IsDigit(Number(n)[0])
  {
    hide Value, Text, Digits;
    var m: nat := if n < 0 then -n else n;
    var text := Text(m, Decimal);
    ValueOfText(m, Decimal);
    NoLeadingZero(m);
    DigitsRead(text, rest);
    assert (text + rest)[|text|..] == rest;
    if n < 0 {
      Assoc(['-'], text, rest);
      HeadAndTail('-', text + rest);
    } else {
      assert IsDigit(text[0]);
    }
  }

  function FrontItems(items: seq<Json>): string {
    if items == [] then [] else Render(items[0]) + (if |items| == 1 then [] else [','] + FrontItems(items[1..]))
  }

  function FrontMembers(members: seq<Member>): string {
    if members == [] then []
    else Quoted(members[0].key) + [':'] + Render(members[0].value) + (if |members| == 1 then [] else [','] + FrontMembers(members[1..]))
  }

  lemma {:induction false} FrontItemsMore(items: seq<Json>, j: Json)
    ensures FrontItems(items + [j]) == FrontItems(items) + (Comma(items != []) + Render(j))
  {
    hide Render;
    if items == [] {
      assert items + [j] == [j];
    } else {
      assert (items + [j])[1..] == items[1..] + [j];
      FrontItemsMore(items[1..], j);
    }
  }

  lemma {:induction false} FrontItemsSame(items: seq<Json>)
    ensures FrontItems(items) == RenderItems(items)
  {
    hide Render;
    if items != [] {
      var before, j := items[..|items| - 1], items[|items| - 1];
      FrontItemsSame(before);
      FrontItemsMore(before, j);
      ItemsMore(before, j);
      assert before + [j] == items;
    }
  }

  lemma {:induction false} FrontMembersMore(members: seq<Member>, m: Member)
    ensures FrontMembers(members + [m]) == FrontMembers(members) + (Comma(members != []) + Quoted(m.key) + [':'] + Render(m.value))
  {
    hide Render, Quoted;
    if members == [] {
      assert members + [m] == [m];
    } else {
      assert (members + [m])[1..] == members[1..] + [m];
      FrontMembersMore(members[1..], m);
    }
  }

  lemma {:induction false} FrontMembersSame(members: seq<Member>)
    ensures FrontMembers(members) == RenderMembers(members)
  {
    hide Render, Quoted;
    if members != [] {
      var before, m := members[..|members| - 1], members[|members| - 1];
      FrontMembersSame(before);
      FrontMembersMore(before, m);
      MembersMore(before, m);
      assert before + [m] == members;
    }
  }

  /** A rendered value doesn't start with space. */
  lemma RenderStarts(j: Json, rest: string)
    ensures SkipSpace(Render(j) + rest) == Render(j) + rest
  {
    if j.Num? {
      NumberRead(j.n, []);
    }
  }

  /** Reading what was rendered gives it back, whatever follows. */
  lemma {:induction false} ValueRead(j: Json, rest: string)
    requires Ends(rest)
    ensures ReadValue(Render(j) + rest) == Some((j, rest))
    decreases j, 1
  {
    RenderStarts(j, rest);
    match j
    case Null => WordRead("null", j, rest);
    case Bool(b) => WordRead(if b then "true" else "false", j, rest);
    case Num(n) => NumberStarts(n, rest);
    case Str(s) => StringRead(s, rest);
    case Arr(items) =>
      if items == [] {
        EmptyRead(j, rest);
      } else {
        ItemsRead(items, rest);
        ArrRead(items, rest);
      }
    case Obj(members) =>
      if members == [] {
        EmptyRead(j, rest);
      } else {
        MembersRead(members, rest);
        ObjRead(members, rest);
      }
  }

  lemma WordRead(word: string, j: Json, rest: string)
    requires (j == Null && word == "null") || (j == Bool(true) && word == "true") || (j == Bool(false) && word == "false")
    ensures ReadValue(word + rest) == Some((j, rest))
  {
    assert SkipSpace(word + rest) == word + rest;
    assert (word + rest)[|word|..] == rest;
  }

  lemma NumberStarts(n: int, rest: string)
    requires Ends(rest)
    ensures ReadValue(Number(n) + rest) == Some((Num(n), rest))
  {
    hide ReadNumber, Number;
    NumberRead(n, rest);
    NumberRead(n, []);
    var s := Number(n) + rest;
    assert s[0] == Number(n)[0];
    assert SkipSpace(s) == s;
  }

  lemma StringRead(t: string, rest: string)
    ensures ReadValue(Quoted(t) + rest) == Some((Str(t), rest))
  {
    hide Escape, ReadChars;
    CharsRead(t, rest);
    QuotedIs(t, rest);
    var s := Quoted(t) + rest;
    assert SkipSpace(s) == s;
  }

  lemma QuotedIs(t: string, rest: string)
    ensures var s := Quoted(t) + rest; s[0] == '"' && s[1..] == Escape(t) + (['"'] + rest)
  {
    hide Escape;
  }

  lemma EmptyRead(j: Json, rest: string)
    requires j == Arr([]) || j == Obj([])
    ensures ReadValue(Render(j) + rest) == Some((j, rest))
  {
    var s := Render(j) + rest;
    assert Render(j) == (if j.Arr? then "[]" else "{}");
    assert SkipSpace(s) == s && SkipSpace(s[1..]) == s[1..] && s[2..] == rest;
    assert s[1..][1..] == rest;
  }

  /** Items and the bracket after them. */
  lemma {:induction false} ItemsRead(items: seq<Json>, rest: string)
    requires items != []
    ensures ReadItems(FrontItems(items) + ([']'] + rest)) == Some((items, rest))
    decreases items, 0
  {
    hide Render, ReadValue;
    var j, more := items[0], items[1..];
    assert [j] + more == items;
    if more == [] {
      ValueRead(j, [']'] + rest);
      HeadAndTail(']', rest);
      assert FrontItems(items) + ([']'] + rest) == Render(j) + ([']'] + rest);
      assert SkipSpace([']'] + rest) == [']'] + rest && [j] == items;
    } else {
      var after := FrontItems(more) + ([']'] + rest);
      ItemsRead(more, rest);
      ValueRead(j, [','] + after);
      assert ([','] + after)[1..] == after;
      assert FrontItems(items) + ([']'] + rest) == Render(j) + ([','] + after);
    }
  }

  lemma ArrRead(items: seq<Json>, rest: string)
    requires items != [] && ReadItems(FrontItems(items) + ([']'] + rest)) == Some((items, rest))
    ensures ReadValue(Render(Arr(items)) + rest) == Some((Arr(items), rest))
  {
    hide RenderItems, FrontItems, ReadItems;
    FrontItemsSame(items);
    FrontStarts(items, [']'] + rest);
    var s := Render(Arr(items)) + rest;
    assert s == ['['] + (FrontItems(items) + ([']'] + rest));
    HeadAndTail('[', FrontItems(items) + ([']'] + rest));
    assert SkipSpace(s) == s;
  }

  /** Items don't start with space, nor as if there were none. */
  lemma FrontStarts(items: seq<Json>, after: string)
    requires items != []
    ensures var s := FrontItems(items) + after; SkipSpace(s) == s && s != [] && s[0] != ']'
  {
    hide Render, FrontItems;
    var r := Render(items[0]);
    var more := if |items| == 1 then [] else [','] + FrontItems(items[1..]);
    FrontIs(items);
    RenderStarts(items[0], more + after);
    RenderFirst(items[0]);
    Assoc(r, more, after);
  }

  lemma FrontIs(items: seq<Json>)
    requires items != []
    ensures FrontItems(items) == Render(items[0]) + if |items| == 1 then [] else [','] + FrontItems(items[1..])
  {
    hide Render;
  }

  lemma RenderFirst(j: Json)
    ensures Render(j)[0] != ']'
  {
    if j.Num? {
      NumberRead(j.n, []);
    }
  }

  lemma {:induction false} MembersRead(members: seq<Member>, rest: string)
    requires members != []
    ensures ReadMembers(FrontMembers(members) + (['}'] + rest)) == Some((members, rest))
    decreases members, 0
  {
    hide Render, ReadValue, Quoted, ReadMembers, ReadChars;
    var m, more := members[0], members[1..];
    assert [m] + more == members && Member(m.key, m.value) == m;
    if more == [] {
      ValueRead(m.value, ['}'] + rest);
      assert FrontMembers(members) + (['}'] + rest) == Quoted(m.key) + ([':'] + (Render(m.value) + (['}'] + rest)));
      MemberRead(m, ['}'] + rest, rest, [], false);
      HeadAndTail('}', rest);
    } else {
      var after := FrontMembers(more) + (['}'] + rest);
      MembersRead(more, rest);
      ValueRead(m.value, [','] + after);
      assert FrontMembers(members) + (['}'] + rest) == Quoted(m.key) + ([':'] + (Render(m.value) + ([','] + after)));
      HeadAndTail(',', after);
      MemberRead(m, [','] + after, rest, more, true);
    }
  }

  /** One member, and what follows it. */
  lemma MemberRead(m: Member, tail: string, rest: string, more: seq<Member>, goesOn: bool)
    requires ReadValue(Render(m.value) + tail) == Some((m.value, tail)) && tail != []
    requires if goesOn then tail[0] == ',' && ReadMembers(tail[1..]) == Some((more, rest)) else tail == ['}'] + rest && more == []
    ensures ReadMembers(Quoted(m.key) + ([':'] + (Render(m.value) + tail))) == Some(([m] + more, rest))
  {
    hide Render, ReadValue, Quoted, Escape, ReadChars;
    var c := [':'] + (Render(m.value) + tail);
    var s := Quoted(m.key) + c;
    CharsRead(m.key, c);
    QuotedIs(m.key, c);
    HeadAndTail(':', Render(m.value) + tail);
    assert SkipSpace(s) == s && SkipSpace(c) == c && SkipSpace(tail) == tail;
    assert Member(m.key, m.value) == m;
    if !goesOn {
      HeadAndTail('}', rest);
      assert [m] + more == [m];
    }
  }

  lemma ObjRead(members: seq<Member>, rest: string)
    requires members != [] && ReadMembers(FrontMembers(members) + (['}'] + rest)) == Some((members, rest))
    ensures ReadValue(Render(Obj(members)) + rest) == Some((Obj(members), rest))
  {
    hide RenderMembers, FrontMembers, ReadMembers;
    FrontMembersSame(members);
    MembersStart(members);
    var s := Render(Obj(members)) + rest;
    var after := FrontMembers(members) + (['}'] + rest);
    assert s == ['{'] + after;
    HeadAndTail('{', after);
    assert SkipSpace(s) == s && SkipSpace(after) == after && after[0] == '"';
  }

  lemma MembersStart(members: seq<Member>)
    requires members != []
    ensures FrontMembers(members) != [] && FrontMembers(members)[0] == '"'
  {
    hide Render, Escape;
  }

  // ---------- All of a document ----------

  lemma {:induction false} LinesRead(records: seq<Json>, rest: string, more: seq<Json>)
    requires ReadAll(rest) == Some(more)
    ensures ReadAll(FrontLines(records) + rest) == Some(records + more)
  {
    hide Render, ReadValue, ReadAll;
    if records == [] {
      assert FrontLines(records) + rest == rest && records + more == more;
    } else {
      var j, after := records[0], FrontLines(records[1..]) + rest;
      LinesRead(records[1..], rest, more);
      ValueRead(j, ['\n'] + after);
      assert FrontLines(records) + rest == Render(j) + (['\n'] + after);
      SpaceSkipped(after);
      OneRead(j, ['\n'] + after, records[1..] + more);
      assert [j] + (records[1..] + more) == records + more;
    }
  }

  lemma SpaceSkipped(s: string)
    ensures ReadAll(['\n'] + s) == ReadAll(s)
  {
    hide First, Render;
    HeadAndTail('\n', s);
    assert SkipSpace(['\n'] + s) == SkipSpace(s);
  }

  lemma OneRead(j: Json, rest: string, more: seq<Json>)
    requires ReadValue(Render(j) + rest) == Some((j, rest)) && ReadAll(rest) == Some(more)
    ensures ReadAll(Render(j) + rest) == Some([j] + more)
  {
    hide Render, ReadValue;
    RenderStarts(j, rest);
  }

  function FrontLines(records: seq<Json>): string {
    if records == [] then [] else Render(records[0]) + ['\n'] + FrontLines(records[1..])
  }

  lemma {:induction false} FrontLinesMore(records: seq<Json>, j: Json)
    ensures FrontLines(records + [j]) == FrontLines(records) + (Render(j) + ['\n'])
  {
    hide Render;
    if records == [] {
      assert records + [j] == [j];
    } else {
      assert (records + [j])[1..] == records[1..] + [j];
      FrontLinesMore(records[1..], j);
      Assoc(Render(records[0]) + ['\n'], FrontLines(records[1..]), Render(j) + ['\n']);
    }
  }

  lemma {:induction false} FrontLinesSame(records: seq<Json>)
    ensures FrontLines(records) == RenderRecords(records)
  {
    hide Render;
    if records != [] {
      var before, j := records[..|records| - 1], records[|records| - 1];
      FrontLinesSame(before);
      FrontLinesMore(before, j);
      assert before + [j] == records;
      Assoc(RenderRecords(before), Render(j), ['\n']);
    }
  }

  /** The text of whatever is whole is read as its records, and its value. */
  lemma WholeIsRead(d: Doc)
    requires IsDoc(d) && IsWhole(d)
    ensures ReadAll(TextOf(d)) == Some(d.records + if d.top.Some? then [d.top.value] else [])
  {
    hide Render, ReadValue;
    FrontLinesSame(d.records);
    assert ReadAll([]) == Some([]);
    if d.top.Some? {
      var j := d.top.value;
      ValueRead(j, []);
      OneRead(j, [], []);
      assert Render(j) + [] == Render(j) && [j] + [] == [j];
      LinesRead(d.records, Render(j), [j]);
      assert TextOf(d) == FrontLines(d.records) + Render(j);
    } else {
      LinesRead(d.records, [], []);
      assert TextOf(d) == FrontLines(d.records) + [];
    }
  }

  /** Any calls that are taken and may end put out what the grammar reads back as the one thing they
      describe. */
  lemma DescribedIsRead(calls: seq<Call>)
    requires IsDoc(EMPTY) && Afters(EMPTY, calls).Some? && IsWhole(Afters(EMPTY, calls).value)
    ensures var d := Afters(EMPTY, calls).value;
            && calls == CallsOfRecords(d.records) + (if d.top.Some? then Calls(d.top.value) else [])
            && TextOf(d) == RenderRecords(d.records) + (if d.top.Some? then Render(d.top.value) else [])
            && ReadAll(TextOf(d)) == Some(d.records + if d.top.Some? then [d.top.value] else [])
  {
    hide Render, Calls, ReadAll, ReadValue, After, CallsOfRecords;
    TakenExactly(calls, Afters(EMPTY, calls).value);
    WholeIsRead(Afters(EMPTY, calls).value);
  }
}
