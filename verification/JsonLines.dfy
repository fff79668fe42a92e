/** Reading JSON Lines: one value a line, fed in pieces of any size, through a buffer the size of a
    record. */
module JsonLines {
  import opened JsonDocument
  import opened JsonGrammar
  import opened JsonText
  import opened Numerals
  import opened Options
  import opened Sequences

  datatype Outcome = Record(line: string) | TooLong | Truncated(line: string) | End

  // ---------- Splitting a whole text ----------

  /** Where the first line of s ends, or s does. */
  function LineEnd(s: string): (p: nat)
    ensures p <= |s| && '\n' !in s[..p] && (p < |s| ==> s[p] == '\n')
  {
    if s == [] || s[0] == '\n' then 0
    else
      var p := LineEnd(s[1..]);
      assert s[..p + 1] == [s[0]] + s[1..][..p];
      p + 1
  }

  /** A line without the '\r' at its end. */
  function Trimmed(l: string): string {
    if l != [] && l[|l| - 1] == '\r' then l[..|l| - 1] else l
  }

  predicate IsBlank(l: string) {
    forall i :: 0 <= i < |l| ==> l[i] == ' ' || l[i] == '\t' || l[i] == '\r'
  }

  /** What a line comes to that can be no longer than max. */
  function OfLine(l: string, max: nat): seq<Outcome> {
    if |l| > max then [TooLong] else if IsBlank(Trimmed(l)) then [] else [Record(Trimmed(l))]
  }

  /** What the lines of s come to that have ended. */
  function Outcomes(s: string, max: nat): seq<Outcome> {
    var p := LineEnd(s);
    if p == |s| then [] else OfLine(s[..p], max) + Outcomes(s[p + 1..], max)
  }

  /** What follows the last of them. */
  function Unended(s: string): string {
    var p := LineEnd(s);
    if p == |s| then s else Unended(s[p + 1..])
  }

  /** What that comes to at the end of the data. */
  function AtEnd(l: string, max: nat): Outcome {
    if |l| > max then TooLong else if IsBlank(Trimmed(l)) then End else Truncated(Trimmed(l))
  }

  lemma LineEndIs(s: string, p: nat)
    requires p <= |s| && '\n' !in s[..p] && (p < |s| ==> s[p] == '\n')
    ensures LineEnd(s) == p
  {
    NoneBefore(s, p);
    NoneBefore(s, LineEnd(s));
  }

  lemma NoneBefore(s: string, p: nat)
    requires p <= |s| && '\n' !in s[..p]
    ensures forall i :: 0 <= i < p ==> s[i] != '\n'
  {
    assert forall i :: 0 <= i < p ==> s[..p][i] == s[i];
  }

  /** A line that has started goes on with what comes. */
  lemma LineGoesOn(l: string, s: string)
    requires '\n' !in l
    ensures LineEnd(l + s) == |l| + LineEnd(s)
  {
    var p := LineEnd(s);
    assert (l + s)[..|l| + p] == l + s[..p];
    LineEndIs(l + s, |l| + p);
  }

  /** What s comes to, and then more with what s leaves of a line before it. */
  lemma {:induction false} OutcomesAppend(s: string, t: string, max: nat)
    ensures Outcomes(s + t, max) == Outcomes(s, max) + Outcomes(Unended(s) + t, max)
    ensures Unended(s + t) == Unended(Unended(s) + t) && '\n' !in Unended(s)
    decreases |s|
  {
    hide OfLine;
    var p := LineEnd(s);
    if p < |s| {
      assert (s + t)[..p] == s[..p];
      LineEndIs(s + t, p);
      assert (s + t)[p + 1..] == s[p + 1..] + t;
      OutcomesAppend(s[p + 1..], t, max);
      Assoc(OfLine(s[..p], max), Outcomes(s[p + 1..], max), Outcomes(Unended(s) + t, max));
    } else {
      assert s[..p] == s;
    }
  }

  // ---------- The reader ----------

  datatype Code = GotRecord | NeedMore | GotTooLong | GotTruncated | GotEnd

  class Lines {
    const buff: array<char>
    var len: nat
    var skipping: bool
    var returned: bool
    /** What has come of the line that hasn't ended. */
    ghost var pending: string

    constructor (buff: array<char>)
      ensures this.buff == buff && Valid() && pending == ""
    {
      this.buff := buff;
      len, skipping, returned := 0, false, false;
      pending := "";
    }

    /** The longest a record can be. */
    function Max(): nat {
      if buff.Length > 0 then buff.Length - 1 else 0
    }

    ghost predicate Valid()
      reads this, buff
    {
      && '\n' !in pending && len <= Max()
      && (skipping <==> |pending| > Max())
      && (skipping ==> len == 0 && !returned)
      && (returned ==> pending == "")
      && (!skipping && !returned ==> len == |pending| && buff[..len] == pending)
    }

    /** _drop_returned() */
    method DropReturned()
      requires Valid()
      modifies this`len, this`returned
      ensures Valid() && !returned
    {
      if returned {
        len, returned := 0, false;
      }
    }

    /** _take_record(): the record in the buffer, unless it is blank. */
    method TakeRecord() returns (taken: bool, line: string)
      requires Valid() && !returned && !skipping
      modifies this, buff
      ensures Valid() && pending == "" && taken == returned == !IsBlank(Trimmed(old(pending)))
      ensures taken ==> line == Trimmed(old(pending)) && |line| < buff.Length && buff[..|line|] == line && buff[|line|] == NUL
    {
      var n := len;
      if n > 0 && buff[n - 1] == '\r' {
        n := n - 1;
      }
      assert buff[..n] == Trimmed(pending);
      line := buff[..n];
      var i := 0;
      while i < n && (buff[i] == ' ' || buff[i] == '\t' || buff[i] == '\r')
        invariant i <= n && IsBlank(line[..i])
      {
        i := i + 1;
      }
      if i == n {
        assert line[..i] == line;
        len, pending := 0, "";
        return false, line;
      }
      assert !IsBlank(line);
      buff[n] := NUL;
      returned, pending := true, "";
      return true, line;
    }

    /** The part of a line that has come is kept, as long as the line fits. */
    method Keep(part: string)
      requires Valid() && !returned && '\n' !in part
      modifies this`len, this`skipping, this`pending, buff
      ensures Valid() && pending == old(pending) + part
    {
      if !skipping && |part| > 0 {
        var room := if buff.Length > 0 then buff.Length - 1 - len else 0;
        if |part| > room {
          skipping, len := true, 0;
        } else {
          forall k | 0 <= k < |part| {
            buff[len + k] := part[k];
          }
          len := len + |part|;
          assert buff[..len] == pending + part;
        }
      }
      pending := pending + part;
    }

    /** The line has ended. */
    method EndLine() returns (code: Option<Code>, line: string)
      requires Valid() && !returned
      modifies this, buff
      ensures Valid() && pending == "" && (code.Some? ==> code.value == GotRecord || code.value == GotTooLong)
      ensures OfLine(old(pending), Max()) == match code case None => [] case Some(c) => [if c == GotTooLong then TooLong else Record(line)]
      ensures code == None ==> !returned
      ensures code == Some(GotRecord) ==> |line| < buff.Length && buff[..|line|] == line && buff[|line|] == NUL
    {
      line := "";
      if skipping {
        skipping, len, pending := false, 0, "";
        return Some(GotTooLong), line;
      }
      var taken;
      taken, line := TakeRecord();
      code := if taken then Some(GotRecord) else None;
    }

    /** jkii_lines_feed() */
    method Feed(data: string) returns (code: Code, consumed: nat, line: string)
      requires Valid()
      modifies this, buff
      ensures Valid() && consumed <= |data|
      ensures code == NeedMore ==> consumed == |data| && Outcomes(old(pending) + data, Max()) == [] && pending == Unended(old(pending) + data)
      ensures code != NeedMore ==> consumed > 0 && pending == "" && Unended(old(pending) + data) == Unended(data[consumed..])
      ensures code == GotRecord ==> Outcomes(old(pending) + data, Max()) == [Record(line)] + Outcomes(data[consumed..], Max())
      ensures code == GotTooLong ==> Outcomes(old(pending) + data, Max()) == [TooLong] + Outcomes(data[consumed..], Max())
      ensures code == NeedMore || code == GotTooLong || code == GotRecord
      ensures code == GotRecord ==> |line| < buff.Length && buff[..|line|] == line && buff[|line|] == NUL
    {
      hide Outcomes, Unended, OfLine, LineEnd;
      line := "";
      DropReturned();
      var i := 0;
      ghost var all := pending + data;
      assert data[0..] == data;
      while i < |data|
        invariant i <= |data| && Valid() && !returned
        invariant Outcomes(all, Max()) == Outcomes(pending + data[i..], Max()) && Unended(all) == Unended(pending + data[i..])
      {
        ghost var l, s := pending, data[i..];
        var end := i + LineEnd(data[i..]);
        LineEndOf(s);
        assert data[i..end] == s[..end - i];
        Keep(data[i..end]);
        Split(l, s, Max());
        if end == |data| {
          assert pending == l + s;
          i := end;
          break;
        }
        assert s[end - i + 1..] == data[end + 1..];
        // The '\n' ends the record, and is consumed with it.
        i := end + 1;
        var ended;
        ended, line := EndLine();
        if ended.Some? {
          return ended.value, i, line;
        }
        assert "" + data[i..] == data[i..];
      }
      NoneLeft(pending, Max());
      assert data[|data|..] == "" && pending + "" == pending;
      return NeedMore, |data|, line;
    }

    /** jkii_lines_finish() */
    method Finish() returns (code: Code, line: string)
      requires Valid()
      modifies this, buff
      ensures Valid() && pending == ""
      ensures AtEnd(old(pending), Max()) == match code case GotTooLong => TooLong case GotTruncated => Truncated(line) case _ => End
      ensures code == GotTooLong || code == GotTruncated || code == GotEnd
    {
      line := "";
      DropReturned();
      if skipping {
        skipping, len, pending := false, 0, "";
        return GotTooLong, line;
      }
      var taken;
      taken, line := TakeRecord();
      return if taken then GotTruncated else GotEnd, line;
    }

    /** The data in whatever pieces it comes: what is left of each is fed again, until none is, and then
        the data ends. */
    method Read(pieces: seq<string>) returns (got: seq<Outcome>)
      requires Valid() && pending == ""
      modifies this, buff
      ensures got == Outcomes(Whole(pieces), Max()) + [AtEnd(Unended(Whole(pieces)), Max())]
    {
      hide Outcomes, Unended, AtEnd;
      got := [];
      NoneLeft("", Max());
      for k := 0 to |pieces|
        invariant Valid() && got == Outcomes(Whole(pieces[..k]), Max()) && pending == Unended(Whole(pieces[..k]))
      {
        assert pieces[..k + 1] == pieces[..k] + [pieces[k]];
        InitAndLast(pieces[..k], pieces[k]);
        OutcomesAppend(Whole(pieces[..k]), pieces[k], Max());
        var more := ReadPiece(pieces[k]);
        got := got + more;
      }
      assert pieces[..|pieces|] == pieces;
      var code, line := Finish();
      got := got + [match code case GotTooLong => TooLong case GotTruncated => Truncated(line) case _ => End];
    }

    method ReadPiece(piece: string) returns (got: seq<Outcome>)
      requires Valid()
      modifies this, buff
      ensures Valid() && got == Outcomes(old(pending) + piece, Max()) && pending == Unended(old(pending) + piece)
    {
      hide Outcomes, Unended;
      got := [];
      var i := 0;
      ghost var all := pending + piece;
      NoneLeft(pending, Max());
      assert piece[0..] == piece;
      while i < |piece|
        invariant i <= |piece| && Valid()
        invariant Outcomes(all, Max()) == got + Outcomes(pending + piece[i..], Max()) && Unended(all) == Unended(pending + piece[i..])
        decreases |piece| - i
      {
        ghost var left := Outcomes(pending + piece[i..], Max());
        var code, consumed, line := Feed(piece[i..]);
        assert piece[i..][consumed..] == piece[i + consumed..];
        assert "" + piece[i + consumed..] == piece[i + consumed..];
        if code == GotRecord {
          Assoc(got, [Record(line)], Outcomes(piece[i + consumed..], Max()));
          got := got + [Record(line)];
        } else if code == GotTooLong {
          Assoc(got, [TooLong], Outcomes(piece[i + consumed..], Max()));
          got := got + [TooLong];
        } else {
          assert piece[i + consumed..] == "" && pending + "" == pending;
          NoneLeft(pending, Max());
        }
        i := i + consumed;
      }
      assert piece[i..] == "" && pending + "" == pending;
      NoneLeft(pending, Max());
    }
  }

  lemma LineEndOf(s: string)
    ensures var p := LineEnd(s); p <= |s| && '\n' !in s[..p]
  {
  }

  /** A line that has started, and what comes. */
  lemma Split(l: string, s: string, max: nat)
    requires '\n' !in l
    ensures var p := LineEnd(s);
            if p == |s| then l + s[..p] == l + s
            else && Outcomes(l + s, max) == OfLine(l + s[..p], max) + Outcomes(s[p + 1..], max)
                 && Unended(l + s) == Unended(s[p + 1..])
  {
    hide OfLine, LineEnd;
    var p := LineEnd(s);
    LineGoesOn(l, s);
    if p == |s| {
      assert s[..|s|] == s;
    } else {
      assert (l + s)[..|l| + p] == l + s[..p] && (l + s)[|l| + p + 1..] == s[p + 1..];
    }
  }

  lemma NoneLeft(l: string, max: nat)
    requires '\n' !in l
    ensures Outcomes(l, max) == [] && Unended(l) == l
  {
    assert l[..|l|] == l;
    LineEndIs(l, |l|);
  }

  /** All pieces in one. */
  function Whole(pieces: seq<string>): string {
    if pieces == [] then [] else Whole(pieces[..|pieces| - 1]) + pieces[|pieces| - 1]
  }

  // ---------- Records as the writer ends them ----------

  /** No control characters. */
  predicate IsPrinted(s: string) {
    forall i :: 0 <= i < |s| ==> s[i] >= ' '
  }

  lemma {:induction false} EscapePrinted(s: string)
    ensures IsPrinted(Escape(s))
  {
    if s != [] {
      EscapePrinted(s[..|s| - 1]);
    }
  }

  lemma {:induction false} NumberPrinted(n: nat)
    ensures IsPrinted(Text(n, Decimal))
  {
    if n >= 10 {
      NumberPrinted(n / 10);
    }
  }

  lemma {:induction false} RenderPrinted(j: Json)
    ensures IsPrinted(Render(j))
    decreases j
  {
    hide Escape, Text;
    match j
    case Num(n) => NumberPrinted(if n < 0 then -n else n);
    case Str(s) => EscapePrinted(s);
    case Arr(items) => ItemsPrinted(items);
    case Obj(members) => MembersPrinted(members);
    case _ =>
  }

  lemma {:induction false} ItemsPrinted(items: seq<Json>)
    ensures IsPrinted(RenderItems(items))
    decreases items
  {
    hide Render;
    if items != [] {
      ItemsPrinted(items[..|items| - 1]);
      RenderPrinted(items[|items| - 1]);
    }
  }

  lemma {:induction false} MembersPrinted(members: seq<Member>)
    ensures IsPrinted(RenderMembers(members))
    decreases members
  {
    hide Render, Escape;
    if members != [] {
      MembersPrinted(members[..|members| - 1]);
      EscapePrinted(members[|members| - 1].key);
      RenderPrinted(members[|members| - 1].value);
    }
  }

  /** A rendered value is a line of its own, as it is. */
  lemma RenderIsLine(j: Json, max: nat)
    requires |Render(j)| <= max
    ensures OfLine(Render(j), max) == [Record(Render(j))] && '\n' !in Render(j)
  {
    hide Render, IsPrinted;
    RenderPrinted(j);
    PrintedIsLine(Render(j));
    RenderStarts(j, []);
    assert Render(j) + [] == Render(j);
    FirstIsNoSpace(Render(j));
  }

  lemma PrintedIsLine(s: string)
    requires IsPrinted(s)
    ensures Trimmed(s) == s && '\n' !in s
  {
  }

  lemma FirstIsNoSpace(s: string)
    requires s != [] && SkipSpace(s) == s
    ensures !IsBlank(s)
  {
    var t := SkipSpace(s[1..]);
  }

  /** Records that fit, ended as the writer ends them, are read back one by one, unchanged. */
  lemma {:induction false} RecordsRead(records: seq<Json>, max: nat)
    requires forall i :: 0 <= i < |records| ==> |Render(records[i])| <= max
    ensures Outcomes(RenderRecords(records), max) == seq(|records|, i requires 0 <= i < |records| => Record(Render(records[i])))
    ensures Unended(RenderRecords(records)) == ""
  {
    hide Render, OfLine, Outcomes, Unended;
    NoneLeft("", max);
    if records != [] {
      var before, j := records[..|records| - 1], records[|records| - 1];
      RecordsRead(before, max);
      RenderIsLine(j, max);
      Assoc(RenderRecords(before), Render(j), ['\n']);
      OutcomesAppend(RenderRecords(before), Render(j) + ['\n'], max);
      OneLine(Render(j), max);
      assert "" + (Render(j) + ['\n']) == Render(j) + ['\n'];
    }
  }

  /** A line is the record before its LF or CRLF, unless it is blank, or doesn't fit with its CR. */
  lemma LineComesTo(l: string, max: nat)
    requires '\n' !in l && (l != "" ==> l[|l| - 1] != '\r')
    ensures var got := if forall i :: 0 <= i < |l| ==> l[i] in " \t\r" then [] else [Record(l)];
            && Outcomes(l + "\n", max) == (if |l| > max then [TooLong] else got) && Unended(l + "\n") == ""
            && Outcomes(l + "\r\n", max) == (if |l| + 1 > max then [TooLong] else got) && Unended(l + "\r\n") == ""
  {
    hide Outcomes, Unended;
    assert l + "\r\n" == (l + "\r") + ['\n'] && (l + "\r")[..|l|] == l;
    OneLine(l + "\r", max);
    OneLine(l, max);
    assert forall i :: 0 <= i < |l| ==> (l[i] in " \t\r" <==> l[i] == ' ' || l[i] == '\t' || l[i] == '\r');
  }

  lemma OneLine(l: string, max: nat)
    requires '\n' !in l
    ensures Outcomes(l + ['\n'], max) == OfLine(l, max) && Unended(l + ['\n']) == ""
  {
    hide OfLine;
    var s := l + ['\n'];
    assert s[..|l|] == l && s[|l| + 1..] == "";
    LineEndIs(s, |l|);
    NoneLeft("", max);
  }
}
