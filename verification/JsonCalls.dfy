/** Which calls a JSON writer takes: exactly those that describe values, nested no deeper than it goes. */
module JsonCalls {
  import opened JsonDocument
  import opened Options
  import opened Sequences

  function Afters(d: Doc, calls: seq<Call>): (r: Option<Doc>)
    requires IsDoc(d)
    ensures r.Some? ==> IsDoc(r.value)
  {
    if calls == [] then Some(d)
    else
      match Afters(d, calls[..|calls| - 1])
      case None => None
      case Some(d') => After(d', calls[|calls| - 1])
  }

  lemma AftersMore(d: Doc, calls: seq<Call>, c: Call)
    requires IsDoc(d)
    ensures Afters(d, calls + [c]) == match Afters(d, calls) case None => None case Some(d') => After(d', c)
  {
    InitAndLast(calls, c);
  }

  lemma {:induction false} AftersAppend(d: Doc, a: seq<Call>, b: seq<Call>)
    requires IsDoc(d)
    ensures Afters(d, a + b) == match Afters(d, a) case None => None case Some(d') => Afters(d', b)
  {
    hide After;
    if b == [] {
      assert a + b == a;
    } else {
      var b', c := b[..|b| - 1], b[|b| - 1];
      AftersAppend(d, a, b');
      assert a + b == (a + b') + [c];
      AftersMore(d, a + b', c);
    }
  }

  // ---------- Only what describes values ----------

  /** The text is that of what the calls describe, and the calls are those that describe it. */
  lemma {:induction false} CallsDescribe(calls: seq<Call>)
    requires Afters(EMPTY, calls).Some?
    ensures CallsOf(Afters(EMPTY, calls).value) == calls
  {
    hide After, CallsOf;
    if calls == [] {
      NothingYet();
    } else {
      var before, c := calls[..|calls| - 1], calls[|calls| - 1];
      CallsDescribe(before);
      CallAdds(Afters(EMPTY, before).value, c);
      assert before + [c] == calls;
    }
  }

  lemma NothingYet()
    ensures CallsOf(EMPTY) == [] && TextOf(EMPTY) == "" && IsDoc(EMPTY)
  {
  }

  // ---------- How deep ----------

  function Max(a: nat, b: nat): nat { if a < b then b else a }

  function Depth(j: Json): nat {
    match j
    case Arr(items) => 1 + DepthOfItems(items)
    case Obj(members) => 1 + DepthOfMembers(members)
    case _ => 0
  }

  function DepthOfItems(items: seq<Json>): nat {
    if items == [] then 0 else Max(DepthOfItems(items[..|items| - 1]), Depth(items[|items| - 1]))
  }

  function DepthOfMembers(members: seq<Member>): nat {
    if members == [] then 0 else Max(DepthOfMembers(members[..|members| - 1]), Depth(members[|members| - 1].value))
  }

  function DepthOfFrame(f: Frame): nat {
    if f.InArr? then DepthOfItems(f.items) else DepthOfMembers(f.members)
  }

  /** All values so far leave room for the containers they are in. */
  predicate InDepth(d: Doc) {
    && (forall i :: 0 <= i < |d.frames| ==> i + 1 + DepthOfFrame(d.frames[i]) <= MAX_DEPTH)
    && (d.top.Some? ==> Depth(d.top.value) <= MAX_DEPTH)
    && DepthOfItems(d.records) <= MAX_DEPTH
  }

  lemma WithValueInDepth(d: Doc, j: Json)
    requires IsDoc(d) && TakesValue(d) && InDepth(d) && |d.frames| + Depth(j) <= MAX_DEPTH
    ensures InDepth(WithValue(d, j))
  {
    if d.frames != [] {
      var f := Innermost(d);
      if f.InArr? {
        InitAndLast(f.items, j);
      } else {
        InitAndLast(f.members, Member(f.pending.value, j));
      }
    }
  }

  lemma AfterInDepth(d: Doc, c: Call)
    requires IsDoc(d) && InDepth(d) && After(d, c).Some?
    ensures InDepth(After(d, c).value)
  {
    if c.Scalar? {
      WithValueInDepth(d, c.value);
    } else if c.ObjectEnd? || c.ArrayEnd? {
      assert Depth(Closed(Innermost(d))) == 1 + DepthOfFrame(Innermost(d));
      WithValueInDepth(Outer(d), Closed(Innermost(d)));
    } else if c.RecordEnd? {
      InitAndLast(d.records, d.top.value);
    }
  }

  lemma {:induction false} AftersInDepth(calls: seq<Call>)
    requires Afters(EMPTY, calls).Some?
    ensures InDepth(Afters(EMPTY, calls).value)
  {
    hide After;
    if calls != [] {
      AftersInDepth(calls[..|calls| - 1]);
      AfterInDepth(Afters(EMPTY, calls[..|calls| - 1]).value, calls[|calls| - 1]);
    }
  }

  // ---------- All that describes values ----------

  lemma {:induction false} ValueTaken(d: Doc, j: Json)
    requires IsDoc(d) && TakesValue(d) && |d.frames| + Depth(j) <= MAX_DEPTH
    ensures Afters(d, Calls(j)) == Some(WithValue(d, j))
    decreases j
  {
    if j.Arr? {
      var started := d.(frames := d.frames + [InArr([])]);
      One(d, ArrayStart);
      ItemsTaken(d, j.items);
      AftersAppend(d, [ArrayStart], CallsOfItems(j.items));
      AftersMore(d, [ArrayStart] + CallsOfItems(j.items), ArrayEnd);
      CloseTaken(d, InArr(j.items));
    } else if j.Obj? {
      One(d, ObjectStart);
      MembersTaken(d, j.members);
      AftersAppend(d, [ObjectStart], CallsOfMembers(j.members));
      AftersMore(d, [ObjectStart] + CallsOfMembers(j.members), ObjectEnd);
      CloseTaken(d, InObj(j.members, None));
    } else {
      One(d, Scalar(j));
    }
  }

  lemma One(d: Doc, c: Call)
    requires IsDoc(d)
    ensures Afters(d, [c]) == After(d, c)
  {
    assert [] + [c] == [c];
    AftersMore(d, [], c);
  }

  lemma CloseTaken(d: Doc, f: Frame)
    requires IsDoc(d) && TakesValue(d) && |d.frames| < MAX_DEPTH && (f.InArr? || f.pending.None?)
    ensures IsDoc(d.(frames := d.frames + [f]))
    ensures After(d.(frames := d.frames + [f]), if f.InArr? then ArrayEnd else ObjectEnd) == Some(WithValue(d, Closed(f)))
  {
    InitAndLast(d.frames, f);
    assert Outer(d.(frames := d.frames + [f])) == d;
  }

  /** Between the start of an array and its end, in d. */
  lemma {:induction false} ItemsTaken(d: Doc, items: seq<Json>)
    requires IsDoc(d) && TakesValue(d) && |d.frames| + 1 + DepthOfItems(items) <= MAX_DEPTH
    ensures IsDoc(d.(frames := d.frames + [InArr([])]))
    ensures Afters(d.(frames := d.frames + [InArr([])]), CallsOfItems(items)) == Some(d.(frames := d.frames + [InArr(items)]))
    decreases items
  {
    var d0 := d.(frames := d.frames + [InArr([])]);
    if items != [] {
      var before, j := items[..|items| - 1], items[|items| - 1];
      ItemsTaken(d, before);
      var d1 := d.(frames := d.frames + [InArr(before)]);
      assert before + [j] == items;
      FrameIn(d, InArr(before), j);
      ValueTaken(d1, j);
      AftersAppend(d0, CallsOfItems(before), Calls(j));
    }
  }

  lemma {:induction false} MembersTaken(d: Doc, members: seq<Member>)
    requires IsDoc(d) && TakesValue(d) && |d.frames| + 1 + DepthOfMembers(members) <= MAX_DEPTH
    ensures IsDoc(d.(frames := d.frames + [InObj([], None)]))
    ensures Afters(d.(frames := d.frames + [InObj([], None)]), CallsOfMembers(members)) == Some(d.(frames := d.frames + [InObj(members, None)]))
    decreases members
  {
    var d0 := d.(frames := d.frames + [InObj([], None)]);
    if members != [] {
      var before, m := members[..|members| - 1], members[|members| - 1];
      MembersTaken(d, before);
      var d1 := d.(frames := d.frames + [InObj(before, None)]);
      var d2 := d.(frames := d.frames + [InObj(before, Some(m.key))]);
      assert before + [m] == members && Member(m.key, m.value) == m;
      InitAndLast(d.frames, InObj(before, None));
      assert Outer(d1) == d;
      assert After(d1, Key(m.key)) == Some(d2);
      AftersMore(d0, CallsOfMembers(before), Key(m.key));
      FrameIn(d, InObj(before, Some(m.key)), m.value);
      ValueTaken(d2, m.value);
      AftersAppend(d0, CallsOfMembers(before) + [Key(m.key)], Calls(m.value));
    }
  }

  lemma FrameIn(d: Doc, f: Frame, j: Json)
    requires IsDoc(d) && TakesValue(d) && |d.frames| < MAX_DEPTH && (f.InArr? || f.pending.Some?)
    ensures var d1 := d.(frames := d.frames + [f]);
            IsDoc(d1) && TakesValue(d1) && WithValue(d1, j) == d.(frames := d.frames + [FrameWith(f, j)])
  {
    InitAndLast(d.frames, f);
    assert Outer(d.(frames := d.frames + [f])) == d;
  }

  lemma {:induction false} RecordsTaken(records: seq<Json>)
    requires DepthOfItems(records) <= MAX_DEPTH
    ensures Afters(EMPTY, CallsOfRecords(records)) == Some(Doc(records, [], None))
  {
    hide Calls;
    if records != [] {
      var before, j := records[..|records| - 1], records[|records| - 1];
      RecordsTaken(before);
      assert before + [j] == records;
      ValueTaken(Doc(before, [], None), j);
      AftersAppend(EMPTY, CallsOfRecords(before), Calls(j));
      AftersMore(EMPTY, CallsOfRecords(before) + Calls(j), RecordEnd);
    }
  }

  /** Any calls are taken, and may end there, if and only if they are those that describe records, and
      perhaps one more value, all no deeper than MAX_DEPTH. Which ones is theirs alone to say. */
  lemma TakenExactly(calls: seq<Call>, d: Doc)
    ensures Afters(EMPTY, calls) == Some(d) && IsWhole(d) <==>
              && d.frames == [] && (d.top.Some? || d.records != []) && InDepth(d)
              && calls == CallsOfRecords(d.records) + if d.top.Some? then Calls(d.top.value) else []
  {
    hide Calls, CallsOfRecords;
    if Afters(EMPTY, calls) == Some(d) && IsWhole(d) {
      CallsDescribe(calls);
      AftersInDepth(calls);
      assert CallsOfRecords(d.records) + [] == CallsOfRecords(d.records);
    }
    if && d.frames == [] && (d.top.Some? || d.records != []) && InDepth(d)
       && calls == CallsOfRecords(d.records) + if d.top.Some? then Calls(d.top.value) else []
    {
      RecordsTaken(d.records);
      if d.top.Some? {
        ValueTaken(Doc(d.records, [], None), d.top.value);
        AftersAppend(EMPTY, CallsOfRecords(d.records), Calls(d.top.value));
      } else {
        assert CallsOfRecords(d.records) + [] == CallsOfRecords(d.records);
      }
    }
  }
}
