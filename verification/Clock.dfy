/** The clock certificates are checked by: the time as it was last given, counted on, or a lower bound
    of it, under a monotonic source that may run fast, stop, or go back. */
module Clock {

  datatype Validity = Valid | NotYetValid | Expired

  /** One moment: the true time in milliseconds since 1970, which no code knows, and what the monotonic
      source then reads. */
  datatype Moment = Moment(ghost time: int, ms: nat)

  /** From one moment to another the source gains at most 1%, unless it has gone back. */
  ghost predicate GainsLittle(a: Moment, b: Moment) {
    a.time <= b.time && (a.ms <= b.ms ==> 100 * (b.ms - a.ms) <= 101 * (b.time - a.time))
  }

  /** A time in seconds that is no later than true. */
  ghost predicate IsPast(seconds: int, m: Moment) {
    1000 * seconds <= m.time
  }

  /** A lower bound, but for the second that elapsed less elapsed / 100 rounds up by. */
  ghost predicate IsBound(seconds: int, m: Moment) {
    1000 * seconds < m.time + 1000
  }

  class TrustedClock {
    const hasMonotonic: bool
    var floor: int
    var time: int
    var timeAtMs: nat
    var timeKnown: bool
    var exactForMs: nat
    /** When the time was given, and when the clock was last used. */
    ghost var given: Moment
    ghost var latest: Moment

    /** ebisu_clock_init(), with the week before the source's own date as the floor. */
    constructor (hasMonotonic: bool, floor: int, now: Moment)
      requires IsPast(floor, now)
      ensures this.hasMonotonic == hasMonotonic && this.floor == floor && latest == given == now && Right()
    {
      this.hasMonotonic, this.floor := hasMonotonic, floor;
      time, timeAtMs, timeKnown, exactForMs := 0, 0, false, 24 * 3600 * 1000;
      given, latest := now, now;
    }

    /** The floor is a lower bound, and the time was one as it was given. */
    ghost predicate Right()
      reads this
    {
      && IsBound(floor, latest) && given.time <= latest.time
      && (timeKnown ==> IsPast(time, given) && timeAtMs == given.ms && hasMonotonic)
    }

    /** The next moment comes no earlier than the last, and the source has gained little since the time
        was given. */
    ghost predicate IsNext(now: Moment)
      reads this
    {
      latest.time <= now.time && (timeKnown ==> GainsLittle(given, now))
    }

    /** By the source's reading the time given is still the time, rather than a lower bound, and not below
        the floor. */
    predicate IsExactAt(ms: nat)
      reads this
    {
      timeKnown && timeAtMs <= ms && ms - timeAtMs < exactForMs && time + (ms - timeAtMs) / 1000 >= floor
    }

    /** The time given and what the source has counted since, less 1%, while it hasn't gone back. */
    function LowerBound(ms: nat): int
      reads this
    {
      var e := if ms < timeAtMs then 0 else (ms - timeAtMs) / 1000;
      time + e - e / 100
    }

    /** ebisu_clock_set_exact_for(): from now on a time is exact for so long from when it was given, the one
        given already too. A longer span takes nothing back. */
    method SetExactFor(seconds: nat)
      requires Right()
      modifies this`exactForMs
      ensures Right() && exactForMs == 1000 * seconds
      ensures forall ms: nat :: IsExactAt(ms) ==> timeKnown && ms - timeAtMs < 1000 * seconds
      ensures 1000 * seconds >= old(exactForMs) ==> forall ms: nat :: old(IsExactAt(ms)) ==> IsExactAt(ms)
    {
      exactForMs := seconds * 1000;
    }

    /** Time passes. */
    ghost method Pass(now: Moment)
      requires Right() && IsNext(now)
      modifies this`latest
      ensures Right() && latest == now
    {
      latest := now;
    }

    /** ebisu_clock_set_floor() */
    method SetFloor(f: int, ghost now: Moment)
      requires Right() && IsNext(now) && IsPast(f, now)
      modifies this`floor, this`latest
      ensures Right() && latest == now && floor == if f > old(floor) then f else old(floor)
    {
      latest := now;
      if f > floor {
        floor := f;
      }
    }

    /** ebisu_clock_set_time() */
    method SetTime(t: int, now: Moment) returns (taken: bool)
      requires Right() && IsNext(now) && IsPast(t, now)
      modifies this
      ensures Right() && latest == now && floor == old(floor) && exactForMs == old(exactForMs)
      ensures taken <==> t >= floor && hasMonotonic
      ensures if taken then timeKnown && time == t && given == now
              else timeKnown == old(timeKnown) && time == old(time) && given == old(given)
    {
      latest := now;
      taken := false;
      if t >= floor && hasMonotonic {
        time, timeAtMs, timeKnown, given := t, now.ms, true, now;
        taken := true;
      }
    }

    /** _counted(): the time counted on from the one given, and whether it is fresh enough to be the time
        rather than a lower bound. */
    method Counted(now: Moment) returns (ok: bool, counted: int, exact: bool)
      requires Right() && latest == now && (timeKnown ==> GainsLittle(given, now))
      modifies this`floor, this`timeKnown
      ensures Right() && old(floor) <= floor
      ensures ok <==> old(timeKnown) && old(timeAtMs) <= now.ms
      ensures ok ==> floor == old(floor) && timeKnown
      ensures ok ==> var e := (now.ms - timeAtMs) / 1000; exact == (now.ms - timeAtMs < exactForMs) && counted == time + e - (if exact then 0 else e / 100)
      ensures ok && !exact ==> IsBound(counted, now)
      ensures !ok && old(timeKnown) ==> !timeKnown && floor == if time > old(floor) then time else old(floor)
      ensures !old(timeKnown) ==> floor == old(floor) && !timeKnown
    {
      counted, exact := 0, false;
      if !timeKnown || !hasMonotonic {
        return false, counted, exact;
      }
      if now.ms < timeAtMs {
        // Gone back: it can't count on any more, but the time given is past.
        if time > floor {
          floor := time;
        }
        timeKnown := false;
        return false, counted, exact;
      }
      var elapsedMs := now.ms - timeAtMs;
      var elapsed := elapsedMs / 1000;
      exact := elapsedMs < exactForMs;
      counted := time + elapsed - (if exact then 0 else elapsed / 100);
      LessOnePercent(time, given, now);
      return true, counted, exact;
    }

    /** ebisu_clock_get_time(): the time, or, when it isn't exact, a lower bound of it. */
    method GetTime(now: Moment) returns (t: int, exact: bool)
      requires Right() && IsNext(now)
      modifies this`floor, this`timeKnown, this`latest
      ensures Right() && latest == now && old(floor) <= floor <= t && (timeKnown ==> old(timeKnown))
      ensures !exact ==> IsBound(t, now)
      ensures timeKnown <==> old(timeKnown) && timeAtMs <= now.ms
      ensures floor == if old(timeKnown) && !timeKnown && time > old(floor) then time else old(floor)
      ensures !exact ==> t == if timeKnown && LowerBound(now.ms) > floor then LowerBound(now.ms) else floor
      ensures exact <==> old(IsExactAt(now.ms))
      ensures exact ==> timeKnown && old(timeKnown) && timeAtMs <= now.ms < timeAtMs + exactForMs && t == time + (now.ms - timeAtMs) / 1000
    {
      latest := now;
      var ok, counted, recent := Counted(now);
      // After Counted(), which can raise the floor.
      t, exact := floor, false;
      if ok && counted >= t {
        t, exact := counted, recent;
      }
    }

    /** ebisu_clock_forget_time(): what was counted, less 1% however fresh, becomes the floor. */
    method ForgetTime(now: Moment)
      requires Right() && IsNext(now)
      modifies this`floor, this`timeKnown, this`latest
      ensures Right() && latest == now && old(floor) <= floor && !timeKnown
      ensures var least := if !old(timeKnown) then old(floor) else if timeAtMs <= now.ms then LowerBound(now.ms) else time;
              floor == if least > old(floor) then least else old(floor)
    {
      latest := now;
      var ok, counted, recent := Counted(now);
      if ok {
        if recent {
          var elapsed := counted - time;
          counted := counted - elapsed / 100;
        }
        LessOnePercent(time, given, now);
        if counted > floor {
          floor := counted;
        }
        timeKnown := false;
      }
    }

    /** ebisu_clock_check_validity(): without the exact time a certificate is never not yet valid, and
        only said to have expired if it has. */
    method CheckValidity(notBefore: int, notAfter: int, now: Moment) returns (v: Validity, ghost exact: bool)
      requires Right() && IsNext(now)
      modifies this`floor, this`timeKnown, this`latest
      ensures Right() && latest == now && old(floor) <= floor && (timeKnown ==> old(timeKnown))
      ensures !exact ==> v != NotYetValid && (v == Expired ==> 1000 * notAfter < now.time)
      ensures !exact ==> (v == Expired <==> notAfter < floor || (timeKnown && notAfter < LowerBound(now.ms)))
      ensures exact <==> old(IsExactAt(now.ms))
      ensures exact ==> timeKnown && var t := time + (now.ms - timeAtMs) / 1000;
                v == Judged(t, notBefore, notAfter)
    {
      var t, e := GetTime(now);
      exact := e;
      if t > notAfter {
        return Expired, exact;
      }
      if e && t < notBefore {
        return NotYetValid, exact;
      }
      return Valid, exact;
    }
  }

  /** What is to be said of a certificate at a time. */
  function Judged(t: int, notBefore: int, notAfter: int): Validity {
    if t > notAfter then Expired else if t < notBefore then NotYetValid else Valid
  }

  /** What was counted on from a past time, less 1%, is a lower bound. */
  lemma LessOnePercent(time: int, given: Moment, now: Moment)
    requires IsPast(time, given) && GainsLittle(given, now) && given.ms <= now.ms
    ensures var e := (now.ms - given.ms) / 1000; IsBound(time + e - e / 100, now)
  {
    var ms := now.ms - given.ms;
    var e := ms / 1000;
    var p := e / 100;
    assert 1000 * e <= ms && e < 100 * p + 100;
    assert 100000 * e <= 101 * (now.time - given.time);
  }

  // ---------- Whole runs ----------

  datatype Use = UseExactFor(seconds: nat) | UseFloor(f: int) | UseTime(t: int) | UseGet | UseForget | UseCheck(notBefore: int, notAfter: int)

  /** Moments one after another, between any two of which the source gains little. */
  ghost predicate IsSource(ms: seq<Moment>) {
    forall i, j :: 0 <= i <= j < |ms| ==> GainsLittle(ms[i], ms[j])
  }

  /** What is given is past as it is given. */
  ghost predicate IsHonest(u: Use, m: Moment) {
    match u
    case UseFloor(f) => IsPast(f, m)
    case UseTime(t) => IsPast(t, m)
    case _ => true
  }

  /** What a use of the clock said, and whether by the exact time. */
  datatype Said = Nothing | Time(t: int, exact: bool) | Checked(v: Validity, exact: bool)

  /** How long a time is exact for, as it was last set before use k. */
  function SpanAt(uses: seq<Use>, k: nat, first: nat): nat
    requires k <= |uses|
  {
    if k == 0 then first
    else if uses[k - 1].UseExactFor? then 1000 * uses[k - 1].seconds
    else SpanAt(uses, k - 1, first)
  }

  /** At use i the time given in use j, counted on. */
  function CountedFrom(uses: seq<Use>, moments: seq<Moment>, j: nat, i: nat): int
    requires j < i < |uses| && |moments| == |uses| && uses[j].UseTime?
  {
    uses[j].t + (moments[i].ms - moments[j].ms) / 1000
  }

  /** A time given in use j is fresh enough at use i to be exact. */
  predicate IsFresh(uses: seq<Use>, moments: seq<Moment>, j: nat, i: nat, first: nat) {
    && j < i < |uses| && |moments| == |uses| && uses[j].UseTime?
    && 0 <= moments[i].ms - moments[j].ms < SpanAt(uses, i, first)
  }

  /** What use i said is right: without the exact time, a lower bound, nothing not yet valid, and nothing
      expired that hasn't; with it, by the time given, counted on no longer than it is exact for. */
  ghost predicate IsRight(uses: seq<Use>, moments: seq<Moment>, i: nat, said: Said, first: nat)
    requires i < |uses| == |moments|
  {
    match uses[i]
    case UseGet =>
      && said.Time?
      && if said.exact then exists j: nat :: IsFresh(uses, moments, j, i, first) && said.t == CountedFrom(uses, moments, j, i)
         else IsBound(said.t, moments[i])
    case UseCheck(notBefore, notAfter) =>
      && said.Checked?
      && if said.exact then
           exists j: nat :: IsFresh(uses, moments, j, i, first) && said.v == Judged(CountedFrom(uses, moments, j, i), notBefore, notAfter)
         else said.v != NotYetValid && (said.v == Expired ==> 1000 * notAfter < moments[i].time)
    case _ => said == Nothing
  }

  /** What one use says of a clock with this time, given when its source read atMs, known or not. */
  ghost predicate IsSaid(u: Use, now: Moment, said: Said, known: bool, time: int, atMs: nat, exactForMs: nat) {
    match u
    case UseGet =>
      && said.Time?
      && if said.exact then known && 0 <= now.ms - atMs < exactForMs && said.t == time + (now.ms - atMs) / 1000
         else IsBound(said.t, now)
    case UseCheck(notBefore, notAfter) =>
      && said.Checked?
      && if said.exact then known && 0 <= now.ms - atMs < exactForMs && said.v == Judged(time + (now.ms - atMs) / 1000, notBefore, notAfter)
         else said.v != NotYetValid && (said.v == Expired ==> 1000 * notAfter < now.time)
    case _ => said == Nothing
  }

  lemma SaidIsRight(uses: seq<Use>, moments: seq<Moment>, k: nat, said: Said, first: nat, at: nat,
                    known: bool, time: int, atMs: nat, exactForMs: nat)
    requires k < |uses| == |moments| && IsSaid(uses[k], moments[k], said, known, time, atMs, exactForMs)
    requires uses[k].UseExactFor? || exactForMs == SpanAt(uses, k, first)
    requires known && !uses[k].UseTime? ==> at < k && moments[at].ms == atMs && uses[at] == UseTime(time)
    ensures IsRight(uses, moments, k, said, first)
  {
    if !uses[k].UseTime? && known && at < k && exactForMs == SpanAt(uses, k, first) && 0 <= moments[k].ms - atMs < exactForMs {
      assert IsFresh(uses, moments, at, k, first);
    }
  }

  method UseOnce(clock: TrustedClock, u: Use, now: Moment) returns (ghost said: Said)
    requires clock.Right() && clock.IsNext(now) && IsHonest(u, now)
    modifies clock
    ensures clock.Right() && clock.latest == now && old(clock.floor) <= clock.floor
    ensures clock.exactForMs == if u.UseExactFor? then 1000 * u.seconds else old(clock.exactForMs)
    ensures clock.timeKnown ==> (old(clock.timeKnown) && clock.time == old(clock.time) && clock.given == old(clock.given))
                                || (u == UseTime(clock.time) && clock.given == now)
    ensures IsSaid(u, now, said, clock.timeKnown, clock.time, clock.timeAtMs, clock.exactForMs)
    ensures said.Time? ==> clock.floor <= said.t
    ensures u.UseFloor? ==> u.f <= clock.floor
  {
    hide IsBound, IsPast, GainsLittle;
    said := Nothing;
    match u {
      case UseExactFor(seconds) =>
        clock.SetExactFor(seconds);
        clock.Pass(now);
      case UseFloor(f) => clock.SetFloor(f, now);
      case UseTime(t) => var taken := clock.SetTime(t, now);
      case UseGet =>
        var t, exact := clock.GetTime(now);
        said := Time(t, exact);
      case UseForget => clock.ForgetTime(now);
      case UseCheck(b, a) =>
        var v;
        ghost var exact;
        v, exact := clock.CheckValidity(b, a, now);
        said := Checked(v, exact);
    }
  }

  /** Any uses of the clock, under any such source, however long a time is exact for: whatever it says is
      right, no time is below the floor, and the floor never goes down, or below one that was set. */
  method UseClock(clock: TrustedClock, uses: seq<Use>, moments: seq<Moment>) returns (ghost said: seq<Said>, floors: seq<int>)
    requires clock.Right() && !clock.timeKnown && |moments| == |uses| && IsSource(moments)
    requires forall i :: 0 <= i < |uses| ==> clock.latest.time <= moments[i].time && IsHonest(uses[i], moments[i])
    modifies clock
    ensures |said| == |floors| == |uses|
    ensures forall i :: 0 <= i < |uses| ==> IsRight(uses, moments, i, said[i], old(clock.exactForMs))
    ensures forall i :: 0 <= i < |uses| && said[i].Time? ==> floors[i] <= said[i].t
    ensures forall i, j :: 0 <= i <= j < |uses| ==> floors[i] <= floors[j]
    ensures forall i :: 0 <= i < |uses| && uses[i].UseFloor? ==> uses[i].f <= floors[i]
  {
    hide IsRight, IsSaid, IsHonest;
    said, floors := [], [];
    ghost var at: nat, first := 0, clock.exactForMs;
    for k := 0 to |uses|
      invariant clock.Right() && |said| == |floors| == k && clock.exactForMs == SpanAt(uses, k, first)
      invariant clock.timeKnown ==> at < k && moments[at] == clock.given && uses[at] == UseTime(clock.time)
      invariant k > 0 ==> clock.latest == moments[k - 1] && floors[k - 1] <= clock.floor
      invariant k == 0 ==> clock.latest == old(clock.latest) && !clock.timeKnown
      invariant forall i :: 0 <= i < k ==> IsRight(uses, moments, i, said[i], first)
      invariant forall i :: 0 <= i < k && said[i].Time? ==> floors[i] <= said[i].t
      invariant forall i, j :: 0 <= i <= j < k ==> floors[i] <= floors[j]
      invariant forall i :: 0 <= i < k && uses[i].UseFloor? ==> uses[i].f <= floors[i]
    {
      var now := moments[k];
      assert k > 0 ==> GainsLittle(moments[k - 1], now);
      ghost var what := UseOnce(clock, uses[k], now);
      SaidIsRight(uses, moments, k, what, first, at, clock.timeKnown, clock.time, clock.timeAtMs, clock.exactForMs);
      if clock.timeKnown && uses[k].UseTime? && clock.given == now && clock.time == uses[k].t {
        at := k;
      }
      said, floors := said + [what], floors + [clock.floor];
    }
  }
}
