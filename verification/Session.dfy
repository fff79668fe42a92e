/** A token shared by several clients, each with a lock held through its renewals: who may renew it, and
    when the credentials behind it are tried. */
module Session {
  import opened Numerals
  import opened Options

  const MINUTE: nat := 60000
  const LIFETIME_MAX_SEC: int := 0xFFFF_FFFF
  const GENERATIONS: nat := 0x1_0000_0000
  const CLOCK: nat := 0x1_0000_0000_0000_0000

  datatype Mode = ByTokenEndpoint | ByOnboarding

  /** kii_author_t: which token, of all there have been, and whether a refresh token came with it. */
  datatype Token = Token(serial: nat, refresh: bool)

  /** How the server answered a request for a token, if it did. Onboarding says nothing of a lifetime. */
  datatype Answer = Issued(token: Token, expiresIn: int) | Refused | Failed

  // ---------- The monotonic clock ----------

  /** What the clock reads at a time: 64 bits of it. */
  function Reading(t: nat): nat { t % CLOCK }

  /** The unsigned difference of two readings. */
  function Elapsed(now: nat, at: nat): nat {
    (now - at) % CLOCK
  }

  /** It is never more than has passed, and all of it, unless that is 2^64 ms. */
  lemma ElapsedIsRight(t: nat, since: nat)
    requires since <= t
    ensures Elapsed(Reading(t), Reading(since)) <= t - since
    ensures t - since < CLOCK ==> Elapsed(Reading(t), Reading(since)) == t - since
  {
    var d := t - since;
    assert (t % CLOCK - since % CLOCK) % CLOCK == d % CLOCK by {
      SameRemainder(t % CLOCK - since % CLOCK, d, since / CLOCK - t / CLOCK);
    }
  }

  lemma SameRemainder(a: int, b: int, k: int)
    requires a == b + k * CLOCK
    ensures a % CLOCK == b % CLOCK
  {
    var q := b / CLOCK;
    assert a == (q + k) * CLOCK + b % CLOCK;
  }

  // ---------- Waiting after a refusal ----------

  datatype Outcome = Accepted | Rejected | Unknown

  /** What became of the credentials: each try of them, from when it was decided on to when the answer
      was there, and new ones given. */
  datatype Entry = Tried(asked: nat, answered: nat, outcome: Outcome) | NewCredentials

  /** How many times they have been refused without having been accepted, or replaced, since. */
  function Refusals(h: seq<Entry>): nat {
    if h == [] then 0
    else
      match h[|h| - 1]
      case NewCredentials => 0
      case Tried(_, _, Accepted) => 0
      case Tried(_, _, Rejected) => Refusals(h[..|h| - 1]) + 1
      case Tried(_, _, Unknown) => Refusals(h[..|h| - 1])
  }

  function LastRefusal(h: seq<Entry>): nat {
    if h == [] then 0
    else
      match h[|h| - 1]
      case Tried(_, answered, Rejected) => answered
      case _ => LastRefusal(h[..|h| - 1])
  }

  /** The wait after n refusals in a row. */
  function WaitAfter(n: nat): nat {
    if n == 0 then 0 else (if 5 * Pow2(n - 1) < 60 then 5 * Pow2(n - 1) else 60) * MINUTE
  }

  /** Any try starts as long after the answer that last refused the credentials as the wait after so many
      refusals says. */
  predicate Spaced(h: seq<Entry>) {
    h == [] ||
    var before, e := h[..|h| - 1], h[|h| - 1];
    && Spaced(before)
    && (e.Tried? ==> e.asked <= e.answered && IsOver(before, e.asked))
  }

  /** By then the wait after the last refusal is over. */
  predicate IsOver(h: seq<Entry>, t: nat) {
    Refusals(h) > 0 ==> t >= LastRefusal(h) + WaitAfter(Refusals(h))
  }

  lemma HistoryGrows(h: seq<Entry>, e: Entry)
    ensures (h + [e])[..|h|] == h
    ensures Refusals(h + [e]) == match e case NewCredentials => 0 case Tried(_, _, Accepted) => 0 case Tried(_, _, Rejected) => Refusals(h) + 1 case Tried(_, _, Unknown) => Refusals(h)
    ensures LastRefusal(h + [e]) == if e.Tried? && e.outcome == Rejected then e.answered else LastRefusal(h)
    ensures Spaced(h + [e]) <==> Spaced(h) && (e.Tried? ==> e.asked <= e.answered && IsOver(h, e.asked))
  {
    assert (h + [e])[..|h|] == h;
  }

  // ---------- Renewing before it expires ----------

  /** _renew_after_ms(): after four fifths of the lifetime, or five minutes before its end, whichever is later. */
  function RenewAfter(expiresIn: int): (r: Option<nat>)
    ensures r.Some? <==> 0 < expiresIn <= LIFETIME_MAX_SEC
    ensures r.Some? ==> r.value < 1000 * expiresIn < CLOCK
                        && r.value == if 800 * expiresIn > 1000 * expiresIn - 300000 then 800 * expiresIn else 1000 * expiresIn - 300000
  {
    if expiresIn <= 0 || expiresIn > LIFETIME_MAX_SEC then None
    else
      var lifetime := expiresIn * 1000;
      var margin := lifetime / 5;
      Some(lifetime - if margin > 5 * MINUTE then 5 * MINUTE else margin)
  }

  // ---------- Clients and their session ----------

  /** When a renewal reads the clock: to see whether it is due, to see whether the password may be tried,
      once that was answered, and as it stores a token. */
  datatype Times = Times(due: nat, tried: nat, answered: nat, stored: nat) {
    predicate InOrder() { due <= tried <= answered <= stored }
  }

  /** A kii_t: the token it took from the session, and when. */
  class Client {
    var generation: nat
    var token: Token
    /** How many tokens there had been before it. */
    ghost var seen: nat

    constructor (session: SharedSession)
      requires session.Right()
      ensures token == session.author && generation == session.generation && seen == |session.issued| - 1
    {
      token, generation, seen := session.author, session.generation, |session.issued| - 1;
    }
  }

  class SharedSession {
    var author: Token
    var generation: nat
    var mode: Mode
    var renewAfterMs: Option<nat>
    var storedAtMs: nat
    var password: bool
    var passwordWaitMs: nat
    var passwordRefusedAtMs: nat
    /** The tokens there have been, the last of them the session's, and what became of the credentials. */
    ghost var issued: seq<Token>
    ghost var history: seq<Entry>
    ghost var latest: nat
    /** When the token that is to be renewed in time was stored. */
    ghost var storedAt: nat

    constructor (author: Token, password: bool, ghost t: nat)
      ensures Right() && issued == [author] && history == [] && latest == t && this.author == author && mode == ByTokenEndpoint
    {
      this.author, this.password := author, password;
      generation, mode, renewAfterMs, storedAtMs, passwordWaitMs, passwordRefusedAtMs := 0, ByTokenEndpoint, None, 0, 0, 0;
      issued, history, latest, storedAt := [author], [], t, t;
    }

    /** The generation counts the tokens in 32 bits, and the wait is as long as the refusals in a row make
        it, since the last of them. */
    ghost predicate Right()
      reads this
    {
      && issued != [] && author == issued[|issued| - 1] && generation == (|issued| - 1) % GENERATIONS
      && passwordWaitMs == WaitAfter(Refusals(history)) && Spaced(history)
      && (Refusals(history) > 0 ==> LastRefusal(history) <= latest && passwordRefusedAtMs == Reading(LastRefusal(history)))
      && storedAt <= latest && (renewAfterMs.Some? ==> storedAtMs == Reading(storedAt))
    }

    /** What a client took was the session's. */
    ghost predicate Took(c: Client)
      reads this, c
    {
      c.seen < |issued| && c.token == issued[c.seen] && c.generation == c.seen % GENERATIONS
    }

    /** _sync_locked() */
    method Sync(c: Client)
      requires Right()
      modifies c
      ensures Took(c) && c.seen == |issued| - 1 && c.token == author
    {
      c.token, c.generation, c.seen := author, generation, |issued| - 1;
    }

    /** kii_session_set_password() */
    method SetPassword(password: bool)
      requires Right()
      modifies this`password, this`passwordWaitMs, this`history
      ensures Right() && this.password == password && passwordWaitMs == 0 && history == old(history) + [NewCredentials]
    {
      HistoryGrows(history, NewCredentials);
      this.password, passwordWaitMs, history := password, 0, history + [NewCredentials];
    }

    /** kii_session_set_author() */
    method SetAuthor(token: Token)
      requires Right()
      modifies this`author, this`renewAfterMs, this`generation, this`issued
      ensures Right() && issued == old(issued) + [token] && renewAfterMs == None
    {
      hide Spaced, Refusals, LastRefusal, WaitAfter;
      NextGeneration(|issued| - 1);
      author, renewAfterMs, issued := token, None, issued + [token];
      generation := (generation + 1) % GENERATIONS;
    }

    /** _store_locked() */
    method Store(token: Token, expiresIn: int, t: nat)
      requires Right() && latest <= t
      modifies this`author, this`renewAfterMs, this`storedAtMs, this`generation, this`issued, this`storedAt, this`latest
      ensures Right() && issued == old(issued) + [token] && renewAfterMs == RenewAfter(expiresIn)
      ensures storedAt == latest == t
    {
      hide Spaced, Refusals, LastRefusal, WaitAfter;
      NextGeneration(|issued| - 1);
      author, renewAfterMs, issued := token, RenewAfter(expiresIn), issued + [token];
      if renewAfterMs.Some? {
        storedAtMs := Reading(t);
      }
      generation := (generation + 1) % GENERATIONS;
      storedAt, latest := t, t;
    }

    /** Whether the credentials may be tried, by what the clock then reads. */
    predicate UsableAt(t: nat)
      reads this
    {
      password && (passwordWaitMs == 0 || Elapsed(Reading(t), passwordRefusedAtMs) >= passwordWaitMs)
    }

    /** _password_usable_locked(): never sooner after a refusal than the wait says, and, but for whole
        rounds of the clock, no later. */
    method PasswordUsable(t: nat) returns (usable: bool)
      requires Right() && latest <= t
      ensures usable <==> UsableAt(t)
      ensures usable ==> password && IsOver(history, t)
      ensures !usable ==> !password || (Refusals(history) > 0 && (t - LastRefusal(history) < CLOCK ==> !IsOver(history, t)))
    {
      if !password {
        return false;
      }
      if passwordWaitMs == 0 {
        NoWait(Refusals(history));
        return true;
      }
      ElapsedIsRight(t, LastRefusal(history));
      usable := Elapsed(Reading(t), passwordRefusedAtMs) >= passwordWaitMs;
    }

    /** _password_tried_locked(), of a try decided on some time before. */
    method PasswordTried(outcome: Outcome, ghost asked: nat, answered: nat)
      requires Right() && latest <= asked <= answered && IsOver(history, asked)
      modifies this`passwordWaitMs, this`passwordRefusedAtMs, this`history, this`latest
      ensures Right() && latest == answered && history == old(history) + [Tried(asked, answered, outcome)]
    {
      HistoryGrows(history, Tried(asked, answered, outcome));
      WaitDoubles(Refusals(history));
      if outcome == Accepted {
        passwordWaitMs := 0;
      } else if outcome == Rejected {
        var wait := passwordWaitMs * 2;
        if wait < 5 * MINUTE {
          wait := 5 * MINUTE;
        } else if wait > 60 * MINUTE {
          wait := 60 * MINUTE;
        }
        passwordWaitMs := wait;
        passwordRefusedAtMs := Reading(answered);
      }
      history, latest := history + [Tried(asked, answered, outcome)], answered;
    }

    /** _due_locked() */
    predicate DueAt(t: nat)
      reads this
    {
      renewAfterMs.Some? && Elapsed(Reading(t), storedAtMs) >= renewAfterMs.value
    }

    /** Never before the token's time to be renewed, and, but for whole rounds of the clock, from then on. */
    lemma DueInTime(t: nat)
      requires Right() && latest <= t
      ensures DueAt(t) ==> renewAfterMs.Some? && t >= storedAt + renewAfterMs.value
      ensures renewAfterMs.Some? && t >= storedAt + renewAfterMs.value && t - storedAt < CLOCK ==> DueAt(t)
    {
      hide Spaced, Refusals, LastRefusal, WaitAfter, Elapsed, Reading;
      ElapsedIsRight(t, storedAt);
    }

    /** A renewal has something to ask the server with: a refresh token, or a password that may be tried. */
    predicate CanAsk(t: nat)
      reads this
    {
      UsableAt(t) || (mode == ByTokenEndpoint && author.refresh)
    }

    /** _onboard_again(), with the server's answer, if it is asked. */
    method OnboardAgain(answer: Answer, t: Times) returns (token: Option<Token>, asked: bool)
      requires Right() && latest <= t.tried && t.InOrder()
      modifies this`passwordWaitMs, this`passwordRefusedAtMs, this`history, this`latest
      ensures Right() && latest <= t.answered
      ensures token.Some? <==> asked && answer.Issued?
      ensures token.Some? ==> token.value == answer.token.(refresh := false)
      ensures history == if asked then old(history) + [Tried(t.tried, t.answered, OutcomeOf(answer))] else old(history)
      ensures asked <==> old(UsableAt(t.tried))
      ensures asked ==> password && IsOver(old(history), t.tried)
    {
      hide Spaced, Refusals, LastRefusal, WaitAfter, RenewAfter, Elapsed, Reading, IsOver;
      asked := PasswordUsable(t.tried);
      if !asked {
        return None, false;
      }
      PasswordTried(OutcomeOf(answer), t.tried, t.answered);
      token := if answer.Issued? then Some(answer.token.(refresh := false)) else None;
    }

    /** _kii_session_onboard_again(), for a new MQTT endpoint: whichever token the client had, the session
        gets a new one. */
    method OnboardForEndpoint(c: Client, answer: Answer, t: Times) returns (ok: bool, asked: bool)
      requires Right() && latest <= t.tried && t.InOrder()
      modifies this, c
      ensures Right() && Took(c) && c.seen == |issued| - 1 && latest <= t.stored
      ensures asked <==> old(UsableAt(t.tried))
      ensures ok <==> asked && answer.Issued?
      ensures mode == old(mode) && password == old(password)
      ensures issued == if ok then old(issued) + [answer.token.(refresh := false)] else old(issued)
      ensures renewAfterMs == if ok then None else old(renewAfterMs)
      ensures history == if asked then old(history) + [Tried(t.tried, t.answered, OutcomeOf(answer))] else old(history)
    {
      hide Spaced, Refusals, LastRefusal, WaitAfter, RenewAfter, Elapsed, Reading;
      var token;
      token, asked := OnboardAgain(answer, t);
      if token.Some? {
        Store(token.value, 0, t.stored);
      }
      Sync(c);
      ok := token.Some?;
    }

    /** _kii_session_publish(): what a login or onboarding of a client's own got. */
    method Publish(c: Client, token: Token, expiresIn: int, mode: Mode, t: nat)
      requires Right() && latest <= t
      modifies this`mode, this`author, this`renewAfterMs, this`storedAtMs, this`generation, this`issued, this`storedAt, this`latest, c
      ensures Right() && Took(c) && c.seen == |issued| - 1 && issued == old(issued) + [token] && this.mode == mode
      ensures renewAfterMs == RenewAfter(expiresIn) && storedAt == latest == t
    {
      hide Spaced, Refusals, LastRefusal, WaitAfter, RenewAfter, Reading;
      this.mode := mode;
      Store(token, expiresIn, t);
      Sync(c);
    }

    /** The answer to the refresh token decides, unless it is that the server refuses it. */
    predicate RefreshDecides(toRefresh: Answer)
      reads this
    {
      mode == ByTokenEndpoint && author.refresh && toRefresh != Refused
    }

    /** _renew_locked(): with the answer to the refresh token, if the server is asked about one, and to the
        password, if that is tried. A client whose token isn't the session's any more only takes the new
        one; any other one asks for a token to replace its own. A refresh token stays if none comes with
        the new token. */
    method Renew(c: Client, force: bool, toRefresh: Answer, toPassword: Answer, t: Times) returns (ok: bool, asked: bool)
      requires Right() && Took(c) && latest <= t.due && t.InOrder()
      modifies this, c
      ensures Right() && Took(c) && latest <= t.stored
      ensures c.seen == |issued| - 1 || (ok && !asked && c.seen == old(c.seen) && issued == old(issued) && c.generation == generation)
      ensures asked <==> (|old(issued)| - 1 - old(c.seen)) % GENERATIONS == 0 && (force || old(DueAt(t.due))) && old(CanAsk(t.tried))
      ensures asked && |old(issued)| - 1 - old(c.seen) < GENERATIONS ==> old(c.seen) == |old(issued)| - 1 && old(c.token) == old(author)
      ensures (|old(issued)| - 1 - old(c.seen)) % GENERATIONS != 0 ==> ok && c.seen == |issued| - 1 && issued == old(issued) && history == old(history)
      ensures !asked ==> (ok <==> (|old(issued)| - 1 - old(c.seen)) % GENERATIONS != 0 || !(force || old(DueAt(t.due))))
      ensures asked && old(RefreshDecides(toRefresh)) ==>
                && (ok <==> toRefresh.Issued?) && history == old(history)
                && (ok ==> c.token == toRefresh.token.(refresh := true) && renewAfterMs == RenewAfter(toRefresh.expiresIn))
      ensures asked && !old(RefreshDecides(toRefresh)) ==>
                && (ok <==> old(UsableAt(t.tried)) && toPassword.Issued?)
                && history == old(history) + (if old(UsableAt(t.tried)) then [Tried(t.tried, t.answered, OutcomeOf(toPassword))] else [])
                && (ok && mode == ByTokenEndpoint ==> c.token == toPassword.token && renewAfterMs == RenewAfter(toPassword.expiresIn))
                && (ok && mode == ByOnboarding ==> c.token == toPassword.token.(refresh := false) && renewAfterMs == None)
      ensures issued == if asked && ok then old(issued) + [c.token] else old(issued)
      ensures if asked && ok then storedAt == t.stored else renewAfterMs == old(renewAfterMs) && storedAt == old(storedAt)
      ensures asked && !force ==> old(renewAfterMs).Some? && t.due >= old(storedAt) + old(renewAfterMs).value
      ensures old(renewAfterMs).Some? && t.due >= old(storedAt) + old(renewAfterMs).value && t.due - old(storedAt) < CLOCK ==>
                asked || !old(CanAsk(t.tried)) || (|old(issued)| - 1 - old(c.seen)) % GENERATIONS != 0
      ensures !asked ==> history == old(history)
      ensures mode == old(mode) && password == old(password)
    {
      hide Spaced, Refusals, LastRefusal, WaitAfter, RenewAfter, Elapsed, Reading, IsOver;
      asked := false;
      SameGeneration(c.seen, |issued| - 1);
      DueInTime(t.due);
      if generation != c.generation {
        Sync(c);
        return true, false;
      }
      if !force && !DueAt(t.due) {
        return true, false;
      }
      var got: Option<Token>, expires := None, 0;
      if mode == ByOnboarding {
        got, asked := OnboardAgain(toPassword, t);
      } else {
        var rejected := true;
        if author.refresh {
          asked := true;
          rejected := toRefresh == Refused;
          if toRefresh.Issued? {
            got, expires := Some(toRefresh.token.(refresh := true)), toRefresh.expiresIn;
          }
        }
        if got.None? && rejected {
          var usable := PasswordUsable(t.tried);
          if usable {
            asked := true;
            PasswordTried(OutcomeOf(toPassword), t.tried, t.answered);
            if toPassword.Issued? {
              got, expires := Some(toPassword.token), toPassword.expiresIn;
            }
          }
        }
      }
      if got.Some? {
        Store(got.value, expires, t.stored);
      }
      Sync(c);
      ok := got.Some?;
    }
  }

  /** A section of code that holds the lock, with what the application or the server has for it. */
  datatype Use =
    | Renew(force: bool, toRefresh: Answer, toPassword: Answer) | Onboard(answer: Answer)
    | Publish(token: Token, expiresIn: int, mode: Mode) | SetAuthor(token: Token) | SetPassword(given: bool) | SetMode(mode: Mode) | Sync

  /** A renewal called for, or onboarding for an endpoint: which token the client held, which was the
      session's, whether there was reason to ask the server and something to ask with, whether it was
      asked, and what token came of it. */
  datatype Attempt = Attempt(held: nat, current: nat, able: bool, asked: bool, got: Option<Token>)

  /** The server is asked exactly if there is reason to and the client's token is the session's, or
      2^32 older, or twice that, and so on; for an endpoint, whatever the client's token. */
  predicate IsExact(u: Use, a: Attempt) {
    && a.held <= a.current && (a.asked <==> a.able && (u.Onboard? || (a.current - a.held) % GENERATIONS == 0))
    && (a.asked && !u.Onboard? && a.current - a.held < GENERATIONS ==> a.held == a.current)
    && (a.got.Some? ==> a.asked)
  }

  predicate IsAttempt(u: Use) {
    u.Renew? || u.Onboard?
  }

  /** The token the session has from a use. */
  function Gained(u: Use, a: Option<Attempt>): seq<Token> {
    if u.Publish? || u.SetAuthor? then [u.token]
    else if a.Some? && a.value.got.Some? then [a.value.got.value]
    else []
  }

  function AllGained(uses: seq<Use>, attempts: seq<Option<Attempt>>): seq<Token>
    requires |attempts| == |uses|
  {
    if uses == [] then []
    else
      var n := |uses| - 1;
      AllGained(uses[..n], attempts[..n]) + Gained(uses[n], attempts[n])
  }

  /** Any clients, each with a section of code that holds the lock at a time, in any order, with any
      answers: who asks for a renewal is exact, every token the server issues is the session's once, in
      that order, and tries of refused credentials are spaced as the waits say. */
  method UseSession(session: SharedSession, clients: seq<Client>, uses: seq<Use>, who: seq<nat>, start: nat)
      returns (ghost attempts: seq<Option<Attempt>>)
    requires session.Right() && session.latest <= start && clients != [] && |who| == |uses|
    requires forall i :: 0 <= i < |clients| ==> session.Took(clients[i])
    modifies session, clients
    ensures session.Right() && Spaced(session.history) && forall i :: 0 <= i < |clients| ==> session.Took(clients[i])
    ensures |attempts| == |uses| && forall i :: 0 <= i < |uses| ==>
              (attempts[i].Some? <==> IsAttempt(uses[i])) && (attempts[i].Some? ==> IsExact(uses[i], attempts[i].value))
    ensures session.issued == old(session.issued) + AllGained(uses, attempts)
  {
    hide Spaced, Refusals, LastRefusal, WaitAfter, IsExact, IsAttempt, Gained;
    attempts := [];
    var now := start;
    for k := 0 to |uses|
      invariant session.Right() && session.latest <= now && forall i :: 0 <= i < |clients| ==> session.Took(clients[i])
      invariant |attempts| == k && forall i :: 0 <= i < k ==>
                  (attempts[i].Some? <==> IsAttempt(uses[i])) && (attempts[i].Some? ==> IsExact(uses[i], attempts[i].value))
      invariant session.issued == old(session.issued) + AllGained(uses[..k], attempts)
    {
      ghost var before := session.issued;
      var d0: nat, d1: nat, d2: nat, d3: nat := *, *, *, *;
      var t := Times(now + d0, now + d0 + d1, now + d0 + d1 + d2, now + d0 + d1 + d2 + d3);
      ghost var a := UseOnce(session, clients[who[k] % |clients|], uses[k], t);
      GainedMore(uses[..k], attempts, uses[k], a);
      assert uses[..k + 1] == uses[..k] + [uses[k]];
      attempts, now := attempts + [a], t.stored;
    }
    assert uses[..|uses|] == uses;
  }

  lemma GainedMore(uses: seq<Use>, attempts: seq<Option<Attempt>>, u: Use, a: Option<Attempt>)
    requires |attempts| == |uses|
    ensures AllGained(uses + [u], attempts + [a]) == AllGained(uses, attempts) + Gained(u, a)
  {
    assert (uses + [u])[..|uses|] == uses && (attempts + [a])[..|uses|] == attempts;
  }

  /** One section, of any kind. What it is for is over, and the client's generation is the session's. */
  method UseOnce(session: SharedSession, c: Client, u: Use, t: Times) returns (ghost a: Option<Attempt>)
    requires session.Right() && session.Took(c) && session.latest <= t.due && t.InOrder()
    modifies session, c
    ensures session.Right() && session.Took(c) && session.latest <= t.stored
    ensures (a.Some? <==> IsAttempt(u)) && (a.Some? ==> IsExact(u, a.value))
    ensures a.Some? ==> a.value.held == old(c.seen) && a.value.current == |old(session.issued)| - 1
                        && a.value.able == if u.Renew? then (u.force || old(session.DueAt(t.due))) && old(session.CanAsk(t.tried)) else old(session.UsableAt(t.tried))
    ensures session.issued == old(session.issued) + Gained(u, a)
    ensures u.SetAuthor? || u.SetPassword? || u.SetMode? || c.generation == session.generation
    ensures session.mode == if u.SetMode? || u.Publish? then u.mode else old(session.mode)
    ensures session.password == if u.SetPassword? then u.given else old(session.password)
    ensures u.SetPassword? ==> session.history == old(session.history) + [NewCredentials]
  {
    hide Spaced, Refusals, LastRefusal, WaitAfter, RenewAfter, Elapsed, Reading, IsOver;
    a := None;
    ghost var held, current, able := c.seen, |session.issued| - 1, session.CanAsk(t.tried) && u.Renew? && (u.force || session.DueAt(t.due));
    ghost var usable := session.UsableAt(t.tried);
    match u {
      case Renew(force, toRefresh, toPassword) =>
        var ok, asked := session.Renew(c, force, toRefresh, toPassword, t);
        a := Some(Attempt(held, current, able, asked, if ok && asked then Some(c.token) else None));
      case Onboard(answer) =>
        var ok, asked := session.OnboardForEndpoint(c, answer, t);
        a := Some(Attempt(held, current, usable, asked, if ok then Some(c.token) else None));
      case Publish(token, expiresIn, mode) => session.Publish(c, token, expiresIn, mode, t.stored);
      case SetAuthor(token) => session.SetAuthor(token);
      case SetPassword(given) => session.SetPassword(given);
      case SetMode(mode) =>
        // kii_session_set_renew_mode()
        session.mode := mode;
      case Sync => session.Sync(c);
    }
  }

  /** After n tokens a client that slept through all of them and is then refused asks for a renewal with
      the first one exactly if n is a multiple of 2^32: at 2^32 it replaces a token it never held. */
  method OldAsNew(n: nat, answer: Answer, t: Times) returns (asked: bool, held: Token, current: Token)
    requires t.InOrder()
    ensures held.serial == 0 && current.serial == n
    ensures asked <==> n % GENERATIONS == 0
  {
    hide Spaced, Refusals, LastRefusal, WaitAfter, RenewAfter, Elapsed, Reading, IsOver;
    var session := new SharedSession(Token(0, true), false, t.due);
    var c := new Client(session);
    for k := 0 to n
      invariant session.Right() && session.latest <= t.due && session.Took(c) && c.seen == 0 && c.token == Token(0, true)
      invariant |session.issued| == k + 1 && session.author == Token(k, true) && session.mode == ByTokenEndpoint
    {
      ghost var before := session.issued;
      session.SetAuthor(Token(k + 1, true));
      assert session.issued[0] == before[0];
    }
    held, current := c.token, session.author;
    var ok;
    ok, asked := session.Renew(c, true, answer, answer, t);
  }

  function OutcomeOf(a: Answer): Outcome {
    match a
    case Issued(_, _) => Accepted
    case Refused => Rejected
    case Failed => Unknown
  }

  /** A token ends the wait, a refusal makes it longer, and no answer at all leaves it as it is. */
  lemma AnswerCounts(h: seq<Entry>, asked: nat, answered: nat, a: Answer)
    ensures var h' := h + [Tried(asked, answered, OutcomeOf(a))];
            && Refusals(h') == (match a case Issued(_, _) => 0 case Refused => Refusals(h) + 1 case Failed => Refusals(h))
            && LastRefusal(h') == if a == Refused then answered else LastRefusal(h)
  {
    HistoryGrows(h, Tried(asked, answered, OutcomeOf(a)));
  }

  lemma NoWait(n: nat)
    ensures WaitAfter(n) == 0 <==> n == 0
  {
  }

  lemma {:induction false} WaitDoubles(n: nat)
    ensures WaitAfter(n + 1) == var w := 2 * WaitAfter(n); if w < 5 * MINUTE then 5 * MINUTE else if w > 60 * MINUTE then 60 * MINUTE else w
  {
    if n > 0 {
      assert Pow2(n) == 2 * Pow2(n - 1);
    }
  }

  lemma NextGeneration(n: nat)
    ensures (n + 1) % GENERATIONS == (n % GENERATIONS + 1) % GENERATIONS
  {
  }

  /** Two tokens have the same generation exactly if there is a multiple of 2^32 between them. */
  lemma SameGeneration(a: nat, b: nat)
    requires a <= b
    ensures a % GENERATIONS == b % GENERATIONS <==> (b - a) % GENERATIONS == 0
  {
  }
}
