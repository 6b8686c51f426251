/** The portal's in-memory tables and the methods that update them under the portal's lock
    (internal/core/tenant_service.go). Clock readings, generated tokens and codes, and what
    the tenant registry answers are parameters. Each critical section takes a step of the reset
    protocol or of the login limiter, so whatever is proved of their runs holds of the portal. */
module TenantPortal {
  import opened Durations
  import opened SlidingWindow
  import opened PasswordReset
  import opened ResetLimits
  import opened ResetTrace
  import Login = LoginLimiter
  import Text

  class Portal {
    const hash: Hash
    var pendingResets: map<string, Pending>
    var resetRateLimiter: Log
    var resetNotFoundFailures: Log
    var loginFailures: Log

    /** The reset calls so far and the system they lead to. */
    ghost var calls: seq<Timed>
    ghost var system: System
    /** The login steps so far and the state they lead to. */
    ghost var trace: Login.Trace
    ghost var logins: Login.State

    function State(): Tables
      reads this
    {
      Tables(pendingResets, resetRateLimiter, resetNotFoundFailures)
    }

    /** The tables are those of a run of the protocol, the failures those of a run of logins. */
    ghost predicate Valid()
      reads this
    {
      && Run(hash, calls) == Text.Some(system) && system.tables == State()
      && Login.Run(trace) == Text.Some(logins) && logins.failures == loginFailures
    }

    constructor (hash: Hash)
      ensures Valid() && this.hash == hash && calls == [] && trace == Login.Nothing
    {
      this.hash := hash;
      pendingResets, resetRateLimiter, resetNotFoundFailures, loginFailures := map[], map[], map[], map[];
      calls, system, trace, logins := [], PasswordReset.START, Login.Nothing, Login.START;
    }

    // ---- What holds of every portal ----

    /** For an email: at most three admitted requests an hour, and if its tokens are issued within
        `delay` of that, at most thirty wrong codes an hour and fifteen more for every hour of the
        delay. For a request: at most five wrong codes and one password change. */
    lemma ResetBounds(email: string, delay: nat, from: int, r: nat)
      requires Valid()
      ensures Invariant(system)
      ensures Count(TimesOf(system.requests, email), from, from + HOUR) <= 3
      ensures Prompt(system.requests, email, delay) ==>
        Guesses(system.requests, system.wrongCodes, email, |system.requests|, from, from + HOUR) <= 30 + 15 * Hours(delay)
      ensures r < |system.requests| ==> Marks(system.wrongCodes, r) <= 5 && Marks(system.consumptions, r) <= 1
    {
      PasswordReset.RunKeeps(hash, calls);
      AdmissionsPerHour(hash, calls, system, email, from);
      if Prompt(system.requests, email, delay) {
        WrongCodesPerHour(hash, calls, system, email, delay, from);
      }
    }

    /** With at most `k` logins in flight, at most 4 + k failures in any hour and 9 + k in any
        day since the email's last success. */
    lemma LoginBounds(email: string, k: nat, from: int)
      requires Valid() && Login.AtMost(trace, email, k)
      ensures Count(Login.FailuresSince(trace, email), from, from + HOUR) <= 4 + k
      ensures Count(Login.FailuresSince(trace, email), from, from + DAY) <= 9 + k
    {
      Login.FailuresPerWindow(trace, logins, email, k, from);
    }

    // ---- Password reset ----

    lemma RunExtends(c: Call, now: int)
      requires Valid() && Enabled(hash, system, c, now)
      ensures Run(hash, calls + [Timed(c, now)]) == Text.Some(Next(hash, system, c, now))
    {
      assert (calls + [Timed(c, now)])[..|calls|] == calls;
    }

    /** `checkResetRateLimit`. */
    method CheckResetRateLimit(email: string, now: int) returns (ok: bool)
      modifies this`resetRateLimiter
      ensures ok == Admits(old(resetRateLimiter), email, now, HOUR, 3)
      ensures resetRateLimiter == Pruned(old(resetRateLimiter), email, now - HOUR)
    {
      if email !in resetRateLimiter {
        return true;
      }
      var valid := FilterRecent(resetRateLimiter[email], now - RATE_WINDOW);
      resetRateLimiter := resetRateLimiter[email := valid];
      return |valid| < RATE_MAX;
    }

    /** `checkResetNotFoundRateLimit`. */
    method CheckNotFoundRateLimit(email: string, now: int) returns (ok: bool)
      modifies this`resetNotFoundFailures
      ensures ok == Admits(old(resetNotFoundFailures), email, now, DAY, 5)
      ensures resetNotFoundFailures == Pruned(old(resetNotFoundFailures), email, now - DAY)
    {
      if email !in resetNotFoundFailures {
        return true;
      }
      var valid := FilterRecent(resetNotFoundFailures[email], now - NOT_FOUND_WINDOW);
      resetNotFoundFailures := resetNotFoundFailures[email := valid];
      return |valid| < NOT_FOUND_MAX;
    }

    /** The first critical section of `RequestPasswordReset`. An admitted request is open under the
        next number, which is kept for the proofs only. */
    method BeginReset(email: string, now: int) returns (r: BeginOutcome)
      requires Valid() && Enabled(hash, system, Call.BeginReset(email), now)
      modifies this
      ensures Valid() && r == Begin(old(State()), email, now).1
      ensures r.Entered? <==> email != "" && Count(TimesOf(old(system).requests, email), now - HOUR + 1, now + 1) < 3
      ensures system == Next(hash, old(system), Call.BeginReset(email), now)
      ensures r.Entered? ==> |old(system).requests| in system.open
      ensures logins == old(logins) && trace == old(trace)
    {
      ghost var c := Call.BeginReset(email);
      RunExtends(c, now);
      AdmittedExactly(hash, calls, system, email, now);
      r := TakeRequest(email, now);
      calls, system := calls + [Timed(c, now)], Next(hash, system, c, now);
    }

    method TakeRequest(email: string, now: int) returns (r: BeginOutcome)
      modifies this`resetRateLimiter
      ensures (State(), r) == Begin(old(State()), email, now)
    {
      if email == "" {
        return NoEmail;
      }
      var ok := CheckResetRateLimit(email, now);
      if !ok {
        return Limited;
      }
      resetRateLimiter := resetRateLimiter[email := Times(resetRateLimiter, email) + [now]];
      return Entered;
    }

    /** `RequestPasswordReset` once the registry has answered; the caller is told the same whatever
        the outcome. */
    method FinishReset(number: nat, email: string, tenant: Tenant, token: string, code: string, now: int)
      returns (r: FinishOutcome)
      requires Valid() && Enabled(hash, system, Call.FinishReset(number, tenant, token, code), now)
      requires system.requests[number].email == email
      modifies this
      ensures Valid() && r == Finish(old(State()), hash, number, email, tenant, token, code, now).1
      ensures system == Next(hash, old(system), Call.FinishReset(number, tenant, token, code), now)
      ensures logins == old(logins) && trace == old(trace)
    {
      ghost var c := Call.FinishReset(number, tenant, token, code);
      RunExtends(c, now);
      r := TakeAnswer(number, email, tenant, token, code, now);
      calls, system := calls + [Timed(c, now)], Next(hash, system, c, now);
    }

    method TakeAnswer(number: nat, email: string, tenant: Tenant, token: string, code: string, now: int)
      returns (r: FinishOutcome)
      modifies this`pendingResets, this`resetNotFoundFailures
      ensures (State(), r) == Finish(old(State()), hash, number, email, tenant, token, code, now)
    {
      match tenant
      case NoTenant =>
        var fine := CheckNotFoundRateLimit(email, now);
        if fine {
          resetNotFoundFailures := resetNotFoundFailures[email := Times(resetNotFoundFailures, email) + [now]];
        }
        return NotFound;
      case Inactive =>
        return NotActive;
      case Active(id) =>
        var p := Pending(number, id, email, hash(code), false, now, now + TOKEN_EXPIRY, now + CODE_EXPIRY, 0, MAX_ATTEMPTS);
        pendingResets := pendingResets[KeyOf(hash, token) := p];
        return Issued;
    }

    /** `VerifyResetCode`. */
    method VerifyResetCode(token: string, code: string, newToken: string, now: int) returns (r: VerifyOutcome)
      requires Valid() && Enabled(hash, system, VerifyCode(token, code, newToken), now)
      modifies this
      ensures Valid() && r == Verify(old(State()), hash, token, code, newToken, now).1
      ensures system == Next(hash, old(system), VerifyCode(token, code, newToken), now)
      ensures TokenJudged(old(system), KeyOf(hash, token), hash(code), now, r) == true
      ensures logins == old(logins) && trace == old(trace)
    {
      CodeIsJudged(hash, calls, system, token, code, newToken, now);
      r := PresentCode(token, code, newToken, now);
    }

    method PresentCode(token: string, code: string, newToken: string, now: int) returns (r: VerifyOutcome)
      requires Valid() && Enabled(hash, system, VerifyCode(token, code, newToken), now)
      modifies this
      ensures Valid() && r == Verify(old(system).tables, hash, token, code, newToken, now).1
      ensures system == Next(hash, old(system), VerifyCode(token, code, newToken), now)
      ensures logins == old(logins) && trace == old(trace)
    {
      ghost var c := VerifyCode(token, code, newToken);
      RunExtends(c, now);
      r := TakeCode(token, code, newToken, now);
      calls, system := calls + [Timed(c, now)], Next(hash, system, c, now);
    }

    method TakeCode(token: string, code: string, newToken: string, now: int) returns (r: VerifyOutcome)
      modifies this`pendingResets
      ensures (State(), r) == Verify(old(State()), hash, token, code, newToken, now)
    {
      if token == "" {
        return NoToken;
      }
      if code == "" {
        return NoCode;
      }
      var key := KeyOf(hash, token);
      if key !in pendingResets {
        return UnknownToken;
      }
      var pending := pendingResets[key];
      if now > pending.expiresAt {
        pendingResets := pendingResets - {key};
        return TokenExpired;
      }
      if pending.attempts >= pending.maxAttempts {
        pendingResets := pendingResets - {key};
        return TooManyAttempts;
      }
      if hash(code) != pending.codeHash {
        pendingResets := pendingResets[key := pending.(attempts := pending.attempts + 1)];
        return WrongCode;
      }
      if now > pending.codeExpiresAt {
        pendingResets := pendingResets - {key};
        return CodeExpired;
      }
      pendingResets := pendingResets - {key};
      pendingResets := pendingResets[KeyOf(hash, newToken) := pending.(verified := true)];
      return Verified;
    }

    /** `ResetPassword` up to the point where the token is used up. The tenant whose password is
        to be changed is the one the registry gave for the request. */
    method ResetPassword(token: string, password: string, now: int) returns (r: ResetOutcome)
      requires Valid() && Enabled(hash, system, Call.ResetPassword(token, password), now)
      modifies this
      ensures Valid() && r == Reset(old(State()), hash, token, password, now).1
      ensures system == Next(hash, old(system), Call.ResetPassword(token, password), now)
      ensures r.Consumed? ==>
        && |password| >= 8 && |system.consumptions| == |old(system).consumptions| + 1
        && var m := system.consumptions[|old(system).consumptions|];
        && m.time == now && m.note == r.tenantID && m.request < |system.requests|
        && system.requests[m.request].token.Some? && system.requests[m.request].token.value.tenant == r.tenantID
      ensures logins == old(logins) && trace == old(trace)
    {
      ghost var c := Call.ResetPassword(token, password);
      RunExtends(c, now);
      r := TakePassword(token, password, now);
      calls, system := calls + [Timed(c, now)], Next(hash, system, c, now);
      if r.Consumed? {
        ConsumptionTrace(hash, calls, system, |system.consumptions| - 1);
      }
    }

    method TakePassword(token: string, password: string, now: int) returns (r: ResetOutcome)
      modifies this`pendingResets
      ensures (State(), r) == Reset(old(State()), hash, token, password, now)
    {
      if token == "" {
        return NoVerifiedToken;
      }
      if password == "" {
        return NoPassword;
      }
      if |password| < MIN_PASSWORD {
        return PasswordTooShort;
      }
      var key := KeyOf(hash, token);
      if key !in pendingResets {
        return UnknownReset;
      }
      var pending := pendingResets[key];
      if !pending.verified {
        return NotVerified;
      }
      pendingResets := pendingResets - {key};
      return if now > pending.expiresAt then ResetExpired else Consumed(pending.tenantID);
    }

    // ---- Logins ----

    /** `checkLoginRateLimit`: the login enters exactly if it is allowed. */
    method CheckLoginRateLimit(email: string, now: int, ghost login: nat) returns (ok: bool)
      requires Valid() && Login.Enabled(logins, Login.Enter(login, email), now)
      modifies this`loginFailures, this`trace, this`logins
      ensures Valid() && logins == Login.Next(old(logins), Login.Enter(login, email), now)
      ensures trace == Login.Then(old(trace), Login.Enter(login, email), now)
      ensures ok <==> login in logins.inFlight
      ensures ok <==>
        && Count(Login.FailuresSince(old(trace), email), now - HOUR + 1, now + 1) < 5
        && Count(Login.FailuresSince(old(trace), email), now - DAY + 1, now + 1) < 10
    {
      Login.EnteredExactly(trace, logins, login, email, now);
      ok := CountFailures(email, now);
      trace := Login.Then(trace, Login.Enter(login, email), now);
      logins := Login.Next(logins, Login.Enter(login, email), now);
    }

    /** One pass keeps the last day and counts the last hour. */
    method CountFailures(email: string, now: int) returns (ok: bool)
      modifies this`loginFailures
      ensures ok == Login.Allowed(Times(old(loginFailures), email), now)
      ensures loginFailures == Pruned(old(loginFailures), email, now - DAY)
    {
      if email !in loginFailures {
        return true;
      }
      var times := loginFailures[email];
      var inHour, inDay := 0, 0;
      var valid := [];
      for i := 0 to |times|
        invariant valid == Recent(times[..i], now - DAY) && inDay == |valid|
        invariant inHour == |Recent(times[..i], now - HOUR)|
      {
        assert times[..i + 1][..i] == times[..i];
        if times[i] > now - DAY {
          valid := valid + [times[i]];
          if times[i] > now - HOUR {
            inHour := inHour + 1;
          }
          inDay := inDay + 1;
        }
      }
      assert times[..|times|] == times;
      loginFailures := loginFailures[email := valid];
      return inHour < Login.MAX_PER_HOUR && inDay < Login.MAX_PER_DAY;
    }

    /** `recordLoginFailure` of a login that passed the check. */
    method RecordLoginFailure(email: string, now: int, ghost login: nat)
      requires Valid() && Login.Enabled(logins, Login.Fail(login), now) && logins.inFlight[login] == email
      modifies this`loginFailures, this`trace, this`logins
      ensures Valid() && logins == Login.Next(old(logins), Login.Fail(login), now)
      ensures trace == Login.Then(old(trace), Login.Fail(login), now)
    {
      loginFailures := loginFailures[email := Times(loginFailures, email) + [now]];
      trace := Login.Then(trace, Login.Fail(login), now);
      logins := Login.Next(logins, Login.Fail(login), now);
    }

    /** `clearLoginFailures` of a login that succeeds. */
    method ClearLoginFailures(email: string, now: int, ghost login: nat)
      requires Valid() && Login.Enabled(logins, Login.Succeed(login), now) && logins.inFlight[login] == email
      modifies this`loginFailures, this`trace, this`logins
      ensures Valid() && logins == Login.Next(old(logins), Login.Succeed(login), now)
      ensures trace == Login.Then(old(trace), Login.Succeed(login), now)
    {
      loginFailures := loginFailures - {email};
      trace := Login.Then(trace, Login.Succeed(login), now);
      logins := Login.Next(logins, Login.Succeed(login), now);
    }

    /** A login that passed the check ends with neither, for instance on an internal error. */
    ghost method LeaveLogin(now: int, login: nat)
      requires Valid() && Login.Enabled(logins, Login.Leave(login), now)
      modifies this`trace, this`logins
      ensures Valid() && logins == Login.Next(old(logins), Login.Leave(login), now)
      ensures trace == Login.Then(old(trace), Login.Leave(login), now)
    {
      trace := Login.Then(trace, Login.Leave(login), now);
      logins := Login.Next(logins, Login.Leave(login), now);
    }
  }
}
