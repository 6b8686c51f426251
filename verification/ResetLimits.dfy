/** How the request limiter and the reset protocol bound guessing together
    (internal/core/tenant_service.go). */
module ResetLimits {
  import opened Text
  import opened Durations
  import opened SlidingWindow
  import opened PasswordReset

  /** When an email's requests were admitted. */
  function TimesOf(requests: seq<Admitted>, email: string): seq<int> {
    if requests == [] then []
    else
      var front, last := TimesOf(requests[..|requests| - 1], email), requests[|requests| - 1];
      if last.email == email then front + [last.time] else front
  }

  lemma {:induction false} TimesOfAppend(requests: seq<Admitted>, a: Admitted, email: string)
    ensures TimesOf(requests + [a], email) ==
              if a.email == email then TimesOf(requests, email) + [a.time] else TimesOf(requests, email)
  {
    assert (requests + [a])[..|requests|] == requests;
  }

  /** The limiter's log, pruned as it is, sees what the full history of admissions sees. */
  predicate SeesHistory(log: Log, requests: seq<Admitted>, email: string, cutoff: int) {
    Recent(Times(log, email), cutoff) == Recent(TimesOf(requests, email), cutoff)
  }

  predicate HistoryOk(requests: seq<Admitted>, email: string, now: int) {
    var times := TimesOf(requests, email);
    Throttled(times, RATE_WINDOW, RATE_MAX) && Ordered(times) && NoLaterThan(times, now)
  }

  predicate LimiterOk(log: Log, requests: seq<Admitted>, now: int, email: string) {
    SeesHistory(log, requests, email, now - RATE_WINDOW) && HistoryOk(requests, email, now)
  }

  lemma StillSees(log: Log, requests: seq<Admitted>, email: string, early: int, late: int)
    requires early <= late && SeesHistory(log, requests, email, early)
    ensures SeesHistory(log, requests, email, late)
    ensures SeesHistory(Pruned(log, email, late), requests, email, late)
  {
    PruneTwice(Times(log, email), early, late);
    PruneTwice(TimesOf(requests, email), early, late);
    PruneTwice(Times(log, email), late, late);
  }

  lemma AdmissionSeen(log: Log, requests: seq<Admitted>, a: Admitted, cutoff: int)
    requires SeesHistory(log, requests, a.email, cutoff)
    ensures SeesHistory(Recorded(log, a.email, a.time), requests + [a], a.email, cutoff)
  {
    TimesOfAppend(requests, a, a.email);
    RecentOfAppend(Times(log, a.email), a.time, cutoff);
    RecentOfAppend(TimesOf(requests, a.email), a.time, cutoff);
  }

  lemma {:induction false} AdmissionThrottled(requests: seq<Admitted>, a: Admitted)
    requires HistoryOk(requests, a.email, a.time) && |Recent(TimesOf(requests, a.email), a.time - RATE_WINDOW)| < RATE_MAX
    ensures HistoryOk(requests + [a], a.email, a.time)
  {
    TimesOfAppend(requests, a, a.email);
    ThrottledAppend(TimesOf(requests, a.email), a.time, RATE_WINDOW, RATE_MAX);
  }

  lemma OthersUnaffected(log: Log, requests: seq<Admitted>, email: string, a: Admitted)
    requires LimiterOk(log, requests, a.time, email) && a.email != email
    ensures LimiterOk(Recorded(log, a.email, a.time), requests + [a], a.time, email)
  {
    TimesOfAppend(requests, a, email);
    assert Times(Recorded(log, a.email, a.time), email) == Times(log, email);
  }

  lemma RefusalKeepsLimiter(log: Log, requests: seq<Admitted>, now: int, email: string, requester: string, time: int)
    requires LimiterOk(log, requests, now, email) && now <= time
    ensures LimiterOk(log, requests, time, email)
    ensures LimiterOk(Pruned(log, requester, time - RATE_WINDOW), requests, time, email)
  {
    StillSees(log, requests, email, now - RATE_WINDOW, time - RATE_WINDOW);
  }

  lemma AdmittedKeepsLimiter(log: Log, requests: seq<Admitted>, now: int, email: string, a: Admitted)
    requires LimiterOk(log, requests, now, email) && now <= a.time
    requires Admits(log, a.email, a.time, RATE_WINDOW, RATE_MAX)
    ensures LimiterOk(Recorded(Pruned(log, a.email, a.time - RATE_WINDOW), a.email, a.time), requests + [a], a.time, email)
  {
    var pruned := Pruned(log, a.email, a.time - RATE_WINDOW);
    RefusalKeepsLimiter(log, requests, now, email, a.email, a.time);
    if a.email == email {
      AdmissionSeen(pruned, requests, a, a.time - RATE_WINDOW);
      AdmissionThrottled(requests, a);
    } else {
      OthersUnaffected(pruned, requests, email, a);
    }
  }

  /** The same requests were admitted at the same times; tokens may differ. */
  predicate SameAdmissions(requests: seq<Admitted>, requests': seq<Admitted>) {
    && |requests'| == |requests|
    && forall i :: 0 <= i < |requests| ==> requests'[i].email == requests[i].email && requests'[i].time == requests[i].time
  }

  lemma {:induction false} SameTimes(requests: seq<Admitted>, requests': seq<Admitted>, email: string)
    requires SameAdmissions(requests, requests')
    ensures TimesOf(requests', email) == TimesOf(requests, email)
  {
    if requests == [] {
    } else {
      SameTimes(requests[..|requests| - 1], requests'[..|requests| - 1], email);
    }
  }

  /** How one state's limiter log and admissions follow from another's. */
  predicate LimiterMove(s: System, s': System, email: string, admitted: Option<Admitted>) {
    match admitted
    case None =>
      && s.now <= s'.now && SameAdmissions(s.requests, s'.requests)
      && (s'.tables.limiter == s.tables.limiter || s'.tables.limiter == Pruned(s.tables.limiter, email, s'.now - RATE_WINDOW))
    case Some(a) =>
      && s.now <= s'.now == a.time && s'.requests == s.requests + [a]
      && Admits(s.tables.limiter, a.email, a.time, RATE_WINDOW, RATE_MAX)
      && s'.tables.limiter == Recorded(Pruned(s.tables.limiter, a.email, a.time - RATE_WINDOW), a.email, a.time)
  }

  lemma CallOnLimiter(h: Hash, s: System, c: Call, time: int) returns (email: string, admitted: Option<Admitted>)
    requires Enabled(h, s, c, time)
    ensures LimiterMove(s, Next(h, s, c, time), email, admitted)
  {
    email, admitted := "", None;
    match c
    case BeginReset(e) =>
      email := e;
      admitted := BeginOnLimiter(h, s, c, time);
    case FinishReset(_, _, _, _) => FinishOnLimiter(h, s, c, time);
    case VerifyCode(_, _, _) =>
    case ResetPassword(_, _) =>
  }

  lemma BeginOnLimiter(h: Hash, s: System, c: Call, time: int) returns (admitted: Option<Admitted>)
    requires Enabled(h, s, c, time) && c.BeginReset?
    ensures LimiterMove(s, Next(h, s, c, time), c.email, admitted)
  {
    admitted := if Begin(s.tables, c.email, time).1.Entered? then Some(Admitted(c.email, time, None)) else None;
  }

  lemma FinishOnLimiter(h: Hash, s: System, c: Call, time: int)
    requires Enabled(h, s, c, time) && c.FinishReset?
    ensures LimiterMove(s, Next(h, s, c, time), "", None)
  {
  }

  lemma RefusalMoveKeeps(s: System, s': System, requester: string, email: string)
    requires LimiterOk(s.tables.limiter, s.requests, s.now, email) && LimiterMove(s, s', requester, None)
    ensures LimiterOk(s'.tables.limiter, s'.requests, s'.now, email)
  {
    var log, pruned := s.tables.limiter, Pruned(s.tables.limiter, requester, s'.now - RATE_WINDOW);
    RefusalKeepsLimiter(log, s.requests, s.now, email, requester, s'.now);
    SameTimes(s.requests, s'.requests, email);
    SameLimiter(if s'.tables.limiter == log then log else pruned, s'.tables.limiter, s.requests, s'.requests, s'.now, email);
  }

  lemma AdmissionMoveKeeps(s: System, s': System, requester: string, a: Admitted, email: string)
    requires LimiterOk(s.tables.limiter, s.requests, s.now, email) && LimiterMove(s, s', requester, Some(a))
    ensures LimiterOk(s'.tables.limiter, s'.requests, s'.now, email)
  {
    AdmittedKeepsLimiter(s.tables.limiter, s.requests, s.now, email, a);
    SameLimiter(Recorded(Pruned(s.tables.limiter, a.email, a.time - RATE_WINDOW), a.email, a.time), s'.tables.limiter,
                s.requests + [a], s'.requests, s'.now, email);
  }

  lemma {:induction false} SameLimiter(log: Log, log': Log, requests: seq<Admitted>, requests': seq<Admitted>, now: int, email: string)
    requires LimiterOk(log, requests, now, email) && log == log' && TimesOf(requests', email) == TimesOf(requests, email)
    ensures LimiterOk(log', requests', now, email)
  {
  }

  lemma {:induction false} RunKeepsLimiter(h: Hash, calls: seq<Timed>, email: string)
    requires Run(h, calls).Some?
    ensures var s := Run(h, calls).value; LimiterOk(s.tables.limiter, s.requests, s.now, email)
  {
    if calls == [] {
    } else {
      var front, last := calls[..|calls| - 1], calls[|calls| - 1];
      RunKeepsLimiter(h, front, email);
      var s := Run(h, front).value;
      var requester, admitted := CallOnLimiter(h, s, last.call, last.time);
      if admitted.Some? {
        AdmissionMoveKeeps(s, Next(h, s, last.call, last.time), requester, admitted.value, email);
      } else {
        RefusalMoveKeeps(s, Next(h, s, last.call, last.time), requester, email);
      }
    }
  }

  /** Every hour-long window of every run holds at most three admitted requests per email. */
  lemma AdmissionsPerHour(h: Hash, calls: seq<Timed>, s: System, email: string, from: int)
    requires Run(h, calls) == Some(s)
    ensures Count(TimesOf(s.requests, email), from, from + HOUR) <= 3
  {
    RunKeepsLimiter(h, calls, email);
    WindowBound(TimesOf(s.requests, email), RATE_WINDOW, RATE_MAX, from);
  }

  /** In every run a request is admitted if and only if it names an email and fewer than three were
      admitted for it within the last hour. */
  lemma {:induction false} AdmittedExactly(h: Hash, calls: seq<Timed>, s: System, email: string, now: int)
    requires Run(h, calls) == Some(s) && s.now <= now
    ensures Begin(s.tables, email, now).1 ==
      if email == "" then NoEmail
      else if Count(TimesOf(s.requests, email), now - HOUR + 1, now + 1) < 3 then Entered else Limited
  {
    RunKeepsLimiter(h, calls, email);
    AdmitsExactly(s.tables.limiter, s.requests, s.now, email, now);
  }

  lemma {:induction false} AdmitsExactly(log: Log, requests: seq<Admitted>, before: int, email: string, now: int)
    requires LimiterOk(log, requests, before, email) && before <= now
    ensures Admits(log, email, now, RATE_WINDOW, RATE_MAX) <==> Count(TimesOf(requests, email), now - HOUR + 1, now + 1) < 3
  {
    StillSees(log, requests, email, before - RATE_WINDOW, now - RATE_WINDOW);
    RecentCount(TimesOf(requests, email), now - HOUR, now);
  }

  // ----- Wrong codes -----

  /** The mark is a wrong code for the email, for one of the first `n` requests, in the window. */
  predicate Guess(requests: seq<Admitted>, m: Mark, email: string, n: nat, from: int, to: int) {
    m.request < n && m.request < |requests| && requests[m.request].email == email && from <= m.time < to
  }

  function Guesses(requests: seq<Admitted>, marks: seq<Mark>, email: string, n: nat, from: int, to: int): nat {
    if marks == [] then 0
    else Guesses(requests, marks[..|marks| - 1], email, n, from, to) +
         (if Guess(requests, marks[|marks| - 1], email, n, from, to) then 1 else 0)
  }

  /** The request's token can be live somewhere in the window. */
  predicate Reaches(a: Admitted, email: string, from: int, to: int) {
    a.email == email && a.token.Some? && from - TOKEN_EXPIRY <= a.token.value.time < to
  }

  /** How many requests reach into the window. */
  function Reaching(requests: seq<Admitted>, email: string, from: int, to: int): nat {
    if requests == [] then 0
    else Reaching(requests[..|requests| - 1], email, from, to) + (if Reaches(requests[|requests| - 1], email, from, to) then 1 else 0)
  }

  lemma {:induction false} OneMoreRequest(s: System, marks: seq<Mark>, email: string, n: nat, from: int, to: int)
    requires n < |s.requests| && forall i :: 0 <= i < |marks| ==> WithinLife(s, marks[i])
    ensures Guesses(s.requests, marks, email, n + 1, from, to) <=
              Guesses(s.requests, marks, email, n, from, to) +
              (if Reaches(s.requests[n], email, from, to) then Marks(marks, n) else 0)
  {
    if marks == [] {
    } else {
      OneMoreRequest(s, marks[..|marks| - 1], email, n, from, to);
      assert WithinLife(s, marks[|marks| - 1]);
    }
  }

  lemma {:induction false} NoRequestsNoGuesses(requests: seq<Admitted>, marks: seq<Mark>, email: string, from: int, to: int)
    ensures Guesses(requests, marks, email, 0, from, to) == 0
  {
    if marks == [] {
    } else {
      NoRequestsNoGuesses(requests, marks[..|marks| - 1], email, from, to);
    }
  }

  /** Five guesses for each request whose token can be live in the window. */
  lemma {:induction false} GuessesPerRequest(s: System, email: string, n: nat, from: int, to: int)
    requires n <= |s.requests| && MarksOk(s, s.wrongCodes, MAX_ATTEMPTS) && from <= to
    ensures Guesses(s.requests, s.wrongCodes, email, n, from, to) <= MAX_ATTEMPTS * Reaching(s.requests[..n], email, from, to)
  {
    if n == 0 {
      NoRequestsNoGuesses(s.requests, s.wrongCodes, email, from, to);
    } else {
      GuessesPerRequest(s, email, n - 1, from, to);
      OneMoreRequest(s, s.wrongCodes, email, n - 1, from, to);
      assert s.requests[..n][..n - 1] == s.requests[..n - 1];
    }
  }

  // ----- The delay between admission and token -----

  /** Every token of the email was issued at most `delay` after its request was admitted. */
  predicate Prompt(requests: seq<Admitted>, email: string, delay: nat) {
    forall r :: 0 <= r < |requests| && requests[r].email == email && requests[r].token.Some? ==>
      requests[r].time <= requests[r].token.value.time <= requests[r].time + delay
  }

  /** Then a request that reaches into the window was admitted at most the delay earlier. */
  lemma {:induction false} ReachingAdmitted(requests: seq<Admitted>, email: string, delay: nat, from: int, to: int)
    requires Prompt(requests, email, delay) && from <= to
    ensures Reaching(requests, email, from, to) <= Count(TimesOf(requests, email), from - TOKEN_EXPIRY - delay, to)
  {
    if requests == [] {
    } else {
      var front, last := requests[..|requests| - 1], requests[|requests| - 1];
      assert requests == front + [last];
      ReachingAdmitted(front, email, delay, from, to);
      TimesOfAppend(front, last, email);
      CountOfAppend(TimesOf(front, email), last.time, from - TOKEN_EXPIRY - delay, to);
    }
  }

  /** A number of hours, counting a part as a whole. */
  function Hours(delay: nat): (n: nat)
    ensures delay <= n * HOUR && (n > 0 ==> (n - 1) * HOUR < delay)
  {
    (delay + HOUR - 1) / HOUR
  }

  /** Three admissions for each hour of a longer window. */
  lemma {:induction false} HourlyBound(times: seq<int>, from: int, n: nat, to: int)
    requires Ordered(times) && Throttled(times, RATE_WINDOW, RATE_MAX) && to == from + n * HOUR
    ensures Count(times, from, to) <= RATE_MAX * n
    decreases n
  {
    if n == 0 {
      EmptyWindow(times, from);
    } else {
      var mid := to - HOUR;
      HourlyBound(times, from, n - 1, mid);
      WindowBound(times, RATE_WINDOW, RATE_MAX, mid);
      CountSplits(times, from, mid, to);
    }
  }

  lemma {:induction false} EmptyWindow(times: seq<int>, from: int)
    ensures Count(times, from, from) == 0
  {
    if times == [] {
    } else {
      EmptyWindow(times[..|times| - 1], from);
    }
  }

  /** In every run, if no token of an email is issued later than `delay` after its request was
      admitted: at most thirty wrong codes are evaluated for the email in any hour, and fifteen
      more for every hour of the delay, begun or full. */
  lemma WrongCodesPerHour(h: Hash, calls: seq<Timed>, s: System, email: string, delay: nat, from: int)
    requires Run(h, calls) == Some(s) && Prompt(s.requests, email, delay)
    ensures Guesses(s.requests, s.wrongCodes, email, |s.requests|, from, from + HOUR) <= 30 + 15 * Hours(delay)
  {
    RunKeeps(h, calls);
    GuessesPerRequest(s, email, |s.requests|, from, from + HOUR);
    assert s.requests[..|s.requests|] == s.requests;
    ReachingAdmitted(s.requests, email, delay, from, from + HOUR);
    AdmissionsAround(h, calls, s, email, delay, Hours(delay), from);
  }

  /** The admissions whose tokens may reach into the hour. */
  lemma AdmissionsAround(h: Hash, calls: seq<Timed>, s: System, email: string, delay: nat, n: nat, from: int)
    requires Run(h, calls) == Some(s) && delay <= n * HOUR
    ensures Count(TimesOf(s.requests, email), from - TOKEN_EXPIRY - delay, from + HOUR) <= 3 * (n + 2)
  {
    RunKeepsLimiter(h, calls, email);
    AroundBound(TimesOf(s.requests, email), delay, n, from, from - HOUR - n * HOUR);
  }

  lemma AroundBound(times: seq<int>, delay: nat, n: nat, from: int, first: int)
    requires Ordered(times) && Throttled(times, RATE_WINDOW, RATE_MAX)
    requires delay <= n * HOUR && first == from - HOUR - n * HOUR
    ensures Count(times, from - TOKEN_EXPIRY - delay, from + HOUR) <= RATE_MAX * (n + 2)
  {
    HourlyBound(times, first, n + 2, from + HOUR);
    CountSplits(times, first, from - TOKEN_EXPIRY - delay, from + HOUR);
  }
}
