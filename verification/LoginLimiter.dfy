/** The login failure limiter under concurrent logins (internal/core/tenant_service.go).

    A login checks the limiter in one critical section and records a failure, or clears the
    record, in another; any number of other logins may run in between. */
module LoginLimiter {
  import opened Text
  import opened Durations
  import opened SlidingWindow

  const MAX_PER_HOUR := 5
  const MAX_PER_DAY := 10

  predicate Allowed(times: seq<int>, now: int) {
    |Recent(times, now - HOUR)| < MAX_PER_HOUR && |Recent(times, now - DAY)| < MAX_PER_DAY
  }

  /** `inFlight` maps the logins that passed the check to their email; `history` remembers
      every failure since the email's last successful login. */
  datatype State = State(failures: Log, inFlight: map<nat, string>, history: Log, now: int)

  const START := State(map[], map[], map[], 0)

  datatype Step =
    | Enter(login: nat, email: string)
    | Fail(login: nat)
    | Succeed(login: nat)
    | Leave(login: nat)

  /** A sequence of steps with the times at which they happen. */
  datatype Trace = Nothing | Then(before: Trace, step: Step, time: int)

  predicate Enabled(s: State, step: Step, time: int) {
    s.now <= time && (if step.Enter? then step.login !in s.inFlight else step.login in s.inFlight)
  }

  function Next(s: State, step: Step, time: int): State
    requires Enabled(s, step, time)
  {
    match step
    case Enter(login, email) =>
      s.(failures := Pruned(s.failures, email, time - DAY), now := time,
         inFlight := if Allowed(Times(s.failures, email), time) then s.inFlight[login := email] else s.inFlight)
    case Fail(login) =>
      var email := s.inFlight[login];
      s.(failures := Recorded(s.failures, email, time), history := Recorded(s.history, email, time),
         inFlight := s.inFlight - {login}, now := time)
    case Succeed(login) =>
      var email := s.inFlight[login];
      s.(failures := s.failures - {email}, history := s.history - {email}, inFlight := s.inFlight - {login}, now := time)
    case Leave(login) => s.(inFlight := s.inFlight - {login}, now := time)
  }

  /** The state after a trace, if each step was possible when its turn came. */
  function Run(trace: Trace): Option<State> {
    match trace
    case Nothing => Some(START)
    case Then(before, step, time) =>
      match Run(before)
      case Some(s) => if Enabled(s, step, time) then Some(Next(s, step, time)) else None
      case None => None
  }

  /** The logins for an email that are past the check. */
  function InFlight(s: State, email: string): set<nat> {
    set login | login in s.inFlight && s.inFlight[login] == email
  }

  /** At no point of the run are more than `k` logins for the email in flight. */
  predicate AtMost(trace: Trace, email: string, k: nat) {
    && (Run(trace).Some? ==> |InFlight(Run(trace).value, email)| <= k)
    && (trace.Then? ==> AtMost(trace.before, email, k))
  }

  // ----- What every step keeps -----

  lemma {:induction false} RecentShrinks(times: seq<int>, early: int, late: int)
    requires early <= late
    ensures |Recent(times, late)| <= |Recent(times, early)|
  {
    if times == [] {
    } else {
      RecentShrinks(times[..|times| - 1], early, late);
    }
  }

  /** The pruned log shows the same recent failures as the history. */
  predicate Faithful(failures: seq<int>, history: seq<int>, now: int) {
    Recent(failures, now - DAY) == Recent(history, now - DAY) && Ordered(history) && NoLaterThan(history, now)
  }

  /** One of the two limits. */
  predicate Limit(window: int, max: nat) {
    (window == HOUR && max == MAX_PER_HOUR) || (window == DAY && max == MAX_PER_DAY)
  }

  /** Failures in the window so far, and logins that may yet add one. */
  predicate Budget(history: seq<int>, inFlight: nat, now: int, window: int, max: nat, k: nat) {
    inFlight <= k && |Recent(history, now - window)| + inFlight <= max - 1 + k
  }

  lemma {:induction false} FaithfulLater(failures: seq<int>, history: seq<int>, now: int, time: int, cutoff: int)
    requires Faithful(failures, history, now) && now <= time && time - DAY <= cutoff
    ensures Recent(failures, cutoff) == Recent(history, cutoff)
  {
    PruneTwice(failures, now - DAY, cutoff);
    PruneTwice(history, now - DAY, cutoff);
  }

  lemma FaithfulStays(failures: seq<int>, history: seq<int>, now: int, time: int)
    requires Faithful(failures, history, now) && now <= time
    ensures Faithful(failures, history, time)
    ensures Faithful(Recent(failures, time - DAY), history, time)
  {
    FaithfulLater(failures, history, now, time, time - DAY);
    PruneTwice(failures, time - DAY, time - DAY);
  }

  lemma FaithfulRecord(failures: seq<int>, history: seq<int>, time: int)
    requires Faithful(failures, history, time)
    ensures Faithful(failures + [time], history + [time], time)
  {
    RecordIsInvisible(failures, history, time, time - DAY);
    OrderedAppend(history, time);
  }

  lemma BudgetLater(history: seq<int>, inFlight: nat, fewer: nat, now: int, time: int, window: int, max: nat, k: nat)
    requires Budget(history, inFlight, now, window, max, k) && now <= time && fewer <= inFlight
    ensures Budget(history, fewer, time, window, max, k)
  {
    RecentShrinks(history, now - window, time - window);
  }

  /** Recording turns a login in flight into a failure: the sum stays. */
  lemma BudgetRecord(history: seq<int>, inFlight: nat, time: int, window: int, max: nat, k: nat)
    requires Budget(history, inFlight, time, window, max, k) && inFlight > 0 && window > 0
    ensures Budget(history + [time], inFlight - 1, time, window, max, k)
  {
    RecentOfAppend(history, time, time - window);
  }

  /** A passed check resets the sum. */
  lemma BudgetAdmit(failures: seq<int>, history: seq<int>, inFlight: nat, now: int, time: int, window: int, max: nat, k: nat)
    requires Faithful(failures, history, now) && now <= time && Allowed(failures, time) && Limit(window, max) && inFlight <= k
    ensures Budget(history, inFlight, time, window, max, k)
  {
    FaithfulLater(failures, history, now, time, time - window);
  }

  /** A window of failures stays within the budget when one more is recorded. */
  lemma WindowRecord(history: seq<int>, time: int, window: int, bound: nat, from: int)
    requires Count(history, from, from + window) <= bound && |Recent(history + [time], time - window)| <= bound
    ensures Count(history + [time], from, from + window) <= bound
  {
    CountOfAppend(history, time, from, from + window);
    if from <= time < from + window {
      CountAtMostRecent(history + [time], time - window, from, from + window);
    }
  }

  /** What holds of an email in every state, for one limit and one window. */
  predicate EmailOk(s: State, email: string, window: int, max: nat, k: nat, from: int) {
    && Faithful(Times(s.failures, email), Times(s.history, email), s.now)
    && Budget(Times(s.history, email), |InFlight(s, email)|, s.now, window, max, k)
    && Count(Times(s.history, email), from, from + window) <= max - 1 + k
  }

  lemma InFlightAfterCheck(s: State, login: nat, x: string, email: string)
    requires login !in s.inFlight
    ensures InFlight(s.(inFlight := s.inFlight[login := x]), email) ==
              if x == email then InFlight(s, email) + {login} else InFlight(s, email)
  {
  }

  lemma InFlightAfterDone(s: State, login: nat, email: string)
    requires login in s.inFlight
    ensures var rest := InFlight(s.(inFlight := s.inFlight - {login}), email);
            if s.inFlight[login] == email then
              login in InFlight(s, email) && rest == InFlight(s, email) - {login} && |rest| == |InFlight(s, email)| - 1
            else rest == InFlight(s, email)
  {
    var rest := InFlight(s.(inFlight := s.inFlight - {login}), email);
    if s.inFlight[login] == email {
      assert rest == InFlight(s, email) - {login};
    } else {
      assert rest == InFlight(s, email);
    }
  }

  lemma CheckKeeps(s: State, login: nat, x: string, time: int, email: string, window: int, max: nat, k: nat, from: int)
    requires EmailOk(s, email, window, max, k, from) && Limit(window, max) && Enabled(s, Enter(login, x), time)
    requires |InFlight(Next(s, Enter(login, x), time), email)| <= k
    ensures EmailOk(Next(s, Enter(login, x), time), email, window, max, k, from)
  {
    var s' := Next(s, Enter(login, x), time);
    var failures, history := Times(s.failures, email), Times(s.history, email);
    FaithfulStays(failures, history, s.now, time);
    InFlightAfterCheck(s, login, x, email);
    if x == email && Allowed(failures, time) {
      BudgetAdmit(failures, history, |InFlight(s', email)|, s.now, time, window, max, k);
    } else {
      BudgetLater(history, |InFlight(s, email)|, |InFlight(s, email)|, s.now, time, window, max, k);
      assert InFlight(s', email) == InFlight(s, email);
    }
  }

  lemma FailKeeps(s: State, login: nat, time: int, email: string, window: int, max: nat, k: nat, from: int)
    requires EmailOk(s, email, window, max, k, from) && Limit(window, max) && Enabled(s, Fail(login), time)
    ensures EmailOk(Next(s, Fail(login), time), email, window, max, k, from)
  {
    var s' := Next(s, Fail(login), time);
    var failures, history, n := Times(s.failures, email), Times(s.history, email), |InFlight(s, email)|;
    FaithfulStays(failures, history, s.now, time);
    BudgetLater(history, n, n, s.now, time, window, max, k);
    InFlightAfterDone(s, login, email);
    assert InFlight(s', email) == InFlight(s.(inFlight := s.inFlight - {login}), email);
    if s.inFlight[login] == email {
      FaithfulRecord(failures, history, time);
      BudgetRecord(history, n, time, window, max, k);
      WindowRecord(history, time, window, max - 1 + k, from);
    }
  }

  /** A login for another email, or one that leaves, changes nothing but the number in flight. */
  lemma LeaveKeeps(s: State, login: nat, time: int, email: string, window: int, max: nat, k: nat, from: int)
    requires EmailOk(s, email, window, max, k, from) && Limit(window, max) && login in s.inFlight && s.now <= time
    ensures EmailOk(s.(inFlight := s.inFlight - {login}, now := time), email, window, max, k, from)
  {
    var s' := s.(inFlight := s.inFlight - {login}, now := time);
    var failures, history, n := Times(s.failures, email), Times(s.history, email), |InFlight(s, email)|;
    FaithfulStays(failures, history, s.now, time);
    InFlightAfterDone(s, login, email);
    assert InFlight(s', email) == InFlight(s.(inFlight := s.inFlight - {login}), email);
    BudgetLater(history, n, |InFlight(s', email)|, s.now, time, window, max, k);
  }

  lemma ClearKeeps(s: State, x: string, email: string, window: int, max: nat, k: nat, from: int)
    requires EmailOk(s, email, window, max, k, from) && Limit(window, max)
    ensures EmailOk(s.(failures := s.failures - {x}, history := s.history - {x}), email, window, max, k, from)
  {
    var s' := s.(failures := s.failures - {x}, history := s.history - {x});
    assert InFlight(s', email) == InFlight(s, email);
    if x == email {
      assert Times(s'.history, email) == [] && Times(s'.failures, email) == [];
    } else {
      assert Times(s'.history, email) == Times(s.history, email) && Times(s'.failures, email) == Times(s.failures, email);
    }
  }

  lemma DoneKeeps(s: State, step: Step, time: int, email: string, window: int, max: nat, k: nat, from: int)
    requires EmailOk(s, email, window, max, k, from) && Limit(window, max) && Enabled(s, step, time)
    requires step.Succeed? || step.Leave?
    ensures EmailOk(Next(s, step, time), email, window, max, k, from)
  {
    var left := s.(inFlight := s.inFlight - {step.login}, now := time);
    LeaveKeeps(s, step.login, time, email, window, max, k, from);
    if step.Succeed? {
      ClearKeeps(left, s.inFlight[step.login], email, window, max, k, from);
    }
  }

  lemma {:induction false} RunKeeps(trace: Trace, email: string, window: int, max: nat, k: nat, from: int)
    requires Run(trace).Some? && AtMost(trace, email, k) && Limit(window, max)
    ensures EmailOk(Run(trace).value, email, window, max, k, from)
  {
    match trace
    case Nothing =>
    case Then(before, step, time) =>
      RunKeeps(before, email, window, max, k, from);
      var s := Run(before).value;
      match step
      case Enter(login, x) => CheckKeeps(s, login, x, time, email, window, max, k, from);
      case Fail(login) => FailKeeps(s, login, time, email, window, max, k, from);
      case Succeed(_) | Leave(_) => DoneKeeps(s, step, time, email, window, max, k, from);
  }

  // ----- Who is let through -----

  /** The email a login was entered for. */
  function EmailOf(trace: Trace, login: nat): Option<string> {
    match trace
    case Nothing => None
    case Then(before, step, _) => if step.Enter? && step.login == login then Some(step.email) else EmailOf(before, login)
  }

  /** When logins for the email failed since one last succeeded. */
  function FailuresSince(trace: Trace, email: string): seq<int> {
    match trace
    case Nothing => []
    case Then(before, step, time) =>
      var earlier := FailuresSince(before, email);
      if (step.Fail? || step.Succeed?) && EmailOf(before, step.login) == Some(email) then
        if step.Fail? then earlier + [time] else []
      else earlier
  }

  predicate EntriesKnown(trace: Trace, s: State) {
    forall login :: login in s.inFlight ==> EmailOf(trace, login) == Some(s.inFlight[login])
  }

  lemma StepKnown(trace: Trace, s: State, step: Step, time: int)
    requires EntriesKnown(trace, s) && Enabled(s, step, time)
    ensures EntriesKnown(Then(trace, step, time), Next(s, step, time))
  {
    var s', trace' := Next(s, step, time), Then(trace, step, time);
    forall login | login in s'.inFlight
      ensures EmailOf(trace', login) == Some(s'.inFlight[login])
    {
      assert login in s.inFlight ==> EmailOf(trace, login) == Some(s.inFlight[login]);
    }
  }

  /** The record of failures shows the same recent ones. */
  lemma {:induction false} StepFaithful(trace: Trace, s: State, step: Step, time: int, email: string)
    requires EntriesKnown(trace, s) && Enabled(s, step, time)
    requires Faithful(Times(s.failures, email), FailuresSince(trace, email), s.now)
    ensures Faithful(Times(Next(s, step, time).failures, email), FailuresSince(Then(trace, step, time), email), time)
  {
    var failures, since := Times(s.failures, email), FailuresSince(trace, email);
    FaithfulStays(failures, since, s.now, time);
    match step
    case Enter(_, x) =>
    case Fail(login) =>
      assert EmailOf(trace, login) == Some(s.inFlight[login]);
      if s.inFlight[login] == email {
        FaithfulRecord(failures, since, time);
      }
    case Succeed(login) =>
      assert EmailOf(trace, login) == Some(s.inFlight[login]);
    case Leave(_) =>
  }

  lemma {:induction false} StepRemembered(trace: Trace, s: State, step: Step, time: int, email: string)
    requires EntriesKnown(trace, s) && Enabled(s, step, time) && Times(s.history, email) == FailuresSince(trace, email)
    ensures Times(Next(s, step, time).history, email) == FailuresSince(Then(trace, step, time), email)
  {
    if step.Fail? || step.Succeed? {
      assert EmailOf(trace, step.login) == Some(s.inFlight[step.login]);
    }
  }

  lemma {:induction false} RunFaithful(trace: Trace, s: State, email: string)
    requires Run(trace) == Some(s)
    ensures EntriesKnown(trace, s) && Times(s.history, email) == FailuresSince(trace, email)
    ensures Faithful(Times(s.failures, email), FailuresSince(trace, email), s.now)
  {
    match trace
    case Nothing =>
    case Then(before, step, time) =>
      var s0 := Run(before).value;
      RunFaithful(before, s0, email);
      StepKnown(before, s0, step, time);
      StepRemembered(before, s0, step, time, email);
      StepFaithful(before, s0, step, time, email);
  }

  /** For every interleaving with at most `k` logins of an email in flight, between two
      successes at most 4 + k failures are recorded for it in any hour and at most 9 + k in
      any 24 hours. */
  lemma FailuresPerWindow(trace: Trace, s: State, email: string, k: nat, from: int)
    requires Run(trace) == Some(s) && AtMost(trace, email, k)
    ensures Count(FailuresSince(trace, email), from, from + HOUR) <= 4 + k
    ensures Count(FailuresSince(trace, email), from, from + DAY) <= 9 + k
  {
    RunFaithful(trace, s, email);
    RunKeeps(trace, email, HOUR, MAX_PER_HOUR, k, from);
    RunKeeps(trace, email, DAY, MAX_PER_DAY, k, from);
  }

  /** In every run a login is let through if and only if, since the email's last success, fewer than
      five logins failed within the last hour and fewer than ten within the last day. */
  lemma {:induction false} EnteredExactly(trace: Trace, s: State, login: nat, email: string, time: int)
    requires Run(trace) == Some(s) && Enabled(s, Enter(login, email), time)
    ensures login in Next(s, Enter(login, email), time).inFlight <==>
      && Count(FailuresSince(trace, email), time - HOUR + 1, time + 1) < 5
      && Count(FailuresSince(trace, email), time - DAY + 1, time + 1) < 10
  {
    RunFaithful(trace, s, email);
    var failures, since := Times(s.failures, email), FailuresSince(trace, email);
    FaithfulLater(failures, since, s.now, time, time - HOUR);
    FaithfulLater(failures, since, s.now, time, time - DAY);
    RecentCount(since, time - HOUR, time);
    RecentCount(since, time - DAY, time);
  }

  /** So after a success the email's next login passes, unless one has failed since. */
  lemma {:induction false} SuccessClears(trace: Trace, s: State, login: nat, email: string, time: int)
    requires Run(trace) == Some(s) && Enabled(s, Enter(login, email), time) && FailuresSince(trace, email) == []
    ensures login in Next(s, Enter(login, email), time).inFlight
  {
    EnteredExactly(trace, s, login, email, time);
  }

  // ----- The bound is attained -----

  /** `early` failures at time 0 and then `late` ones an hour after. */
  predicate Bursts(times: seq<int>, early: nat, late: nat) {
    |times| == early + late && forall i :: 0 <= i < |times| ==> times[i] == if i < early then 0 else HOUR
  }

  lemma {:induction false} BurstsCount(times: seq<int>, early: nat, late: nat)
    requires Bursts(times, early, late)
    ensures Count(times, 0, HOUR) == early && Count(times, 0, DAY) == early + late
  {
    if times == [] {
    } else {
      var front := times[..|times| - 1];
      BurstsCount(front, if late > 0 then early else early - 1, if late > 0 then late - 1 else 0);
    }
  }

  /** What a check sees: everything, or after an hour the later failures only. */
  lemma {:induction false} BurstsRecent(times: seq<int>, early: nat, late: nat, cutoff: int)
    requires Bursts(times, early, late) && cutoff < HOUR
    ensures cutoff < 0 ==> Recent(times, cutoff) == times
    ensures 0 <= cutoff ==> |Recent(times, cutoff)| == late
  {
    if times == [] {
    } else {
      var front := times[..|times| - 1];
      BurstsRecent(front, if late > 0 then early else early - 1, if late > 0 then late - 1 else 0, cutoff);
      assert times == front + [times[|times| - 1]];
    }
  }

  /** Logins 0 to n - 1 for one email. */
  function Opened(n: nat, email: string): (r: map<nat, string>)
    ensures forall i: nat :: i in r <==> i < n
    ensures forall i :: i in r ==> r[i] == email
    ensures |r.Keys| == n
  {
    if n == 0 then map[]
    else
      var r := Opened(n - 1, email)[n - 1 := email];
      assert r.Keys == Opened(n - 1, email).Keys + {n - 1};
      r
  }

  /** Failures in two bursts on record and logins `0..open` in flight, all for one email. */
  predicate Shape(s: State, email: string, early: nat, late: nat, open: nat) {
    && Bursts(Times(s.failures, email), early, late) && Bursts(Times(s.history, email), early, late)
    && s.inFlight == Opened(open, email)
  }

  lemma ShapeInFlight(s: State, email: string, early: nat, late: nat, open: nat)
    requires Shape(s, email, early, late, open)
    ensures |InFlight(s, email)| == open
  {
    assert InFlight(s, email) == Opened(open, email).Keys;
  }

  /** The trace stays within `k` and has reached a state of the given shape no later than `t`,
      which is the time of one of the bursts. */
  predicate At(trace: Trace, email: string, k: nat, early: nat, late: nat, open: nat, t: int) {
    && Run(trace).Some? && AtMost(trace, email, k)
    && Run(trace).value.now <= t && Shape(Run(trace).value, email, early, late, open)
    && (t == HOUR || (t == 0 && late == 0))
  }

  lemma {:induction false} StepTo(trace: Trace, step: Step, email: string, k: nat, early: nat, late: nat, open: nat, t: int)
    requires Run(trace).Some? && AtMost(trace, email, k) && Enabled(Run(trace).value, step, t) && open <= k
    requires Shape(Next(Run(trace).value, step, t), email, early, late, open)
    requires t == HOUR || (t == 0 && late == 0)
    ensures At(Then(trace, step, t), email, k, early, late, open, t)
  {
    ShapeInFlight(Next(Run(trace).value, step, t), email, early, late, open);
  }

  /** With at most four failures in the hour and nine in the day another login passes. */
  lemma OpenOne(trace: Trace, email: string, k: nat, early: nat, late: nat, open: nat, t: int)
    requires At(trace, email, k, early, late, open, t) && open < k
    requires if t == 0 then early < MAX_PER_HOUR else late < MAX_PER_HOUR && early + late < MAX_PER_DAY
    ensures At(Then(trace, Enter(open, email), t), email, k, early, late, open + 1, t)
  {
    CheckPasses(Run(trace).value, email, early, late, open, t);
    StepTo(trace, Enter(open, email), email, k, early, late, open + 1, t);
  }

  lemma CheckPasses(s: State, email: string, early: nat, late: nat, open: nat, t: int)
    requires Shape(s, email, early, late, open) && s.now <= t && (t == HOUR || (t == 0 && late == 0))
    requires if t == 0 then early < MAX_PER_HOUR else late < MAX_PER_HOUR && early + late < MAX_PER_DAY
    ensures Enabled(s, Enter(open, email), t)
    ensures Shape(Next(s, Enter(open, email), t), email, early, late, open + 1)
  {
    var times := Times(s.failures, email);
    BurstsAllowed(times, early, late, t);
    var s' := Next(s, Enter(open, email), t);
    assert Times(s'.failures, email) == times && s'.history == s.history;
    assert s'.inFlight == Opened(open + 1, email);
  }

  lemma {:induction false} BurstsAllowed(times: seq<int>, early: nat, late: nat, t: int)
    requires Bursts(times, early, late) && (t == HOUR || (t == 0 && late == 0))
    requires if t == 0 then early < MAX_PER_HOUR else late < MAX_PER_HOUR && early + late < MAX_PER_DAY
    ensures Allowed(times, t) && Recent(times, t - DAY) == times
  {
    BurstsRecent(times, early, late, t - HOUR);
    BurstsRecent(times, early, late, t - DAY);
  }

  lemma FailOne(trace: Trace, email: string, k: nat, early: nat, late: nat, open: nat, t: int)
    requires At(trace, email, k, early, late, open + 1, t) && open < k
    ensures var early', late' := if t == 0 then early + 1 else early, if t == 0 then late else late + 1;
      At(Then(trace, Fail(open), t), email, k, early', late', open, t)
  {
    var early', late' := if t == 0 then early + 1 else early, if t == 0 then late else late + 1;
    StepTo(trace, Fail(open), email, k, early', late', open, t);
  }

  /** One login after another fails. */
  lemma {:induction false} FailInTurn(email: string, k: nat, early: nat, late: nat, t: int) returns (trace: Trace)
    requires k > 0 && early <= MAX_PER_HOUR && late <= MAX_PER_HOUR && early + late <= MAX_PER_DAY
    requires t == HOUR || (t == 0 && late == 0)
    ensures At(trace, email, k, early, late, 0, t)
    decreases early + late
  {
    if early + late == 0 {
      trace := Nothing;
      assert InFlight(START, email) == {};
    } else {
      var now, e, l := if late > 0 then HOUR else 0, if late > 0 then early else early - 1, if late > 0 then late - 1 else 0;
      trace := FailInTurn(email, k, e, l, now);
      OpenOne(trace, email, k, e, l, 0, now);
      trace := Then(trace, Enter(0, email), now);
      FailOne(trace, email, k, e, l, 0, now);
      trace := Then(trace, Fail(0), now);
    }
  }

  lemma {:induction false} OpenMany(email: string, k: nat, early: nat, late: nat, open: nat, t: int) returns (trace: Trace)
    requires 0 < k && open <= k && early <= MAX_PER_HOUR && early + late < MAX_PER_DAY
    requires if t == 0 then late == 0 && early < MAX_PER_HOUR else t == HOUR && late < MAX_PER_HOUR
    ensures At(trace, email, k, early, late, open, t)
    decreases open
  {
    if open == 0 {
      trace := FailInTurn(email, k, early, late, t);
    } else {
      trace := OpenMany(email, k, early, late, open - 1, t);
      OpenOne(trace, email, k, early, late, open - 1, t);
      trace := Then(trace, Enter(open - 1, email), t);
    }
  }

  /** `k` logins pass the check together and then all fail. */
  lemma {:induction false} FailMany(email: string, k: nat, early: nat, late: nat, open: nat, t: int) returns (trace: Trace)
    requires 0 < k && open <= k && early <= MAX_PER_HOUR && early + late < MAX_PER_DAY
    requires if t == 0 then late == 0 && early < MAX_PER_HOUR else t == HOUR && late < MAX_PER_HOUR
    ensures t == 0 ==> At(trace, email, k, early + (k - open), 0, open, t)
    ensures t != 0 ==> At(trace, email, k, early, late + (k - open), open, t)
    decreases k - open
  {
    if open == k {
      trace := OpenMany(email, k, early, late, k, t);
    } else {
      trace := FailMany(email, k, early, late, open + 1, t);
      var failed := k - open - 1;
      FailOne(trace, email, k, if t == 0 then early + failed else early, if t == 0 then 0 else late + failed, open, t);
      trace := Then(trace, Fail(open), t);
    }
  }

  /** For every k some interleaving records 4 + k failures within the hour; the configured
      maximum of five holds exactly while logins do not overlap. */
  lemma HourlyBoundAttained(email: string, k: nat) returns (trace: Trace)
    requires k > 0
    ensures Run(trace).Some? && AtMost(trace, email, k)
    ensures Count(Times(Run(trace).value.history, email), 0, HOUR) == 4 + k
  {
    trace := FailMany(email, k, 4, 0, 0, 0);
    BurstsCount(Times(Run(trace).value.history, email), 4 + k, 0);
  }

  /** ... and some other one 9 + k within the day. */
  lemma DailyBoundAttained(email: string, k: nat) returns (trace: Trace)
    requires k > 0
    ensures Run(trace).Some? && AtMost(trace, email, k)
    ensures Count(Times(Run(trace).value.history, email), 0, DAY) == 9 + k
  {
    trace := FailMany(email, k, 5, 4, 0, HOUR);
    BurstsCount(Times(Run(trace).value.history, email), 5, 4 + k);
  }
}
