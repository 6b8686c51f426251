/** Sliding-window logs: the timestamps that the reset, login and not-found limiters of
    the tenant portal keep per email (internal/core/tenant_service.go). Times are integers
    in nanoseconds. */
module SlidingWindow {

  /** The times strictly after a cutoff, in order. */
  function Recent(times: seq<int>, cutoff: int): seq<int> {
    if times == [] then []
    else
      var front, last := Recent(times[..|times| - 1], cutoff), times[|times| - 1];
      if last > cutoff then front + [last] else front
  }

  /** The filter loop of the `check...RateLimit` functions. */
  method FilterRecent(times: seq<int>, cutoff: int) returns (valid: seq<int>)
    ensures valid == Recent(times, cutoff)
  {
    valid := [];
    for i := 0 to |times|
      invariant valid == Recent(times[..i], cutoff)
    {
      assert times[..i + 1][..i] == times[..i];
      if times[i] > cutoff {
        valid := valid + [times[i]];
      }
    }
    assert times[..|times|] == times;
  }

  /** How many times lie in the half-open window. */
  function Count(times: seq<int>, from: int, to: int): nat {
    if times == [] then 0
    else
      var last := times[|times| - 1];
      Count(times[..|times| - 1], from, to) + (if from <= last < to then 1 else 0)
  }

  predicate Ordered(times: seq<int>) {
    forall i, j :: 0 <= i < j < |times| ==> times[i] <= times[j]
  }

  /** Pruning with an earlier cutoff does not change what a later cutoff sees. */
  lemma {:induction false} PruneTwice(times: seq<int>, early: int, late: int)
    requires early <= late
    ensures Recent(Recent(times, early), late) == Recent(times, late)
  {
    if times == [] {
    } else {
      var front, last := times[..|times| - 1], times[|times| - 1];
      PruneTwice(front, early, late);
      if last > early {
        assert (Recent(front, early) + [last])[..|Recent(front, early)|] == Recent(front, early);
      }
    }
  }

  /** Recording after pruning is pruning after recording. */
  lemma {:induction false} RecentOfAppend(times: seq<int>, t: int, cutoff: int)
    ensures Recent(times + [t], cutoff) == if t > cutoff then Recent(times, cutoff) + [t] else Recent(times, cutoff)
  {
    assert (times + [t])[..|times|] == times;
  }

  lemma {:induction false} CountOfAppend(times: seq<int>, t: int, from: int, to: int)
    ensures Count(times + [t], from, to) == Count(times, from, to) + (if from <= t < to then 1 else 0)
  {
    assert (times + [t])[..|times|] == times;
  }

  /** A window that ends no earlier than `to` and holds only times after the cutoff holds
      no more of them than are recent. */
  lemma {:induction false} CountAtMostRecent(times: seq<int>, cutoff: int, from: int, to: int)
    requires cutoff < from
    ensures Count(times, from, to) <= |Recent(times, cutoff)|
  {
    if times == [] {
    } else {
      CountAtMostRecent(times[..|times| - 1], cutoff, from, to);
    }
  }

  lemma {:induction false} CountSplits(times: seq<int>, from: int, mid: int, to: int)
    requires from <= mid <= to
    ensures Count(times, from, to) == Count(times, from, mid) + Count(times, mid, to)
  {
    if times == [] {
    } else {
      CountSplits(times[..|times| - 1], from, mid, to);
    }
  }

  /** Every entry was admitted when fewer than `max` earlier ones were recent. */
  predicate Throttled(times: seq<int>, window: int, max: nat) {
    times == [] ||
    (Throttled(times[..|times| - 1], window, max) &&
     |Recent(times[..|times| - 1], times[|times| - 1] - window)| < max)
  }

  predicate NoLaterThan(times: seq<int>, now: int) {
    forall i :: 0 <= i < |times| ==> times[i] <= now
  }

  lemma OrderedAppend(times: seq<int>, t: int)
    requires Ordered(times) && NoLaterThan(times, t)
    ensures Ordered(times + [t]) && NoLaterThan(times + [t], t)
  {
  }

  lemma {:induction false} ThrottledAppend(times: seq<int>, t: int, window: int, max: nat)
    requires Throttled(times, window, max) && Ordered(times) && NoLaterThan(times, t)
    requires |Recent(times, t - window)| < max
    ensures Throttled(times + [t], window, max) && Ordered(times + [t]) && NoLaterThan(times + [t], t)
  {
    assert (times + [t])[..|times|] == times;
  }

  lemma {:induction false} RecentCount(times: seq<int>, cutoff: int, now: int)
    requires NoLaterThan(times, now)
    ensures |Recent(times, cutoff)| == Count(times, cutoff + 1, now + 1)
  {
    if times == [] {
    } else {
      RecentCount(times[..|times| - 1], cutoff, now);
    }
  }

  /** Then every window of that length, anywhere, holds at most `max` of them. */
  lemma {:induction false} WindowBound(times: seq<int>, window: int, max: nat, from: int)
    requires Ordered(times) && Throttled(times, window, max)
    ensures Count(times, from, from + window) <= max
  {
    if times == [] {
    } else {
      var front, last := times[..|times| - 1], times[|times| - 1];
      WindowBound(front, window, max, from);
      if from <= last < from + window {
        CountAtMostRecent(front, last - window, from, from + window);
      }
    }
  }

  // ----- A log per email -----

  type Log = map<string, seq<int>>

  function Times(log: Log, email: string): seq<int> {
    if email in log then log[email] else []
  }

  /** What a check leaves behind: the email's entry is rewritten if there is one. */
  function Pruned(log: Log, email: string, cutoff: int): Log {
    if email in log then log[email := Recent(log[email], cutoff)] else log
  }

  function Recorded(log: Log, email: string, t: int): Log {
    log[email := Times(log, email) + [t]]
  }

  datatype Event = Check(email: string, time: int) | Record(email: string, time: int) | Clear(email: string)

  /** The limiter as implemented: checks drop what has left the window. */
  function Step(log: Log, e: Event, window: int): Log {
    match e
    case Check(email, t) => Pruned(log, email, t - window)
    case Record(email, t) => Recorded(log, email, t)
    case Clear(email) => log - {email}
  }

  /** A limiter that remembers everything since the last clear. */
  function FullStep(log: Log, e: Event): Log {
    match e
    case Check(_, _) => log
    case Record(email, t) => Recorded(log, email, t)
    case Clear(email) => log - {email}
  }

  function PrunedRun(events: seq<Event>, window: int): Log {
    if events == [] then map[] else Step(PrunedRun(events[..|events| - 1], window), events[|events| - 1], window)
  }

  function FullRun(events: seq<Event>): Log {
    if events == [] then map[] else FullStep(FullRun(events[..|events| - 1]), events[|events| - 1])
  }

  predicate TimedBy(events: seq<Event>, now: int) {
    forall i :: 0 <= i < |events| && !events[i].Clear? ==> events[i].time <= now
  }

  /** Checks and records happen in the order of their times. */
  predicate Chronological(events: seq<Event>) {
    forall i :: 0 <= i < |events| && !events[i].Clear? ==> TimedBy(events[..i], events[i].time)
  }

  lemma ChronologicalPrefix(events: seq<Event>, now: int)
    requires events != [] && Chronological(events) && TimedBy(events, now)
    ensures Chronological(events[..|events| - 1]) && TimedBy(events[..|events| - 1], now)
  {
    var front := events[..|events| - 1];
    forall i | 0 <= i < |front| && !front[i].Clear? ensures TimedBy(front[..i], front[i].time) {
      assert front[..i] == events[..i];
    }
  }

  lemma CheckIsInvisible(times: seq<int>, full: seq<int>, t: int, window: int, cutoff: int)
    requires Recent(times, cutoff) == Recent(full, cutoff) && t - window <= cutoff
    ensures Recent(Recent(times, t - window), cutoff) == Recent(full, cutoff)
  {
    PruneTwice(times, t - window, cutoff);
  }

  lemma {:induction false} RecordIsInvisible(times: seq<int>, full: seq<int>, t: int, cutoff: int)
    requires Recent(times, cutoff) == Recent(full, cutoff)
    ensures Recent(times + [t], cutoff) == Recent(full + [t], cutoff)
  {
    RecentOfAppend(times, t, cutoff);
    RecentOfAppend(full, t, cutoff);
  }

  /** Two sequences with the same recent entries. */
  predicate SameRecent(times: seq<int>, full: seq<int>, cutoff: int) {
    Recent(times, cutoff) == Recent(full, cutoff)
  }

  lemma {:induction false} TimesAfterStep(log: Log, e: Event, window: int, email: string)
    ensures Times(Step(log, e, window), email) ==
      if e.email != email then Times(log, email)
      else match e
        case Check(_, t) => if email in log then Recent(log[email], t - window) else []
        case Record(_, t) => Times(log, email) + [t]
        case Clear(_) => []
  {
  }

  lemma TimesAfterFullStep(log: Log, e: Event, email: string)
    ensures Times(FullStep(log, e), email) ==
      if e.email != email then Times(log, email)
      else match e
        case Check(_, t) => Times(log, email)
        case Record(_, t) => Times(log, email) + [t]
        case Clear(_) => []
  {
  }

  lemma StepIsInvisible(log: Log, full: Log, e: Event, window: int, email: string, cutoff: int)
    requires SameRecent(Times(log, email), Times(full, email), cutoff)
    requires !e.Clear? ==> e.time - window <= cutoff
    ensures SameRecent(Times(Step(log, e, window), email), Times(FullStep(full, e), email), cutoff)
  {
    TimesAfterStep(log, e, window, email);
    TimesAfterFullStep(full, e, email);
    if e.email == email {
      match e
      case Check(x, t) => CheckIsInvisible(Times(log, email), Times(full, email), t, window, cutoff);
      case Record(x, t) => RecordIsInvisible(Times(log, email), Times(full, email), t, cutoff);
      case Clear(_) =>
    }
  }

  /** Dropping old timestamps is invisible: whatever happened before, and for any later
      time, the entries that still count are those of the full history. */
  lemma {:induction false} PruningIsInvisible(events: seq<Event>, window: int, now: int, email: string, cutoff: int)
    requires Chronological(events) && TimedBy(events, now) && now - window <= cutoff
    ensures SameRecent(Times(PrunedRun(events, window), email), Times(FullRun(events), email), cutoff)
  {
    if events == [] {
    } else {
      var front, last := events[..|events| - 1], events[|events| - 1];
      ChronologicalPrefix(events, now);
      PruningIsInvisible(front, window, now, email, cutoff);
      StepIsInvisible(PrunedRun(front, window), FullRun(front), last, window, email, cutoff);
    }
  }
}
