/** The hourly bound on wrong reset codes is attained, for every delay of `k` hours between
    admission and token: three requests are admitted at each of the hours 0 to k + 1. The tokens of
    all but the last three are issued at hour k, those of the last three at hour k + 1. Then all of
    them are live, and each takes five wrong codes. */
module ResetAttained {
  import opened Text
  import opened Durations
  import opened SlidingWindow
  import opened PasswordReset
  import opened ResetLimits

  /** One email with an active tenant, its code and a wrong one, and the tokens the portal draws. */
  datatype Setting = Setting(hash: Hash, email: string, id: string, code: string, wrong: string, token: nat -> string)

  /** The first `n` tokens have keys of their own. */
  ghost predicate Fit(w: Setting, n: nat) {
    && w.email != "" && w.wrong != "" && w.hash(w.wrong) != w.hash(w.code)
    && (forall i :: w.token(i) != "")
    && (forall i: nat, j: nat :: i < n && j < n && KeyOf(w.hash, w.token(i)) == KeyOf(w.hash, w.token(j)) ==> i == j)
  }

  /** There is such a setting. */
  lemma SomeFit(n: nat) returns (w: Setting)
    requires n <= 50000
    ensures Fit(w, n)
  {
    var token := (i: nat) => if i < 50000 then [('A' as int + i) as char] else "A";
    w := Setting(s => s, "a@b.c", "t", "1", "2", token);
    forall i: nat, j: nat | i < n && j < n && KeyOf(w.hash, w.token(i)) == KeyOf(w.hash, w.token(j))
      ensures i == j
    {
      assert w.token(i)[0] == w.token(j)[0];
    }
  }

  function KeyAt(w: Setting, i: nat): string {
    KeyOf(w.hash, w.token(i))
  }

  ghost function Keys(w: Setting, n: nat): set<string> {
    set i: nat | i < n :: KeyAt(w, i)
  }

  lemma MoreKeys(w: Setting, n: nat, all: nat)
    requires Fit(w, all) && n < all
    ensures KeyAt(w, n) !in Keys(w, n) && Keys(w, n + 1) == Keys(w, n) + {KeyAt(w, n)}
  {
    forall i: nat | i < n
      ensures KeyAt(w, i) != KeyAt(w, n)
    {
    }
    forall k
      ensures k in Keys(w, n + 1) <==> k in Keys(w, n) || k == KeyAt(w, n)
    {
      if k in Keys(w, n + 1) {
        var i: nat :| i < n + 1 && KeyAt(w, i) == k;
        assert i < n ==> k in Keys(w, n);
      }
      if k == KeyAt(w, n) {
        assert k in Keys(w, n + 1);
      }
    }
  }

  lemma {:induction false} Extend(h: Hash, calls: seq<Timed>, s: System, c: Call, time: int)
    requires Run(h, calls) == Some(s) && PasswordReset.Enabled(h, s, c, time)
    ensures Run(h, calls + [Timed(c, time)]) == Some(Next(h, s, c, time))
  {
    assert (calls + [Timed(c, time)])[..|calls|] == calls;
  }

  // ----- The requests -----

  /** How many requests there are for a delay of `k` hours, and how many tokens are drawn. */
  function Total(k: nat): nat {
    3 * (k + 2)
  }

  function Drawn(k: nat): nat {
    6 * Total(k)
  }

  /** When request `i` is admitted. */
  function AdmittedAt(i: nat): int {
    (i / 3) * HOUR
  }

  /** When its token is issued. */
  function IssuedAt(k: nat, i: nat): int {
    if i < 3 * (k + 1) then k * HOUR else (k + 1) * HOUR
  }

  lemma TokenInTime(k: nat, i: nat)
    requires i < Total(k)
    ensures AdmittedAt(i) <= IssuedAt(k, i) <= AdmittedAt(i) + k * HOUR
    ensures IssuedAt(k, i) <= (k + 1) * HOUR <= IssuedAt(k, i) + TOKEN_EXPIRY
  {
    if i < 3 * (k + 1) {
      assert i / 3 <= k;
    } else {
      assert i / 3 == k + 1;
    }
  }

  function PendingAt(w: Setting, k: nat, i: nat, attempts: nat): Pending {
    FreshPending(i, w.id, w.email, w.hash(w.code), IssuedAt(k, i)).(attempts := attempts)
  }

  /** Request `i` when the first `m` have tokens. */
  function AdmittedOf(w: Setting, k: nat, m: nat, i: nat): Admitted {
    Admitted(w.email, AdmittedAt(i), if i < m then Some(Token(KeyAt(w, i), IssuedAt(k, i), w.id, w.hash(w.code))) else None)
  }

  function Admissions(w: Setting, k: nat, n: nat, m: nat): seq<Admitted> {
    seq(n, i requires 0 <= i < n => AdmittedOf(w, k, m, i))
  }

  /** The first `n` requests are pending, with the given attempts. */
  ghost predicate PendingAll(w: Setting, k: nat, pending: map<string, Pending>, n: nat, attempts: nat -> nat) {
    forall i: nat :: i < n ==> KeyAt(w, i) in pending && pending[KeyAt(w, i)] == PendingAt(w, k, i, attempts(i))
  }

  predicate AllAt(times: seq<int>, n: nat, t: int) {
    |times| == n && forall i :: 0 <= i < n ==> times[i] == t
  }

  lemma {:induction false} RecentAllAt(times: seq<int>, n: nat, t: int, cutoff: int)
    requires AllAt(times, n, t)
    ensures t > cutoff ==> Recent(times, cutoff) == times
    ensures t <= cutoff ==> Recent(times, cutoff) == []
  {
    if n == 0 {
    } else {
      RecentAllAt(times[..n - 1], n - 1, t, cutoff);
      assert times == times[..n - 1] + [t];
    }
  }

  /** The limiter's entries after `n` requests: those of the last hour with requests. */
  predicate Logged(times: seq<int>, n: nat) {
    if n == 0 then times == [] else AllAt(times, (n - 1) % 3 + 1, AdmittedAt(n - 1))
  }

  lemma {:induction false} NextLogged(times: seq<int>, n: nat)
    requires Logged(times, n)
    ensures |Recent(times, AdmittedAt(n) - RATE_WINDOW)| < RATE_MAX
    ensures Logged(Recent(times, AdmittedAt(n) - RATE_WINDOW) + [AdmittedAt(n)], n + 1)
  {
    if n > 0 {
      RecentAllAt(times, |times|, AdmittedAt(n - 1), AdmittedAt(n) - RATE_WINDOW);
      if n % 3 == 0 {
        assert (n - 1) / 3 + 1 == n / 3;
      } else {
        assert (n - 1) / 3 == n / 3;
      }
    }
  }

  function NoAttempts(): nat -> nat {
    (i: nat) => 0
  }

  ghost function Between(m: nat, n: nat): set<nat> {
    set i: nat | i < n && !Below(i, m)
  }

  predicate Below(i: nat, m: nat) {
    i < m
  }

  /** `n` requests are admitted, and the first `m` of them have their tokens. */
  ghost predicate Requested(w: Setting, k: nat, s: System, n: nat, m: nat) {
    && s.requests == Admissions(w, k, n, m) && s.open == Between(m, n) && s.issued == Keys(w, m) && s.wrongCodes == []
    && PendingAll(w, k, s.tables.pending, m, NoAttempts())
    && Logged(Times(s.tables.limiter, w.email), n)
  }

  lemma BeginStep(w: Setting, k: nat, s: System, n: nat, m: nat)
    requires w.email != "" && Requested(w, k, s, n, m) && m <= n && s.now <= AdmittedAt(n)
    ensures var c := BeginReset(w.email);
      && PasswordReset.Enabled(w.hash, s, c, AdmittedAt(n))
      && Requested(w, k, Next(w.hash, s, c, AdmittedAt(n)), n + 1, m)
      && Next(w.hash, s, c, AdmittedAt(n)).now == AdmittedAt(n)
  {
    var t := AdmittedAt(n);
    NextLogged(Times(s.tables.limiter, w.email), n);
    var s' := Next(w.hash, s, BeginReset(w.email), t);
    assert s'.requests == Admissions(w, k, n + 1, m);
    assert Between(m, n + 1) == Between(m, n) + {n};
    LimiterMore(s.tables.limiter, w.email, t, n);
  }

  lemma LimiterMore(log: Log, email: string, t: int, n: nat)
    requires t == AdmittedAt(n) && Logged(Times(log, email), n)
    ensures Logged(Times(Recorded(Pruned(log, email, t - RATE_WINDOW), email, t), email), n + 1)
  {
    var recent := Recent(Times(log, email), t - RATE_WINDOW);
    NextLogged(Times(log, email), n);
    assert Times(Recorded(Pruned(log, email, t - RATE_WINDOW), email, t), email) == recent + [t];
  }

  lemma FinishStep(w: Setting, k: nat, s: System, n: nat, m: nat)
    requires Fit(w, Drawn(k)) && Requested(w, k, s, n, m) && m < n <= Total(k) && s.now <= IssuedAt(k, m)
    ensures var c := FinishReset(m, Active(w.id), w.token(m), w.code);
      && PasswordReset.Enabled(w.hash, s, c, IssuedAt(k, m))
      && Requested(w, k, Next(w.hash, s, c, IssuedAt(k, m)), n, m + 1)
      && Next(w.hash, s, c, IssuedAt(k, m)).now == IssuedAt(k, m)
  {
    var c, t := FinishReset(m, Active(w.id), w.token(m), w.code), IssuedAt(k, m);
    MoreKeys(w, m, Drawn(k));
    assert m in Between(m, n);
    var s' := Next(w.hash, s, c, t);
    assert s'.requests == Admissions(w, k, n, m + 1);
    assert Between(m + 1, n) == Between(m, n) - {m};
    assert s'.tables.pending == s.tables.pending[KeyAt(w, m) := PendingAt(w, k, m, 0)];
    PendingMore(w, k, s.tables.pending, m);
  }

  lemma PendingMore(w: Setting, k: nat, pending: map<string, Pending>, n: nat)
    requires Fit(w, Drawn(k)) && n < Total(k) && PendingAll(w, k, pending, n, NoAttempts())
    ensures PendingAll(w, k, pending[KeyAt(w, n) := PendingAt(w, k, n, 0)], n + 1, NoAttempts())
  {
  }

  lemma NoneRequested(w: Setting, k: nat)
    ensures Requested(w, k, PasswordReset.START, 0, 0)
  {
    assert Keys(w, 0) == {} && Between(0, 0) == {};
  }

  lemma BeginMore(w: Setting, k: nat, calls: seq<Timed>, s: System, n: nat, n': nat, m: nat) returns (calls': seq<Timed>, s': System)
    requires w.email != "" && Run(w.hash, calls) == Some(s) && Requested(w, k, s, n, m) && m <= n && s.now <= AdmittedAt(n)
    requires n' == n + 1
    ensures Run(w.hash, calls') == Some(s') && Requested(w, k, s', n', m) && s'.now == AdmittedAt(n)
  {
    BeginStep(w, k, s, n, m);
    var c := BeginReset(w.email);
    Extend(w.hash, calls, s, c, AdmittedAt(n));
    calls', s' := calls + [Timed(c, AdmittedAt(n))], Next(w.hash, s, c, AdmittedAt(n));
  }

  lemma FinishMore(w: Setting, k: nat, calls: seq<Timed>, s: System, n: nat, m: nat) returns (calls': seq<Timed>, s': System)
    requires Fit(w, Drawn(k)) && Run(w.hash, calls) == Some(s) && Requested(w, k, s, n, m)
    requires m < n <= Total(k) && s.now <= IssuedAt(k, m)
    ensures Run(w.hash, calls') == Some(s') && Requested(w, k, s', n, m + 1) && s'.now == IssuedAt(k, m)
  {
    FinishStep(w, k, s, n, m);
    var c := FinishReset(m, Active(w.id), w.token(m), w.code);
    Extend(w.hash, calls, s, c, IssuedAt(k, m));
    calls', s' := calls + [Timed(c, IssuedAt(k, m))], Next(w.hash, s, c, IssuedAt(k, m));
  }

  lemma InOrder(i: nat)
    ensures AdmittedAt(i) <= AdmittedAt(i + 1)
  {
    assert i / 3 <= (i + 1) / 3;
  }

  lemma Ready(now: int, last: nat, n: nat, start: int)
    requires n <= last && start <= AdmittedAt(n)
    requires now == if last == n then start else AdmittedAt(last - 1)
    ensures now <= AdmittedAt(last)
  {
    if last > n {
      InOrder(last - 1);
    }
  }

  /** All requests up to `end` are admitted. */
  lemma {:induction false} BeginAll(w: Setting, k: nat, calls: seq<Timed>, s: System, n: nat, m: nat, end: nat)
    returns (calls': seq<Timed>, s': System)
    requires w.email != "" && Run(w.hash, calls) == Some(s) && Requested(w, k, s, n, m) && m <= n <= end
    requires s.now <= AdmittedAt(n)
    ensures Run(w.hash, calls') == Some(s') && Requested(w, k, s', end, m)
    ensures s'.now == if end == n then s.now else AdmittedAt(end - 1)
    decreases end
  {
    if end == n {
      calls', s' := calls, s;
    } else {
      var last := end - 1;
      calls', s' := BeginAll(w, k, calls, s, n, m, last);
      Ready(s'.now, last, n, s.now);
      calls', s' := BeginMore(w, k, calls', s', last, end, m);
    }
  }

  /** All requests up to `end` get their tokens. */
  lemma {:induction false} FinishAll(w: Setting, k: nat, calls: seq<Timed>, s: System, n: nat, m: nat, end: nat)
    returns (calls': seq<Timed>, s': System)
    requires Fit(w, Drawn(k)) && Run(w.hash, calls) == Some(s) && Requested(w, k, s, n, m)
    requires m <= end <= n <= Total(k) && s.now <= IssuedAt(k, m)
    ensures Run(w.hash, calls') == Some(s') && Requested(w, k, s', n, end)
    ensures s'.now == if end == m then s.now else IssuedAt(k, end - 1)
    decreases end
  {
    if end == m {
      calls', s' := calls, s;
    } else {
      var last := end - 1;
      calls', s' := FinishAll(w, k, calls, s, n, m, last);
      calls', s' := FinishMore(w, k, calls', s', n, last);
    }
  }

  /** The first and the last request of an hour. */
  lemma HourOf(k: nat)
    ensures AdmittedAt(0) == 0 && AdmittedAt(3 * k) == AdmittedAt(3 * k + 2) == k * HOUR
  {
    assert (3 * k) / 3 == k && (3 * k + 2) / 3 == k;
  }

  /** All but the last three are admitted and have their tokens. */
  lemma MostFinished(w: Setting, k: nat, n: nat) returns (calls: seq<Timed>, s: System)
    requires Fit(w, Drawn(k)) && n == 3 * k + 3
    ensures Run(w.hash, calls) == Some(s) && Requested(w, k, s, n, n) && s.now == k * HOUR
  {
    NoneRequested(w, k);
    HourOf(k);
    calls, s := BeginAll(w, k, [], PasswordReset.START, 0, 0, n);
    calls, s := FinishAll(w, k, calls, s, n, 0, n);
  }

  /** All have. */
  lemma AllFinished(w: Setting, k: nat) returns (calls: seq<Timed>, s: System)
    requires Fit(w, Drawn(k))
    ensures Run(w.hash, calls) == Some(s) && Requested(w, k, s, Total(k), Total(k)) && s.now == (k + 1) * HOUR
  {
    calls, s := MostFinished(w, k, 3 * k + 3);
    calls, s := LastFinished(w, k, calls, s, 3 * k + 3, Total(k), (k + 1) * HOUR);
  }

  lemma LastFinished(w: Setting, k: nat, calls: seq<Timed>, s: System, n: nat, all: nat, end: int)
    returns (calls': seq<Timed>, s': System)
    requires Fit(w, Drawn(k)) && n == 3 * (k + 1) && all == Total(k) == n + 3 && end == (k + 1) * HOUR
    requires Run(w.hash, calls) == Some(s) && Requested(w, k, s, n, n) && s.now <= end
    ensures Run(w.hash, calls') == Some(s') && Requested(w, k, s', all, all) && s'.now == end
  {
    HourOf(k + 1);
    calls', s' := BeginAll(w, k, calls, s, n, n, all);
    calls', s' := FinishAll(w, k, calls', s', all, n, all);
  }

  // ----- The guesses -----

  /** How many of the first `g` guesses are for request `i`. */
  function Attempts(g: nat): nat -> nat {
    (i: nat) => if g <= 5 * i then 0 else if g >= 5 * i + 5 then 5 else g - 5 * i
  }

  function GuessMarks(k: nat, g: nat, shown: string): seq<Mark> {
    if g == 0 then [] else GuessMarks(k, g - 1, shown) + [Mark((g - 1) / 5, (k + 1) * HOUR, shown)]
  }

  ghost predicate Guessed(w: Setting, k: nat, s: System, g: nat) {
    && s.now <= (k + 1) * HOUR && s.requests == Admissions(w, k, Total(k), Total(k))
    && s.issued == Keys(w, Total(k) + g) && s.wrongCodes == GuessMarks(k, g, w.hash(w.wrong))
    && PendingAll(w, k, s.tables.pending, Total(k), Attempts(g))
  }

  /** A wrong code for a live request. */
  lemma WrongGuess(h: Hash, s: System, token: string, wrong: string, newToken: string, time: int)
    requires PasswordReset.Enabled(h, s, VerifyCode(token, wrong, newToken), time)
    requires token != "" && wrong != "" && KeyOf(h, token) in s.tables.pending
    requires var p := s.tables.pending[KeyOf(h, token)];
      time <= p.expiresAt && p.attempts < p.maxAttempts && h(wrong) != p.codeHash
    ensures var p := s.tables.pending[KeyOf(h, token)];
      var s' := Next(h, s, VerifyCode(token, wrong, newToken), time);
      && s'.now == time && s'.requests == s.requests && s'.issued == s.issued + {KeyOf(h, newToken)}
      && s'.wrongCodes == s.wrongCodes + [Mark(p.request, time, h(wrong))]
      && s'.tables.pending == s.tables.pending[KeyOf(h, token) := p.(attempts := p.attempts + 1)]
  {
  }

  lemma GuessStep(w: Setting, k: nat, s: System, g: nat)
    requires Fit(w, Drawn(k)) && Guessed(w, k, s, g) && g < 5 * Total(k)
    ensures var c := VerifyCode(w.token(g / 5), w.wrong, w.token(Total(k) + g));
      && PasswordReset.Enabled(w.hash, s, c, (k + 1) * HOUR)
      && Guessed(w, k, Next(w.hash, s, c, (k + 1) * HOUR), g + 1)
  {
    var i, now := g / 5, (k + 1) * HOUR;
    MoreKeys(w, Total(k) + g, Drawn(k));
    TokenInTime(k, i);
    assert KeyAt(w, i) in s.tables.pending && s.tables.pending[KeyAt(w, i)] == PendingAt(w, k, i, Attempts(g)(i));
    WrongGuess(w.hash, s, w.token(i), w.wrong, w.token(Total(k) + g), now);
    PendingGuessed(w, k, s.tables.pending, g);
  }

  lemma PendingGuessed(w: Setting, k: nat, pending: map<string, Pending>, g: nat)
    requires Fit(w, Drawn(k)) && PendingAll(w, k, pending, Total(k), Attempts(g)) && g < 5 * Total(k)
    ensures PendingAll(w, k, pending[KeyAt(w, g / 5) := PendingAt(w, k, g / 5, Attempts(g)(g / 5) + 1)], Total(k), Attempts(g + 1))
  {
    var i := g / 5;
    forall j: nat | j < Total(k)
      ensures Attempts(g + 1)(j) == if j == i then Attempts(g)(j) + 1 else Attempts(g)(j)
    {
    }
  }

  lemma {:induction false} AllGuessed(w: Setting, k: nat, g: nat) returns (calls: seq<Timed>, s: System)
    requires Fit(w, Drawn(k)) && g <= 5 * Total(k)
    ensures Run(w.hash, calls) == Some(s) && Guessed(w, k, s, g)
  {
    if g == 0 {
      calls, s := AllFinished(w, k);
      FirstGuess(w, k, s);
    } else {
      calls, s := AllGuessed(w, k, g - 1);
      GuessStep(w, k, s, g - 1);
      var c := VerifyCode(w.token((g - 1) / 5), w.wrong, w.token(Total(k) + (g - 1)));
      Extend(w.hash, calls, s, c, (k + 1) * HOUR);
      calls, s := calls + [Timed(c, (k + 1) * HOUR)], Next(w.hash, s, c, (k + 1) * HOUR);
    }
  }

  lemma FirstGuess(w: Setting, k: nat, s: System)
    requires Requested(w, k, s, Total(k), Total(k)) && s.now == (k + 1) * HOUR
    ensures Guessed(w, k, s, 0)
  {
    assert forall i: nat :: Attempts(0)(i) == NoAttempts()(i);
  }

  lemma {:induction false} GuessesCounted(w: Setting, k: nat, g: nat)
    requires g <= 5 * Total(k)
    ensures Guesses(Admissions(w, k, Total(k), Total(k)), GuessMarks(k, g, w.hash(w.wrong)), w.email, Total(k),
                    (k + 1) * HOUR, (k + 1) * HOUR + HOUR) == g
  {
    if g == 0 {
    } else {
      GuessesCounted(w, k, g - 1);
      var marks, m := GuessMarks(k, g - 1, w.hash(w.wrong)), Mark((g - 1) / 5, (k + 1) * HOUR, w.hash(w.wrong));
      assert (marks + [m])[..|marks|] == marks;
      assert m.request < Total(k);
    }
  }

  lemma WholeHours(k: nat)
    ensures Hours(k * HOUR) == k
  {
  }

  /** For every `k` some run, in which no token is issued more than `k` hours after its request was
      admitted, has as many wrong codes evaluated for one email within an hour as is allowed: thirty
      without delay, fifteen more for every hour of it. */
  lemma BoundAttained(w: Setting, k: nat) returns (calls: seq<Timed>, s: System)
    requires Fit(w, Drawn(k))
    ensures Run(w.hash, calls) == Some(s) && Prompt(s.requests, w.email, k * HOUR)
    ensures Guesses(s.requests, s.wrongCodes, w.email, |s.requests|, (k + 1) * HOUR, (k + 1) * HOUR + HOUR)
      == 30 + 15 * Hours(k * HOUR)
  {
    calls, s := AllGuessed(w, k, 5 * Total(k));
    GuessesCounted(w, k, 5 * Total(k));
    WholeHours(k);
    forall r | 0 <= r < |s.requests|
      ensures s.requests[r].time <= s.requests[r].token.value.time <= s.requests[r].time + k * HOUR
    {
      TokenInTime(k, r);
    }
  }
}
