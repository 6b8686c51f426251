/** The password-reset protocol: request, verify a code, consume the verified token
    (internal/core/tenant_service.go). Each critical section is one atomic step with one clock
    reading. A request has two: it is admitted by the limiter, and later, once the tenant is known,
    its token is stored; between them anything may happen, and it may never come to the second.
    The hash function is a parameter and freshly generated tokens have a key that was not issued
    before. */
module PasswordReset {
  import opened Text
  import opened Durations
  import opened SlidingWindow

  const TOKEN_EXPIRY := HOUR
  const CODE_EXPIRY := 5 * MINUTE
  const RATE_WINDOW := HOUR
  const RATE_MAX := 3
  const MAX_ATTEMPTS := 5
  const NOT_FOUND_WINDOW := DAY
  const NOT_FOUND_MAX := 5
  const MIN_PASSWORD := 8

  /** A pending reset; `request` is the number of the admitted request it belongs to. */
  datatype Pending = Pending(
    request: nat,
    tenantID: string,
    email: string,
    codeHash: string,
    verified: bool,
    createdAt: int,
    expiresAt: int,
    codeExpiresAt: int,
    attempts: nat,
    maxAttempts: nat)

  datatype Tables = Tables(pending: map<string, Pending>, limiter: Log, notFound: Log)

  type Hash = string -> string

  /** Pending resets are keyed by the first 16 characters of the token's hash. */
  function KeyOf(h: Hash, token: string): (key: string)
    ensures key <= h(token) && |key| <= 16 && (|key| < 16 ==> key == h(token))
  {
    if |h(token)| < 16 then h(token) else h(token)[..16]
  }

  /** What the tenant registry says about an email. */
  datatype Tenant = NoTenant | Inactive | Active(id: string)

  predicate Admits(log: Log, email: string, now: int, window: int, max: nat) {
    |Recent(Times(log, email), now - window)| < max
  }

  // ----- The critical sections -----

  datatype BeginOutcome = NoEmail | Limited | Entered

  /** `RequestPasswordReset` up to the registry's answer. */
  function Begin(t: Tables, email: string, now: int): (Tables, BeginOutcome) {
    if email == "" then (t, NoEmail)
    else
      var checked := t.(limiter := Pruned(t.limiter, email, now - RATE_WINDOW));
      if !Admits(t.limiter, email, now, RATE_WINDOW, RATE_MAX) then (checked, Limited)
      else (checked.(limiter := Recorded(checked.limiter, email, now)), Entered)
  }

  datatype FinishOutcome = NotFound | NotActive | Issued

  /** `RequestPasswordReset` from the registry's answer on, for admitted request `number`. */
  function Finish(t: Tables, h: Hash, number: nat, email: string, tenant: Tenant, token: string, code: string, now: int)
    : (Tables, FinishOutcome)
  {
    match tenant
    case NoTenant => (t.(notFound := AfterNotFound(t.notFound, email, now)), NotFound)
    case Inactive => (t, NotActive)
    case Active(id) => (t.(pending := t.pending[KeyOf(h, token) := FreshPending(number, id, email, h(code), now)]), Issued)
  }

  /** The pending reset a request starts with. */
  function FreshPending(number: nat, id: string, email: string, codeHash: string, now: int): Pending {
    Pending(number, id, email, codeHash, false, now, now + TOKEN_EXPIRY, now + CODE_EXPIRY, 0, MAX_ATTEMPTS)
  }

  function AfterNotFound(log: Log, email: string, now: int): Log {
    var pruned := Pruned(log, email, now - NOT_FOUND_WINDOW);
    if Admits(log, email, now, NOT_FOUND_WINDOW, NOT_FOUND_MAX) then Recorded(pruned, email, now) else pruned
  }

  datatype VerifyOutcome = NoToken | NoCode | UnknownToken | TokenExpired | TooManyAttempts | WrongCode | CodeExpired | Verified

  function Verify(t: Tables, h: Hash, token: string, code: string, newToken: string, now: int): (Tables, VerifyOutcome) {
    var key := KeyOf(h, token);
    if token == "" then (t, NoToken)
    else if code == "" then (t, NoCode)
    else if key !in t.pending then (t, UnknownToken)
    else
      var p := t.pending[key];
      var dropped := t.(pending := t.pending - {key});
      if now > p.expiresAt then (dropped, TokenExpired)
      else if p.attempts >= p.maxAttempts then (dropped, TooManyAttempts)
      else if h(code) != p.codeHash then (t.(pending := t.pending[key := p.(attempts := p.attempts + 1)]), WrongCode)
      else if now > p.codeExpiresAt then (dropped, CodeExpired)
      else (t.(pending := (t.pending - {key})[KeyOf(h, newToken) := p.(verified := true)]), Verified)
  }

  datatype ResetOutcome = NoVerifiedToken | NoPassword | PasswordTooShort | UnknownReset | NotVerified | ResetExpired
    | Consumed(tenantID: string)

  function Reset(t: Tables, h: Hash, token: string, password: string, now: int): (Tables, ResetOutcome) {
    var key := KeyOf(h, token);
    if token == "" then (t, NoVerifiedToken)
    else if password == "" then (t, NoPassword)
    else if |password| < MIN_PASSWORD then (t, PasswordTooShort)
    else if key !in t.pending then (t, UnknownReset)
    else if !t.pending[key].verified then (t, NotVerified)
    else if now > t.pending[key].expiresAt then (t.(pending := t.pending - {key}), ResetExpired)
    else (t.(pending := t.pending - {key}), Consumed(t.pending[key].tenantID))
  }

  // ----- Runs, with a record of what happened -----

  /** A request's first token: when it was issued, the tenant the registry gave for it, and the
      hash of the code sent out. */
  datatype Token = Token(key: string, time: int, tenant: string, codeHash: string)

  /** A request admitted at a time, and its token once it has one. */
  datatype Admitted = Admitted(email: string, time: int, token: Option<Token>)

  /** Something that happened to a request at a time. The note of a code presented is its hash,
      that of a password change the tenant it was made for. */
  datatype Mark = Mark(request: nat, time: int, note: string)

  /** `open` are the admitted requests whose second section is still to come. */
  datatype System = System(
    tables: Tables,
    now: int,
    issued: set<string>,
    requests: seq<Admitted>,
    open: set<nat>,
    wrongCodes: seq<Mark>,
    verifications: seq<Mark>,
    consumptions: seq<Mark>)

  const START := System(Tables(map[], map[], map[]), 0, {}, [], {}, [], [], [])

  datatype Call =
    | BeginReset(email: string)
    | FinishReset(number: nat, tenant: Tenant, token: string, code: string)
    | VerifyCode(vtoken: string, vcode: string, newToken: string)
    | ResetPassword(rtoken: string, password: string)

  /** Time does not go back, an admitted request is finished once, and generated tokens are new. */
  predicate Enabled(h: Hash, s: System, c: Call, time: int) {
    && s.now <= time
    && (c.FinishReset? ==> c.number < |s.requests| && c.number in s.open && KeyOf(h, c.token) !in s.issued)
    && (c.VerifyCode? ==> KeyOf(h, c.newToken) !in s.issued)
  }

  /** A mark for the request whose token is presented. */
  function MarkOf(s: System, key: string, time: int, note: string): seq<Mark> {
    if key in s.tables.pending then [Mark(s.tables.pending[key].request, time, note)] else []
  }

  function Next(h: Hash, s: System, c: Call, time: int): System
    requires Enabled(h, s, c, time)
  {
    match c
    case BeginReset(email) =>
      var (t, r) := Begin(s.tables, email, time);
      if r.Entered? then
        s.(tables := t, now := time, requests := s.requests + [Admitted(email, time, None)], open := s.open + {|s.requests|})
      else s.(tables := t, now := time)
    case FinishReset(n, tenant, token, code) =>
      var (t, r) := Finish(s.tables, h, n, s.requests[n].email, tenant, token, code, time);
      var a := if r.Issued? then s.requests[n].(token := Some(Token(KeyOf(h, token), time, tenant.id, h(code)))) else s.requests[n];
      s.(tables := t, now := time, issued := s.issued + {KeyOf(h, token)}, requests := s.requests[n := a], open := s.open - {n})
    case VerifyCode(token, code, newToken) =>
      var (t, r) := Verify(s.tables, h, token, code, newToken, time);
      var mark := MarkOf(s, KeyOf(h, token), time, h(code));
      s.(tables := t, now := time, issued := s.issued + {KeyOf(h, newToken)},
         wrongCodes := s.wrongCodes + (if r.WrongCode? then mark else []),
         verifications := s.verifications + (if r.Verified? then mark else []))
    case ResetPassword(token, password) =>
      var (t, r) := Reset(s.tables, h, token, password, time);
      s.(tables := t, now := time,
         consumptions := s.consumptions + (if r.Consumed? then MarkOf(s, KeyOf(h, token), time, r.tenantID) else []))
  }

  datatype Timed = Timed(call: Call, time: int)

  function Run(h: Hash, calls: seq<Timed>): Option<System> {
    if calls == [] then Some(START)
    else
      var last := calls[|calls| - 1];
      match Run(h, calls[..|calls| - 1])
      case Some(s) => if Enabled(h, s, last.call, last.time) then Some(Next(h, s, last.call, last.time)) else None
      case None => None
  }

  // ----- Invariants -----

  function Marks(marks: seq<Mark>, request: nat): nat {
    if marks == [] then 0
    else Marks(marks[..|marks| - 1], request) + (if marks[|marks| - 1].request == request then 1 else 0)
  }

  lemma {:induction false} MarksOfAppend(marks: seq<Mark>, m: Mark, request: nat)
    ensures Marks(marks + [m], request) == Marks(marks, request) + (if m.request == request then 1 else 0)
  {
    assert (marks + [m])[..|marks|] == marks;
  }

  /** A verification of request `r` within five minutes of it and no later than `deadline`. */
  predicate TimelyMark(m: Mark, r: nat, created: int, deadline: int) {
    m.request == r && created <= m.time <= created + CODE_EXPIRY && m.time <= deadline
  }

  predicate TimelyVerified(verifications: seq<Mark>, r: nat, created: int, deadline: int) {
    exists i :: 0 <= i < |verifications| && TimelyMark(verifications[i], r, created, deadline)
  }

  predicate PendingOk(s: System, key: string, p: Pending) {
    && key in s.issued
    && p.request < |s.requests| && s.requests[p.request].email == p.email
    && s.requests[p.request].token.Some? && s.requests[p.request].token.value.time == p.createdAt <= s.now
    && p.expiresAt == p.createdAt + TOKEN_EXPIRY && p.codeExpiresAt == p.createdAt + CODE_EXPIRY
    && p.maxAttempts == MAX_ATTEMPTS && p.attempts == Marks(s.wrongCodes, p.request) <= MAX_ATTEMPTS
    && Marks(s.consumptions, p.request) == 0
    && (p.verified ==> TimelyVerified(s.verifications, p.request, p.createdAt, s.now))
  }

  /** A first token still in use belongs to its own request, which nobody has verified. */
  predicate FirstTokenOk(s: System, r: nat)
    requires r < |s.requests|
  {
    s.requests[r].token.Some? ==>
      && s.requests[r].time <= s.requests[r].token.value.time
      && s.requests[r].token.value.key in s.issued
      && (s.requests[r].token.value.key in s.tables.pending ==>
            s.tables.pending[s.requests[r].token.value.key].request == r && Marks(s.verifications, r) == 0)
  }

  /** An open request was admitted, by now, and has no token. */
  predicate OpenOk(s: System) {
    && (forall n :: n in s.open ==> n < |s.requests| && s.requests[n].token.None?)
    && (forall r :: 0 <= r < |s.requests| ==> s.requests[r].time <= s.now)
  }

  predicate OnePendingEach(pending: map<string, Pending>) {
    forall j, k :: j in pending && k in pending && pending[j].request == pending[k].request ==> j == k
  }

  predicate PendingsOk(s: System) {
    forall k :: k in s.tables.pending ==> PendingOk(s, k, s.tables.pending[k])
  }

  predicate FirstTokensOk(s: System) {
    forall r :: 0 <= r < |s.requests| ==> FirstTokenOk(s, r)
  }

  /** The marked request has a token, and the mark lies within its life. */
  predicate WithinLife(s: System, m: Mark) {
    && m.request < |s.requests| && s.requests[m.request].token.Some?
    && s.requests[m.request].token.value.time <= m.time <= s.requests[m.request].token.value.time + TOKEN_EXPIRY
  }

  predicate MarksOk(s: System, marks: seq<Mark>, max: nat) {
    && (forall i :: 0 <= i < |marks| ==> WithinLife(s, marks[i]))
    && (forall r :: 0 <= r < |s.requests| ==> Marks(marks, r) <= max)
  }

  predicate ConsumptionOk(s: System, m: Mark) {
    && m.request < |s.requests| && s.requests[m.request].token.Some?
    && TimelyVerified(s.verifications, m.request, s.requests[m.request].token.value.time, m.time)
  }

  predicate ConsumptionsOk(s: System) {
    forall i :: 0 <= i < |s.consumptions| ==> ConsumptionOk(s, s.consumptions[i])
  }

  predicate VerificationsOk(s: System) {
    forall i :: 0 <= i < |s.verifications| ==> WithinLife(s, s.verifications[i])
  }

  predicate Invariant(s: System) {
    && PendingsOk(s) && OnePendingEach(s.tables.pending) && FirstTokensOk(s) && OpenOk(s)
    && MarksOk(s, s.wrongCodes, MAX_ATTEMPTS) && MarksOk(s, s.consumptions, 1)
    && VerificationsOk(s) && ConsumptionsOk(s)
  }

  // ----- The moves the calls are made of -----

  lemma TickKeeps(s: System, time: int)
    requires Invariant(s) && s.now <= time
    ensures Invariant(s.(now := time))
  {
    var s' := s.(now := time);
    forall k | k in s'.tables.pending ensures PendingOk(s', k, s'.tables.pending[k]) {
      var p := s.tables.pending[k];
      assert PendingOk(s, k, p);
      LaterDeadline(s.verifications, p.request, p.createdAt, s.now, time);
    }
    assert forall r :: 0 <= r < |s.requests| ==> FirstTokenOk(s, r) ==> FirstTokenOk(s', r);
  }

  lemma LaterDeadline(verifications: seq<Mark>, r: nat, created: int, early: int, late: int)
    requires early <= late
    ensures TimelyVerified(verifications, r, created, early) ==> TimelyVerified(verifications, r, created, late)
  {
    if TimelyVerified(verifications, r, created, early) {
      var i :| 0 <= i < |verifications| && TimelyMark(verifications[i], r, created, early);
      assert TimelyMark(verifications[i], r, created, late);
    }
  }

  /** Using up keys, or changing the limiter logs, affects no token. */
  lemma IssueKeeps(s: System, keys: set<string>, limiter: Log, notFound: Log)
    requires Invariant(s)
    ensures Invariant(s.(issued := s.issued + keys, tables := s.tables.(limiter := limiter, notFound := notFound)))
  {
    var s' := s.(issued := s.issued + keys, tables := s.tables.(limiter := limiter, notFound := notFound));
    forall k | k in s'.tables.pending ensures PendingOk(s', k, s'.tables.pending[k]) {
      assert PendingOk(s, k, s.tables.pending[k]);
    }
    forall r | 0 <= r < |s'.requests| ensures FirstTokenOk(s', r) {
      assert FirstTokenOk(s, r);
    }
  }

  /** A request without a token is unmarked. */
  lemma {:induction false} UnissuedUnmarked(s: System, marks: seq<Mark>, n: nat)
    requires n < |s.requests| ==> s.requests[n].token.None?
    requires forall i :: 0 <= i < |marks| ==> WithinLife(s, marks[i])
    ensures Marks(marks, n) == 0
  {
    if marks == [] {
    } else {
      UnissuedUnmarked(s, marks[..|marks| - 1], n);
      assert WithinLife(s, marks[|marks| - 1]);
    }
  }

  /** Records only depend on the tokens that were issued. */
  lemma RecordsCarryOver(s: System, s': System)
    requires |s.requests| <= |s'.requests|
    requires forall r :: 0 <= r < |s.requests| && s.requests[r].token.Some? ==> s'.requests[r].token == s.requests[r].token
    requires forall r :: |s.requests| <= r < |s'.requests| ==> Marks(s.wrongCodes, r) == Marks(s.consumptions, r) == 0
    requires s'.wrongCodes == s.wrongCodes && s'.verifications == s.verifications && s'.consumptions == s.consumptions
    requires MarksOk(s, s.wrongCodes, MAX_ATTEMPTS) && MarksOk(s, s.consumptions, 1) && VerificationsOk(s) && ConsumptionsOk(s)
    ensures MarksOk(s', s.wrongCodes, MAX_ATTEMPTS) && MarksOk(s', s.consumptions, 1) && VerificationsOk(s') && ConsumptionsOk(s')
  {
    assert forall m :: WithinLife(s, m) ==> WithinLife(s', m);
    assert forall m :: ConsumptionOk(s, m) ==> ConsumptionOk(s', m);
  }

  /** A request is admitted. */
  function Entering(s: System, email: string): System {
    s.(requests := s.requests + [Admitted(email, s.now, None)], open := s.open + {|s.requests|})
  }

  lemma EnterKeeps(s: System, email: string)
    requires Invariant(s)
    ensures Invariant(Entering(s, email))
  {
    var s' := Entering(s, email);
    UnissuedUnmarked(s, s.wrongCodes, |s.requests|);
    UnissuedUnmarked(s, s.consumptions, |s.requests|);
    RecordsCarryOver(s, s');
    forall k | k in s'.tables.pending ensures PendingOk(s', k, s'.tables.pending[k]) {
      assert PendingOk(s, k, s.tables.pending[k]);
    }
    forall r | 0 <= r < |s'.requests| ensures FirstTokenOk(s', r) {
      assert r < |s.requests| ==> FirstTokenOk(s, r);
    }
  }

  /** A request is closed without a token. */
  lemma CloseKeeps(s: System, n: nat)
    requires Invariant(s)
    ensures Invariant(s.(open := s.open - {n}))
  {
    var s' := s.(open := s.open - {n});
    forall k | k in s'.tables.pending ensures PendingOk(s', k, s'.tables.pending[k]) {
      assert PendingOk(s, k, s.tables.pending[k]);
    }
    forall r | 0 <= r < |s'.requests| ensures FirstTokenOk(s', r) {
      assert FirstTokenOk(s, r);
    }
    RecordsCarryOver(s, s');
  }

  /** An open request gets its first token. */
  function Granting(s: System, n: nat, key: string, id: string, codeHash: string): System
    requires n < |s.requests|
  {
    s.(issued := s.issued + {key}, open := s.open - {n},
       requests := s.requests[n := s.requests[n].(token := Some(Token(key, s.now, id, codeHash)))],
       tables := s.tables.(pending := s.tables.pending[key := FreshPending(n, id, s.requests[n].email, codeHash, s.now)]))
  }

  /** The request has no token, so nothing has happened to it. */
  lemma {:induction false} OpenIsUnmarked(s: System, n: nat)
    requires Invariant(s) && n in s.open
    ensures Marks(s.wrongCodes, n) == Marks(s.consumptions, n) == Marks(s.verifications, n) == 0
    ensures forall k :: k in s.tables.pending ==> s.tables.pending[k].request != n
  {
    UnissuedUnmarked(s, s.wrongCodes, n);
    UnissuedUnmarked(s, s.consumptions, n);
    UnissuedUnmarked(s, s.verifications, n);
    forall k | k in s.tables.pending ensures s.tables.pending[k].request != n {
      assert PendingOk(s, k, s.tables.pending[k]) == true;
    }
  }

  lemma GrantKeepsTokens(s: System, n: nat, key: string, id: string, codeHash: string)
    requires Invariant(s) && key !in s.issued && n in s.open && n < |s.requests|
    ensures var s' := Granting(s, n, key, id, codeHash); PendingsOk(s') && FirstTokensOk(s')
  {
    var s' := Granting(s, n, key, id, codeHash);
    OpenIsUnmarked(s, n);
    forall k | k in s'.tables.pending ensures PendingOk(s', k, s'.tables.pending[k]) {
      assert k != key ==> PendingOk(s, k, s.tables.pending[k]);
    }
    forall r | 0 <= r < |s'.requests| ensures FirstTokenOk(s', r) {
      assert FirstTokenOk(s, r);
    }
  }

  lemma GrantKeeps(s: System, n: nat, key: string, id: string, codeHash: string)
    requires Invariant(s) && key !in s.issued && n in s.open && n < |s.requests|
    ensures Invariant(Granting(s, n, key, id, codeHash))
  {
    GrantKeepsTokens(s, n, key, id, codeHash);
    OpenIsUnmarked(s, n);
    RecordsCarryOver(s, Granting(s, n, key, id, codeHash));
  }

  lemma DropKeeps(s: System, key: string)
    requires Invariant(s) && key in s.tables.pending
    ensures Invariant(s.(tables := s.tables.(pending := s.tables.pending - {key})))
  {
    var s' := s.(tables := s.tables.(pending := s.tables.pending - {key}));
    forall k | k in s'.tables.pending ensures PendingOk(s', k, s'.tables.pending[k]) {
      assert PendingOk(s, k, s.tables.pending[k]);
    }
    forall r | 0 <= r < |s'.requests| ensures FirstTokenOk(s', r) {
      assert FirstTokenOk(s, r);
    }
  }

  lemma {:induction false} MarkedOnce(s: System, marks: seq<Mark>, m: Mark, max: nat)
    requires MarksOk(s, marks, max) && WithinLife(s, m) && Marks(marks, m.request) < max
    ensures MarksOk(s, marks + [m], max)
  {
    forall r | 0 <= r < |s.requests| ensures Marks(marks + [m], r) <= max {
      MarksOfAppend(marks, m, r);
    }
  }

  /** What a wrong code changes. */
  function Missed(s: System, key: string, shown: string): System
    requires key in s.tables.pending
  {
    var p := s.tables.pending[key];
    s.(wrongCodes := s.wrongCodes + [Mark(p.request, s.now, shown)],
       tables := s.tables.(pending := s.tables.pending[key := p.(attempts := p.attempts + 1)]))
  }

  lemma MissKeepsPending(s: System, key: string, shown: string, k: string)
    requires Invariant(s) && key in s.tables.pending && s.tables.pending[key].attempts < MAX_ATTEMPTS && k in s.tables.pending
    ensures PendingOk(Missed(s, key, shown), k, Missed(s, key, shown).tables.pending[k])
  {
    var p := s.tables.pending[key];
    assert PendingOk(s, k, s.tables.pending[k]) == true;
    assert k != key ==> s.tables.pending[k].request != p.request;
    MarksOfAppend(s.wrongCodes, Mark(p.request, s.now, shown), s.tables.pending[k].request);
  }

  lemma MissKeepsFirstTokens(s: System, key: string, shown: string)
    requires Invariant(s) && key in s.tables.pending
    ensures FirstTokensOk(Missed(s, key, shown)) && OnePendingEach(Missed(s, key, shown).tables.pending)
  {
    forall r | 0 <= r < |s.requests| ensures FirstTokenOk(Missed(s, key, shown), r) {
      assert FirstTokenOk(s, r) == true;
    }
  }

  /** A wrong code evaluated against a live token. */
  lemma MissKeeps(s: System, key: string, shown: string)
    requires Invariant(s) && key in s.tables.pending
    requires s.tables.pending[key].attempts < MAX_ATTEMPTS && s.now <= s.tables.pending[key].expiresAt
    ensures Invariant(Missed(s, key, shown))
  {
    MissKeepsPendings(s, key, shown);
    MissKeepsFirstTokens(s, key, shown);
    MissKeepsMarks(s, key, shown);
  }

  lemma MissKeepsPendings(s: System, key: string, shown: string)
    requires Invariant(s) && key in s.tables.pending && s.tables.pending[key].attempts < MAX_ATTEMPTS
    ensures PendingsOk(Missed(s, key, shown))
  {
    forall k | k in s.tables.pending ensures PendingOk(Missed(s, key, shown), k, Missed(s, key, shown).tables.pending[k]) {
      MissKeepsPending(s, key, shown, k);
    }
  }

  lemma MissKeepsMarks(s: System, key: string, shown: string)
    requires Invariant(s) && key in s.tables.pending
    requires s.tables.pending[key].attempts < MAX_ATTEMPTS && s.now <= s.tables.pending[key].expiresAt
    ensures var s' := Missed(s, key, shown);
      MarksOk(s', s'.wrongCodes, MAX_ATTEMPTS) && MarksOk(s', s'.consumptions, 1) && VerificationsOk(s') && ConsumptionsOk(s')
  {
    assert PendingOk(s, key, s.tables.pending[key]) == true;
    MarkedOnce(s, s.wrongCodes, Mark(s.tables.pending[key].request, s.now, shown), MAX_ATTEMPTS);
    forall i | 0 <= i < |s.consumptions| ensures ConsumptionOk(Missed(s, key, shown), s.consumptions[i]) {
      assert ConsumptionOk(s, s.consumptions[i]);
    }
  }

  lemma NowVerified(verifications: seq<Mark>, m: Mark, r: nat, created: int, deadline: int)
    ensures TimelyVerified(verifications, r, created, deadline) || TimelyMark(m, r, created, deadline) ==>
              TimelyVerified(verifications + [m], r, created, deadline)
  {
    var all := verifications + [m];
    if TimelyMark(m, r, created, deadline) {
      assert TimelyMark(all[|verifications|], r, created, deadline);
    } else if TimelyVerified(verifications, r, created, deadline) {
      var i :| 0 <= i < |verifications| && TimelyMark(verifications[i], r, created, deadline);
      assert TimelyMark(all[i], r, created, deadline);
    }
  }

  /** The right code in time: the record moves to the verified token's key. */
  lemma RekeyKeeps(s: System, key: string, newKey: string, shown: string)
    requires Invariant(s) && key in s.tables.pending && newKey !in s.issued
    requires s.now <= s.tables.pending[key].codeExpiresAt
    ensures Invariant(Rekeyed(s, key, newKey, shown))
  {
    RekeyKeepsPendings(s, key, newKey, shown);
    RekeyKeepsFirstTokens(s, key, newKey, shown);
    RekeyKeepsMarks(s, key, newKey, shown);
  }

  function Rekeyed(s: System, key: string, newKey: string, shown: string): System
    requires key in s.tables.pending
  {
    var p := s.tables.pending[key];
    s.(verifications := s.verifications + [Mark(p.request, s.now, shown)], issued := s.issued + {newKey},
       tables := s.tables.(pending := (s.tables.pending - {key})[newKey := p.(verified := true)]))
  }

  lemma RekeyKeepsPendings(s: System, key: string, newKey: string, shown: string)
    requires Invariant(s) && key in s.tables.pending && newKey !in s.issued
    requires s.now <= s.tables.pending[key].codeExpiresAt
    ensures PendingsOk(Rekeyed(s, key, newKey, shown)) && OnePendingEach(Rekeyed(s, key, newKey, shown).tables.pending)
  {
    var p, s' := s.tables.pending[key], Rekeyed(s, key, newKey, shown);
    assert PendingOk(s, key, p);
    forall k | k in s'.tables.pending ensures PendingOk(s', k, s'.tables.pending[k]) {
      var q := s'.tables.pending[k];
      assert k != newKey ==> PendingOk(s, k, s.tables.pending[k]);
      NowVerified(s.verifications, Mark(p.request, s.now, shown), q.request, q.createdAt, s.now);
    }
  }

  lemma RekeyKeepsFirstTokens(s: System, key: string, newKey: string, shown: string)
    requires Invariant(s) && key in s.tables.pending && newKey !in s.issued
    ensures FirstTokensOk(Rekeyed(s, key, newKey, shown))
  {
    var p, s' := s.tables.pending[key], Rekeyed(s, key, newKey, shown);
    forall r | 0 <= r < |s'.requests| ensures FirstTokenOk(s', r) {
      assert FirstTokenOk(s, r);
      MarksOfAppend(s.verifications, Mark(p.request, s.now, shown), r);
    }
  }

  lemma RekeyKeepsMarks(s: System, key: string, newKey: string, shown: string)
    requires Invariant(s) && key in s.tables.pending && s.now <= s.tables.pending[key].codeExpiresAt
    ensures var s' := Rekeyed(s, key, newKey, shown);
      MarksOk(s', s'.wrongCodes, MAX_ATTEMPTS) && MarksOk(s', s'.consumptions, 1) && VerificationsOk(s') && ConsumptionsOk(s')
  {
    var p, s' := s.tables.pending[key], Rekeyed(s, key, newKey, shown);
    assert PendingOk(s, key, p);
    forall i | 0 <= i < |s.consumptions| ensures ConsumptionOk(s', s.consumptions[i]) {
      var c := s.consumptions[i];
      assert ConsumptionOk(s, c);
      NowVerified(s.verifications, Mark(p.request, s.now, shown), c.request, s.requests[c.request].token.value.time, c.time);
    }
    forall i | 0 <= i < |s'.verifications| ensures WithinLife(s', s'.verifications[i]) {
      assert i < |s.verifications| ==> WithinLife(s, s.verifications[i]);
    }
    assert forall i :: 0 <= i < |s.wrongCodes| ==> WithinLife(s, s.wrongCodes[i]);
    assert forall i :: 0 <= i < |s.consumptions| ==> WithinLife(s, s.consumptions[i]);
  }

  lemma ConsumeKeeps(s: System, key: string, note: string)
    requires Invariant(s) && key in s.tables.pending
    requires s.tables.pending[key].verified && s.now <= s.tables.pending[key].expiresAt
    ensures var p := s.tables.pending[key];
            Invariant(s.(consumptions := s.consumptions + [Mark(p.request, s.now, note)],
                         tables := s.tables.(pending := s.tables.pending - {key})))
  {
    var p := s.tables.pending[key];
    var m := Mark(p.request, s.now, note);
    var s' := s.(consumptions := s.consumptions + [m], tables := s.tables.(pending := s.tables.pending - {key}));
    assert PendingOk(s, key, p);
    MarkedOnce(s, s.consumptions, m, 1);
    forall k | k in s'.tables.pending ensures PendingOk(s', k, s'.tables.pending[k]) {
      assert PendingOk(s, k, s.tables.pending[k]);
      MarksOfAppend(s.consumptions, m, s.tables.pending[k].request);
    }
    forall r | 0 <= r < |s'.requests| ensures FirstTokenOk(s', r) {
      assert FirstTokenOk(s, r);
    }
    forall i | 0 <= i < |s'.consumptions| ensures ConsumptionOk(s', s'.consumptions[i]) {
      assert i < |s.consumptions| ==> ConsumptionOk(s, s.consumptions[i]);
    }
    assert forall x :: WithinLife(s, x) ==> WithinLife(s', x);
  }

  // ----- The calls keep the invariant -----

  lemma BeginKeeps(h: Hash, s: System, c: Call, time: int)
    requires Invariant(s) && c.BeginReset? && Enabled(h, s, c, time)
    ensures Invariant(Next(h, s, c, time))
  {
    var s0 := s.(now := time);
    TickKeeps(s, time);
    var (t, r) := Begin(s.tables, c.email, time);
    if r.Entered? {
      EnterKeeps(s0, c.email);
      s0 := Entering(s0, c.email);
    }
    IssueKeeps(s0, {}, t.limiter, t.notFound);
    assert Next(h, s, c, time) == s0.(issued := s0.issued + {}, tables := s0.tables.(limiter := t.limiter, notFound := t.notFound));
  }

  lemma RefusedFinishKeeps(h: Hash, s: System, c: Call, time: int)
    requires Invariant(s) && c.FinishReset? && Enabled(h, s, c, time) && !c.tenant.Active?
    ensures Invariant(Next(h, s, c, time))
  {
    var s0 := s.(now := time);
    TickKeeps(s, time);
    CloseKeeps(s0, c.number);
    var s1 := s0.(open := s0.open - {c.number});
    var t := Finish(s.tables, h, c.number, s.requests[c.number].email, c.tenant, c.token, c.code, time).0;
    IssueKeeps(s1, {KeyOf(h, c.token)}, t.limiter, t.notFound);
    assert s.requests[c.number := s.requests[c.number]] == s.requests;
  }

  lemma FinishKeeps(h: Hash, s: System, c: Call, time: int)
    requires Invariant(s) && c.FinishReset? && Enabled(h, s, c, time)
    ensures Invariant(Next(h, s, c, time))
  {
    if c.tenant.Active? {
      TickKeeps(s, time);
      GrantKeeps(s.(now := time), c.number, KeyOf(h, c.token), c.tenant.id, h(c.code));
    } else {
      RefusedFinishKeeps(h, s, c, time);
    }
  }

  /** The state an unsuccessful verification leaves, apart from the unused new token. */
  function AfterFailedVerify(s: System, key: string, shown: string, r: VerifyOutcome): System {
    if key !in s.tables.pending then s
    else if r.TokenExpired? || r.TooManyAttempts? || r.CodeExpired? then
      s.(tables := s.tables.(pending := s.tables.pending - {key}))
    else if r.WrongCode? then Missed(s, key, shown)
    else s
  }

  lemma FailedVerifyNext(h: Hash, s: System, c: Call, time: int, r: VerifyOutcome)
    requires c.VerifyCode? && Enabled(h, s, c, time)
    requires !r.Verified? && Verify(s.tables, h, c.vtoken, c.vcode, c.newToken, time).1 == r
    ensures var s0 := AfterFailedVerify(s.(now := time), KeyOf(h, c.vtoken), h(c.vcode), r);
            Next(h, s, c, time) == s0.(issued := s0.issued + {KeyOf(h, c.newToken)},
                                       tables := s0.tables.(limiter := s0.tables.limiter, notFound := s0.tables.notFound))
  {
    assert s.wrongCodes + [] == s.wrongCodes && s.verifications + [] == s.verifications;
  }

  lemma FailedVerifyKeeps(h: Hash, s: System, c: Call, time: int, r: VerifyOutcome)
    requires Invariant(s) && c.VerifyCode? && Enabled(h, s, c, time)
    requires !r.Verified? && Verify(s.tables, h, c.vtoken, c.vcode, c.newToken, time).1 == r
    ensures Invariant(Next(h, s, c, time))
  {
    var s0, key := s.(now := time), KeyOf(h, c.vtoken);
    TickKeeps(s, time);
    if key in s.tables.pending {
      if r.TokenExpired? || r.TooManyAttempts? || r.CodeExpired? {
        DropKeeps(s0, key);
      } else if r.WrongCode? {
        assert PendingOk(s, key, s.tables.pending[key]) == true;
        MissKeeps(s0, key, h(c.vcode));
      }
    }
    var s1 := AfterFailedVerify(s0, key, h(c.vcode), r);
    IssueKeeps(s1, {KeyOf(h, c.newToken)}, s1.tables.limiter, s1.tables.notFound);
    FailedVerifyNext(h, s, c, time, r);
  }

  lemma VerifyKeeps(h: Hash, s: System, c: Call, time: int)
    requires Invariant(s) && c.VerifyCode? && Enabled(h, s, c, time)
    ensures Invariant(Next(h, s, c, time))
  {
    if Verify(s.tables, h, c.vtoken, c.vcode, c.newToken, time).1.Verified? {
      TickKeeps(s, time);
      RekeyKeeps(s.(now := time), KeyOf(h, c.vtoken), KeyOf(h, c.newToken), h(c.vcode));
      assert s.wrongCodes + [] == s.wrongCodes;
    } else {
      FailedVerifyKeeps(h, s, c, time, Verify(s.tables, h, c.vtoken, c.vcode, c.newToken, time).1);
    }
  }

  lemma ResetKeeps(h: Hash, s: System, c: Call, time: int)
    requires Invariant(s) && c.ResetPassword? && Enabled(h, s, c, time)
    ensures Invariant(Next(h, s, c, time))
  {
    var s0 := s.(now := time);
    TickKeeps(s, time);
    var key := KeyOf(h, c.rtoken);
    var r := Reset(s.tables, h, c.rtoken, c.password, time).1;
    assert s.consumptions + [] == s.consumptions;
    if r.Consumed? {
      ConsumeKeeps(s0, key, r.tenantID);
    } else if r.ResetExpired? {
      DropKeeps(s0, key);
    }
  }

  lemma {:induction false} RunKeeps(h: Hash, calls: seq<Timed>)
    requires Run(h, calls).Some?
    ensures Invariant(Run(h, calls).value)
  {
    if calls == [] {
    } else {
      var front, last := calls[..|calls| - 1], calls[|calls| - 1];
      RunKeeps(h, front);
      var s := Run(h, front).value;
      match last.call
      case BeginReset(_) => BeginKeeps(h, s, last.call, last.time);
      case FinishReset(_, _, _, _) => FinishKeeps(h, s, last.call, last.time);
      case VerifyCode(_, _, _) => VerifyKeeps(h, s, last.call, last.time);
      case ResetPassword(_, _) => ResetKeeps(h, s, last.call, last.time);
    }
  }

  // ----- What the protocol guarantees over every run -----

  /** A request leads to at most one consumption, hence one password change, and at most
      five wrong codes are ever evaluated for it. */
  lemma {:induction false} RequestBounds(h: Hash, calls: seq<Timed>, s: System, r: nat)
    requires Run(h, calls) == Some(s) && r < |s.requests|
    ensures Marks(s.consumptions, r) <= 1 && Marks(s.wrongCodes, r) <= 5
  {
    RunKeeps(h, calls);
  }

  /** Once a request has been verified its first token opens nothing. */
  lemma {:induction false} FirstTokenDies(h: Hash, calls: seq<Timed>, s: System, r: nat, token: string)
    requires Run(h, calls) == Some(s) && r < |s.requests|
    requires s.requests[r].token.Some? && s.requests[r].token.value.key == KeyOf(h, token)
    requires Marks(s.verifications, r) > 0
    ensures KeyOf(h, token) !in s.tables.pending
    ensures forall code, newToken, now :: Verify(s.tables, h, token, code, newToken, now).1 in {NoToken, NoCode, UnknownToken}
    ensures forall password, now :: !Reset(s.tables, h, token, password, now).1.Consumed?
  {
    RunKeeps(h, calls);
    assert FirstTokenOk(s, r);
  }
}
