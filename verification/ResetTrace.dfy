/** Who a password reset is for (internal/core/tenant_service.go): whatever happens between the
    calls, a password is changed for the tenant the registry gave when the token was issued, after
    the code that was sent out has been presented; and the right code in time does lead to it. */
module ResetTrace {
  import opened Text
  import opened Durations
  import opened SlidingWindow
  import opened PasswordReset

  // ----- What every run keeps -----

  function TokenOf(s: System, r: nat): Option<Token> {
    if r < |s.requests| then s.requests[r].token else None
  }

  /** A pending reset is for the tenant and the code of its request. */
  predicate PendingTraced(s: System, p: Pending) {
    match TokenOf(s, p.request)
    case None => false
    case Some(t) => p.tenantID == t.tenant && p.codeHash == t.codeHash
  }

  predicate PendingsTraced(s: System) {
    forall k :: k in s.tables.pending ==> PendingTraced(s, s.tables.pending[k])
  }

  /** A presented code is, or is not, the one of its request. */
  predicate CodeShown(s: System, m: Mark, right: bool) {
    match TokenOf(s, m.request)
    case None => false
    case Some(t) => (m.note == t.codeHash) == right
  }

  /** A password is changed for the tenant of its request. */
  predicate TenantChanged(s: System, m: Mark) {
    match TokenOf(s, m.request)
    case None => false
    case Some(t) => m.note == t.tenant
  }

  predicate CodesShown(s: System, marks: seq<Mark>, right: bool) {
    forall i :: 0 <= i < |marks| ==> CodeShown(s, marks[i], right)
  }

  predicate TenantsChanged(s: System) {
    forall i :: 0 <= i < |s.consumptions| ==> TenantChanged(s, s.consumptions[i])
  }

  /** A first token is there until its code is presented, five wrong ones are, or five minutes pass. */
  predicate FirstTokenLives(s: System, r: nat) {
    match TokenOf(s, r)
    case None => true
    case Some(t) =>
      Marks(s.verifications, r) == 0 && Marks(s.wrongCodes, r) < MAX_ATTEMPTS && s.now <= t.time + CODE_EXPIRY ==>
        t.key in s.tables.pending
  }

  predicate FirstTokensLive(s: System) {
    forall r: nat :: r < |s.requests| ==> FirstTokenLives(s, r)
  }

  predicate Traced(s: System) {
    && PendingsTraced(s) && CodesShown(s, s.wrongCodes, false) && CodesShown(s, s.verifications, true)
    && TenantsChanged(s) && FirstTokensLive(s)
  }

  // ----- Every call keeps it -----

  /** A token that was issued stays on record. */
  lemma TokensStay(h: Hash, s: System, c: Call, time: int, r: nat)
    requires Invariant(s) && Enabled(h, s, c, time) && TokenOf(s, r).Some?
    ensures TokenOf(Next(h, s, c, time), r) == TokenOf(s, r)
  {
  }

  ghost predicate SameTokens(s: System, s': System) {
    forall r: nat :: TokenOf(s, r).Some? ==> TokenOf(s', r) == TokenOf(s, r)
  }

  lemma NextSameTokens(h: Hash, s: System, c: Call, time: int)
    requires Invariant(s) && Enabled(h, s, c, time)
    ensures SameTokens(s, Next(h, s, c, time))
  {
    forall r: nat | TokenOf(s, r).Some?
      ensures TokenOf(Next(h, s, c, time), r) == TokenOf(s, r)
    {
      TokensStay(h, s, c, time, r);
    }
  }

  lemma CodesCarryOver(s: System, s': System, marks: seq<Mark>, right: bool)
    requires SameTokens(s, s') && CodesShown(s, marks, right)
    ensures CodesShown(s', marks, right)
  {
    forall i | 0 <= i < |marks|
      ensures CodeShown(s', marks[i], right)
    {
      assert CodeShown(s, marks[i], right);
    }
  }

  lemma TenantsCarryOver(s: System, s': System)
    requires SameTokens(s, s') && TenantsChanged(s) && s'.consumptions == s.consumptions
    ensures TenantsChanged(s')
  {
    forall i | 0 <= i < |s.consumptions|
      ensures TenantChanged(s', s.consumptions[i])
    {
      assert TenantChanged(s, s.consumptions[i]);
    }
  }

  lemma PendingsCarryOver(s: System, s': System)
    requires SameTokens(s, s') && PendingsTraced(s)
    requires forall k :: k in s'.tables.pending ==> k in s.tables.pending && SameOrder(s'.tables.pending[k], s.tables.pending[k])
    ensures PendingsTraced(s')
  {
    forall k | k in s'.tables.pending
      ensures PendingTraced(s', s'.tables.pending[k])
    {
      assert PendingTraced(s, s.tables.pending[k]);
    }
  }

  /** The same request, tenant and code. */
  predicate SameOrder(p: Pending, q: Pending) {
    p.request == q.request && p.tenantID == q.tenantID && p.codeHash == q.codeHash
  }

  lemma BeginTraced(h: Hash, s: System, c: Call, time: int)
    requires Invariant(s) && Traced(s) && c.BeginReset? && Enabled(h, s, c, time)
    ensures Traced(Next(h, s, c, time))
  {
    var s' := Next(h, s, c, time);
    NextSameTokens(h, s, c, time);
    CodesCarryOver(s, s', s.wrongCodes, false);
    CodesCarryOver(s, s', s.verifications, true);
    TenantsCarryOver(s, s');
    PendingsCarryOver(s, s');
    forall r: nat | r < |s'.requests|
      ensures FirstTokenLives(s', r)
    {
      assert r < |s.requests| ==> FirstTokenLives(s, r);
    }
  }

  lemma FinishPendings(h: Hash, s: System, c: Call, time: int)
    requires Invariant(s) && PendingsTraced(s) && c.FinishReset? && Enabled(h, s, c, time)
    ensures PendingsTraced(Next(h, s, c, time))
  {
    var s' := Next(h, s, c, time);
    forall k | k in s'.tables.pending
      ensures PendingTraced(s', s'.tables.pending[k])
    {
      if k in s.tables.pending {
        assert PendingTraced(s, s.tables.pending[k]) == true;
        TokensStay(h, s, c, time, s.tables.pending[k].request);
      }
    }
  }

  lemma FinishSparesTokens(h: Hash, s: System, c: Call, time: int)
    requires Invariant(s) && FirstTokensLive(s) && c.FinishReset? && Enabled(h, s, c, time)
    ensures FirstTokensLive(Next(h, s, c, time))
  {
    var s' := Next(h, s, c, time);
    forall r: nat | r < |s'.requests|
      ensures FirstTokenLives(s', r)
    {
      assert FirstTokenLives(s, r) == true;
    }
  }

  lemma FinishTraced(h: Hash, s: System, c: Call, time: int)
    requires Invariant(s) && Traced(s) && c.FinishReset? && Enabled(h, s, c, time)
    ensures Traced(Next(h, s, c, time))
  {
    var s' := Next(h, s, c, time);
    NextSameTokens(h, s, c, time);
    CodesCarryOver(s, s', s.wrongCodes, false);
    CodesCarryOver(s, s', s.verifications, true);
    TenantsCarryOver(s, s');
    FinishPendings(h, s, c, time);
    FinishSparesTokens(h, s, c, time);
  }

  /** A presented code drops a pending reset only late, after five wrong ones or when it is right. */
  lemma CodeDrops(h: Hash, s: System, c: Call, time: int, key: string)
    requires c.VerifyCode? && Enabled(h, s, c, time)
    requires key in s.tables.pending && key !in Next(h, s, c, time).tables.pending
    ensures var p := s.tables.pending[key];
      || time > p.expiresAt || p.attempts >= p.maxAttempts || time > p.codeExpiresAt
      || Next(h, s, c, time).verifications == s.verifications + [Mark(p.request, time, h(c.vcode))]
  {
  }

  /** Marks are only added. */
  lemma {:induction false} MarksGrow(h: Hash, s: System, c: Call, time: int, r: nat)
    requires c.VerifyCode? && Enabled(h, s, c, time)
    ensures Marks(s.wrongCodes, r) <= Marks(Next(h, s, c, time).wrongCodes, r)
    ensures Marks(s.verifications, r) <= Marks(Next(h, s, c, time).verifications, r)
  {
    var mark := MarkOf(s, KeyOf(h, c.vtoken), time, h(c.vcode));
    MoreMarks(s.wrongCodes, mark, r);
    MoreMarks(s.wrongCodes, [], r);
    MoreMarks(s.verifications, mark, r);
    MoreMarks(s.verifications, [], r);
  }

  lemma CodeSparesToken(h: Hash, s: System, c: Call, time: int, r: nat)
    requires Invariant(s) && c.VerifyCode? && Enabled(h, s, c, time) && r < |s.requests| && FirstTokenLives(s, r)
    ensures FirstTokenLives(Next(h, s, c, time), r)
  {
    var s' := Next(h, s, c, time);
    MarksGrow(h, s, c, time, r);
    if TokenOf(s, r).Some? {
      var key := TokenOf(s, r).value.key;
      assert FirstTokenOk(s, r) == true;
      if key in s.tables.pending && key !in s'.tables.pending {
        assert PendingOk(s, key, s.tables.pending[key]) == true;
        CodeDrops(h, s, c, time, key);
        MarksOfAppend(s.verifications, Mark(r, time, h(c.vcode)), r);
      }
    }
  }

  lemma {:induction false} MoreMarks(marks: seq<Mark>, more: seq<Mark>, r: nat)
    ensures Marks(marks, r) <= Marks(marks + more, r)
    decreases |more|
  {
    if more == [] {
      assert marks + more == marks;
    } else {
      var front, last := more[..|more| - 1], more[|more| - 1];
      MoreMarks(marks, front, r);
      assert marks + more == (marks + front) + [last];
      MarksOfAppend(marks + front, last, r);
    }
  }

  /** The code counts as right exactly when its hash is that of the pending reset. */
  lemma CodeMarks(h: Hash, s: System, c: Call, time: int)
    requires Traced(s) && c.VerifyCode? && Enabled(h, s, c, time)
    ensures CodesShown(s, Next(h, s, c, time).wrongCodes, false) && CodesShown(s, Next(h, s, c, time).verifications, true)
  {
    var key := KeyOf(h, c.vtoken);
    if key in s.tables.pending {
      assert PendingTraced(s, s.tables.pending[key]) == true;
    }
    var r := Verify(s.tables, h, c.vtoken, c.vcode, c.newToken, time).1;
    var mark := MarkOf(s, key, time, h(c.vcode));
    assert r.WrongCode? ==> CodesShown(s, mark, false);
    assert r.Verified? ==> CodesShown(s, mark, true);
  }

  lemma CodePendings(h: Hash, s: System, c: Call, time: int)
    requires PendingsTraced(s) && c.VerifyCode? && Enabled(h, s, c, time)
    ensures forall k :: k in Next(h, s, c, time).tables.pending ==> PendingTraced(s, Next(h, s, c, time).tables.pending[k])
  {
    var s' := Next(h, s, c, time);
    forall k | k in s'.tables.pending
      ensures PendingTraced(s, s'.tables.pending[k])
    {
      var key := if k in s.tables.pending then k else KeyOf(h, c.vtoken);
      assert PendingTraced(s, s.tables.pending[key]) == true;
    }
  }

  lemma PendingsStay(s: System, s': System)
    requires SameTokens(s, s') && forall k :: k in s'.tables.pending ==> PendingTraced(s, s'.tables.pending[k])
    ensures PendingsTraced(s')
  {
  }

  lemma VerifyTraced(h: Hash, s: System, c: Call, time: int)
    requires Invariant(s) && Traced(s) && c.VerifyCode? && Enabled(h, s, c, time)
    ensures Traced(Next(h, s, c, time))
  {
    var s' := Next(h, s, c, time);
    NextSameTokens(h, s, c, time);
    CodeMarks(h, s, c, time);
    CodesCarryOver(s, s', s'.wrongCodes, false);
    CodesCarryOver(s, s', s'.verifications, true);
    TenantsCarryOver(s, s');
    CodePendings(h, s, c, time);
    PendingsStay(s, s');
    forall r: nat | r < |s'.requests|
      ensures FirstTokenLives(s', r)
    {
      CodeSparesToken(h, s, c, time, r);
    }
  }

  /** A request with a verification on record. */
  lemma {:induction false} VerifiedIsMarked(verifications: seq<Mark>, r: nat, created: int, deadline: int)
    requires TimelyVerified(verifications, r, created, deadline)
    ensures Marks(verifications, r) > 0
  {
    var i :| 0 <= i < |verifications| && TimelyMark(verifications[i], r, created, deadline);
    if i < |verifications| - 1 {
      assert verifications[..|verifications| - 1][i] == verifications[i];
      VerifiedIsMarked(verifications[..|verifications| - 1], r, created, deadline);
    }
  }

  lemma ResetSparesToken(h: Hash, s: System, c: Call, time: int, r: nat)
    requires Invariant(s) && c.ResetPassword? && Enabled(h, s, c, time) && r < |s.requests| && FirstTokenLives(s, r)
    ensures FirstTokenLives(Next(h, s, c, time), r)
  {
    var key := KeyOf(h, c.rtoken);
    assert FirstTokenOk(s, r);
    if key in s.tables.pending {
      var p := s.tables.pending[key];
      assert PendingOk(s, key, p);
      if p.verified {
        VerifiedIsMarked(s.verifications, p.request, p.createdAt, s.now);
      }
    }
  }

  lemma ResetTenants(h: Hash, s: System, c: Call, time: int)
    requires Traced(s) && c.ResetPassword? && Enabled(h, s, c, time)
    ensures forall i :: 0 <= i < |Next(h, s, c, time).consumptions| ==> TenantChanged(s, Next(h, s, c, time).consumptions[i])
  {
    var s', key := Next(h, s, c, time), KeyOf(h, c.rtoken);
    if key in s.tables.pending {
      assert PendingTraced(s, s.tables.pending[key]) == true;
    }
    forall i | 0 <= i < |s'.consumptions|
      ensures TenantChanged(s, s'.consumptions[i])
    {
      assert i < |s.consumptions| ==> TenantChanged(s, s.consumptions[i]);
    }
  }

  lemma ResetTraced(h: Hash, s: System, c: Call, time: int)
    requires Invariant(s) && Traced(s) && c.ResetPassword? && Enabled(h, s, c, time)
    ensures Traced(Next(h, s, c, time))
  {
    var s' := Next(h, s, c, time);
    NextSameTokens(h, s, c, time);
    CodesCarryOver(s, s', s.wrongCodes, false);
    CodesCarryOver(s, s', s.verifications, true);
    PendingsCarryOver(s, s');
    ResetTenants(h, s, c, time);
    TenantsStay(s, s');
    forall r: nat | r < |s'.requests|
      ensures FirstTokenLives(s', r)
    {
      ResetSparesToken(h, s, c, time, r);
    }
  }

  lemma TenantsStay(s: System, s': System)
    requires SameTokens(s, s') && forall i :: 0 <= i < |s'.consumptions| ==> TenantChanged(s, s'.consumptions[i])
    ensures TenantsChanged(s')
  {
  }

  lemma {:induction false} RunTraced(h: Hash, calls: seq<Timed>)
    requires Run(h, calls).Some?
    ensures Invariant(Run(h, calls).value) && Traced(Run(h, calls).value)
  {
    RunKeeps(h, calls);
    if calls == [] {
    } else {
      var front, last := calls[..|calls| - 1], calls[|calls| - 1];
      RunTraced(h, front);
      var s := Run(h, front).value;
      match last.call
      case BeginReset(_) => BeginTraced(h, s, last.call, last.time);
      case FinishReset(_, _, _, _) => FinishTraced(h, s, last.call, last.time);
      case VerifyCode(_, _, _) => VerifyTraced(h, s, last.call, last.time);
      case ResetPassword(_, _) => ResetTraced(h, s, last.call, last.time);
    }
  }

  // ----- What that means -----

  /** Each consumption traces back to one admitted request, whose token was issued no earlier and
      at most an hour before. The password changed is that of the tenant the registry gave for the
      request when the token was issued, and the code that was sent out then was presented within
      five minutes of that and before the consumption. */
  lemma {:induction false} ConsumptionTrace(h: Hash, calls: seq<Timed>, s: System, i: nat)
    requires Run(h, calls) == Some(s) && i < |s.consumptions|
    ensures var m := s.consumptions[i];
      && m.request < |s.requests| && s.requests[m.request].token.Some?
      && var t := s.requests[m.request].token.value;
      && s.requests[m.request].time <= t.time <= m.time <= t.time + HOUR
      && m.note == t.tenant
      && exists j :: 0 <= j < |s.verifications| && s.verifications[j].request == m.request
           && t.time <= s.verifications[j].time <= t.time + 300 * SECOND && s.verifications[j].time <= m.time
           && s.verifications[j].note == t.codeHash
  {
    RunTraced(h, calls);
    var m := s.consumptions[i];
    assert ConsumptionOk(s, m) && WithinLife(s, m) && FirstTokenOk(s, m.request) && TenantChanged(s, m);
    var j :| 0 <= j < |s.verifications| && TimelyMark(s.verifications[j], m.request, s.requests[m.request].token.value.time, m.time);
    assert CodeShown(s, s.verifications[j], true);
  }

  /** A code presented for request `n` is accepted only if it is the one that was sent out, within
      five minutes and after fewer than five wrong ones; and it counts as wrong only if it is not. */
  predicate CodeJudged(s: System, n: nat, shown: string, now: int, r: VerifyOutcome) {
    match TokenOf(s, n)
    case None => false
    case Some(t) =>
      && (r.Verified? ==> shown == t.codeHash && t.time <= now <= t.time + 300 * SECOND && Marks(s.wrongCodes, n) < 5)
      && (r.WrongCode? ==> shown != t.codeHash && t.time <= now <= t.time + HOUR && Marks(s.wrongCodes, n) < 5)
  }

  /** That is how the code presented with a token is judged. */
  predicate TokenJudged(s: System, key: string, shown: string, now: int, r: VerifyOutcome) {
    r.Verified? || r.WrongCode? ==> key in s.tables.pending && CodeJudged(s, s.tables.pending[key].request, shown, now, r)
  }

  lemma {:induction false} CodeIsJudged(h: Hash, calls: seq<Timed>, s: System, token: string, code: string, newToken: string, now: int)
    requires Run(h, calls) == Some(s) && s.now <= now
    ensures TokenJudged(s, KeyOf(h, token), h(code), now, Verify(s.tables, h, token, code, newToken, now).1)
  {
    RunTraced(h, calls);
    var key := KeyOf(h, token);
    if key in s.tables.pending {
      assert PendingOk(s, key, s.tables.pending[key]) && PendingTraced(s, s.tables.pending[key]);
    }
  }

  // ----- The way through -----

  /** The call presents a token with this key. */
  predicate Presents(h: Hash, c: Call, key: string) {
    (c.VerifyCode? && KeyOf(h, c.vtoken) == key) || (c.ResetPassword? && KeyOf(h, c.rtoken) == key)
  }

  /** A pending reset whose token nobody presents stays as it is. */
  lemma Untouched(h: Hash, s: System, c: Call, time: int, key: string)
    requires Enabled(h, s, c, time) && key in s.issued && key in s.tables.pending && !Presents(h, c, key)
    ensures var s' := Next(h, s, c, time);
      key in s'.issued && key in s'.tables.pending && s'.tables.pending[key] == s.tables.pending[key]
  {
  }

  /** The system after further calls. */
  function RunFrom(h: Hash, s: System, calls: seq<Timed>): Option<System> {
    if calls == [] then Some(s)
    else
      var last := calls[|calls| - 1];
      match RunFrom(h, s, calls[..|calls| - 1])
      case Some(s) => if Enabled(h, s, last.call, last.time) then Some(Next(h, s, last.call, last.time)) else None
      case None => None
  }

  lemma {:induction false} UntouchedBy(h: Hash, s: System, calls: seq<Timed>, s': System, key: string)
    requires key in s.issued && key in s.tables.pending && RunFrom(h, s, calls) == Some(s')
    requires forall i :: 0 <= i < |calls| ==> !Presents(h, calls[i].call, key)
    ensures key in s'.issued && key in s'.tables.pending && s'.tables.pending[key] == s.tables.pending[key]
  {
    if calls == [] {
    } else {
      var front, last := calls[..|calls| - 1], calls[|calls| - 1];
      var s1 := RunFrom(h, s, front).value;
      UntouchedBy(h, s, front, s1, key);
      Untouched(h, s1, last.call, last.time, key);
    }
  }

  /** The right code, presented with the first token within five minutes and after fewer than five
      wrong ones, is accepted. */
  lemma {:induction false} RightCodeAccepted(h: Hash, calls: seq<Timed>, s: System, r: nat, token: string, code: string, newToken: string, now: int)
    requires Run(h, calls) == Some(s) && r < |s.requests| && s.requests[r].token.Some?
    requires Marks(s.verifications, r) == 0 && Marks(s.wrongCodes, r) < 5
    requires s.now <= now <= s.requests[r].token.value.time + 300 * SECOND
    requires token != "" && KeyOf(h, token) == s.requests[r].token.value.key
    requires code != "" && h(code) == s.requests[r].token.value.codeHash
    ensures Verify(s.tables, h, token, code, newToken, now).1 == Verified
    ensures var p := Verify(s.tables, h, token, code, newToken, now).0.pending;
      && KeyOf(h, newToken) in p && var q := p[KeyOf(h, newToken)];
      q.verified && q.tenantID == s.requests[r].token.value.tenant && q.expiresAt == s.requests[r].token.value.time + HOUR
  {
    RunTraced(h, calls);
    var key := KeyOf(h, token);
    assert FirstTokenLives(s, r) && FirstTokenOk(s, r);
    assert PendingOk(s, key, s.tables.pending[key]) && PendingTraced(s, s.tables.pending[key]);
  }

  /** And then, whatever else happens, the new token resets the password of the request's tenant
      once, within the hour of the request's first token. */
  lemma {:induction false} RightCodeResets(h: Hash, calls: seq<Timed>, s: System, r: nat, token: string, code: string, newToken: string, now: int,
                        more: seq<Timed>, s': System, password: string, later: int)
    requires Run(h, calls) == Some(s) && r < |s.requests| && s.requests[r].token.Some?
    requires Marks(s.verifications, r) == 0 && Marks(s.wrongCodes, r) < 5
    requires s.now <= now <= s.requests[r].token.value.time + 300 * SECOND
    requires token != "" && KeyOf(h, token) == s.requests[r].token.value.key
    requires code != "" && h(code) == s.requests[r].token.value.codeHash
    requires newToken != "" && KeyOf(h, newToken) !in s.issued
    requires RunFrom(h, Next(h, s, VerifyCode(token, code, newToken), now), more) == Some(s')
    requires forall i :: 0 <= i < |more| ==> !Presents(h, more[i].call, KeyOf(h, newToken))
    requires later <= s.requests[r].token.value.time + HOUR && |password| >= 8
    ensures Reset(s'.tables, h, newToken, password, later).1 == Consumed(s.requests[r].token.value.tenant)
    ensures KeyOf(h, newToken) !in Reset(s'.tables, h, newToken, password, later).0.pending
  {
    RightCodeAccepted(h, calls, s, r, token, code, newToken, now);
    UntouchedBy(h, Next(h, s, VerifyCode(token, code, newToken), now), more, s', KeyOf(h, newToken));
  }
}
