/** Decisions, rule changes and cache traffic interleaved (internal/acl/acl.go,
    internal/cache/cache.go).

    Evaluating a packet takes the read lock and a change holds the write lock from the
    replacement of the rules until the last shard is cleared, so evaluations and changes
    exclude each other. Loading an account's rules, before it is first evaluated or changed, and a
    delete the repository refuses hold the write lock too, but clear nothing. Cache lookups and
    stores take neither lock and may happen at any point, in particular between an evaluation and
    the store of its result, and while a change is clearing the shards one by one. */
module AclInterleaving {
  import opened Text
  import opened Durations
  import opened AclRules
  import opened AclIndex
  import opened AclRuleList
  import opened AclRefusal
  import opened AclLedger
  import opened AclKey

  /** A decision reached in state `version` and not yet stored. */
  datatype Evaluation = Evaluation(account: string, packet: Packet, decision: Decision, version: nat)

  datatype Cached = Cached(eval: Evaluation, storedIn: nat, storedAt: int, expiresAt: int)

  datatype State = State(
    /** Per account, the lists it has had since its index was built, the current one last. */
    lists: Pasts,
    /** The accounts whose rules were loaded, or could not be. */
    loaded: set<string>,
    /** Number of changes that have replaced rules. */
    version: nat,
    /** While a change holds the lock: the number of shards it has cleared. */
    clearing: Option<nat>,
    inFlight: map<nat, Evaluation>,
    cache: map<string, Cached>,
    now: int)

  datatype Step =
    | Load(loading: string, rows: Option<seq<HotRule>>)
    | BeginChange(account: string, list: seq<HotRule>)
    | ClearShard
    | EndChange
    | RefuseDelete(owner: string, id: string)
    | Evaluate(thread: nat, acct: string, packet: Packet)
    | Store(storing: nat)
    | Drop(keys: set<string>)
    | Tick(time: int)

  /** How keys are spread over the shards. */
  datatype Sharding = Sharding(count: nat, of: string -> nat)

  // ----- Decisions in a state -----

  function ListsOf(lists: Pasts, a: string): (r: seq<seq<HotRule>>)
    ensures r != []
  {
    if a in lists && lists[a] != [] then lists[a] else [[]]
  }

  function Current(lists: Pasts, a: string): seq<HotRule> {
    ListsOf(lists, a)[|ListsOf(lists, a)| - 1]
  }

  function IndexFor(lists: Pasts, a: string): Index {
    BuildIndex(ListsOf(lists, a)[0])
  }

  /** What an evaluation decides: the current list with the index of the oldest. */
  function DecideIn(lists: Pasts, a: string, p: Packet): Decision
    requires IsPort(p.dstPort)
  {
    Decide(Current(lists, a), IndexFor(lists, a), p)
  }

  /** The decision is one over a list the account has had since its index was built. */
  ghost predicate UpToDate(lists: Pasts, a: string, p: Packet, d: Decision) {
    Answering(ListsOf(lists, a), IndexFor(lists, a))(p, d)
  }

  lemma DecisionIsUpToDate(lists: Pasts, a: string, p: Packet)
    requires IsPort(p.dstPort)
    ensures UpToDate(lists, a, p, DecideIn(lists, a, p))
  {
    assert ListsOf(lists, a)[|ListsOf(lists, a)| - 1] == Current(lists, a);
  }

  /** With no delete refused since the index was built, up to date means current. */
  lemma UpToDateIsCurrent(lists: Pasts, a: string, p: Packet, d: Decision)
    requires IsPort(p.dstPort) && UpToDate(lists, a, p, d) && |ListsOf(lists, a)| == 1
    ensures d == DecideIn(lists, a, p)
  {
  }

  // ----- Steps and runs -----

  predicate Enabled(sh: Sharding, s: State, step: Step) {
    match step
    case Load(a, _) => s.clearing.None? && a !in s.loaded
    case BeginChange(a, _) => s.clearing.None? && a in s.loaded
    case ClearShard => s.clearing.Some? && s.clearing.value < sh.count
    case EndChange => s.clearing == Some(sh.count)
    case RefuseDelete(a, _) => s.clearing.None? && a in s.loaded
    case Evaluate(t, a, p) =>
      s.clearing.None? && a in s.loaded && t !in s.inFlight && IsPort(p.dstPort) && sh.of(Key(a, p)) < sh.count
    case Store(t) => t in s.inFlight
    case Drop(_) => true
    case Tick(time) => s.now <= time
  }

  /** The lists after a refused delete. */
  function Thin(lists: Pasts, a: string, id: string): Pasts {
    lists[a := ListsOf(lists, a) + [Removed(Current(lists, a), id)]]
  }

  function Next(sh: Sharding, s: State, step: Step): State
    requires Enabled(sh, s, step)
  {
    match step
    case Load(a, rows) =>
      s.(loaded := s.loaded + {a}, lists := if rows.Some? then s.lists[a := [rows.value]] else s.lists)
    case BeginChange(a, list) => s.(lists := s.lists[a := [list]], version := s.version + 1, clearing := Some(0))
    case ClearShard =>
      s.(cache := map k | k in s.cache && sh.of(k) != s.clearing.value :: s.cache[k],
         clearing := Some(s.clearing.value + 1))
    case EndChange => s.(clearing := None)
    case RefuseDelete(a, id) => s.(lists := Thin(s.lists, a, id))
    case Evaluate(t, a, p) =>
      s.(inFlight := s.inFlight[t := Evaluation(a, p, DecideIn(s.lists, a, p), s.version)])
    case Store(t) =>
      var e := s.inFlight[t];
      s.(inFlight := s.inFlight - {t},
         cache := s.cache[Key(e.account, e.packet) := Cached(e, s.version, s.now, s.now + DECISION_TTL)])
    case Drop(keys) => s.(cache := s.cache - keys)
    case Tick(time) => s.(now := time)
  }

  /** The state after a sequence of steps, if each was possible when its turn came. */
  function Run(sh: Sharding, steps: seq<Step>): Option<State> {
    if steps == [] then Some(START)
    else
      var last := steps[|steps| - 1];
      match Run(sh, steps[..|steps| - 1])
      case Some(s) => if Enabled(sh, s, last) then Some(Next(sh, s, last)) else None
      case None => None
  }

  const START := State(map[], {}, 0, None, map[], map[], 0)

  // ----- What every step keeps -----

  /** An evaluation made in the current version gives a decision that is up to date. */
  ghost predicate EvaluationOk(sh: Sharding, s: State, e: Evaluation) {
    && IsPort(e.packet.dstPort) && e.account in s.loaded && sh.of(Key(e.account, e.packet)) < sh.count
    && e.version <= s.version
    && (s.clearing.Some? ==> e.version < s.version)
    && (e.version == s.version ==> UpToDate(s.lists, e.account, e.packet, e.decision))
  }

  /** The evaluation was in flight when some change replaced rules. */
  predicate Overtaken(c: Cached) {
    c.eval.version < c.storedIn
  }

  /** A cached decision that was not overtaken is up to date, unless a change that is still
      running has yet to clear its shard. */
  ghost predicate CachedOk(sh: Sharding, s: State, key: string, c: Cached) {
    && key == Key(c.eval.account, c.eval.packet) && sh.of(key) < sh.count
    && IsPort(c.eval.packet.dstPort) && c.eval.account in s.loaded
    && c.eval.version <= c.storedIn <= s.version
    && c.storedAt <= s.now && c.expiresAt == c.storedAt + DECISION_TTL
    && (c.eval.version == s.version ==> UpToDate(s.lists, c.eval.account, c.eval.packet, c.eval.decision))
    && (Overtaken(c) || c.eval.version == s.version || (s.clearing.Some? && s.clearing.value <= sh.of(key)))
  }

  ghost predicate Invariant(sh: Sharding, s: State) {
    && (forall t :: t in s.inFlight ==> EvaluationOk(sh, s, s.inFlight[t]))
    && (forall k :: k in s.cache ==> CachedOk(sh, s, k, s.cache[k]))
  }

  lemma ChangeKeepsInvariant(sh: Sharding, s: State, step: Step)
    requires Invariant(sh, s) && Enabled(sh, s, step)
    requires step.BeginChange? || step.ClearShard? || step.EndChange?
    ensures Invariant(sh, Next(sh, s, step))
  {
    var s' := Next(sh, s, step);
    forall t | t in s'.inFlight
      ensures EvaluationOk(sh, s', s'.inFlight[t])
    {
      assert EvaluationOk(sh, s, s.inFlight[t]);
    }
    forall k | k in s'.cache
      ensures CachedOk(sh, s', k, s'.cache[k])
    {
      assert CachedOk(sh, s, k, s.cache[k]);
    }
  }

  /** Nothing was evaluated for an account before it was loaded. */
  lemma LoadKeepsInvariant(sh: Sharding, s: State, step: Step)
    requires Invariant(sh, s) && Enabled(sh, s, step) && step.Load?
    ensures Invariant(sh, Next(sh, s, step))
  {
    var s' := Next(sh, s, step);
    forall t | t in s'.inFlight
      ensures EvaluationOk(sh, s', s'.inFlight[t])
    {
      assert EvaluationOk(sh, s, s.inFlight[t]);
    }
    forall k | k in s'.cache
      ensures CachedOk(sh, s', k, s'.cache[k])
    {
      assert CachedOk(sh, s, k, s.cache[k]);
    }
  }

  /** What was up to date stays so when a delete is refused. */
  lemma ThinKeepsUpToDate(lists: Pasts, owner: string, id: string, a: string, p: Packet, d: Decision)
    requires UpToDate(lists, a, p, d)
    ensures UpToDate(Thin(lists, owner, id), a, p, d)
  {
    AnswersStay(ListsOf(lists, owner), Removed(Current(lists, owner), id), IndexFor(lists, owner), p, d);
  }

  lemma RefusalKeepsInvariant(sh: Sharding, s: State, a: string, id: string)
    requires Invariant(sh, s)
    ensures Invariant(sh, s.(lists := Thin(s.lists, a, id)))
  {
    var s' := s.(lists := Thin(s.lists, a, id));
    forall t | t in s'.inFlight
      ensures EvaluationOk(sh, s', s'.inFlight[t])
    {
      var e := s.inFlight[t];
      assert EvaluationOk(sh, s, e);
      if e.version == s.version {
        ThinKeepsUpToDate(s.lists, a, id, e.account, e.packet, e.decision);
      }
    }
    forall k | k in s'.cache
      ensures CachedOk(sh, s', k, s'.cache[k])
    {
      var e := s.cache[k].eval;
      assert CachedOk(sh, s, k, s.cache[k]);
      if e.version == s.version {
        ThinKeepsUpToDate(s.lists, a, id, e.account, e.packet, e.decision);
      }
    }
  }

  lemma EvaluateKeepsInvariant(sh: Sharding, s: State, step: Step)
    requires Invariant(sh, s) && Enabled(sh, s, step) && step.Evaluate?
    ensures Invariant(sh, Next(sh, s, step))
  {
    var s' := Next(sh, s, step);
    DecisionIsUpToDate(s.lists, step.acct, step.packet);
    forall t | t in s'.inFlight
      ensures EvaluationOk(sh, s', s'.inFlight[t])
    {
      assert t != step.thread ==> EvaluationOk(sh, s, s.inFlight[t]);
    }
    forall k | k in s'.cache
      ensures CachedOk(sh, s', k, s'.cache[k])
    {
      assert CachedOk(sh, s, k, s.cache[k]);
    }
  }

  lemma TrafficKeepsInvariant(sh: Sharding, s: State, step: Step)
    requires Invariant(sh, s) && Enabled(sh, s, step)
    requires step.Store? || step.Drop? || step.Tick?
    ensures Invariant(sh, Next(sh, s, step))
  {
    var s' := Next(sh, s, step);
    forall t | t in s'.inFlight
      ensures EvaluationOk(sh, s', s'.inFlight[t])
    {
      assert EvaluationOk(sh, s, s.inFlight[t]);
    }
    forall k | k in s'.cache
      ensures CachedOk(sh, s', k, s'.cache[k])
    {
      assert step.Store? ==> EvaluationOk(sh, s, s.inFlight[step.storing]);
      assert k in s.cache ==> CachedOk(sh, s, k, s.cache[k]);
    }
  }

  lemma StepKeepsInvariant(sh: Sharding, s: State, step: Step)
    requires Invariant(sh, s) && Enabled(sh, s, step)
    ensures Invariant(sh, Next(sh, s, step))
  {
    match step
    case Load(_, _) => LoadKeepsInvariant(sh, s, step);
    case BeginChange(_, _) | ClearShard | EndChange => ChangeKeepsInvariant(sh, s, step);
    case RefuseDelete(a, id) => RefusalKeepsInvariant(sh, s, a, id);
    case Evaluate(_, _, _) => EvaluateKeepsInvariant(sh, s, step);
    case Store(_) | Drop(_) | Tick(_) => TrafficKeepsInvariant(sh, s, step);
  }

  lemma {:induction false} RunKeepsInvariant(sh: Sharding, steps: seq<Step>)
    requires Run(sh, steps).Some?
    ensures Invariant(sh, Run(sh, steps).value)
  {
    if steps == [] {
    } else {
      var front, last := steps[..|steps| - 1], steps[|steps| - 1];
      RunKeepsInvariant(sh, front);
      StepKeepsInvariant(sh, Run(sh, front).value, last);
    }
  }

  // ----- Answers -----

  /** The cache would answer this query now. */
  predicate Hits(s: State, account: string, p: Packet) {
    Key(account, p) in s.cache && s.now <= s.cache[Key(account, p)].expiresAt
  }

  /** In every interleaving, an answer the cache gives while no change is running is up to date
      by the current rules, or its evaluation was in flight when some change happened; and it
      is never given later than five minutes after it was stored. Other queries may have been
      ambiguous. */
  lemma {:induction false} CachedAnswers(sh: Sharding, steps: seq<Step>, s: State, account: string, p: Packet)
    requires Run(sh, steps) == Some(s) && s.clearing.None?
    requires IsPort(p.dstPort) && Unambiguous(account, p) && Hits(s, account, p)
    ensures var c := s.cache[Key(account, p)];
            && (UpToDate(s.lists, account, p, c.eval.decision) || Overtaken(c))
            && c.storedAt <= s.now <= c.storedAt + 300 * SECOND
  {
    RunKeepsInvariant(sh, steps);
    var c := s.cache[Key(account, p)];
    assert CachedOk(sh, s, Key(account, p), c);
    KeyUnambiguous(account, p, c.eval.account, c.eval.packet);
  }

  /** Answers of the evaluating thread itself: up to date unless a change intervened. */
  lemma {:induction false} DirectAnswers(sh: Sharding, steps: seq<Step>, s: State, t: nat)
    requires Run(sh, steps) == Some(s) && t in s.inFlight
    ensures var e := s.inFlight[t];
            UpToDate(s.lists, e.account, e.packet, e.decision) || e.version < s.version
  {
    RunKeepsInvariant(sh, steps);
    assert EvaluationOk(sh, s, s.inFlight[t]);
  }

  /** Every change of the run begins with nothing in flight. */
  predicate Quiet(sh: Sharding, steps: seq<Step>) {
    forall i :: 0 <= i < |steps| && steps[i].BeginChange? ==>
      Run(sh, steps[..i]).Some? ==> Run(sh, steps[..i]).value.inFlight == map[]
  }

  predicate NoneOvertaken(s: State) {
    && (forall t :: t in s.inFlight ==> s.inFlight[t].version == s.version)
    && (forall k :: k in s.cache ==> !Overtaken(s.cache[k]))
  }

  lemma QuietStep(sh: Sharding, s: State, step: Step)
    requires NoneOvertaken(s) && Enabled(sh, s, step)
    requires step.BeginChange? ==> s.inFlight == map[]
    ensures NoneOvertaken(Next(sh, s, step))
  {
  }

  lemma QuietPrefix(sh: Sharding, steps: seq<Step>)
    requires steps != [] && Quiet(sh, steps)
    ensures Quiet(sh, steps[..|steps| - 1])
  {
    var front := steps[..|steps| - 1];
    assert forall i :: 0 <= i < |front| ==> front[i] == steps[i] && front[..i] == steps[..i];
  }

  lemma {:induction false} QuietRunOvertakesNothing(sh: Sharding, steps: seq<Step>)
    requires Run(sh, steps).Some? && Quiet(sh, steps)
    ensures NoneOvertaken(Run(sh, steps).value)
  {
    if steps == [] {
    } else {
      var front, last := steps[..|steps| - 1], steps[|steps| - 1];
      QuietPrefix(sh, steps);
      QuietRunOvertakesNothing(sh, front);
      QuietStep(sh, Run(sh, front).value, last);
    }
  }

  /** If no evaluation is ever in flight when a change begins, the cache never disagrees
      with the current rules outside a change. */
  lemma {:induction false} QuietRunsStayCoherent(sh: Sharding, steps: seq<Step>, s: State, account: string, p: Packet)
    requires Run(sh, steps) == Some(s) && s.clearing.None? && Quiet(sh, steps)
    requires IsPort(p.dstPort) && Unambiguous(account, p) && Hits(s, account, p)
    ensures UpToDate(s.lists, account, p, s.cache[Key(account, p)].eval.decision)
    ensures |ListsOf(s.lists, account)| == 1 ==>
      s.cache[Key(account, p)].eval.decision == DecideIn(s.lists, account, p)
  {
    CachedAnswers(sh, steps, s, account, p);
    QuietRunOvertakesNothing(sh, steps);
  }

  // ----- The exception is real -----

  lemma {:induction false} Extend(sh: Sharding, steps: seq<Step>, s: State, step: Step)
    requires Run(sh, steps) == Some(s) && Enabled(sh, s, step)
    ensures Run(sh, steps + [step]) == Some(Next(sh, s, step))
  {
    assert (steps + [step])[..|steps|] == steps;
  }

  /** Clearing the first `n` shards of an empty cache. */
  lemma {:induction false} ClearMany(sh: Sharding, steps: seq<Step>, s: State, n: nat) returns (more: seq<Step>)
    requires Run(sh, steps) == Some(s) && s.clearing == Some(0) && s.cache == map[] && n <= sh.count
    ensures Run(sh, more) == Some(s.(clearing := Some(n)))
  {
    if n == 0 {
      more := steps;
    } else {
      var before := ClearMany(sh, steps, s, n - 1);
      Extend(sh, before, s.(clearing := Some(n - 1)), ClearShard);
      more := before + [ClearShard];
    }
  }

  /** A whole change while the cache is empty. */
  lemma WholeChange(sh: Sharding, steps: seq<Step>, s: State, a: string, list: seq<HotRule>)
    returns (more: seq<Step>)
    requires Run(sh, steps) == Some(s) && s.clearing.None? && s.cache == map[] && a in s.loaded
    ensures Run(sh, more) == Some(s.(lists := s.lists[a := [list]], version := s.version + 1))
  {
    Extend(sh, steps, s, BeginChange(a, list));
    var begun := Next(sh, s, BeginChange(a, list));
    var cleared := ClearMany(sh, steps + [BeginChange(a, list)], begun, sh.count);
    Extend(sh, cleared, begun.(clearing := Some(sh.count)), EndChange);
    more := cleared + [EndChange];
  }

  /** A run that leaves one evaluation in flight. */
  lemma EvaluationInFlight(sh: Sharding, a: string, p: Packet, before: seq<HotRule>)
    returns (steps: seq<Step>, s: State)
    requires sh.of(Key(a, p)) < sh.count && IsPort(p.dstPort)
    ensures Run(sh, steps) == Some(s)
    ensures s == State(map[a := [before]], {a}, 0, None,
                       map[0 := Evaluation(a, p, DecideIn(map[a := [before]], a, p), 0)], map[], 0)
  {
    Extend(sh, [], START, Load(a, Some(before)));
    var s1 := State(map[a := [before]], {a}, 0, None, map[], map[], 0);
    assert START.loaded + {a} == {a};
    Extend(sh, [Load(a, Some(before))], s1, Evaluate(0, a, p));
    steps, s := [Load(a, Some(before))] + [Evaluate(0, a, p)], Next(sh, s1, Evaluate(0, a, p));
  }

  /** The rules change while that evaluation is in flight. */
  lemma ChangeInBetween(sh: Sharding, a: string, p: Packet, before: seq<HotRule>, after: seq<HotRule>)
    returns (steps: seq<Step>, s: State)
    requires sh.of(Key(a, p)) < sh.count && IsPort(p.dstPort)
    ensures Run(sh, steps) == Some(s)
    ensures s == State(map[a := [after]], {a}, 1, None,
                       map[0 := Evaluation(a, p, DecideIn(map[a := [before]], a, p), 0)], map[], 0)
  {
    var steps2, s2 := EvaluationInFlight(sh, a, p, before);
    steps := WholeChange(sh, steps2, s2, a, after);
    assert s2.lists[a := [after]] == map[a := [after]];
    s := State(map[a := [after]], {a}, 1, None, s2.inFlight, map[], 0);
  }

  /** For any number of shards, a decision evaluated under old rules and stored after the change
      is served, and disagrees with the current rules. */
  lemma OvertakenAnswer(sh: Sharding, a: string, p: Packet, before: seq<HotRule>, after: seq<HotRule>)
    returns (steps: seq<Step>, s: State)
    requires sh.of(Key(a, p)) < sh.count && IsPort(p.dstPort)
    requires DecideIn(map[a := [before]], a, p) != DecideIn(map[a := [after]], a, p)
    ensures Run(sh, steps) == Some(s) && s.clearing.None? && Hits(s, a, p)
    ensures s.cache[Key(a, p)].eval.decision != DecideIn(s.lists, a, p)
  {
    var steps3, s3 := ChangeInBetween(sh, a, p, before, after);
    Extend(sh, steps3, s3, Store(0));
    steps, s := steps3 + [Store(0)], Next(sh, s3, Store(0));
  }
}
