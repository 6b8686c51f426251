/** Where the fields of a created tenant or peer come from (internal/adminbot/bot.go): over every
    run of messages each field is what the last message taken at that field's step said, and the
    message that creates it confirms. And the straight way through a form does create it. */
module BotForms {
  import opened Text
  import opened Durations
  import opened Strings
  import opened BotConversation

  // ---- All that a run heard ----

  function ToolIds(tool: Tool): set<string> {
    if !tool.ReadTool? && tool.found.Some? then {tool.found.value} else {}
  }

  function AllToolIds(tools: seq<Tool>): set<string> {
    if tools == [] then {} else AllToolIds(tools[..|tools| - 1]) + ToolIds(tools[|tools| - 1])
  }

  lemma {:induction false} ToolIdsIn(tools: seq<Tool>, i: nat)
    requires i < |tools|
    ensures ToolIds(tools[i]) <= AllToolIds(tools)
  {
    if i < |tools| - 1 {
      assert tools[..|tools| - 1][i] == tools[i];
      ToolIdsIn(tools[..|tools| - 1], i);
    }
  }

  function IdsOf(m: Message): set<string> {
    AllToolIds(m.tools) + (if m.resolved.Some? then {m.resolved.value} else {})
  }

  /** The tenants looked up and the texts said in a run. */
  function Heard(ms: seq<Message>): World {
    if ms == [] then World({}, {})
    else
      var before, last := Heard(ms[..|ms| - 1]), ms[|ms| - 1];
      World(before.ids + IdsOf(last), before.said + {TrimSpace(last.input)})
  }

  lemma KnownIn(m: Message, w: World)
    requires IdsOf(m) <= w.ids && TrimSpace(m.input) in w.said
    ensures Known(m, w)
  {
    forall i | 0 <= i < |m.tools|
      ensures ToolKnown(m.tools[i], w)
    {
      ToolIdsIn(m.tools, i);
    }
  }

  lemma {:induction false} HeardAll(ms: seq<Message>, i: nat)
    requires i < |ms|
    ensures IdsOf(ms[i]) <= Heard(ms).ids && TrimSpace(ms[i].input) in Heard(ms).said
  {
    if i < |ms| - 1 {
      assert ms[..|ms| - 1][i] == ms[i];
      HeardAll(ms[..|ms| - 1], i);
    }
  }

  /** What is kept of every session. */
  lemma {:induction false} RunIsOk(ms: seq<Message>)
    ensures Ok(Run(ms).0, Heard(ms))
  {
    forall i | 0 <= i < |ms|
      ensures Known(ms[i], Heard(ms))
    {
      HeardAll(ms, i);
      KnownIn(ms[i], Heard(ms));
    }
    RunKeeps(ms, Heard(ms));
  }

  // ---- The last message taken at a step ----

  /** The message goes to an open flow at this step. */
  predicate TakenAt(before: Option<Session>, m: Message, flow: Flow, step: nat) {
    var s := Current(before, m.now);
    && s.Some? && s.value.flow == flow && s.value.step == step
    && Navigate(m) == Forward && s.value.entryCount < MAX_ENTRIES
  }

  function LastAt(ms: seq<Message>, flow: Flow, step: nat): Option<Message> {
    if ms == [] then None
    else
      var front, last := ms[..|ms| - 1], ms[|ms| - 1];
      if TakenAt(Run(front).0, last, flow, step) then Some(last) else LastAt(front, flow, step)
  }

  /** The last message taken at this step said `text`, which is not blank. */
  predicate SaidAt(ms: seq<Message>, flow: Flow, step: nat, text: string) {
    var m := LastAt(ms, flow, step);
    m.Some? && TrimSpace(m.value.input) == text != ""
  }

  /** It named a tier: free, standard or premium. */
  predicate NamesTier(input: string, tier: nat) {
    var word := ToLower(TrimSpace(input));
    || (tier == 0 && (word == "free" || word == "0" || word == "tier_free"))
    || (tier == 1 && (word == "standard" || word == "1" || word == "tier_standard"))
    || (tier == 2 && (word == "premium" || word == "2" || word == "tier_premium"))
  }

  predicate TierAt(ms: seq<Message>, tier: nat) {
    var m := LastAt(ms, AddTenant, 3);
    m.Some? && NamesTier(m.value.input, tier)
  }

  predicate ResolvedAt(ms: seq<Message>, id: string) {
    var m := LastAt(ms, AddPeer, 0);
    m.Some? && m.value.resolved == Some(id)
  }

  /** The fields asked for before `step`: name, email, phone, tier, password, in this order. */
  predicate TenantSourced(ms: seq<Message>, f: TenantForm, step: nat) {
    && (step >= 1 ==> SaidAt(ms, AddTenant, 0, f.fullName))
    && (step >= 2 ==> SaidAt(ms, AddTenant, 1, f.email))
    && (step >= 3 ==> SaidAt(ms, AddTenant, 2, f.phone))
    && (step >= 4 ==> TierAt(ms, f.tier))
    && (step >= 5 ==> SaidAt(ms, AddTenant, 4, f.password))
  }

  /** The tenant, then the name. */
  predicate PeerSourced(ms: seq<Message>, f: PeerForm, step: nat) {
    && (step >= 1 ==> ResolvedAt(ms, f.tenantID))
    && (step >= 2 ==> SaidAt(ms, AddPeer, 1, f.name))
  }

  predicate Sourced(ms: seq<Message>, s: Option<Session>) {
    s.Some? ==>
      && (s.value.flow == AddTenant ==> TenantSourced(ms, s.value.tenant, s.value.step))
      && (s.value.flow == AddPeer ==> PeerSourced(ms, s.value.peer, s.value.step))
  }

  predicate Confirms(m: Message) {
    var word := ToLower(TrimSpace(m.input));
    word == "y" || word == "yes" || word == "confirm" || word == "ok"
  }

  /** What was created is what was asked for. */
  predicate ActionSourced(ms: seq<Message>, m: Message, a: Action) {
    match a
    case CreateTenant(f) => TenantSourced(ms, f, 5) && Confirms(m)
    case CreatePeer(f) => PeerSourced(ms, f, 2) && Confirms(m)
    case _ => true
  }

  // ---- One message more ----

  lemma {:induction false} LastOfMore(ms: seq<Message>, m: Message, flow: Flow, step: nat)
    ensures LastAt(ms + [m], flow, step) == if TakenAt(Run(ms).0, m, flow, step) then Some(m) else LastAt(ms, flow, step)
  {
    assert (ms + [m])[..|ms|] == ms;
  }

  /** A message not taken by the flow below `step` changes none of its fields. */
  lemma {:induction false} TenantStays(ms: seq<Message>, m: Message, f: TenantForm, step: nat)
    requires TenantSourced(ms, f, step) && forall k: nat :: k < step ==> !TakenAt(Run(ms).0, m, AddTenant, k)
    ensures TenantSourced(ms + [m], f, step)
  {
    LastOfMore(ms, m, AddTenant, 0);
    LastOfMore(ms, m, AddTenant, 1);
    LastOfMore(ms, m, AddTenant, 2);
    LastOfMore(ms, m, AddTenant, 3);
    LastOfMore(ms, m, AddTenant, 4);
  }

  lemma {:induction false} PeerStays(ms: seq<Message>, m: Message, f: PeerForm, step: nat)
    requires PeerSourced(ms, f, step) && forall k: nat :: k < step ==> !TakenAt(Run(ms).0, m, AddPeer, k)
    ensures PeerSourced(ms + [m], f, step)
  {
    LastOfMore(ms, m, AddPeer, 0);
    LastOfMore(ms, m, AddPeer, 1);
  }

  lemma TierNamed(input: string)
    requires ParseTier(input).Some?
    ensures NamesTier(input, ParseTier(input).value)
  {
  }

  /** The field of this step says what the message says, and the fields before it are as they were. */
  predicate FieldTaken(f: TenantForm, g: TenantForm, step: nat, m: Message) {
    && (step == 0 || g.fullName == f.fullName) && (step == 0 ==> g.fullName == TrimSpace(m.input))
    && (step == 1 || g.email == f.email) && (step == 1 ==> g.email == TrimSpace(m.input))
    && (step == 2 || g.phone == f.phone) && (step == 2 ==> g.phone == TrimSpace(m.input))
    && (step == 3 || g.tier == f.tier) && (step == 3 ==> NamesTier(m.input, g.tier))
    && (step == 4 || g.password == f.password) && (step == 4 ==> g.password == TrimSpace(m.input))
  }

  /** The flow moves on by one field, stays at it, or is at its end. */
  lemma TenantFlow(s: Session, m: Message)
    requires s.flow == AddTenant
    ensures var t := AddTenantFlow(s, m);
      && (t.session.step == s.step || (t.session.step == s.step + 1 && s.step < 5
            && (s.step != 3 ==> TrimSpace(m.input) != "") && FieldTaken(s.tenant, t.session.tenant, s.step, m)))
      && (t.session.step == s.step && s.step != 3 && s.step < 5 ==> FieldTaken(s.tenant, t.session.tenant, s.step, m))
      && (t.session.step == s.step && (s.step == 3 || s.step >= 5) ==> t.session.tenant == s.tenant)
      && (!t.action.NoAction? ==> s.step >= 5 && t.action == CreateTenant(s.tenant) && Confirms(m))
  {
    if ParseTier(m.input).Some? {
      TierNamed(m.input);
    }
  }

  /** One field more is sourced. */
  lemma {:induction false} FieldSourced(ms: seq<Message>, m: Message, f: TenantForm, g: TenantForm, step: nat)
    requires step < 5 && TakenAt(Run(ms).0, m, AddTenant, step) && TenantSourced(ms, f, step) && FieldTaken(f, g, step, m)
    ensures TenantSourced(ms + [m], g, step)
    ensures step == 3 || TrimSpace(m.input) != "" ==> TenantSourced(ms + [m], g, step + 1)
  {
    TenantStays(ms, m, f, step);
    LastOfMore(ms, m, AddTenant, step);
  }

  /** A message taken by the add-tenant flow. */
  lemma {:induction false} TenantTaken(ms: seq<Message>, m: Message, s: Session)
    requires s.flow == AddTenant && TakenAt(Run(ms).0, m, AddTenant, s.step) && TenantSourced(ms, s.tenant, s.step)
    ensures var t := AddTenantFlow(s, m);
      && TenantSourced(ms + [m], t.session.tenant, t.session.step)
      && ActionSourced(ms, m, t.action)
  {
    var t := AddTenantFlow(s, m);
    TenantFlow(s, m);
    TenantStays(ms, m, s.tenant, s.step);
    if s.step < 5 && (t.session.step == s.step + 1 || s.step != 3) {
      FieldSourced(ms, m, s.tenant, t.session.tenant, s.step);
    }
  }

  lemma {:induction false} PeerTaken(ms: seq<Message>, m: Message, s: Session)
    requires s.flow == AddPeer && TakenAt(Run(ms).0, m, AddPeer, s.step) && PeerSourced(ms, s.peer, s.step)
    ensures var t := AddPeerFlow(s, m);
      && PeerSourced(ms + [m], t.session.peer, t.session.step)
      && ActionSourced(ms, m, t.action)
  {
    PeerStays(ms, m, s.peer, s.step);
    LastOfMore(ms, m, AddPeer, s.step);
  }

  /** "back" goes to an earlier step of the same flow. */
  lemma {:induction false} BackSourced(ms: seq<Message>, m: Message, w: World)
    requires Ok(Run(ms).0, w) && Sourced(ms, Run(ms).0) && Navigate(m) == Back
    ensures Sourced(ms + [m], GoBack(Current(Run(ms).0, m.now), m.now))
  {
    var s := GoBack(Current(Run(ms).0, m.now), m.now);
    if s.Some? {
      var h := Run(ms).0.value.history;
      assert Below(h[|h| - 1], Run(ms).0.value.flow, Run(ms).0.value.step);
      if s.value.flow == AddTenant {
        TenantStays(ms, m, s.value.tenant, s.value.step);
      } else if s.value.flow == AddPeer {
        PeerStays(ms, m, s.value.peer, s.value.step);
      }
    }
  }

  lemma EnterIsFlow(s: Session, m: Message, s': Session)
    requires s.flow != Menu && s.entryCount < MAX_ENTRIES
    requires var c := Counted(Some(s), m.now); s' == c.(history := Push(c.history, Checkpoint(c.flow, c.step)))
    ensures Enter(Some(s), m) == Close(InFlow(s', m))
  {
  }

  /** A message to an open flow. */
  lemma {:induction false} EnterSourced(ms: seq<Message>, m: Message, s: Session)
    requires Current(Run(ms).0, m.now) == Some(s) && s.flow != Menu && Sourced(ms, Some(s)) && Navigate(m) == Forward
    ensures Sourced(ms + [m], Enter(Some(s), m).0) && ActionSourced(ms, m, Enter(Some(s), m).1)
  {
    var c := Counted(Some(s), m.now);
    if c.entryCount <= MAX_ENTRIES {
      var s' := c.(history := Push(c.history, Checkpoint(c.flow, c.step)));
      EnterIsFlow(s, m, s');
      if s.flow == AddTenant {
        TenantTaken(ms, m, s');
      } else if s.flow == AddPeer {
        PeerTaken(ms, m, s');
      }
    }
  }

  /** A message outside a flow opens one at its first step, if any. */
  lemma OpenSourced(ms: seq<Message>, m: Message)
    ensures Sourced(ms, Enter(None, m).0) && ActionSourced(ms, m, Enter(None, m).1)
  {
    var t := Advance(Counted(None, m.now), m, false);
    assert t.session.step == 0 && !t.action.CreateTenant? && !t.action.CreatePeer?;
  }

  lemma {:induction false} StepSourced(ms: seq<Message>, m: Message, w: World)
    requires Ok(Run(ms).0, w) && Sourced(ms, Run(ms).0)
    ensures Sourced(ms + [m], Step(Run(ms).0, m).0) && ActionSourced(ms, m, Step(Run(ms).0, m).1)
  {
    var s := Current(Run(ms).0, m.now);
    match Navigate(m)
    case Clear =>
    case Back => BackSourced(ms, m, w);
    case Forward =>
      if s.Some? {
        EnterSourced(ms, m, s.value);
      } else if !m.interactive {
        OpenSourced(ms, m);
        OpenSourced(ms + [m], m);
      }
  }

  lemma {:induction false} RunSourced(ms: seq<Message>)
    ensures Sourced(ms, Run(ms).0)
  {
    if ms == [] {
    } else {
      var front, last := ms[..|ms| - 1], ms[|ms| - 1];
      RunSourced(front);
      RunIsOk(front);
      StepSourced(front, last, Heard(front));
      assert front + [last] == ms;
    }
  }

  lemma {:induction false} ActionAt(ms: seq<Message>, i: nat)
    requires i < |ms|
    ensures |Run(ms).1| == |ms| && Run(ms).1[i] == Step(Run(ms[..i]).0, ms[i]).1
  {
    var front := ms[..|ms| - 1];
    LengthOfRun(front);
    if i < |ms| - 1 {
      ActionAt(front, i);
      assert front[..i] == ms[..i];
    }
  }

  lemma {:induction false} LengthOfRun(ms: seq<Message>)
    ensures |Run(ms).1| == |ms|
  {
    if ms == [] {
    } else {
      LengthOfRun(ms[..|ms| - 1]);
    }
  }

  /** In every run, a tenant is created by a confirmation, with the name, the email, the phone, the
      tier and the password that the last messages taken at their steps gave; and the add-peer flow
      creates a peer for the tenant that the last message at its first step found, under the name
      the last one at its second step gave. */
  lemma {:induction false} CreatedAsSaid(ms: seq<Message>, i: nat)
    requires i < |ms|
    ensures |Run(ms).1| == |ms|
    ensures match Run(ms).1[i]
      case CreateTenant(f) =>
        && Confirms(ms[i])
        && SaidAt(ms[..i], AddTenant, 0, f.fullName) && SaidAt(ms[..i], AddTenant, 1, f.email)
        && SaidAt(ms[..i], AddTenant, 2, f.phone) && TierAt(ms[..i], f.tier) && SaidAt(ms[..i], AddTenant, 4, f.password)
      case CreatePeer(f) =>
        Confirms(ms[i]) && ResolvedAt(ms[..i], f.tenantID) && SaidAt(ms[..i], AddPeer, 1, f.name)
      case _ => true
  {
    ActionAt(ms, i);
    RunSourced(ms[..i]);
    RunIsOk(ms[..i]);
    StepSourced(ms[..i], ms[i], Heard(ms[..i]));
  }

  // ---- The straight way through ----

  /** A command that is no navigation. */
  predicate Plain(m: Message) {
    && !m.interactive && m.input != "" && m.input != "0"
    && ToLower(m.input) != "cancel" && ToLower(m.input) != "menu" && ToLower(m.input) != "help" && ToLower(m.input) != "back"
  }

  /** Said no later than twenty minutes after the last. */
  predicate Follows(m: Message, last: Message) {
    Plain(m) && m.now - last.now <= 1200 * SECOND
  }

  /** An open flow with so many messages behind it, the last of which was `last`. */
  predicate Standing(s: Option<Session>, flow: Flow, step: nat, last: Message) {
    && s.Some? && s.value.flow == flow && s.value.step == step && s.value.lastTouched == last.now
    && s.value.entryCount == step + 1
  }

  /** The words that open the four flows from the menu. */
  lemma {:induction false} WordsOpen(m: Message)
    requires Plain(m)
    ensures var word := ToLower(TrimSpace(m.input));
      var s := Step(None, m).0;
      && (word == "1" || word == "analytics" ==> Standing(s, Analytics, 0, m))
      && (word == "2" || word == "tenant" || word == "tenant detail" || word == "tenant details" ==> Standing(s, TenantDetail, 0, m))
      && (word == "3" || word == "add peer" || word == "peer" || word == "add-peer" ==> Standing(s, AddPeer, 0, m))
      && (word == "4" || word == "add tenant" || word == "add-tenant" ==> Standing(s, AddTenant, 0, m))
  {
    if MenuSelection(m.input).Some? {
      ChoiceOpens(m, MenuSelection(m.input).value);
    }
  }

  lemma ChoiceOpens(m: Message, flow: Flow)
    requires Plain(m) && MenuSelection(m.input) == Some(flow)
    ensures Standing(Step(None, m).0, flow, 0, m)
  {
  }

  /** A message that follows goes to the flow. */
  lemma Forwarded(s: Session, flow: Flow, step: nat, last: Message, m: Message)
    requires Standing(Some(s), flow, step, last) && flow != Menu && step < 10 && Follows(m, last)
    ensures var c := Counted(Some(s), m.now);
      Step(Some(s), m) == Close(InFlow(c.(history := Push(c.history, Checkpoint(flow, step))), m))
  {
  }

  /** A session that was idle for more than twenty minutes might as well not be there. */
  lemma IdleForgotten(s: Session, m: Message)
    requires m.now - s.lastTouched > 1200 * SECOND
    ensures Step(Some(s), m) == Step(None, m)
  {
  }

  /** Fifty messages to a session are taken, the next one ends it. */
  lemma FiftyEntries(s: Session, m: Message)
    requires s.flow != Menu && Plain(m) && m.now - s.lastTouched <= 1200 * SECOND
    ensures if s.entryCount >= 50 then Step(Some(s), m) == (None, NoAction)
      else
        var c := s.(lastTouched := m.now, entryCount := s.entryCount + 1);
        Step(Some(s), m) == Close(InFlow(c.(history := Push(c.history, Checkpoint(s.flow, s.step))), m))
  {
  }

  /** The analytics flow takes two answers and ends with the third, whatever they are. */
  lemma {:induction false} AnalyticsInThree(ms: seq<Message>, open: Message, a: Message, b: Message, c: Message)
    requires Run(ms).0 == None && Plain(open) && Follows(a, open) && Follows(b, a) && Follows(c, b)
    requires ToLower(TrimSpace(open.input)) == "1" || ToLower(TrimSpace(open.input)) == "analytics"
    ensures Standing(Run(ms + [open] + [a]).0, Analytics, 1, a)
    ensures Standing(Run(ms + [open] + [a] + [b]).0, Analytics, 2, b)
    ensures Run(ms + [open] + [a] + [b] + [c]).0 == None
  {
    var began, first, second := ms + [open], ms + [open] + [a], ms + [open] + [a] + [b];
    WordsOpen(open);
    RunOfMore(ms, open);
    AnalyticsMoves(Run(began).0, 0, open, a);
    RunOfMore(began, a);
    AnalyticsMoves(Run(first).0, 1, a, b);
    RunOfMore(first, b);
    AnalyticsMoves(Run(second).0, 2, b, c);
    RunOfMore(second, c);
  }

  lemma AnalyticsMoves(s: Option<Session>, step: nat, last: Message, m: Message)
    requires step <= 2 && Standing(s, Analytics, step, last) && Follows(m, last)
    ensures if step < 2 then Standing(Step(s, m).0, Analytics, step + 1, m) else Step(s, m).0 == None
  {
    Forwarded(s.value, Analytics, step, last, m);
  }

  /** The detail flow first finds a tenant, or ends; then it shows a card or the activity of that
      tenant and ends, or stays where it is. */
  lemma DetailsShown(s: Session, m: Message)
    requires s.flow == TenantDetail
    ensures var t := TenantDetailFlow(s, m);
      var word := ToLower(TrimSpace(m.input));
      if s.step == 0 then
        if m.resolved.Some? then t.keep && t.session == s.(details := m.resolved.value, step := 1) else !t.keep
      else if word == "card" || word == "1" || word == "activity" || word == "activities" || word == "2" then
        !t.keep && t.session.details == s.details
      else t.keep && t.session == s
  {
  }

  /** The model's tool creates a peer exactly for a selector that is not blank and finds a tenant:
      for that tenant, under the name given or one made from the time. */
  lemma ToolCreates(tool: Tool)
    ensures ToolPeer(tool).Some? <==> tool.CreatePeerTool? && TrimSpace(tool.selector) != "" && tool.found.Some?
    ensures ToolPeer(tool).Some? ==>
      && ToolPeer(tool).value.tenantID == tool.found.value
      && ToolPeer(tool).value.name == if TrimSpace(tool.name) != "" then TrimSpace(tool.name) else "device-" + tool.stamp
  {
  }

  /** It sets a limit exactly for a selector that is not blank and finds a tenant with an account,
      and a limit that is not negative. */
  lemma ToolLimits(tool: Tool)
    ensures ToolLimit(tool).Some? <==>
      && tool.SetPeerLimitTool? && TrimSpace(tool.selector) != "" && tool.limit >= 0
      && tool.found.Some? && tool.found.value != ""
    ensures ToolLimit(tool).Some? ==> ToolLimit(tool).value == (tool.found.value, tool.limit)
  {
  }

  /** The answers of the add-tenant form, in order. */
  datatype Answers = Answers(name: Message, email: Message, phone: Message, tier: Message, password: Message)

  /** The form is filled in up to `step`. */
  predicate Written(f: TenantForm, a: Answers, tier: nat, step: nat) {
    && (step >= 1 ==> f.fullName == TrimSpace(a.name.input))
    && (step >= 2 ==> f.email == TrimSpace(a.email.input))
    && (step >= 3 ==> f.phone == TrimSpace(a.phone.input))
    && (step >= 4 ==> f.tier == tier)
    && (step >= 5 ==> f.password == TrimSpace(a.password.input))
  }

  function AnswerAt(a: Answers, step: nat): Message {
    match step
    case 0 => a.name
    case 1 => a.email
    case 2 => a.phone
    case 3 => a.tier
    case _ => a.password
  }

  /** None of the answers is blank, and the fourth names the tier. */
  predicate Fitting(a: Answers, tier: nat) {
    && TrimSpace(a.name.input) != "" && TrimSpace(a.email.input) != "" && TrimSpace(a.phone.input) != ""
    && NamesTier(a.tier.input, tier) && TrimSpace(a.password.input) != ""
  }

  predicate StandsWritten(s: Option<Session>, step: nat, last: Message, a: Answers, tier: nat) {
    Standing(s, AddTenant, step, last) && Written(s.value.tenant, a, tier, step)
  }

  /** The flow takes the answer. */
  lemma TierParsed(input: string, tier: nat)
    requires NamesTier(input, tier)
    ensures ParseTier(input) == Some(tier)
  {
  }

  lemma AnswerMoves(s: Session, a: Answers, tier: nat)
    requires s.flow == AddTenant && s.step < 5 && Fitting(a, tier)
    ensures var t := AddTenantFlow(s, AnswerAt(a, s.step));
      t.keep && t.action == NoAction && t.session == s.(step := s.step + 1, tenant := t.session.tenant)
  {
    if s.step == 3 {
      TierParsed(a.tier.input, tier);
      assert AnswerAt(a, 3) == a.tier;
    } else {
      assert TrimSpace(AnswerAt(a, s.step).input) != "";
    }
  }

  lemma AnswerWritten(s: Session, a: Answers, tier: nat)
    requires s.flow == AddTenant && s.step < 5 && Written(s.tenant, a, tier, s.step) && Fitting(a, tier)
    ensures Written(AddTenantFlow(s, AnswerAt(a, s.step)).session.tenant, a, tier, s.step + 1)
  {
    TenantFlow(s, AnswerAt(a, s.step));
    AnswerMoves(s, a, tier);
  }

  lemma AnswerTaken(s: Option<Session>, step: nat, last: Message, a: Answers, tier: nat)
    requires step < 5 && StandsWritten(s, step, last, a, tier) && Fitting(a, tier) && Follows(AnswerAt(a, step), last)
    ensures StandsWritten(Step(s, AnswerAt(a, step)).0, step + 1, AnswerAt(a, step), a, tier)
  {
    var m := AnswerAt(a, step);
    Forwarded(s.value, AddTenant, step, last, m);
    var c := Counted(s, m.now);
    var s' := c.(history := Push(c.history, Checkpoint(AddTenant, step)));
    AnswerMoves(s', a, tier);
    AnswerWritten(s', a, tier);
  }

  function AnswersOf(a: Answers): seq<Message> {
    [a.name, a.email, a.phone, a.tier, a.password]
  }

  /** The message before answer `n`. */
  function Before(open: Message, a: Answers, n: nat): Message {
    if n == 0 then open else AnswerAt(a, n - 1)
  }

  /** The opening word for the form, and each answer in time after what was said before. */
  predicate InTurn(open: Message, a: Answers) {
    && Plain(open) && (ToLower(TrimSpace(open.input)) == "4" || ToLower(TrimSpace(open.input)) == "add tenant")
    && forall n :: 0 <= n < 5 ==> Follows(AnswersOf(a)[n], Before(open, a, n))
  }

  lemma {:induction false} RunOfMore(ms: seq<Message>, m: Message)
    ensures Run(ms + [m]) == (Step(Run(ms).0, m).0, Run(ms).1 + [Step(Run(ms).0, m).1])
  {
    assert (ms + [m])[..|ms|] == ms;
  }

  lemma NextAnswer(ms: seq<Message>, a: Answers, n: nat)
    requires n < 5
    ensures ms + AnswersOf(a)[..n + 1] == ms + AnswersOf(a)[..n] + [AnswerAt(a, n)] && AnswersOf(a)[n] == AnswerAt(a, n)
  {
    assert AnswersOf(a)[..n + 1] == AnswersOf(a)[..n] + [AnswersOf(a)[n]];
  }

  /** After the first `n` answers. */
  lemma {:induction false} Answered(ms: seq<Message>, open: Message, a: Answers, tier: nat, n: nat)
    requires StandsWritten(Run(ms).0, 0, open, a, tier) && InTurn(open, a) && Fitting(a, tier) && n <= 5
    ensures StandsWritten(Run(ms + AnswersOf(a)[..n]).0, n, Before(open, a, n), a, tier)
    decreases n
  {
    if n == 0 {
      assert ms + AnswersOf(a)[..0] == ms;
    } else {
      var k := n - 1;
      Answered(ms, open, a, tier, k);
      NextAnswer(ms, a, k);
      var before := ms + AnswersOf(a)[..k];
      AnswerTaken(Run(before).0, k, Before(open, a, k), a, tier);
      RunOfMore(before, AnswerAt(a, k));
    }
  }

  function TenantOf(a: Answers, tier: nat): TenantForm {
    TenantForm(TrimSpace(a.name.input), TrimSpace(a.email.input), TrimSpace(a.phone.input), tier, TrimSpace(a.password.input))
  }

  lemma FormConfirmed(s: Option<Session>, a: Answers, tier: nat, yes: Message)
    requires StandsWritten(s, 5, a.password, a, tier) && Follows(yes, a.password)
    ensures Step(s, yes) == (None, if Confirms(yes) then CreateTenant(TenantOf(a, tier)) else NoAction)
  {
    Forwarded(s.value, AddTenant, 5, a.password, yes);
  }

  /** The opening word, five answers and a confirmation create the tenant of exactly these answers. */
  lemma {:induction false} FormFilledIn(ms: seq<Message>, open: Message, a: Answers, tier: nat, yes: Message)
    requires Run(ms).0 == None && InTurn(open, a) && Fitting(a, tier) && Follows(yes, a.password)
    ensures var all := Run(ms + [open] + AnswersOf(a) + [yes]);
      && all.0 == None && |all.1| > 0
      && all.1[|all.1| - 1] == if Confirms(yes) then CreateTenant(TenantOf(a, tier)) else NoAction
  {
    var before := ms + [open] + AnswersOf(a);
    ChoiceOpens(open, AddTenant);
    RunOfMore(ms, open);
    Answered(ms + [open], open, a, tier, 5);
    assert AnswersOf(a)[..5] == AnswersOf(a);
    FormConfirmed(Run(before).0, a, tier, yes);
    RunOfMore(before, yes);
  }

  /** The add-peer flow stands at its step, for this tenant and under this name. */
  predicate PeerStands(s: Option<Session>, step: nat, last: Message, id: string, name: string) {
    && Standing(s, AddPeer, step, last)
    && (step >= 1 ==> s.value.peer.tenantID == id) && (step >= 2 ==> s.value.peer.name == name)
  }

  lemma PeerFound(s: Option<Session>, last: Message, m: Message, id: string, name: string)
    requires PeerStands(s, 0, last, id, name) && Follows(m, last) && m.resolved == Some(id)
    ensures PeerStands(Step(s, m).0, 1, m, id, name)
  {
    Forwarded(s.value, AddPeer, 0, last, m);
  }

  lemma PeerNamed(s: Option<Session>, last: Message, m: Message, id: string)
    requires PeerStands(s, 1, last, id, TrimSpace(m.input)) && Follows(m, last) && TrimSpace(m.input) != ""
    ensures PeerStands(Step(s, m).0, 2, m, id, TrimSpace(m.input))
  {
    Forwarded(s.value, AddPeer, 1, last, m);
  }

  lemma PeerConfirmed(s: Option<Session>, last: Message, m: Message, id: string, name: string)
    requires PeerStands(s, 2, last, id, name) && Follows(m, last)
    ensures Step(s, m) == (None, if Confirms(m) then CreatePeer(PeerForm(id, name)) else NoAction)
  {
    Forwarded(s.value, AddPeer, 2, last, m);
  }

  /** Likewise for a peer: a message that finds the tenant, a name and a confirmation. */
  lemma {:induction false} PeerAsked(ms: seq<Message>, open: Message, who: Message, id: string, name: Message, yes: Message)
    requires Run(ms).0 == None && Plain(open) && Follows(who, open) && Follows(name, who) && Follows(yes, name)
    requires ToLower(TrimSpace(open.input)) == "3" || ToLower(TrimSpace(open.input)) == "add peer"
    requires who.resolved == Some(id) && TrimSpace(name.input) != ""
    ensures var all := Run(ms + [open] + [who] + [name] + [yes]);
      && all.0 == None && |all.1| > 0
      && all.1[|all.1| - 1] == if Confirms(yes) then CreatePeer(PeerForm(id, TrimSpace(name.input))) else NoAction
  {
    var began, found, named := ms + [open], ms + [open] + [who], ms + [open] + [who] + [name];
    WordsOpen(open);
    RunOfMore(ms, open);
    PeerFound(Run(began).0, open, who, id, TrimSpace(name.input));
    RunOfMore(began, who);
    PeerNamed(Run(found).0, who, name, id);
    RunOfMore(found, name);
    PeerConfirmed(Run(named).0, name, yes, id, TrimSpace(name.input));
    RunOfMore(named, yes);
  }
}
