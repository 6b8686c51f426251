/** One chatter's conversation with the admin bot (internal/adminbot/bot.go): the menu, the
    four flows, the bounded stack of checkpoints that "back" pops, the cap on entries and the
    idle timeout. What the telemetry service answers is part of a message. */
module BotConversation {
  import opened Text
  import opened Durations
  import opened Strings

  const MAX_ENTRIES := 50
  const MAX_DEPTH := 10
  const TIMEOUT := 20 * MINUTE

  datatype Flow = Menu | Analytics | TenantDetail | AddPeer | AddTenant

  datatype Checkpoint = Checkpoint(flow: Flow, step: nat)

  datatype TenantForm = TenantForm(fullName: string, email: string, phone: string, tier: nat, password: string)

  datatype PeerForm = PeerForm(tenantID: string, name: string)

  datatype Session = Session(
    flow: Flow, step: nat, lastTouched: int,
    details: string, peer: PeerForm, tenant: TenantForm,
    history: seq<Checkpoint>, entryCount: nat)

  /** A tool call the language model makes while it answers a question. `found` is the tenant
      (for a limit, the account) the selector resolves to; `stamp` the time in a generated name. */
  datatype Tool =
    | CreatePeerTool(selector: string, name: string, found: Option<string>, stamp: string)
    | SetPeerLimitTool(selector: string, limit: int, found: Option<string>)
    | ReadTool

  /** A message that reached the bot: a command, or a tap on a button or list. `resolved` is the
      tenant the telemetry service finds for it, if the flow asks; `tools` are the calls the
      model makes if the message is put to it as a question. */
  datatype Message = Message(interactive: bool, input: string, now: int, resolved: Option<string>, tools: seq<Tool>)

  /** What a message makes the bot do beyond answering: end the add-tenant or the add-peer flow,
      or put a question to the model, which may call write tools. */
  datatype Action =
    | NoAction
    | CreateTenant(tenant: TenantForm)
    | CreatePeer(peer: PeerForm)
    | Asked(question: string, tools: seq<Tool>)

  // ---- Words ----

  /** `menuSelection` as far as it opens a flow. */
  function MenuSelection(input: string): Option<Flow> {
    var lower := ToLower(TrimSpace(input));
    if lower in {"1", "analytics"} then Some(Analytics)
    else if lower in {"2", "tenant", "tenant detail", "tenant details"} then Some(TenantDetail)
    else if lower in {"3", "add peer", "peer", "add-peer"} then Some(AddPeer)
    else if lower in {"4", "add tenant", "add-tenant"} then Some(AddTenant)
    else None
  }

  predicate IsAffirmative(input: string) {
    ToLower(TrimSpace(input)) in {"y", "yes", "confirm", "ok"}
  }

  function ParseTier(input: string): Option<nat> {
    var lower := ToLower(TrimSpace(input));
    if lower in {"free", "0", "tier_free"} then Some(0)
    else if lower in {"standard", "1", "tier_standard"} then Some(1)
    else if lower in {"premium", "2", "tier_premium"} then Some(2)
    else None
  }

  /** A message that opens no flow and is no call for the menu goes to the model. */
  predicate IsQuestion(input: string) {
    MenuSelection(input).None? && ToLower(TrimSpace(input)) !in {"", "start"}
  }

  /** The peer a tool call creates, if any (`toolCreatePeer`). */
  function ToolPeer(tool: Tool): Option<PeerForm> {
    if tool.CreatePeerTool? && TrimSpace(tool.selector) != "" && tool.found.Some? then
      var name := TrimSpace(tool.name);
      Some(PeerForm(tool.found.value, if name == "" then "device-" + tool.stamp else name))
    else None
  }

  /** The account and limit a tool call sets, if any (`toolSetPeerLimit`). */
  function ToolLimit(tool: Tool): Option<(string, int)> {
    if tool.SetPeerLimitTool? && TrimSpace(tool.selector) != "" && tool.limit >= 0
      && tool.found.Some? && tool.found.value != ""
    then Some((tool.found.value, tool.limit))
    else None
  }

  datatype Navigation = Clear | Back | Forward

  /** The commands handled before any flow; taps are never navigation. */
  function Navigate(m: Message): Navigation {
    var lower := ToLower(m.input);
    if m.interactive then Forward
    else if m.input == "" || lower == "cancel" || m.input == "0" || lower == "menu" || lower == "help" then Clear
    else if lower == "back" then Back
    else Forward
  }

  // ---- The flows: the session after the message, whether it is kept, and the action ----

  datatype Turn = Turn(session: Session, keep: bool, action: Action)

  function Stay(s: Session): Turn {
    Turn(s, true, NoAction)
  }

  function End(s: Session): Turn {
    Turn(s, false, NoAction)
  }

  function AnalyticsFlow(s: Session): Turn {
    if s.step < 2 then Stay(s.(step := s.step + 1)) else End(s)
  }

  function TenantDetailFlow(s: Session, m: Message): Turn {
    if s.step == 0 then
      match m.resolved
      case None => End(s)
      case Some(id) => Stay(s.(details := id, step := 1))
    else if ToLower(TrimSpace(m.input)) in {"card", "1", "activity", "activities", "2"} then End(s)
    else Stay(s)
  }

  function AddPeerFlow(s: Session, m: Message): Turn {
    if s.step == 0 then
      match m.resolved
      case None => End(s)
      case Some(id) => Stay(s.(peer := s.peer.(tenantID := id), step := 1))
    else if s.step == 1 then
      var name := TrimSpace(m.input);
      var s' := s.(peer := s.peer.(name := name));
      Stay(if name == "" then s' else s'.(step := 2))
    else if !IsAffirmative(m.input) then End(s)
    else Turn(s, false, CreatePeer(s.peer))
  }

  function AddTenantFlow(s: Session, m: Message): Turn {
    var text := TrimSpace(m.input);
    var next := if text == "" then s else s.(step := s.step + 1);
    if s.step == 0 then Stay(next.(tenant := s.tenant.(fullName := text)))
    else if s.step == 1 then Stay(next.(tenant := s.tenant.(email := text)))
    else if s.step == 2 then Stay(next.(tenant := s.tenant.(phone := text)))
    else if s.step == 3 then
      match ParseTier(m.input)
      case None => Stay(s)
      case Some(tier) => Stay(s.(tenant := s.tenant.(tier := tier), step := 4))
    else if s.step == 4 then Stay(next.(tenant := s.tenant.(password := text)))
    else if !IsAffirmative(m.input) then End(s)
    else Turn(s, false, CreateTenant(s.tenant))
  }

  // ---- The stack ----

  /** `pushHistory`: a full stack loses its oldest checkpoint. */
  function Push(history: seq<Checkpoint>, c: Checkpoint): seq<Checkpoint> {
    (if |history| >= MAX_DEPTH then history[1..] else history) + [c]
  }

  // ---- One message ----

  function NewSession(now: int): Session {
    Session(Menu, 0, now, "", PeerForm("", ""), TenantForm("", "", "", 0, ""), [], 0)
  }

  /** The session `activeState` leaves: an idle one is gone. */
  function Current(s: Option<Session>, now: int): Option<Session> {
    if s.Some? && now - s.value.lastTouched > TIMEOUT then None else s
  }

  predicate Active(s: Option<Session>) {
    s.Some? && s.value.flow != Menu
  }

  function InFlow(s: Session, m: Message): Turn {
    match s.flow
    case Analytics => AnalyticsFlow(s)
    case TenantDetail => TenantDetailFlow(s, m)
    case AddPeer => AddPeerFlow(s, m)
    case AddTenant => AddTenantFlow(s, m)
    case Menu => End(s)
  }

  /** `advanceConversation`. */
  function Advance(s: Session, m: Message, active: bool): Turn {
    if !active then
      var s' := s.(history := Push(s.history, Checkpoint(Menu, 0)));
      match MenuSelection(m.input)
      case Some(flow) => Stay(s'.(flow := flow, step := 0))
      case None => Turn(s', false, if IsQuestion(m.input) then Asked(m.input, m.tools) else NoAction)
    else
      InFlow(s.(history := Push(s.history, Checkpoint(s.flow, s.step))), m)
  }

  /** "back". */
  function GoBack(s: Option<Session>, now: int): Option<Session> {
    if !Active(s) then s
    else if s.value.history == [] then None
    else
      var h := s.value.history;
      var c := h[|h| - 1];
      if c.flow == Menu then None
      else Some(s.value.(flow := c.flow, step := c.step, history := h[..|h| - 1], lastTouched := now))
  }

  function Touched(s: Option<Session>, now: int): Session {
    if s.Some? then s.value.(lastTouched := now) else NewSession(now)
  }

  function Counted(s: Option<Session>, now: int): Session {
    var entered := Touched(s, now);
    entered.(entryCount := entered.entryCount + 1)
  }

  function Close(t: Turn): (Option<Session>, Action) {
    (if t.keep then Some(t.session) else None, t.action)
  }

  function Enter(s: Option<Session>, m: Message): (Option<Session>, Action) {
    var counted := Counted(s, m.now);
    if counted.entryCount > MAX_ENTRIES then (None, NoAction)
    else Close(Advance(counted, m, Active(s)))
  }

  /** `handleIncomingMessage` for one conversation. */
  function Step(before: Option<Session>, m: Message): (Option<Session>, Action) {
    var s := Current(before, m.now);
    if m.interactive && !Active(s) then (s, NoAction)
    else
      match Navigate(m)
      case Clear => (None, NoAction)
      case Back => (GoBack(s, m.now), NoAction)
      case Forward => Enter(s, m)
  }

  /** A conversation over a run of messages: its session and all it made the bot do. */
  function Run(ms: seq<Message>): (Option<Session>, seq<Action>) {
    if ms == [] then (None, [])
    else
      var (s, actions) := Run(ms[..|ms| - 1]);
      var (s', action) := Step(s, ms[|ms| - 1]);
      (s', actions + [action])
  }

  // ---- What every run keeps ----

  /** What a run has heard: the tenants looked up and the texts said, trimmed. */
  datatype World = World(ids: set<string>, said: set<string>)

  ghost predicate Known(m: Message, w: World) {
    && TrimSpace(m.input) in w.said
    && (m.resolved.Some? ==> m.resolved.value in w.ids)
    && forall i :: 0 <= i < |m.tools| ==> ToolKnown(m.tools[i], w)
  }

  ghost predicate ToolKnown(tool: Tool, w: World) {
    !tool.ReadTool? && tool.found.Some? ==> tool.found.value in w.ids
  }

  /** A tool creates a peer only for a tenant it looked up and under some name, and sets only
      limits that are not negative. */
  ghost predicate ToolOk(tool: Tool, w: World) {
    && (ToolPeer(tool).Some? ==> ToolPeer(tool).value.tenantID in w.ids && ToolPeer(tool).value.name != "")
    && (ToolLimit(tool).Some? ==> ToolLimit(tool).value.0 in w.ids && ToolLimit(tool).value.1 >= 0)
  }

  /** A field the chatter filled in. */
  ghost predicate Given(field: string, w: World) {
    field != "" && field in w.said
  }

  /** The fields asked for before `step` are filled in. */
  ghost predicate Filled(f: TenantForm, step: nat, w: World) {
    && (step >= 1 ==> Given(f.fullName, w))
    && (step >= 2 ==> Given(f.email, w))
    && (step >= 3 ==> Given(f.phone, w))
    && (step >= 4 ==> f.tier <= 2)
    && (step >= 5 ==> Given(f.password, w))
  }

  ghost predicate PeerFilled(f: PeerForm, step: nat, w: World) {
    && (step >= 1 ==> f.tenantID in w.ids)
    && (step >= 2 ==> Given(f.name, w))
  }

  /** Saved steps never decrease along the stack. */
  ghost predicate Rising(h: seq<Checkpoint>) {
    forall i, j :: 0 <= i < j < |h| ==> h[i].step <= h[j].step
  }

  /** A checkpoint below a session: no step ahead of it, and of its flow or the menu. */
  ghost predicate Below(c: Checkpoint, flow: Flow, step: nat) {
    c.step <= step && (c.flow == flow || c == Checkpoint(Menu, 0))
  }

  /** Only the oldest checkpoint can be the menu. */
  ghost predicate Stack(h: seq<Checkpoint>, flow: Flow, step: nat) {
    && |h| <= MAX_DEPTH && Rising(h)
    && (forall i :: 0 <= i < |h| ==> Below(h[i], flow, step))
    && (forall i :: 1 <= i < |h| ==> h[i].flow == flow)
  }

  ghost predicate SessionOk(s: Session, w: World) {
    && s.flow != Menu && s.entryCount <= MAX_ENTRIES
    && Stack(s.history, s.flow, s.step)
    && (s.flow == AddTenant ==> Filled(s.tenant, s.step, w))
    && (s.flow == AddPeer ==> PeerFilled(s.peer, s.step, w))
  }

  ghost predicate Ok(s: Option<Session>, w: World) {
    s.Some? ==> SessionOk(s.value, w)
  }

  ghost predicate ActionOk(a: Action, w: World) {
    match a
    case NoAction => true
    case CreateTenant(f) => Filled(f, 5, w)
    case CreatePeer(f) => PeerFilled(f, 2, w)
    case Asked(question, tools) =>
      Given(TrimSpace(question), w) && forall i :: 0 <= i < |tools| ==> ToolOk(tools[i], w)
  }

  lemma PushKeeps(h: seq<Checkpoint>, flow: Flow, step: nat)
    requires Stack(h, flow, step)
    ensures Stack(Push(h, Checkpoint(flow, step)), flow, step)
  {
    var rest := if |h| >= MAX_DEPTH then h[1..] else h;
    assert forall i :: 0 <= i < |rest| ==> Below(rest[i], flow, step);
  }

  lemma PopKeeps(h: seq<Checkpoint>, flow: Flow, step: nat)
    requires Stack(h, flow, step) && h != [] && h[|h| - 1].flow == flow
    ensures Stack(h[..|h| - 1], flow, h[|h| - 1].step)
  {
    forall i | 0 <= i < |h| - 1
      ensures Below(h[i], flow, h[|h| - 1].step)
    {
      assert Below(h[i], flow, step);
    }
  }

  lemma StackLater(h: seq<Checkpoint>, flow: Flow, step: nat, later: nat)
    requires Stack(h, flow, step) && step <= later
    ensures Stack(h, flow, later)
  {
    assert forall i :: 0 <= i < |h| ==> Below(h[i], flow, step);
  }

  ghost predicate TurnOk(t: Turn, w: World) {
    ActionOk(t.action, w) && (t.keep ==> SessionOk(t.session, w))
  }

  lemma AddTenantKeeps(s: Session, m: Message, w: World)
    requires SessionOk(s, w) && s.flow == AddTenant && Known(m, w)
    ensures TurnOk(AddTenantFlow(s, m), w)
  {
    StackLater(s.history, s.flow, s.step, s.step + 1);
  }

  lemma AddPeerKeeps(s: Session, m: Message, w: World)
    requires SessionOk(s, w) && s.flow == AddPeer
    requires Known(m, w)
    ensures TurnOk(AddPeerFlow(s, m), w)
  {
    StackLater(s.history, s.flow, s.step, s.step + 1);
  }

  lemma InFlowKeeps(s: Session, m: Message, w: World)
    requires SessionOk(s, w)
    requires Known(m, w)
    ensures TurnOk(InFlow(s, m), w)
  {
    match s.flow
    case AddTenant => AddTenantKeeps(s, m, w);
    case AddPeer => AddPeerKeeps(s, m, w);
    case Analytics => StackLater(s.history, s.flow, s.step, s.step + 1);
    case TenantDetail => StackLater(s.history, s.flow, s.step, s.step + 1);
    case Menu =>
  }

  lemma BackKeeps(s: Option<Session>, now: int, w: World)
    requires Ok(s, w)
    ensures Ok(GoBack(s, now), w)
  {
    if s.Some? && s.value.history != [] {
      var h := s.value.history;
      assert Below(h[|h| - 1], s.value.flow, s.value.step);
      if h[|h| - 1].flow != Menu {
        PopKeeps(h, s.value.flow, s.value.step);
      }
    }
  }

  lemma OpenKeeps(s: Session, m: Message, w: World)
    requires SessionOk(s, w)
    requires Known(m, w)
    ensures TurnOk(Advance(s, m, true), w)
  {
    PushKeeps(s.history, s.flow, s.step);
    InFlowKeeps(s.(history := Push(s.history, Checkpoint(s.flow, s.step))), m, w);
  }

  lemma ClosedKeeps(s: Session, m: Message, w: World)
    requires s == NewSession(s.lastTouched).(entryCount := 1) && Known(m, w)
    ensures TurnOk(Advance(s, m, false), w)
  {
    forall i | 0 <= i < |m.tools|
      ensures ToolOk(m.tools[i], w)
    {
      assert ToolKnown(m.tools[i], w);
    }
  }

  lemma EnterKeeps(s: Option<Session>, m: Message, w: World)
    requires Ok(s, w)
    requires Known(m, w)
    ensures Ok(Enter(s, m).0, w) && ActionOk(Enter(s, m).1, w)
  {
    var c := Counted(s, m.now);
    if s.None? {
      ClosedKeeps(c, m, w);
    } else if c.entryCount <= MAX_ENTRIES {
      OpenKeeps(c, m, w);
    }
  }

  lemma StepKeeps(s: Option<Session>, m: Message, w: World)
    requires Ok(s, w)
    requires Known(m, w)
    ensures Ok(Step(s, m).0, w) && ActionOk(Step(s, m).1, w)
  {
    BackKeeps(Current(s, m.now), m.now, w);
    EnterKeeps(Current(s, m.now), m, w);
  }

  /** Tools are called only outside a flow, for a message that is no menu choice, and the
      conversation is closed after it. */
  lemma OnlyQuestionsUseTools(s: Option<Session>, m: Message)
    requires Step(s, m).1.Asked?
    ensures !m.interactive && !Active(Current(s, m.now)) && Navigate(m) == Forward && IsQuestion(m.input)
    ensures Step(s, m).0 == None
  {
  }

  /** A question can indeed create a peer, under a name nobody gave. */
  lemma QuestionCreatesPeer(id: string, stamp: string)
    ensures var tool := CreatePeerTool("x", "", Some(id), stamp);
      var m := Message(false, "x", 0, None, [tool]);
      && Step(None, m) == (None, Asked("x", [tool]))
      && ToolPeer(tool) == Some(PeerForm(id, "device-" + stamp))
  {
    WordStays();
  }

  /** Whatever the chatter sends, a tenant is created only with a name, an email, a phone and
      a password that were said and a known tier. The add-peer flow creates a peer only with a
      name that was said and for a tenant that was looked up. A question put to the model can
      create peers too: for tenants its tools looked up, under a name of the model's choosing. */
  lemma {:induction false} RunKeeps(ms: seq<Message>, w: World)
    requires forall i :: 0 <= i < |ms| ==> Known(ms[i], w)
    ensures var (s, actions) := Run(ms);
      Ok(s, w) && forall i :: 0 <= i < |actions| ==> ActionOk(actions[i], w)
  {
    if ms == [] {
    } else {
      RunKeeps(ms[..|ms| - 1], w);
      StepKeeps(Run(ms[..|ms| - 1]).0, ms[|ms| - 1], w);
    }
  }

  // ---- Going forward and back ----

  /** The message moves an open flow on, and the session survives it. */
  predicate Kept(s: Session, m: Message) {
    s.flow != Menu && m.now - s.lastTouched <= TIMEOUT && Navigate(m) == Forward && Step(Some(s), m).0.Some?
  }

  /** The session after messages that are all kept. */
  function KeptRun(s: Session, ms: seq<Message>): Option<Session>
    decreases |ms|
  {
    if ms == [] then Some(s)
    else if Kept(s, ms[0]) then KeptRun(Step(Some(s), ms[0]).0.value, ms[1..])
    else None
  }

  /** The session after the message "back". */
  function BackAt(s: Option<Session>, t: int): Option<Session> {
    GoBack(Current(s, t), t)
  }

  lemma BackIsStep(s: Option<Session>, t: int)
    ensures Step(s, Message(false, "back", t, None, [])) == (BackAt(s, t), NoAction)
  {
    assert ToLower("back") == "back";
  }

  /** The session after "back" at each of the given times. */
  function BackRun(s: Option<Session>, times: seq<int>): Option<Session> {
    if times == [] then s else BackAt(BackRun(s, times[..|times| - 1]), times[|times| - 1])
  }

  function LastOf(first: int, times: seq<int>): int {
    if times == [] then first else times[|times| - 1]
  }

  /** Nobody waits longer than the timeout. */
  predicate Prompt(last: int, times: seq<int>) {
    times == [] ||
      var n := |times|;
      Prompt(last, times[..n - 1]) && times[n - 1] - LastOf(last, times[..n - 1]) <= TIMEOUT
  }

  /** `from` of the oldest checkpoints are lost to `n` more on a stack of `depth`. */
  function Lost(depth: nat, n: nat): (r: nat)
    ensures n <= MAX_DEPTH ==> r <= depth
  {
    if depth + n <= MAX_DEPTH then 0 else depth + n - MAX_DEPTH
  }

  /** `s'` is one kept message further than `s`. */
  ghost predicate Pushed(s: Session, s': Session) {
    s'.flow == s.flow && s'.history == Push(s.history, Checkpoint(s.flow, s.step))
  }

  ghost predicate Pushes(s: Session, ss: seq<Session>)
    decreases |ss|
  {
    ss == [] || (Pushed(s, ss[0]) && Pushes(ss[0], ss[1..]))
  }

  function LastState(s: Session, ss: seq<Session>): Session {
    if ss == [] then s else ss[|ss| - 1]
  }

  lemma KeptStep(s: Session, m: Message)
    requires Kept(s, m)
    ensures Pushed(s, Step(Some(s), m).0.value)
  {
    assert Step(Some(s), m) == Enter(Some(s), m);
  }

  /** The sessions that kept messages lead through. */
  lemma {:induction false} KeptPushes(s: Session, ms: seq<Message>) returns (ss: seq<Session>)
    requires KeptRun(s, ms).Some?
    ensures |ss| == |ms| && Pushes(s, ss) && KeptRun(s, ms) == Some(LastState(s, ss))
    decreases |ms|
  {
    if ms == [] {
      ss := [];
    } else {
      KeptStep(s, ms[0]);
      var s1 := Step(Some(s), ms[0]).0.value;
      var rest := KeptPushes(s1, ms[1..]);
      ss := [s1] + rest;
    }
  }

  lemma LostLast(h: seq<Checkpoint>, c: Checkpoint, n: nat)
    requires |h| <= MAX_DEPTH && 0 < n <= MAX_DEPTH
    ensures var p := Push(h, c);
      && Lost(|h|, n) <= |h| && Lost(|p|, n - 1) <= |p| <= MAX_DEPTH
      && p[Lost(|p|, n - 1)..] == h[Lost(|h|, n)..] + [c]
  {
  }

  /** Where `n` kept messages and `n` backs lead. */
  ghost predicate Returned(s: Session, n: nat, end: Option<Session>, last: int)
    requires |s.history| <= MAX_DEPTH
  {
    if n <= MAX_DEPTH then
      && end.Some? && end.value.flow == s.flow && end.value.step == s.step && end.value.lastTouched == last
      && end.value.history == s.history[Lost(|s.history|, n)..]
    else end == None
  }

  /** The last back undoes the first message. */
  lemma LastBack(s: Session, s1: Session, n: nat, mid: Option<Session>, last: int, t: int)
    requires s.flow != Menu && |s.history| <= MAX_DEPTH && n > 0 && t - last <= TIMEOUT
    requires s1.flow == s.flow && s1.history == Push(s.history, Checkpoint(s.flow, s.step))
    requires Returned(s1, n - 1, mid, last)
    ensures Returned(s, n, BackAt(mid, t), t)
  {
    if n <= MAX_DEPTH {
      LostLast(s.history, Checkpoint(s.flow, s.step), n);
    }
  }

  lemma {:induction false} ChainBack(s: Session, ss: seq<Session>, times: seq<int>)
    requires s.flow != Menu && |s.history| <= MAX_DEPTH && Pushes(s, ss) && |times| == |ss|
    requires Prompt(LastState(s, ss).lastTouched, times)
    ensures Returned(s, |ss|, BackRun(Some(LastState(s, ss)), times), LastOf(LastState(s, ss).lastTouched, times))
    decreases |ss|
  {
    if ss == [] {
    } else {
      var n := |ss|;
      var rest, front := ss[1..], times[..n - 1];
      assert LastState(ss[0], rest) == LastState(s, ss);
      ChainBack(ss[0], rest, front);
      var end := LastState(s, ss);
      LastBack(s, ss[0], n, BackRun(Some(end), front), LastOf(end.lastTouched, front), times[n - 1]);
    }
  }

  /** After `n` kept messages and `n` prompt backs the session is where it was if `n` is at
      most ten, with as much of its stack as was not lost; otherwise it is gone. */
  lemma {:induction false} ThereAndBack(s: Session, ms: seq<Message>, times: seq<int>)
    requires s.flow != Menu && |s.history| <= MAX_DEPTH
    requires KeptRun(s, ms).Some? && |times| == |ms|
    requires Prompt(KeptRun(s, ms).value.lastTouched, times)
    ensures Returned(s, |ms|, BackRun(KeptRun(s, ms), times), LastOf(KeptRun(s, ms).value.lastTouched, times))
  {
    var ss := KeptPushes(s, ms);
    ChainBack(s, ss, times);
  }

  /** `n` times the same word, all at once. */
  function Chatter(n: nat, now: int): seq<Message> {
    if n == 0 then [] else [Message(false, "x", now, None, [])] + Chatter(n - 1, now)
  }

  lemma WordStays()
    ensures TrimSpace("x") == "x" && ToLower("x") == "x"
  {
  }

  /** A chatter who keeps missing the tenant actions stays in the flow until the entry cap. */
  lemma {:induction false} ChatterIsKept(s: Session, n: nat)
    requires s.flow == TenantDetail && s.step > 0 && s.entryCount + n <= MAX_ENTRIES
    ensures KeptRun(s, Chatter(n, s.lastTouched)).Some?
    decreases n
  {
    if n == 0 {
    } else {
      var m := Message(false, "x", s.lastTouched, None, []);
      WordStays();
      assert Chatter(n, s.lastTouched)[1..] == Chatter(n - 1, s.lastTouched);
      ChatterIsKept(Step(Some(s), m).0.value, n - 1);
    }
  }

  /** Eleven steps forward cannot be taken back: the eleventh back drops the session. */
  lemma {:induction false} ElevenIsTooMany(s: Session, times: seq<int>)
    requires s.flow == TenantDetail && s.step > 0 && s.entryCount + 11 <= MAX_ENTRIES && |s.history| <= MAX_DEPTH
    requires |times| == 11
    ensures var kept := KeptRun(s, Chatter(11, s.lastTouched));
      kept.Some? && (Prompt(kept.value.lastTouched, times) ==> BackRun(kept, times) == None)
  {
    ChatterIsKept(s, 11);
    ChatterLength(11, s.lastTouched);
    var kept := KeptRun(s, Chatter(11, s.lastTouched));
    if Prompt(kept.value.lastTouched, times) {
      ThereAndBack(s, Chatter(11, s.lastTouched), times);
    }
  }

  lemma {:induction false} ChatterLength(n: nat, now: int)
    ensures |Chatter(n, now)| == n
  {
    if n == 0 {
    } else {
      ChatterLength(n - 1, now);
    }
  }
}
