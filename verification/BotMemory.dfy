/** What the bot remembers of a chatter (internal/adminbot/memory.go): a summary and a window
    of recent turns. The functions say what one critical section does to one memory. */
module BotMemory {
  import opened Strings
  import opened Text

  const SUMMARIZE_AT := 16
  const KEEP_AFTER_SUMMARY := 6
  const MAX_SENDERS := 500
  const HARD_RESET_AT := 64
  const RESET_KEEP := 4
  const MAX_SUMMARY := 1800
  const MAX_CONTEXT := 12000
  const MAX_TURN := 4000

  datatype Role = User | Assistant

  datatype Turn = Turn(role: Role, content: string)

  datatype Memory = Memory(summary: string, turns: seq<Turn>, totalTurns: nat)

  // ---- Trimming ----

  /** `trimTurnContent`. */
  function TrimTurn(text: string): (r: string)
    ensures |r| <= MAX_TURN
    ensures |TrimSpace(text)| <= MAX_TURN ==> r == TrimSpace(text)
  {
    var trimmed := TrimSpace(text);
    if |trimmed| <= MAX_TURN then trimmed else TrimSpace(trimmed[..MAX_TURN])
  }

  /** The place of the last newline among the first `n` characters, or -1. */
  function LastLine(s: string, n: nat): (r: int)
    requires n <= |s|
    ensures -1 <= r < n
    ensures r >= 0 ==> s[r] == '\n'
    ensures forall i :: r < i < n ==> s[i] != '\n'
  {
    if n == 0 then -1 else if s[n - 1] == '\n' then n - 1 else LastLine(s, n - 1)
  }

  /** `trimSummary`. */
  function TrimSummary(summary: string): (r: string)
    ensures |r| <= MAX_SUMMARY
    ensures |TrimSpace(summary)| <= MAX_SUMMARY ==> r == TrimSpace(summary)
  {
    var trimmed := TrimSpace(summary);
    if |trimmed| <= MAX_SUMMARY then trimmed
    else
      var head := trimmed[..MAX_SUMMARY];
      var cut := LastLine(head, |head|);
      TrimSpace(if cut >= MAX_SUMMARY / 2 then head[..cut] else head)
  }

  /** A text that is too long is cut after 4000 characters. */
  lemma TurnCut(text: string)
    ensures TrimTurn(text) == var t := TrimSpace(text); if |t| <= 4000 then t else TrimSpace(t[..4000])
  {
  }

  /** A summary that is too long is cut after 1800 characters, or before the last newline among
      them if that is in the second half. */
  lemma SummaryCut(summary: string) returns (n: nat)
    requires |TrimSpace(summary)| > 1800
    ensures var t := TrimSpace(summary);
      && 900 <= n <= 1800 && TrimSummary(summary) == TrimSpace(t[..n])
      && (n < 1800 ==> t[n] == '\n')
      && (forall i :: 900 <= i < 1800 && (n == 1800 || i > n) ==> t[i] != '\n')
  {
    var head := TrimSpace(summary)[..1800];
    var cut := LastLine(head, |head|);
    n := if cut >= 900 then cut else 1800;
    assert cut >= 900 ==> head[..cut] == TrimSpace(summary)[..cut];
  }

  // ---- The size of a context ----

  function TurnChars(turns: seq<Turn>): nat {
    if turns == [] then 0 else TurnChars(turns[..|turns| - 1]) + |turns[|turns| - 1].content|
  }

  function ContextChars(m: Memory): nat {
    |m.summary| + TurnChars(m.turns)
  }

  /** `totalContextChars`. */
  method TotalContextChars(summary: string, turns: seq<Turn>) returns (total: nat)
    ensures total == |summary| + TurnChars(turns)
  {
    total := |summary|;
    for i := 0 to |turns|
      invariant total == |summary| + TurnChars(turns[..i])
    {
      total := total + |turns[i].content|;
      assert turns[..i + 1][..i] == turns[..i];
    }
    assert turns[..|turns|] == turns;
  }

  // ---- Critical sections ----

  /** The last `n` turns. */
  function Last(turns: seq<Turn>, n: nat): seq<Turn> {
    if |turns| > n then turns[|turns| - n..] else turns
  }

  /** `rollMemoryLocked`. */
  function Rolled(m: Memory): Memory {
    var turns := Last(m.turns, RESET_KEEP);
    Memory("", turns, |turns|)
  }

  function Exchange(question: string, answer: string): seq<Turn> {
    [Turn(User, TrimTurn(question)), Turn(Assistant, TrimTurn(answer))]
  }

  /** The second critical section of `AddExchange`. */
  function Exchanged(m: Memory, question: string, answer: string): Memory {
    var m' := Memory(m.summary, m.turns + Exchange(question, answer), m.totalTurns + 2);
    if ContextChars(m') > MAX_CONTEXT * 2 then Rolled(m') else m'
  }

  /** The second critical section of `Summarize`, for whatever the model answered. */
  function Summarized(m: Memory, answer: string): Memory {
    var m' := Memory(TrimSummary(answer), Last(m.turns, KEEP_AFTER_SUMMARY), m.totalTurns);
    if m'.totalTurns >= HARD_RESET_AT || ContextChars(m') > MAX_CONTEXT then Rolled(m') else m'
  }

  /** After an exchange everything is kept, unless it has more than 24000 characters: then only the
      last four turns are. */
  lemma ExchangedExactly(m: Memory, question: string, answer: string)
    ensures var all := m.turns + [Turn(User, TrimTurn(question)), Turn(Assistant, TrimTurn(answer))];
      var m' := Exchanged(m, question, answer);
      if |m.summary| + TurnChars(all) <= 24000 then
        m'.summary == m.summary && m'.turns == all && m'.totalTurns == m.totalTurns + 2
      else
        m'.summary == "" && m'.turns <= all[if |all| > 4 then |all| - 4 else 0..] && |m'.turns| == m'.totalTurns
        && |m'.turns| == (if |all| > 4 then 4 else |all|)
  {
  }

  /** After a summary the last six turns are kept with it, unless there have been 64 turns or they
      have more than 12000 characters together: then only the last four turns are. */
  lemma SummarizedExactly(m: Memory, answer: string)
    ensures var n := if |m.turns| > 6 then |m.turns| - 6 else 0;
      var m' := Summarized(m, answer);
      if m.totalTurns < 64 && |TrimSummary(answer)| + TurnChars(m.turns[n..]) <= 12000 then
        m'.summary == TrimSummary(answer) && m'.turns == m.turns[n..] && m'.totalTurns == m.totalTurns
      else
        m'.summary == "" && m'.turns == m.turns[if |m.turns| > 4 then |m.turns| - 4 else 0..] && m'.totalTurns == |m'.turns|
  {
    var n := if |m.turns| > 6 then |m.turns| - 6 else 0;
    assert Last(m.turns, 6) == m.turns[n..];
  }

  // ---- What every memory keeps ----

  /** Whole exchanges, each a question and its answer, none too long. */
  ghost predicate Paired(turns: seq<Turn>) {
    && |turns| % 2 == 0
    && forall i :: 0 <= i < |turns| ==>
      turns[i].role == (if i % 2 == 0 then User else Assistant) && |turns[i].content| <= MAX_TURN
  }

  /** The window is the end of everything said, and at least the last two exchanges. */
  ghost predicate EndOf(turns: seq<Turn>, log: seq<Turn>) {
    && |turns| <= |log| && turns == log[|log| - |turns|..]
    && (|turns| >= RESET_KEEP || turns == log)
  }

  ghost predicate MemoryOk(m: Memory, log: seq<Turn>) {
    && Paired(m.turns) && EndOf(m.turns, log)
    && |m.summary| <= MAX_SUMMARY
    && ContextChars(m) <= MAX_CONTEXT * 2
    && |m.turns| <= m.totalTurns && m.totalTurns % 2 == 0
  }

  lemma {:induction false} CharsBounded(turns: seq<Turn>)
    requires forall i :: 0 <= i < |turns| ==> |turns[i].content| <= MAX_TURN
    ensures TurnChars(turns) <= MAX_TURN * |turns|
  {
    if turns == [] {
    } else {
      CharsBounded(turns[..|turns| - 1]);
    }
  }

  lemma LastPaired(turns: seq<Turn>, n: nat)
    requires Paired(turns) && n % 2 == 0
    ensures Paired(Last(turns, n))
  {
    if |turns| > n {
      var d := |turns| - n;
      forall i | 0 <= i < n
        ensures turns[d..][i].role == (if i % 2 == 0 then User else Assistant) && |turns[d..][i].content| <= MAX_TURN
      {
        assert turns[d..][i] == turns[d + i] && (d + i) % 2 == i % 2;
      }
    }
  }

  lemma LastIsEnd(turns: seq<Turn>, log: seq<Turn>, n: nat)
    requires EndOf(turns, log) && n >= RESET_KEEP
    ensures EndOf(Last(turns, n), log)
  {
  }

  /** A memory, rolled, is small whatever it was. */
  lemma RolledOk(m: Memory, log: seq<Turn>)
    requires Paired(m.turns) && EndOf(m.turns, log)
    ensures MemoryOk(Rolled(m), log)
  {
    LastPaired(m.turns, RESET_KEEP);
    LastIsEnd(m.turns, log, RESET_KEEP);
    FewTurns(Rolled(m).turns);
  }

  lemma {:induction false} FewTurns(turns: seq<Turn>)
    requires Paired(turns) && |turns| <= RESET_KEEP
    ensures TurnChars(turns) <= MAX_CONTEXT * 2
  {
    CharsBounded(turns);
    assert MAX_TURN * |turns| <= MAX_TURN * RESET_KEEP;
  }

  lemma PairedConcat(turns: seq<Turn>, more: seq<Turn>)
    requires Paired(turns) && Paired(more)
    ensures Paired(turns + more)
  {
    forall i | |turns| <= i < |turns + more|
      ensures (turns + more)[i] == more[i - |turns|] && (i - |turns|) % 2 == i % 2
    {
    }
  }

  lemma EndConcat(turns: seq<Turn>, log: seq<Turn>, more: seq<Turn>)
    requires EndOf(turns, log)
    ensures EndOf(turns + more, log + more)
  {
  }

  lemma MorePaired(turns: seq<Turn>, log: seq<Turn>, question: string, answer: string)
    requires Paired(turns) && EndOf(turns, log)
    ensures Paired(turns + Exchange(question, answer))
    ensures EndOf(turns + Exchange(question, answer), log + Exchange(question, answer))
  {
    PairedConcat(turns, Exchange(question, answer));
    EndConcat(turns, log, Exchange(question, answer));
  }

  lemma ExchangedOk(m: Memory, log: seq<Turn>, question: string, answer: string)
    requires MemoryOk(m, log)
    ensures MemoryOk(Exchanged(m, question, answer), log + Exchange(question, answer))
  {
    MorePaired(m.turns, log, question, answer);
    var m' := Memory(m.summary, m.turns + Exchange(question, answer), m.totalTurns + 2);
    if ContextChars(m') > MAX_CONTEXT * 2 {
      RolledOk(m', log + Exchange(question, answer));
    }
  }

  lemma SummarizedOk(m: Memory, log: seq<Turn>, answer: string)
    requires MemoryOk(m, log)
    ensures MemoryOk(Summarized(m, answer), log)
  {
    LastPaired(m.turns, KEEP_AFTER_SUMMARY);
    LastIsEnd(m.turns, log, KEEP_AFTER_SUMMARY);
    StoredOk(TrimSummary(answer), Last(m.turns, KEEP_AFTER_SUMMARY), m.totalTurns, log);
  }

  lemma StoredOk(summary: string, turns: seq<Turn>, total: nat, log: seq<Turn>)
    requires Paired(turns) && EndOf(turns, log) && |turns| <= total && total % 2 == 0 && |summary| <= MAX_SUMMARY
    ensures var m := Memory(summary, turns, total);
      MemoryOk(if total >= HARD_RESET_AT || ContextChars(m) > MAX_CONTEXT then Rolled(m) else m, log)
  {
    RolledOk(Memory(summary, turns, total), log);
  }

  // ---- What can have happened to a memory ----

  /** What the critical sections did to a memory, the latest outermost: an exchange was said, the
      first section of `Summarize` handed turns over to a call of the model, or the second stored
      what that call answered. The two sections may be any distance apart, calls may overlap and
      be answered in any order or never, and an answer may be stored in a memory made after the
      one the call was begun on. */
  datatype Story =
    | New
    | Said(before: Story, question: string, answer: string)
    | HandedOver(before: Story, call: nat)
    | Compressed(before: Story, call: nat, answer: string)

  function MemoryOf(story: Story): Memory {
    match story
    case New => Memory("", [], 0)
    case Said(before, question, answer) => Exchanged(MemoryOf(before), question, answer)
    case HandedOver(before, _) => MemoryOf(before)
    case Compressed(before, _, answer) => Summarized(MemoryOf(before), answer)
  }

  /** Everything said in a story. */
  function LogOf(story: Story): seq<Turn> {
    match story
    case New => []
    case Said(before, question, answer) => LogOf(before) + Exchange(question, answer)
    case HandedOver(before, _) => LogOf(before)
    case Compressed(before, _, _) => LogOf(before)
  }

  /** Whatever happened to a memory, its context is at most 24000 characters, its window is
      made of whole exchanges, and is the end of all that was said. */
  lemma {:induction false} EveryStory(story: Story)
    ensures MemoryOk(MemoryOf(story), LogOf(story))
  {
    match story
    case New =>
    case Said(before, question, answer) =>
      EveryStory(before);
      ExchangedOk(MemoryOf(before), LogOf(before), question, answer);
    case HandedOver(before, _) =>
      EveryStory(before);
    case Compressed(before, _, answer) =>
      EveryStory(before);
      SummarizedOk(MemoryOf(before), LogOf(before), answer);
  }

  /** What was just said is remembered word for word. */
  lemma {:induction false} LastExchangeRemembered(before: Story, question: string, answer: string)
    ensures Last(MemoryOf(Said(before, question, answer)).turns, 2) == Exchange(question, answer)
  {
    var story := Said(before, question, answer);
    EveryStory(story);
    EndHoldsLast(MemoryOf(story).turns, LogOf(before), Exchange(question, answer));
  }

  lemma EndHoldsLast(turns: seq<Turn>, log: seq<Turn>, last: seq<Turn>)
    requires EndOf(turns, log + last) && |last| == 2
    ensures Last(turns, 2) == last
  {
    assert (log + last)[|log|..] == last;
  }

  // ---- The conversation sent to the model ----

  /** The messages of `AskWithMemory`: an acknowledged preamble if there is one, the window,
      the question. */
  function Messages(preamble: string, turns: seq<Turn>, question: string): seq<Turn> {
    (if preamble == "" then [] else [Turn(User, preamble), Turn(Assistant, "Understood. I have the context.")])
    + turns + [Turn(User, question)]
  }

  /** Speakers alternate, beginning and ending with the user. */
  lemma MessagesAlternate(preamble: string, turns: seq<Turn>, question: string)
    requires Paired(turns)
    ensures var ms := Messages(preamble, turns, question);
      && |ms| % 2 == 1
      && forall i :: 0 <= i < |ms| ==> ms[i].role == (if i % 2 == 0 then User else Assistant)
  {
    var k := if preamble == "" then 0 else 2;
    var ms := Messages(preamble, turns, question);
    forall i | k <= i < k + |turns|
      ensures ms[i].role == (if i % 2 == 0 then User else Assistant)
    {
      assert ms[i] == turns[i - k] && (i - k) % 2 == i % 2;
    }
  }

  // ---- What a summary is made from ----

  /** What the first critical section of `Summarize` hands over to be compressed. */
  function ToCompress(turns: seq<Turn>): seq<Turn> {
    if |turns| > KEEP_AFTER_SUMMARY then turns[..|turns| - KEEP_AFTER_SUMMARY] else []
  }

  function WindowSize(story: Story): nat {
    |MemoryOf(story).turns|
  }

  function Told(story: Story): nat {
    |LogOf(story)|
  }

  /** The place in the log where the window starts. */
  function Start(story: Story): nat {
    if WindowSize(story) <= Told(story) then Told(story) - WindowSize(story) else 0
  }

  /** The place behind the turns that would be handed over now. */
  function HandEnd(story: Story): nat {
    Start(story) + |ToCompress(MemoryOf(story).turns)|
  }

  /** The places from `Start` to `HandEnd` are those of the turns handed over. */
  lemma {:induction false} HandedAreTheTurns(story: Story)
    ensures HandEnd(story) <= Told(story)
    ensures LogOf(story)[Start(story)..HandEnd(story)] == ToCompress(MemoryOf(story).turns)
  {
    var turns, log := MemoryOf(story).turns, LogOf(story);
    WindowIsEnd(story);
    PartOfEnd(turns, log);
    ToldStart(story);
    assert Start(story) == |log| - |turns|;
  }

  lemma {:induction false} WindowIsEnd(story: Story)
    ensures EndOf(MemoryOf(story).turns, LogOf(story))
  {
    EveryStory(story);
  }

  lemma PartOfEnd(turns: seq<Turn>, log: seq<Turn>)
    requires EndOf(turns, log)
    ensures var start := |log| - |turns|;
      log[start..start + |ToCompress(turns)|] == ToCompress(turns)
  {
    var start, n := |log| - |turns|, |ToCompress(turns)|;
    assert log[start..][..n] == log[start..start + n];
  }

  lemma ToldStart(story: Story)
    ensures Start(story) + WindowSize(story) == Told(story)
  {
    EveryStory(story);
  }

  function Events(story: Story): nat {
    if story == New then 0 else Events(story.before) + 1
  }

  /** The story when turns were handed over to a call; with six turns or fewer none is made. */
  function Started(story: Story, call: nat): (r: Option<Story>)
    ensures r.Some? ==> Events(r.value) < Events(story) && WindowSize(r.value) > KEEP_AFTER_SUMMARY
  {
    match story
    case New => None
    case Said(before, _, _) => Started(before, call)
    case HandedOver(before, c) =>
      if c == call && WindowSize(before) > KEEP_AFTER_SUMMARY then Some(before) else Started(before, call)
    case Compressed(before, _, _) => Started(before, call)
  }

  predicate RollsOver(story: Story) {
    match story
    case Said(before, question, answer) =>
      var m := MemoryOf(before);
      ContextChars(Memory(m.summary, m.turns + Exchange(question, answer), m.totalTurns + 2)) > MAX_CONTEXT * 2
    case Compressed(before, _, answer) =>
      var m := MemoryOf(before);
      var m' := Memory(TrimSummary(answer), Last(m.turns, KEEP_AFTER_SUMMARY), m.totalTurns);
      m'.totalTurns >= HARD_RESET_AT || ContextChars(m') > MAX_CONTEXT
    case New => false
    case HandedOver(_, _) => false
  }

  ghost function Between(low: nat, high: nat): set<nat> {
    set i: nat | i < high && NotBelow(i, low)
  }

  predicate NotBelow(i: nat, low: nat) {
    low <= i
  }

  /** The places of the turns the current summary was made from: those handed over to its call,
      and those the summary of that time was made from, which the call was given as well. */
  ghost function Covered(story: Story): set<nat>
    decreases Events(story)
  {
    match story
    case New => {}
    case Said(before, _, _) => if RollsOver(story) then {} else Covered(before)
    case HandedOver(before, _) => Covered(before)
    case Compressed(before, call, _) =>
      if RollsOver(story) || Started(before, call).None? then {}
      else
        var h := Started(before, call).value;
        Covered(h) + Between(Start(h), HandEnd(h))
  }

  /** The places before the window that the current summary was not made from. */
  ghost function Lost(story: Story): set<nat> {
    set i: nat | i < Start(story) && i !in Covered(story)
  }

  // ---- How the window moves ----

  /** An exchange rolls the window only when it holds at least four turns. */
  lemma RollNeedsTurns(before: Story, question: string, answer: string)
    requires RollsOver(Said(before, question, answer))
    ensures WindowSize(before) >= 4
  {
    var m := MemoryOf(before);
    EveryStory(before);
    MorePaired(m.turns, LogOf(before), question, answer);
    CharsBounded(m.turns + Exchange(question, answer));
  }

  /** The new size of the window. */
  lemma SizeAfter(story: Story)
    requires story.Said? || story.Compressed?
    ensures story.Said? ==>
      WindowSize(story) == if RollsOver(story) then RESET_KEEP else WindowSize(story.before) + 2
    ensures story.Compressed? ==>
      WindowSize(story) == Min(WindowSize(story.before), if RollsOver(story) then RESET_KEEP else KEEP_AFTER_SUMMARY)
  {
    if story.Said? && RollsOver(story) {
      RollNeedsTurns(story.before, story.question, story.answer);
    }
  }

  function Min(a: nat, b: nat): nat {
    if a < b then a else b
  }

  /** The window never moves back. */
  lemma WindowMoves(story: Story)
    requires story != New
    ensures Start(story.before) <= Start(story) && Told(story.before) <= Told(story)
    ensures story.HandedOver? || (story.Said? && !RollsOver(story)) ==> Start(story.before) == Start(story)
  {
    ToldStart(story.before);
    ToldStart(story);
  }

  /** Since turns were handed over the window has not moved back. */
  lemma {:induction false} StartedEarlier(story: Story, call: nat)
    requires Started(story, call).Some?
    ensures var h := Started(story, call).value;
      Start(h) <= Start(story) && Told(h) <= Told(story) && HandEnd(h) + KEEP_AFTER_SUMMARY == Told(h)
  {
    WindowMoves(story);
    if Started(story, call).value == story.before {
      ToldStart(story.before);
    } else {
      StartedEarlier(story.before, call);
    }
  }

  /** A stored summary was made from turns before the window only. */
  lemma {:induction false} CoveredBehind(story: Story, i: nat)
    requires i in Covered(story)
    ensures i < Start(story)
    decreases Events(story)
  {
    WindowMoves(story);
    if story.Compressed? {
      var h := Started(story.before, story.call).value;
      StartedEarlier(story.before, story.call);
      if i in Covered(h) {
        CoveredBehind(h, i);
      } else {
        SizeAfter(story);
        ToldStart(story);
      }
    } else {
      CoveredBehind(story.before, i);
    }
  }

  // ---- What a critical section loses ----

  /** After an exchange the same turns are missing as before it, unless it rolls the window over:
      then all turns but the last four are, since the summary goes as well. */
  lemma ExchangeLoses(before: Story, question: string, answer: string, i: nat)
    ensures var story := Said(before, question, answer);
      i in Lost(story) <==> if RollsOver(story) then i + RESET_KEEP < Told(story) else i in Lost(before)
  {
    var story := Said(before, question, answer);
    WindowMoves(story);
    SizeAfter(story);
    ToldStart(story);
  }

  /** After a summary is stored without a roll, the turns missing are those that were missing when
      its call was begun, and those between what the call was given and the new window. */
  lemma {:induction false} SummaryLoses(before: Story, call: nat, answer: string, i: nat)
    ensures var story := Compressed(before, call, answer);
      i in Lost(story) <==>
        && i < Start(story)
        && (!RollsOver(story) && Started(before, call).Some? ==>
              i in Lost(Started(before, call).value) || HandEnd(Started(before, call).value) <= i)
  {
    var story := Compressed(before, call, answer);
    WindowMoves(story);
    if !RollsOver(story) && Started(before, call).Some? {
      StartedEarlier(before, call);
      GivenTo(Started(before, call).value, i);
    }
  }

  /** The turns a call begun now is not given, in its turns or through the summary: those missing
      now and those it leaves in the window. */
  lemma {:induction false} GivenTo(h: Story, i: nat)
    ensures i !in Covered(h) + Between(Start(h), HandEnd(h)) <==> i in Lost(h) || HandEnd(h) <= i
  {
    if i in Covered(h) {
      CoveredBehind(h, i);
    }
  }

  /** Where the window starts after a summary. */
  lemma SummaryStart(before: Story, call: nat, answer: string)
    ensures var story := Compressed(before, call, answer);
      Start(story) + Min(WindowSize(before), if RollsOver(story) then RESET_KEEP else KEEP_AFTER_SUMMARY) == Told(before)
  {
    SizeAfter(Compressed(before, call, answer));
    ToldStart(Compressed(before, call, answer));
  }

  /** A call was begun when nothing was missing, and nothing was said since. */
  predicate UpToDate(story: Story, call: nat)
    decreases Events(story), 0
  {
    && Started(story, call).Some?
    && Told(Started(story, call).value) == Told(story)
    && Careful(Started(story, call).value)
  }

  /** No exchange rolled the window over, and the summary stored last was either stored while all
      turns said were still in a short window, or is that of an up-to-date call, stored without a
      roll in a window that was not rolled over meanwhile. */
  predicate Careful(story: Story)
    decreases Events(story), 1
  {
    match story
    case New => true
    case Said(before, _, _) => Careful(before) && !RollsOver(story)
    case HandedOver(before, _) => Careful(before)
    case Compressed(before, call, _) =>
      if RollsOver(story) then Told(before) <= RESET_KEEP
      else if WindowSize(before) == Told(before) <= KEEP_AFTER_SUMMARY then true
      else WindowSize(before) >= KEEP_AFTER_SUMMARY && UpToDate(before, call)
  }

  /** In every story, with any overlap of calls, exchanges and rolls: the summary was made from all
      turns before the window, if and only if the story was careful. */
  lemma {:induction false} NothingIsLost(story: Story)
    ensures Lost(story) == {} <==> Careful(story)
    decreases Events(story)
  {
    match story
    case New =>
    case Said(before, question, answer) =>
      NothingIsLost(before);
      ExchangeLosesNothing(before, question, answer);
    case HandedOver(before, _) =>
      NothingIsLost(before);
      WindowMoves(story);
    case Compressed(before, call, answer) =>
      if Started(before, call).Some? {
        NothingIsLost(Started(before, call).value);
      }
      SummaryLosesNothing(before, call, answer);
  }

  lemma ExchangeLosesNothing(before: Story, question: string, answer: string)
    ensures var story := Said(before, question, answer);
      Lost(story) == {} <==> Lost(before) == {} && !RollsOver(story)
  {
    var story := Said(before, question, answer);
    forall i: nat
      ensures i in Lost(story) <==> if RollsOver(story) then i + RESET_KEEP < Told(story) else i in Lost(before)
    {
      ExchangeLoses(before, question, answer, i);
    }
    if RollsOver(story) {
      RollNeedsTurns(before, question, answer);
      ToldStart(before);
      assert 0 in Lost(story);
    }
  }

  /** When a stored summary misses no turn. */
  lemma {:induction false} SummaryLosesNothing(before: Story, call: nat, answer: string)
    ensures var story := Compressed(before, call, answer);
      var h := Started(before, call);
      Lost(story) == {} <==>
        if RollsOver(story) then Told(before) <= RESET_KEEP
        else if WindowSize(before) == Told(before) <= KEEP_AFTER_SUMMARY then true
        else WindowSize(before) >= KEEP_AFTER_SUMMARY && h.Some? && Told(h.value) == Told(before) && Lost(h.value) == {}
  {
    var story := Compressed(before, call, answer);
    EveryStory(before);
    SummaryStart(before, call, answer);
    if RollsOver(story) || Started(before, call).None? {
      AllLost(before, call, answer);
    } else {
      LostBehind(before, call, answer);
    }
  }

  lemma {:induction false} AllLost(before: Story, call: nat, answer: string)
    requires RollsOver(Compressed(before, call, answer)) || Started(before, call).None?
    ensures Lost(Compressed(before, call, answer)) == {} <==> Start(Compressed(before, call, answer)) == 0
  {
    var story := Compressed(before, call, answer);
    if Start(story) > 0 {
      assert 0 in Lost(story);
    }
  }

  lemma {:induction false} LostBehind(before: Story, call: nat, answer: string)
    requires !RollsOver(Compressed(before, call, answer)) && Started(before, call).Some?
    ensures var story := Compressed(before, call, answer);
      var h := Started(before, call).value;
      && Start(h) <= HandEnd(h) && HandEnd(h) + KEEP_AFTER_SUMMARY == Told(h) && Told(h) <= Told(before)
      && (Lost(story) == {} <==> Lost(h) == {} && Start(story) <= HandEnd(h))
  {
    var story := Compressed(before, call, answer);
    var h := Started(before, call).value;
    StartedEarlier(before, call);
    WindowMoves(story);
    forall i: nat
      ensures i in Lost(story) <==> i < Start(story) && (i in Lost(h) || HandEnd(h) <= i)
    {
      SummaryLoses(before, call, answer, i);
    }
    if HandEnd(h) < Start(story) {
      assert HandEnd(h) in Lost(story);
    } else if i :| i in Lost(h) {
      assert i in Lost(story);
    }
  }

  /** Which turns a slow summary misses, if nothing was missing when its call was begun: not those
      said since then, but as many right behind the turns handed over. */
  lemma {:induction false} SlowSummaryLoses(before: Story, call: nat, answer: string, i: nat)
    requires Started(before, call).Some? && Careful(Started(before, call).value)
    ensures !RollsOver(Compressed(before, call, answer)) && WindowSize(before) >= KEEP_AFTER_SUMMARY ==>
      var h := Started(before, call).value;
      i in Lost(Compressed(before, call, answer)) <==> HandEnd(h) <= i < HandEnd(h) + (Told(before) - Told(h))
  {
    NothingIsLost(Started(before, call).value);
    StartedEarlier(before, call);
    SummaryStart(before, call, answer);
    SummaryLoses(before, call, answer, i);
  }

  // ---- Overlapping calls ----

  /** An answer to a call since whose beginning something was said always leaves turns missing,
      whatever other calls were begun or answered meanwhile. */
  lemma {:induction false} LateAnswerLoses(before: Story, call: nat, answer: string)
    requires Started(before, call).Some? && Told(Started(before, call).value) < Told(before)
    ensures Lost(Compressed(before, call, answer)) != {}
  {
    ToldStart(Started(before, call).value);
    SummaryLosesNothing(before, call, answer);
  }

  /** An answer to an up-to-date call leaves none missing, whatever was missing before it, unless
      the window is rolled over with it or was since. */
  lemma {:induction false} UpToDateAnswerRestores(before: Story, call: nat, answer: string)
    requires UpToDate(before, call)
    ensures Lost(Compressed(before, call, answer)) == {} <==>
      !RollsOver(Compressed(before, call, answer)) && WindowSize(before) >= KEEP_AFTER_SUMMARY
  {
    ToldStart(Started(before, call).value);
    NothingIsLost(Started(before, call).value);
    SummaryLosesNothing(before, call, answer);
  }

  // ---- A story in which turns go missing ----

  /** `n` short exchanges. */
  function Chat(n: nat): Story {
    if n == 0 then New else Said(Chat(n - 1), "q", "a")
  }

  /** Turns of at most one character. */
  ghost predicate Short(turns: seq<Turn>) {
    forall i :: 0 <= i < |turns| ==> |turns[i].content| <= 1
  }

  lemma {:induction false} ShortChars(turns: seq<Turn>)
    requires Short(turns)
    ensures TurnChars(turns) <= |turns|
  {
    if turns == [] {
    } else {
      ShortChars(turns[..|turns| - 1]);
    }
  }

  lemma {:induction false} ChatFits(n: nat)
    requires n <= 15
    ensures var m := MemoryOf(Chat(n));
      m.summary == "" && |m.turns| == m.totalTurns == 2 * n == Told(Chat(n)) && Short(m.turns)
    ensures Careful(Chat(n))
  {
    if n == 0 {
    } else {
      ChatFits(n - 1);
      ExchangeFits(Chat(n - 1));
    }
  }

  lemma ShortSaid(m: Memory)
    requires m.summary == "" && |m.turns| <= 30 && Short(m.turns)
    ensures Short(m.turns + Exchange("q", "a"))
    ensures Exchanged(m, "q", "a") == Memory("", m.turns + Exchange("q", "a"), m.totalTurns + 2)
    ensures |m.summary| + TurnChars(m.turns + Exchange("q", "a")) <= MAX_CONTEXT * 2
  {
    ShortExchange();
    ShortChars(m.turns + Exchange("q", "a"));
  }

  lemma ShortExchange()
    ensures Short(Exchange("q", "a"))
  {
    assert |TrimSpace("q")| <= 1 && |TrimSpace("a")| <= 1;
  }

  /** Four exchanges, a call, an exchange and another call. */
  function Overlap(): Story {
    HandedOver(Said(HandedOver(Chat(4), 0), "q", "a"), 1)
  }

  /** Answered in the wrong order: the stored summary was made from the first two turns, the window
      starts with the fifth, and the third and fourth are nowhere. */
  lemma TurnsGoMissing()
    ensures var story := Compressed(Compressed(Overlap(), 1, "s"), 0, "s");
      !RollsOver(story) && Start(story) == 4 && forall i: nat :: i in Lost(story) <==> i == 2 || i == 3
  {
    OverlapFits();
    AnswerFits(Overlap(), 1);
    MissingAfter(Compressed(Overlap(), 1, "s"));
  }

  /** Answered in the order in which they were begun: the same turns are nowhere after the first
      answer, and back after the second. */
  lemma TurnsComeBack()
    ensures var story := Compressed(Overlap(), 0, "s");
      !RollsOver(story) && Start(story) == 4 && forall i: nat :: i in Lost(story) <==> i == 2 || i == 3
    ensures Lost(Compressed(Compressed(Overlap(), 0, "s"), 1, "s")) == {}
  {
    OverlapFits();
    MissingAfter(Overlap());
    var first := Compressed(Overlap(), 0, "s");
    AnswerFits(Overlap(), 0);
    AnswerFits(first, 1);
    UpToDateAnswerRestores(first, 1, "s");
  }

  /** Ten short turns were said. */
  ghost predicate TenShort(story: Story) {
    && Short(MemoryOf(story).turns) && MemoryOf(story).totalTurns < HARD_RESET_AT
    && Told(story) == 10 && WindowSize(story) >= KEEP_AFTER_SUMMARY
  }

  lemma OverlapFits()
    ensures TenShort(Overlap()) && Careful(Chat(4)) && Told(Chat(4)) == HandEnd(Chat(4)) + 6 == 8
    ensures Started(Overlap(), 0) == Some(Chat(4))
    ensures UpToDate(Overlap(), 1)
  {
    ChatFits(4);
    ToldStart(Chat(4));
    FifthExchange(Chat(4));
  }

  /** A call, an exchange and another call after eight short turns. */
  lemma {:induction false} FifthExchange(before: Story)
    requires Careful(before) && MemoryOf(before).summary == "" && Short(MemoryOf(before).turns)
    requires WindowSize(before) == MemoryOf(before).totalTurns == Told(before) == 8
    ensures var both := HandedOver(Said(HandedOver(before, 0), "q", "a"), 1);
      TenShort(both) && Started(both, 0) == Some(before) && UpToDate(both, 1)
  {
    var handed := HandedOver(before, 0);
    var said := Said(handed, "q", "a");
    CallFits(before, 0);
    ExchangeFits(handed);
    CallFits(said, 1);
  }

  lemma {:induction false} CallFits(before: Story, call: nat)
    requires WindowSize(before) > KEEP_AFTER_SUMMARY
    ensures var story := HandedOver(before, call);
      && MemoryOf(story) == MemoryOf(before) && Told(story) == Told(before) && Careful(story) == Careful(before)
      && forall c :: Started(story, c) == if c == call then Some(before) else Started(before, c)
  {
  }

  lemma {:induction false} ExchangeFits(before: Story)
    requires MemoryOf(before).summary == "" && WindowSize(before) <= 30 && Short(MemoryOf(before).turns)
    ensures var story := Said(before, "q", "a");
      && MemoryOf(story).summary == "" && Short(MemoryOf(story).turns)
      && MemoryOf(story).totalTurns == MemoryOf(before).totalTurns + 2
      && WindowSize(story) == WindowSize(before) + 2 && Told(story) == Told(before) + 2
      && Careful(story) == Careful(before) && forall c :: Started(story, c) == Started(before, c)
  {
    ShortSaid(MemoryOf(before));
  }

  lemma {:induction false} AnswerFits(before: Story, call: nat)
    requires TenShort(before)
    ensures var story := Compressed(before, call, "s");
      !RollsOver(story) && TenShort(story) && forall c :: Started(story, c) == Started(before, c)
  {
    ShortChars(Last(MemoryOf(before).turns, KEEP_AFTER_SUMMARY));
  }

  lemma {:induction false} MissingAfter(before: Story)
    requires TenShort(before) && Started(before, 0) == Some(Chat(4))
    requires Careful(Chat(4)) && Told(Chat(4)) == HandEnd(Chat(4)) + 6 == 8
    ensures var story := Compressed(before, 0, "s");
      !RollsOver(story) && Start(story) == 4 && forall i: nat :: i in Lost(story) <==> i == 2 || i == 3
  {
    AnswerFits(before, 0);
    SummaryStart(before, 0, "s");
    forall i: nat
      ensures i in Lost(Compressed(before, 0, "s")) <==> i == 2 || i == 3
    {
      SlowSummaryLoses(before, 0, "s", i);
    }
  }
}
