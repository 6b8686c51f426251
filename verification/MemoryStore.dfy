/** The table of memories (internal/adminbot/memory.go). Each method is one critical section
    of the store's lock. A caller may hold on to a memory between two sections, as `AddExchange` does
    between `Touch` and `Append`, and it can be evicted meanwhile. */
module MemoryStore {
  import opened Text
  import opened BotMemory
  import opened Durations

  const DEFAULT_TTL := 2 * HOUR

  /** `senderMemory`. */
  class SenderMemory {
    var memory: Memory
    var lastTouched: int
    /** What happened to it since it was made. */
    ghost var story: Story

    constructor (now: int)
      ensures story == New && lastTouched == now && Told()
    {
      memory, lastTouched, story := Memory("", [], 0), now, New;
    }

    ghost predicate Told()
      reads this
    {
      memory == MemoryOf(story)
    }
  }

  class Store {
    var entries: map<string, SenderMemory>
    const ttl: int
    /** Every memory ever made, also those evicted while a caller still holds them. */
    ghost var made: set<SenderMemory>
    /** How many calls of the model have been begun. */
    ghost var calls: nat

    ghost predicate Valid()
      reads this, made
    {
      && (forall k :: k in entries ==> entries[k] in made)
      && (forall sm :: sm in made ==> sm.Told())
    }

    /** At most 500 senders, none of them nameless. */
    ghost predicate Capped()
      reads this
    {
      "" !in entries && |entries| <= 500
    }

    /** `NewMemoryStore`: no time to live means two hours. */
    constructor (ttl: int)
      ensures Valid() && Capped() && entries == map[]
      ensures this.ttl == if ttl > 0 then ttl else 7200 * SECOND
    {
      this.ttl := if ttl <= 0 then DEFAULT_TTL else ttl;
      entries, made, calls := map[], {}, 0;
    }

    /** `evictStale`. */
    method EvictStale(now: int)
      requires Valid()
      modifies this`entries
      ensures Valid()
      ensures old(Capped()) ==> Capped()
      ensures entries.Keys <= old(entries).Keys
      ensures forall k :: k in old(entries) ==>
        (k in entries <==> now - old(entries)[k].lastTouched <= ttl) && (k in entries ==> entries[k] == old(entries)[k])
    {
      var left := entries.Keys;
      while left != {}
        invariant left <= entries.Keys <= old(entries).Keys
        invariant forall k :: k in entries ==> entries[k] == old(entries)[k]
        invariant forall k :: k in old(entries) && k !in left ==>
          (k in entries <==> now - old(entries)[k].lastTouched <= ttl)
        decreases left
      {
        var k :| k in left;
        if now - entries[k].lastTouched > ttl {
          entries := entries - {k};
        }
        left := left - {k};
      }
      FewerKeys(old(entries), entries);
    }

    /** `evictOldestLocked`: with no nameless sender, one that was idle longest goes. */
    method EvictOldest()
      requires Valid()
      modifies this`entries
      ensures Valid()
      ensures "" !in old(entries) && old(entries) != map[] ==>
        exists k :: k in old(entries) && entries == old(entries) - {k}
          && forall j :: j in old(entries) ==> old(entries)[k].lastTouched <= old(entries)[j].lastTouched
      ensures old(entries) == map[] ==> entries == map[]
      ensures forall k :: k in entries ==> k in old(entries) && entries[k] == old(entries)[k]
    {
      var oldest, time := "", 0;
      var left := entries.Keys;
      while left != {}
        invariant left <= entries.Keys
        invariant oldest != "" ==> oldest in entries && time == entries[oldest].lastTouched
        invariant "" !in entries && left != entries.Keys ==> oldest != ""
        invariant "" !in entries && oldest != "" ==>
          forall j :: j in entries && j !in left ==> time <= entries[j].lastTouched
        decreases left
      {
        var k :| k in left;
        if oldest == "" || entries[k].lastTouched < time {
          oldest, time := k, entries[k].lastTouched;
        }
        left := left - {k};
      }
      if oldest != "" {
        entries := entries - {oldest};
      }
    }

    /** Make room for one more sender. */
    method MakeRoom()
      requires Valid()
      modifies this`entries
      ensures Valid()
      ensures old(Capped()) ==> "" !in entries && |entries| < MAX_SENDERS
      ensures |old(entries)| < MAX_SENDERS ==> entries == old(entries)
      ensures forall k :: k in entries ==> k in old(entries) && entries[k] == old(entries)[k]
    {
      if |entries| >= MAX_SENDERS {
        EvictOldest();
        OneFewer(old(entries), entries);
      }
    }

    /** `touch`. */
    method Touch(sender: string, now: int) returns (sm: SenderMemory)
      requires Valid()
      modifies this`entries, this`made, made`lastTouched
      ensures Valid()
      ensures sm in made && sender in entries && entries[sender] == sm && sm.lastTouched == now
      ensures old(made) <= made && fresh(made - old(made))
      ensures sender in old(entries) ==> entries == old(entries) && made == old(made)
      ensures sender !in old(entries) ==> fresh(sm) && sm.story == New
      ensures sender !in old(entries) && |old(entries)| < 500 ==> entries == old(entries)[sender := sm]
      ensures forall k :: k in entries && k != sender ==> k in old(entries) && entries[k] == old(entries)[k]
      ensures forall o :: o in old(made) && o != sm ==> o.lastTouched == old(o.lastTouched)
      ensures old(Capped()) && sender != "" ==> Capped()
    {
      if sender in entries {
        sm := entries[sender];
        sm.lastTouched := now;
        return;
      }
      MakeRoom();
      sm := new SenderMemory(now);
      made := made + {sm};
      entries := entries[sender := sm];
    }

    /** The second critical section of `AddExchange`, on a memory that may have been evicted. */
    method Append(sm: SenderMemory, question: string, answer: string, now: int)
      requires Valid() && sm in made
      modifies sm
      ensures Valid()
      ensures sm.story == Said(old(sm.story), question, answer)
      ensures sm.lastTouched == if RollsOver(sm.story) then now else old(sm.lastTouched)
    {
      sm.story := Said(sm.story, question, answer);
      var m := Memory(sm.memory.summary, sm.memory.turns + Exchange(question, answer), sm.memory.totalTurns + 2);
      var total := TotalContextChars(m.summary, m.turns);
      if total > MAX_CONTEXT * 2 {
        sm.memory := Rolled(m);
        sm.lastTouched := now;
      } else {
        sm.memory := m;
      }
    }

    /** `NeedsSummarization`. */
    method NeedsSummarization(sender: string) returns (r: bool)
      ensures r <==>
        && sender in entries
        && (|entries[sender].memory.turns| >= 16 || ContextChars(entries[sender].memory) > 12000)
    {
      if sender !in entries {
        return false;
      }
      var m := entries[sender].memory;
      var total := TotalContextChars(m.summary, m.turns);
      return |m.turns| >= SUMMARIZE_AT || total > MAX_CONTEXT;
    }

    /** The first critical section of `Summarize`: what is to be compressed, if anything, with the
        summary so far. Each call of the model has its own number. */
    method BeginSummary(sender: string) returns (r: Option<(string, seq<Turn>)>, ghost call: nat)
      requires Valid()
      modifies made`story, this`calls
      ensures Valid()
      ensures r.Some? <==> sender in entries && |entries[sender].memory.turns| > KEEP_AFTER_SUMMARY
      ensures r.Some? ==>
        && r.value == (entries[sender].memory.summary, ToCompress(entries[sender].memory.turns))
        && entries[sender].story == HandedOver(old(entries[sender].story), call)
        && Started(entries[sender].story, call) == Some(old(entries[sender].story))
      ensures call == old(calls) < calls
      ensures forall sm :: sm in made && !(r.Some? && sm == entries[sender]) ==> unchanged(sm)
    {
      call, calls := calls, calls + 1;
      if sender !in entries || |entries[sender].memory.turns| <= KEEP_AFTER_SUMMARY {
        r := None;
        return;
      }
      var m := entries[sender].memory;
      entries[sender].story := HandedOver(entries[sender].story, call);
      r := Some((m.summary, m.turns[..|m.turns| - KEEP_AFTER_SUMMARY]));
    }

    /** The second critical section of `Summarize`, with the answer to a call; a call that fails
        never reaches it. */
    method ApplySummary(sender: string, answer: string, now: int, ghost call: nat)
      requires Valid()
      modifies made
      ensures Valid()
      ensures sender in entries ==>
        && entries[sender].story == Compressed(old(entries[sender].story), call, answer)
        && entries[sender].lastTouched == if RollsOver(entries[sender].story) then now else old(entries[sender].lastTouched)
      ensures forall sm :: sm in made && !(sender in entries && sm == entries[sender]) ==> unchanged(sm)
    {
      if sender !in entries {
        return;
      }
      StoreSummary(entries[sender], answer, now, call);
    }

    /** Stores the summary in a memory, cuts its window and rolls it over if need be. */
    method StoreSummary(sm: SenderMemory, answer: string, now: int, ghost call: nat)
      requires sm.Told()
      modifies sm
      ensures sm.Told() && sm.story == Compressed(old(sm.story), call, answer)
      ensures sm.lastTouched == if RollsOver(sm.story) then now else old(sm.lastTouched)
    {
      var m := Memory(TrimSummary(answer), Last(sm.memory.turns, KEEP_AFTER_SUMMARY), sm.memory.totalTurns);
      var total := TotalContextChars(m.summary, m.turns);
      sm.story := Compressed(sm.story, call, answer);
      if m.totalTurns >= HARD_RESET_AT || total > MAX_CONTEXT {
        sm.memory := Rolled(m);
        sm.lastTouched := now;
      } else {
        sm.memory := m;
      }
    }

    /** `Snapshot`: what is sent to the model is bounded and made of whole exchanges. */
    method Snapshot(sender: string) returns (summary: string, turns: seq<Turn>)
      requires Valid()
      ensures |summary| + TurnChars(turns) <= 24000 && Paired(turns)
      ensures if sender in entries then
          summary == entries[sender].memory.summary && turns == entries[sender].memory.turns
        else summary == "" && turns == []
    {
      if sender !in entries {
        return "", [];
      }
      var sm := entries[sender];
      assert sm.Told();
      EveryStory(sm.story);
      return sm.memory.summary, sm.memory.turns;
    }

    /** `Reset`. */
    method Reset(sender: string)
      requires Valid()
      modifies this`entries
      ensures Valid()
      ensures old(Capped()) ==> Capped()
      ensures entries == old(entries) - {sender}
    {
      entries := entries - {sender};
      FewerKeys(old(entries), entries);
    }
  }

  lemma FewerKeys<T>(before: map<string, T>, after: map<string, T>)
    requires after.Keys <= before.Keys
    ensures |after| <= |before|
  {
    SubsetSize(after.Keys, before.Keys);
    assert |after| == |after.Keys| && |before| == |before.Keys|;
  }

  lemma {:induction false} SubsetSize(s: set<string>, t: set<string>)
    requires s <= t
    ensures |s| <= |t|
  {
    assert t == s + (t - s);
  }

  lemma OneFewer<T>(before: map<string, T>, after: map<string, T>)
    requires after.Keys <= before.Keys
    ensures (exists k :: k in before && after == before - {k}) ==> |after| + 1 == |before|
  {
    if k :| k in before && after == before - {k} {
      assert after.Keys == before.Keys - {k};
      assert |after| == |after.Keys| && |before| == |before.Keys|;
    }
  }

  function ConversationKey(chat: string, sender: string): (key: string)
    ensures key != ""
  {
    chat + "|" + sender
  }

  /** Chats whose names have no bar share no key. */
  lemma KeysApart(chat: string, sender: string, chat': string, sender': string)
    requires '|' !in chat && '|' !in chat' && ConversationKey(chat, sender) == ConversationKey(chat', sender')
    ensures chat == chat' && sender == sender'
  {
    var key := ConversationKey(chat, sender);
    assert key[|chat|] == '|' && key[|chat'|] == '|';
    assert forall i :: 0 <= i < |chat| ==> key[i] == chat[i] && chat[i] in chat;
    assert forall i :: 0 <= i < |chat'| ==> key[i] == chat'[i] && chat'[i] in chat';
    assert chat == key[..|chat|] && chat' == key[..|chat'|];
    assert sender == key[|chat| + 1..] && sender' == key[|chat'| + 1..];
  }
}
