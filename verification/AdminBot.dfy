/** The bot's table of conversations and the methods that change it under its lock
    (internal/adminbot/bot.go). Messages of one conversation are taken one after another. */
module AdminBot {
  import opened Text
  import opened BotConversation

  type States = map<string, Session>

  function Lookup(states: States, key: string): Option<Session> {
    if key in states then Some(states[key]) else None
  }

  /** The table with the conversation of `key` set or removed. */
  function With(states: States, key: string, s: Option<Session>): States {
    if s.Some? then states[key := s.value] else states - {key}
  }

  lemma Replaced(states: States, key: string, s: Session, t: Turn)
    ensures states[key := s][key := t.session] == states[key := t.session]
    ensures states[key := s] - {key} == states - {key} == states[key := t.session] - {key}
  {
  }

  class Bot {
    var states: States

    constructor ()
      ensures states == map[]
    {
      states := map[];
    }

    /** `touchState`. */
    method TouchState(key: string, now: int)
      modifies this
      ensures states == old(states)[key := Touched(Lookup(old(states), key), now)]
    {
      if key !in states {
        states := states[key := NewSession(now)];
      }
      states := states[key := states[key].(lastTouched := now)];
    }

    /** `activeState`, which forgets an idle conversation. */
    method ActiveState(key: string, now: int) returns (active: bool)
      modifies this
      ensures states == With(old(states), key, Current(Lookup(old(states), key), now))
      ensures active == Active(Lookup(states, key))
    {
      if key !in states {
        return false;
      }
      if now - states[key].lastTouched > TIMEOUT {
        states := states - {key};
        return false;
      }
      return states[key].flow != Menu;
    }

    /** `clearState`. */
    method ClearState(key: string)
      modifies this
      ensures states == old(states) - {key}
    {
      states := states - {key};
    }

    /** `pushHistory`. */
    method PushHistory(key: string, flow: Flow, step: nat)
      modifies this
      ensures key !in old(states) ==> states == old(states)
      ensures key in old(states) ==>
        var s := old(states)[key];
        states == old(states)[key := s.(history := Push(s.history, Checkpoint(flow, step)))]
    {
      if key !in states {
        return;
      }
      var history := states[key].history;
      if |history| >= MAX_DEPTH {
        history := history[1..];
      }
      history := history + [Checkpoint(flow, step)];
      states := states[key := states[key].(history := history)];
    }

    /** `popHistory`. */
    method PopHistory(key: string) returns (prev: Option<Checkpoint>)
      modifies this
      ensures prev.None? <==> key !in old(states) || old(states)[key].history == []
      ensures prev.None? ==> states == old(states)
      ensures prev.Some? ==>
        var s := old(states)[key];
        var h := s.history;
        && prev.value == h[|h| - 1]
        && states == old(states)[key := s.(flow := prev.value.flow, step := prev.value.step, history := h[..|h| - 1])]
    {
      if key !in states || |states[key].history| == 0 {
        return None;
      }
      var s := states[key];
      var c := s.history[|s.history| - 1];
      states := states[key := s.(flow := c.flow, step := c.step, history := s.history[..|s.history| - 1])];
      return Some(c);
    }

    /** "back" of `handleIncomingMessage`. */
    method HandleBack(key: string, active: bool, now: int)
      requires active == Active(Lookup(states, key))
      modifies this
      ensures states == With(old(states), key, GoBack(Lookup(old(states), key), now))
    {
      if !active {
        return;
      }
      var prev := PopHistory(key);
      if prev.None? || prev.value.flow == Menu {
        ClearState(key);
        return;
      }
      TouchState(key, now);
    }

    /** `advanceConversation`; the answer says whether the conversation is kept. */
    method AdvanceConversation(key: string, m: Message, active: bool) returns (keep: bool, action: Action)
      requires key in states && active == (states[key].flow != Menu)
      modifies this
      ensures var t := Advance(old(states)[key], m, active);
        keep == t.keep && action == t.action && states == old(states)[key := t.session]
    {
      if !active {
        PushHistory(key, Menu, 0);
        var choice := MenuSelection(m.input);
        if choice.Some? {
          states := states[key := states[key].(flow := choice.value, step := 0)];
          return true, NoAction;
        }
        return false, if IsQuestion(m.input) then Asked(m.input, m.tools) else NoAction;
      }
      PushHistory(key, states[key].flow, states[key].step);
      var t := InFlow(states[key], m);
      states := states[key := t.session];
      return t.keep, t.action;
    }

    /** Touch the conversation and count the entry. */
    method CountEntry(key: string, now: int)
      modifies this
      ensures states == old(states)[key := Counted(Lookup(old(states), key), now)]
    {
      TouchState(key, now);
      states := states[key := states[key].(entryCount := states[key].entryCount + 1)];
    }

    /** The part of `handleIncomingMessage` behind the navigation commands. */
    method HandleEntry(key: string, m: Message, active: bool) returns (action: Action)
      requires active == Active(Lookup(states, key))
      modifies this
      ensures states == With(old(states), key, Enter(Lookup(old(states), key), m).0)
      ensures action == Enter(Lookup(old(states), key), m).1
    {
      CountEntry(key, m.now);
      ghost var counted := states[key];
      if states[key].entryCount > MAX_ENTRIES {
        ClearState(key);
        return NoAction;
      }
      var keep;
      keep, action := AdvanceConversation(key, m, active);
      Replaced(old(states), key, counted, Advance(counted, m, active));
      if !keep {
        ClearState(key);
      }
    }

    /** `handleIncomingMessage`: the conversation of `key` takes its step, the others none. */
    method HandleIncomingMessage(key: string, m: Message) returns (action: Action)
      modifies this
      ensures states == With(old(states), key, Step(Lookup(old(states), key), m).0)
      ensures action == Step(Lookup(old(states), key), m).1
    {
      var active := ActiveState(key, m.now);
      if m.interactive && !active {
        return NoAction;
      }
      match Navigate(m)
      case Clear =>
        ClearState(key);
        return NoAction;
      case Back =>
        HandleBack(key, active, m.now);
        return NoAction;
      case Forward =>
        action := HandleEntry(key, m, active);
    }
  }
}
