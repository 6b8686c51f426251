/** What holds after the repository refused deletes (internal/acl/acl.go): the rules have left
    the list but not the index, which still is that of the list before the first refusal. */
module AclRefusal {
  import opened Text
  import opened AclRules
  import opened AclIndex
  import opened AclRuleList

  /** `rest` is `base` without some of its rules. */
  predicate Thinned(rest: seq<HotRule>, base: seq<HotRule>)
    decreases |base|
  {
    rest == [] ||
    (base != [] && ((rest[0] == base[0] && Thinned(rest[1..], base[1..])) || Thinned(rest, base[1..])))
  }

  lemma {:induction false} ThinnedSelf(base: seq<HotRule>)
    ensures Thinned(base, base)
    decreases |base|
  {
    if base == [] {
    } else {
      ThinnedSelf(base[1..]);
    }
  }

  lemma {:induction false} ThinnedCut(rest: seq<HotRule>, base: seq<HotRule>, i: nat)
    requires Thinned(rest, base) && i < |rest|
    ensures Thinned(rest[..i] + rest[i + 1..], base)
    decreases |base|
  {
    var cut := rest[..i] + rest[i + 1..];
    if rest[0] == base[0] && Thinned(rest[1..], base[1..]) {
      if i == 0 {
        assert cut == rest[1..];
      } else {
        ThinnedCut(rest[1..], base[1..], i - 1);
        assert cut[1..] == rest[1..][..i - 1] + rest[1..][i..];
      }
    } else {
      ThinnedCut(rest, base[1..], i);
    }
  }

  /** One more refused delete. */
  lemma {:induction false} ThinnedRemoved(rest: seq<HotRule>, base: seq<HotRule>, id: string)
    requires Thinned(rest, base)
    ensures Thinned(Removed(rest, id), base)
  {
    var i := FirstPos(rest, HasID(id), 0);
    if i < |rest| {
      ThinnedCut(rest, base, i);
    }
  }

  lemma {:induction false} ThinnedMembers(rest: seq<HotRule>, base: seq<HotRule>)
    requires Thinned(rest, base)
    ensures forall h :: h in rest ==> h in base
    decreases |base|
  {
    if rest == [] {
    } else {
      if rest[0] == base[0] && Thinned(rest[1..], base[1..]) {
        ThinnedMembers(rest[1..], base[1..]);
        assert rest == [rest[0]] + rest[1..] && base == [base[0]] + base[1..];
      } else {
        ThinnedMembers(rest, base[1..]);
      }
    }
  }

  predicate Distinct(list: seq<HotRule>) {
    forall i, j :: 0 <= i < j < |list| ==> list[i] != list[j]
  }

  lemma FirstOfCons(list: seq<HotRule>, P: HotRule -> bool)
    requires list != []
    ensures FirstWhere(list, P) == if P(list[0]) then Some(list[0]) else FirstWhere(list[1..], P)
  {
    assert list == [list[0]] + list[1..];
    FirstOfConcat([list[0]], list[1..], P);
  }

  /** Thinning keeps the first match exactly when it does not take it away. */
  lemma {:induction false} ThinnedFirst(rest: seq<HotRule>, base: seq<HotRule>, P: HotRule -> bool)
    requires Thinned(rest, base) && Distinct(base)
    ensures FirstWhere(rest, P) == FirstWhere(base, P) <==>
      FirstWhere(base, P).None? || FirstWhere(base, P).value in rest
    decreases |base|
  {
    ThinnedMembers(rest, base);
    if base != [] {
      FirstOfCons(base, P);
      if rest != [] {
        FirstOfCons(rest, P);
        if rest[0] == base[0] && Thinned(rest[1..], base[1..]) {
          ThinnedFirst(rest[1..], base[1..], P);
        } else {
          ThinnedFirst(rest, base[1..], P);
          ThinnedMembers(rest, base[1..]);
        }
      }
    }
  }

  /** What decides after refused deletes while a rule is left: for tcp and udp what decided before
      the first of them; for other protocols the hot test on the old list, then the scan of what
      is left. */
  lemma {:induction false} StaleRule(base: seq<HotRule>, rest: seq<HotRule>, p: Packet)
    requires AllReady(base) && Thinned(rest, base) && IsPort(p.dstPort)
    ensures UsesPorts(p.protocol) ==>
      DecidingRule(rest, BuildIndex(base), p) == DecidingRule(base, BuildIndex(base), p)
    ensures !UsesPorts(p.protocol) ==>
      DecidingRule(rest, BuildIndex(base), p) ==
        if FirstWhere(base, FastWithoutPorts(p)).Some? then FirstWhere(base, FastWithoutPorts(p)) else LinearScan(rest, p)
  {
    ThinnedMembers(rest, base);
    if UsesPorts(p.protocol) {
      if IndexedLookup(BuildIndex(base), p).None? {
        IndexMissesNothing(base, p);
        SubsetHasNoMatch(base, rest, p);
        SubsetHasNoMatch(base, base, p);
      }
    } else {
      OtherLookup(base, p);
    }
  }

  /** The decision after any number of refused deletes. An emptied list allows everything, whatever
      its index still holds. */
  lemma {:induction false} StaleDecision(base: seq<HotRule>, rest: seq<HotRule>, p: Packet)
    requires AllReady(base) && Thinned(rest, base) && IsPort(p.dstPort)
    ensures Decide(rest, BuildIndex(base), p) ==
      if rest == [] then DEFAULT_ALLOW
      else if UsesPorts(p.protocol) then Decide(base, BuildIndex(base), p)
      else if FirstWhere(base, FastWithoutPorts(p)).Some? then Verdict(FirstWhere(base, FastWithoutPorts(p)))
      else Verdict(LinearScan(rest, p))
  {
    StaleRule(base, rest, p);
  }

  /** Identifiers tell rules apart, from one another and from the defaults. */
  predicate Telling(list: seq<HotRule>) {
    && (forall i, j :: 0 <= i < j < |list| ==> list[i].rule.id != list[j].rule.id)
    && (forall i :: 0 <= i < |list| ==> list[i].rule.id != DEFAULT_ALLOW.ruleID && list[i].rule.id != DEFAULT_DENY.ruleID)
  }

  /** Then a verdict names its rule. */
  lemma VerdictTells(list: seq<HotRule>, a: Option<HotRule>, b: Option<HotRule>)
    requires Telling(list) && (a.Some? ==> a.value in list) && (b.Some? ==> b.value in list)
    ensures Verdict(a) == Verdict(b) <==> a == b
    ensures Verdict(a) != DEFAULT_ALLOW
  {
  }

  /** The decision after any number of refused deletes is that of before if and only if: there
      never was a rule; or a rule is left, and it is a tcp or udp packet, or some rule passed the
      hot test, or the scan found none, or what it found is still listed. */
  lemma {:induction false} StaleAgrees(base: seq<HotRule>, rest: seq<HotRule>, p: Packet)
    requires AllReady(base) && Thinned(rest, base) && Telling(base) && IsPort(p.dstPort)
    ensures Decide(rest, BuildIndex(base), p) == Decide(base, BuildIndex(base), p) <==>
      if rest == [] then base == []
      else
        || UsesPorts(p.protocol)
        || FirstWhere(base, FastWithoutPorts(p)).Some?
        || LinearScan(base, p).None?
        || LinearScan(base, p).value in rest
  {
    StaleDecision(base, rest, p);
    if rest == [] {
      DecidingIsListed(base, p);
      VerdictTells(base, DecidingRule(base, BuildIndex(base), p), None);
    } else if !UsesPorts(p.protocol) {
      OtherDecision(base, p);
      ScanTells(base, rest, p);
    }
  }

  lemma {:induction false} ScanTells(base: seq<HotRule>, rest: seq<HotRule>, p: Packet)
    requires Thinned(rest, base) && Telling(base)
    ensures Verdict(LinearScan(rest, p)) == Verdict(LinearScan(base, p)) <==>
      LinearScan(base, p).None? || LinearScan(base, p).value in rest
  {
    ThinnedMembers(rest, base);
    VerdictTells(base, LinearScan(rest, p), LinearScan(base, p));
    TellingDistinct(base);
    ThinnedFirst(rest, base, Slow(p));
  }

  lemma TellingDistinct(list: seq<HotRule>)
    requires Telling(list)
    ensures Distinct(list)
  {
  }

  /** The deciding rule is one of the list. */
  lemma {:induction false} DecidingIsListed(list: seq<HotRule>, p: Packet)
    requires AllReady(list) && IsPort(p.dstPort)
    ensures var r := DecidingRule(list, BuildIndex(list), p); r.Some? ==> r.value in list
  {
    if !UsesPorts(p.protocol) {
      OtherDecision(list, p);
    } else if p.dstPort != 0 {
      PortDecision(list, p);
    } else {
      ZeroPortAgreesWithScan(list, p);
    }
  }

  lemma {:induction false} OtherLookup(rules: seq<HotRule>, p: Packet)
    requires AllReady(rules) && !UsesPorts(p.protocol) && IsPort(p.dstPort)
    ensures IndexedLookup(BuildIndex(rules), p) == FirstWhere(rules, FastWithoutPorts(p))
  {
    ZeroBucketMeaning(rules, p, FastWithoutPorts(p));
    IndexHoldsBuckets(rules, p.protocol, p.dstPort);
    if p.dstPort != 0 {
      NoPortBuckets(rules, p.protocol, p.dstPort);
    }
  }

  // ----- One refused delete, for lists with any identifiers -----

  /** Taking the rule at `i` out changes what the scan concludes unless a rule before it matches,
      it does not match itself, or what comes behind it leads to the same verdict. */
  predicate ScanSurvives(list: seq<HotRule>, i: nat, p: Packet)
    requires i < |list|
  {
    || LinearScan(list[..i], p).Some?
    || !RuleMatches(list[i].rule, p)
    || Verdict(LinearScan(list[i + 1..], p)) == Verdict(Some(list[i]))
  }

  /** Taking the rule at `i` out, but leaving it in the index, changes no decision: it was not the
      only rule, and the packet is tcp or udp, some rule passes the hot test, or the scan survives
      the removal; or it was the only one, and it matches and reads like the default for no rules. */
  predicate CutSurvives(list: seq<HotRule>, i: nat, p: Packet)
    requires i < |list|
  {
    if |list| == 1 then RuleMatches(list[0].rule, p) && Verdict(Some(list[0])) == DEFAULT_ALLOW
    else
      || UsesPorts(p.protocol)
      || FirstWhere(list, FastWithoutPorts(p)).Some?
      || ScanSurvives(list, i, p)
  }

  /** That is exactly when one refused delete leaves the decision as it was. */
  lemma {:induction false} RefusedDeleteExactly(list: seq<HotRule>, id: string, p: Packet)
    requires AllReady(list) && IsPort(p.dstPort) && FirstPos(list, HasID(id), 0) < |list|
    ensures Decide(Removed(list, id), BuildIndex(list), p) == Decide(list, BuildIndex(list), p) <==>
      CutSurvives(list, FirstPos(list, HasID(id), 0), p)
  {
    var i := FirstPos(list, HasID(id), 0);
    var rest := Removed(list, id);
    RemovedIsCut(list, id, i, rest);
    CutAgrees(list, i, p, rest);
  }

  lemma {:induction false} RemovedIsCut(list: seq<HotRule>, id: string, i: nat, rest: seq<HotRule>)
    requires i == FirstPos(list, HasID(id), 0) && i < |list| && rest == Removed(list, id)
    ensures rest == list[..i] + list[i + 1..] && Thinned(rest, list)
  {
    ThinnedSelf(list);
    ThinnedCut(list, list, i);
  }

  lemma {:induction false} CutAgrees(list: seq<HotRule>, i: nat, p: Packet, rest: seq<HotRule>)
    requires AllReady(list) && IsPort(p.dstPort) && i < |list|
    requires rest == list[..i] + list[i + 1..] && Thinned(rest, list)
    ensures Decide(rest, BuildIndex(list), p) == Decide(list, BuildIndex(list), p) <==> CutSurvives(list, i, p)
  {
    StaleDecision(list, rest, p);
    if |list| == 1 {
      OnlyRuleDecides(list, p);
    } else if !UsesPorts(p.protocol) {
      OtherDecision(list, p);
      ScanWithout(list, i, p, rest);
    }
  }

  /** A rule alone decides exactly the packets it matches. */
  lemma {:induction false} OnlyRuleDecides(list: seq<HotRule>, p: Packet)
    requires AllReady(list) && IsPort(p.dstPort) && |list| == 1
    ensures DecidingRule(list, BuildIndex(list), p) == if RuleMatches(list[0].rule, p) then Some(list[0]) else None
  {
    FirstOfOne(list, Slow(p));
    if !UsesPorts(p.protocol) {
      OtherDecision(list, p);
      FirstOfOne(list, FastWithoutPorts(p));
    } else if p.dstPort != 0 {
      PortDecision(list, p);
      FirstOfOne(list, NamesPort(p));
      FirstOfOne(list, AnyPort(p));
    } else {
      ZeroPortAgreesWithScan(list, p);
    }
  }

  lemma FirstOfOne(list: seq<HotRule>, P: HotRule -> bool)
    requires |list| == 1
    ensures FirstWhere(list, P) == if P(list[0]) then Some(list[0]) else None
  {
    FirstAt(list, P, if P(list[0]) then 0 else 1);
  }

  lemma ScanWithout(list: seq<HotRule>, i: nat, p: Packet, rest: seq<HotRule>)
    requires i < |list| && rest == list[..i] + list[i + 1..]
    ensures Verdict(LinearScan(rest, p)) == Verdict(LinearScan(list, p)) <==> ScanSurvives(list, i, p)
  {
    var a, x, b := list[..i], [list[i]], list[i + 1..];
    assert list == a + (x + b);
    FirstOfConcat(a, b, Slow(p));
    FirstOfConcat(a, x + b, Slow(p));
    FirstOfConcat(x, b, Slow(p));
    FirstAt(x, Slow(p), if RuleMatches(list[i].rule, p) then 0 else 1);
  }

  /** The list of one rule: a refused delete of the only rule, which denies, allows what it
      denied. */
  lemma RefusedDeleteOfOnlyRule(p: Packet)
    requires p.protocol == "tcp" && IsPort(p.dstPort)
    ensures var a := Hot(Rule("a", "t", "deny", "tcp", [], [], [], 1));
      && Decide([a], BuildIndex([a]), p) == Decision(false, "a")
      && Decide(Removed([a], "a"), BuildIndex([a]), p) == Decision(true, "default-allow")
  {
    var a := Hot(Rule("a", "t", "deny", "tcp", [], [], [], 1));
    FirstAt([a], HasID("a"), 0);
    OnlyRuleDecides([a], p);
  }

  /** Two rules that only the scan matches: without the first, the second decides. */
  lemma SecondTakesOver(a: HotRule, b: HotRule, p: Packet)
    requires Ready(a) && Ready(b) && a.rule.id != b.rule.id && !UsesPorts(p.protocol) && IsPort(p.dstPort)
    requires Slow(p)(a) && Slow(p)(b) && !FastWithoutPorts(p)(a) && !FastWithoutPorts(p)(b)
    ensures Decide([a, b], BuildIndex([a, b]), p) == Verdict(Some(a))
    ensures Decide(Removed([a, b], a.rule.id), BuildIndex([a, b]), p) == Verdict(Some(b))
  {
    var list := [a, b];
    FirstAt(list, HasID(a.rule.id), 0);
    assert Removed(list, a.rule.id) == [b];
    ThinnedSelf(list);
    ThinnedRemoved(list, list, a.rule.id);
    OnlyScanMatches(a, b, p);
    StaleDecision(list, [b], p);
    OtherDecision(list, p);
  }

  lemma OnlyScanMatches(a: HotRule, b: HotRule, p: Packet)
    requires Slow(p)(a) && Slow(p)(b) && !FastWithoutPorts(p)(a) && !FastWithoutPorts(p)(b)
    ensures LinearScan([a, b], p) == Some(a) && LinearScan([b], p) == Some(b)
    ensures FirstWhere([a, b], FastWithoutPorts(p)) == None
  {
    FirstAt([a, b], Slow(p), 0);
    FirstAt([b], Slow(p), 0);
    FirstAt([a, b], FastWithoutPorts(p), 2);
  }

  function IcmpRule(id: string, action: string, port: int, priority: int): HotRule {
    Hot(Rule(id, "t", action, "icmp", [], [], [port], priority))
  }

  /** An icmp rule that lists ports passes the scan's test, and not the hot test, on port 0. */
  lemma IcmpRuleOnPortZero(id: string, action: string, port: int, priority: int, p: Packet)
    requires p.protocol == "icmp" && p.dstPort == 0 && port != 0
    ensures var h := IcmpRule(id, action, port, priority);
      Ready(h) && Slow(p)(h) && !FastWithoutPorts(p)(h)
  {
  }

  /** Such rules exist: a refused delete of the icmp rule "a" does take effect. */
  lemma RefusedDeleteOfIcmpRule(p: Packet)
    requires p.protocol == "icmp" && p.dstPort == 0
    ensures var a, b := IcmpRule("a", "deny", 5, 1), IcmpRule("b", "allow", 6, 2);
      && Decide([a, b], BuildIndex([a, b]), p) == Decision(false, "a")
      && Decide(Removed([a, b], "a"), BuildIndex([a, b]), p) == Decision(true, "b")
  {
    IcmpRuleOnPortZero("a", "deny", 5, 1, p);
    IcmpRuleOnPortZero("b", "allow", 6, 2, p);
    SecondTakesOver(IcmpRule("a", "deny", 5, 1), IcmpRule("b", "allow", 6, 2), p);
  }

  // ----- The lists since the index was built -----

  /** `past` are the lists an account has had since its index was built, the current one last. */
  ghost predicate PastOk(past: seq<seq<HotRule>>, list: seq<HotRule>, index: Index) {
    && past != [] && past[|past| - 1] == list && index == BuildIndex(past[0])
    && forall i :: 0 <= i < |past| ==> Tidy(past[i]) && Thinned(past[i], past[0])
  }

  /** `d` is the decision over one of those lists. */
  ghost predicate Answers(past: seq<seq<HotRule>>, index: Index, p: Packet, d: Decision)
    requires IsPort(p.dstPort)
  {
    exists i :: 0 <= i < |past| && d == Decide(past[i], index, p)
  }

  lemma {:induction false} NewPast(list: seq<HotRule>)
    requires Tidy(list)
    ensures PastOk([list], list, BuildIndex(list))
  {
    ThinnedSelf(list);
  }

  lemma MorePast(past: seq<seq<HotRule>>, list: seq<HotRule>, index: Index, id: string)
    requires PastOk(past, list, index)
    ensures PastOk(past + [Removed(list, id)], Removed(list, id), index)
  {
    var rest := Removed(list, id);
    RemovedKept(list, id);
    ThinnedRemoved(list, past[0], id);
    PastAppend(past, list, index, rest);
  }

  lemma {:induction false} PastAppend(past: seq<seq<HotRule>>, list: seq<HotRule>, index: Index, rest: seq<HotRule>)
    requires PastOk(past, list, index) && Tidy(rest) && Thinned(rest, past[0])
    ensures PastOk(past + [rest], rest, index)
  {
  }

  /** The answers an account may still give. */
  ghost function Answering(past: seq<seq<HotRule>>, index: Index): (Packet, Decision) -> bool {
    (p: Packet, d: Decision) => IsPort(p.dstPort) && Answers(past, index, p, d)
  }

  lemma AnswersStay(past: seq<seq<HotRule>>, list: seq<HotRule>, index: Index, p: Packet, d: Decision)
    ensures Answering(past, index)(p, d) ==> Answering(past + [list], index)(p, d)
  {
    if Answering(past, index)(p, d) {
      var i :| 0 <= i < |past| && d == Decide(past[i], index, p);
      assert (past + [list])[i] == past[i];
    }
  }

  lemma AnswersNow(past: seq<seq<HotRule>>, list: seq<HotRule>, index: Index, p: Packet)
    requires IsPort(p.dstPort) && PastOk(past, list, index)
    ensures Answers(past, index, p, Decide(list, index, p))
  {
    assert past[|past| - 1] == list;
  }

  /** After any number of refused deletes, the answers a tcp or udp packet may get, from the
      cache or not, are: the decision before the first of them, and, exactly if a list was empty,
      the default that allows. */
  lemma AnswersAfterRefusals(past: seq<seq<HotRule>>, list: seq<HotRule>, index: Index, p: Packet, d: Decision)
    requires IsPort(p.dstPort) && PastOk(past, list, index) && AllReady(past[0]) && UsesPorts(p.protocol)
    ensures Answers(past, index, p, d) <==>
      d == Decide(past[0], index, p) || (d == DEFAULT_ALLOW && exists i :: 0 <= i < |past| && past[i] == [])
  {
    if i :| 0 <= i < |past| && d == Decide(past[i], index, p) {
      StaleDecision(past[0], past[i], p);
    }
    if i :| 0 <= i < |past| && past[i] == [] {
      assert Decide(past[i], index, p) == DEFAULT_ALLOW;
    }
    assert d == Decide(past[0], index, p) ==> Answers(past, index, p, d);
  }

  /** With no delete refused there is one list and one answer. */
  lemma AnswersWithoutRefusal(list: seq<HotRule>, index: Index, p: Packet, d: Decision)
    requires IsPort(p.dstPort) && Answers([list], index, p, d)
    ensures d == Decide(list, index, p)
  {
  }
}
