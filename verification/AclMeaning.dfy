/** What an access decision is, written out in terms of the rules' own fields, with the protocols
    and defaults as the source has them (internal/acl/acl.go). */
module AclMeaning {
  import opened Text
  import opened AclRules
  import opened AclIndex

  predicate HasPorts(p: Packet) {
    p.protocol == "tcp" || p.protocol == "udp"
  }

  /** An empty list and "any" stand for every address. */
  predicate AddressListed(ips: seq<string>, ip: string) {
    |ips| == 0 || exists i :: 0 <= i < |ips| && (ips[i] == "any" || ips[i] == ip)
  }

  predicate PortListed(ports: seq<int>, port: int) {
    exists i :: 0 <= i < |ports| && ports[i] == port
  }

  /** Protocol and addresses fit, and for tcp and udp the port is listed if any is. */
  predicate Fits(rule: Rule, p: Packet) {
    && (rule.protocol == "all" || rule.protocol == p.protocol)
    && AddressListed(rule.sourceIPs, p.srcIP) && AddressListed(rule.destIPs, p.dstIP)
    && (HasPorts(p) && |rule.destPorts| > 0 ==> PortListed(rule.destPorts, p.dstPort))
  }

  /** The rules of the first choice. For tcp and udp those that list the port, unless it is 0.
      For other protocols those under which the rule is indexed and whose ports, if any, list the
      packet's all the same. */
  predicate Preferred(rule: Rule, p: Packet) {
    Fits(rule, p) &&
    if HasPorts(p) then p.dstPort != 0 && PortListed(rule.destPorts, p.dstPort)
    else (rule.protocol == "all" ==> p.protocol == "icmp") && (|rule.destPorts| > 0 ==> PortListed(rule.destPorts, p.dstPort))
  }

  /** Rule `i` decides: the first preferred one, and if there is none the first that fits. */
  predicate Decides(rules: seq<HotRule>, p: Packet, i: nat)
    requires i < |rules|
  {
    if Preferred(rules[i].rule, p) then
      forall k :: 0 <= k < i ==> !Preferred(rules[k].rule, p)
    else
      && Fits(rules[i].rule, p)
      && (forall k :: 0 <= k < |rules| ==> !Preferred(rules[k].rule, p))
      && (forall k :: 0 <= k < i ==> !Fits(rules[k].rule, p))
  }

  lemma ListedIsMatched(ips: seq<string>, ip: string)
    ensures AddressListed(ips, ip) == IPMatches(ip, ips)
  {
    if "any" in ips {
      var i :| 0 <= i < |ips| && ips[i] == "any";
    } else if ip in ips {
      var i :| 0 <= i < |ips| && ips[i] == ip;
    }
  }

  lemma PortListedIn(ports: seq<int>, port: int)
    ensures PortListed(ports, port) <==> port in ports
  {
  }

  /** The slow-path test means what it should. */
  lemma FitsIsMatch(rule: Rule, p: Packet)
    ensures Fits(rule, p) == RuleMatches(rule, p)
  {
    ListedIsMatched(rule.sourceIPs, p.srcIP);
    ListedIsMatched(rule.destIPs, p.dstIP);
    PortListedIn(rule.destPorts, p.dstPort);
  }

  function IsPreferred(p: Packet): HotRule -> bool {
    (h: HotRule) => Preferred(h.rule, p)
  }

  function IsFitting(p: Packet): HotRule -> bool {
    (h: HotRule) => Fits(h.rule, p)
  }

  lemma ScanFits(rules: seq<HotRule>, p: Packet)
    ensures LinearScan(rules, p) == FirstWhere(rules, IsFitting(p))
  {
    forall i | 0 <= i < |rules|
      ensures Slow(p)(rules[i]) <==> IsFitting(p)(rules[i])
    {
      FitsIsMatch(rules[i].rule, p);
    }
    SameFirst(rules, Slow(p), IsFitting(p));
  }

  /** The rule found is the first preferred one, else the first that fits. */
  lemma {:induction false} FoundRule(rules: seq<HotRule>, p: Packet)
    requires AllReady(rules) && IsPort(p.dstPort)
    ensures DecidingRule(rules, BuildIndex(rules), p) ==
      if FirstWhere(rules, IsPreferred(p)).Some? then FirstWhere(rules, IsPreferred(p)) else FirstWhere(rules, IsFitting(p))
  {
    ScanFits(rules, p);
    if !HasPorts(p) {
      FoundOther(rules, p);
    } else if p.dstPort == 0 {
      ZeroPortAgreesWithScan(rules, p);
      assert forall i :: 0 <= i < |rules| ==> !IsPreferred(p)(rules[i]);
    } else {
      FoundByPort(rules, p);
    }
  }

  lemma {:induction false} FoundOther(rules: seq<HotRule>, p: Packet)
    requires AllReady(rules) && IsPort(p.dstPort) && !HasPorts(p)
    ensures DecidingRule(rules, BuildIndex(rules), p) ==
      if FirstWhere(rules, IsPreferred(p)).Some? then FirstWhere(rules, IsPreferred(p)) else LinearScan(rules, p)
  {
    OtherDecision(rules, p);
    forall i | 0 <= i < |rules|
      ensures FastWithoutPorts(p)(rules[i]) <==> IsPreferred(p)(rules[i])
    {
      FitsIsMatch(rules[i].rule, p);
      PortListedIn(rules[i].rule.destPorts, p.dstPort);
    }
    SameFirst(rules, FastWithoutPorts(p), IsPreferred(p));
  }

  lemma {:induction false} FoundByPort(rules: seq<HotRule>, p: Packet)
    requires AllReady(rules) && IsPort(p.dstPort) && HasPorts(p) && p.dstPort != 0
    ensures DecidingRule(rules, BuildIndex(rules), p) ==
      if FirstWhere(rules, IsPreferred(p)).Some? then FirstWhere(rules, IsPreferred(p)) else FirstWhere(rules, IsFitting(p))
  {
    PortDecision(rules, p);
    forall i | 0 <= i < |rules|
      ensures NamesPort(p)(rules[i]) <==> IsPreferred(p)(rules[i])
      ensures !IsPreferred(p)(rules[i]) ==> (AnyPort(p)(rules[i]) <==> IsFitting(p)(rules[i]))
    {
      FitsIsMatch(rules[i].rule, p);
      PortListedIn(rules[i].rule.destPorts, p.dstPort);
    }
    SameFirst(rules, NamesPort(p), IsPreferred(p));
    if FirstWhere(rules, IsPreferred(p)).None? {
      SameFirst(rules, AnyPort(p), IsFitting(p));
    }
  }

  /** There is a first one of those that satisfy `P`. */
  lemma FirstFound(rules: seq<HotRule>, P: HotRule -> bool, i: nat)
    requires i < |rules| && P(rules[i]) && forall k :: 0 <= k < i ==> !P(rules[k])
    ensures FirstWhere(rules, P) == Some(rules[i])
  {
    FirstAt(rules, P, i);
  }

  /** The deciding rule gives the answer. */
  lemma {:induction false} DecidedBy(rules: seq<HotRule>, p: Packet, i: nat)
    requires AllReady(rules) && 0 <= p.dstPort < 65536 && i < |rules| && Decides(rules, p, i)
    ensures Decide(rules, BuildIndex(rules), p) == Decision(rules[i].rule.action == "allow", rules[i].rule.id)
  {
    FoundRule(rules, p);
    if Preferred(rules[i].rule, p) {
      FirstFound(rules, IsPreferred(p), i);
    } else {
      assert forall k :: 0 <= k < |rules| ==> !IsPreferred(p)(rules[k]);
      FirstFound(rules, IsFitting(p), i);
    }
  }

  /** Some rule decides exactly if some rule fits. */
  lemma SomeDecides(rules: seq<HotRule>, p: Packet)
    ensures (exists i: nat :: i < |rules| && Decides(rules, p, i)) <==> (exists i: nat :: i < |rules| && Fits(rules[i].rule, p))
  {
    var preferred, fitting := FirstPos(rules, IsPreferred(p), 0), FirstPos(rules, IsFitting(p), 0);
    if preferred < |rules| {
      assert Decides(rules, p, preferred) && Fits(rules[preferred].rule, p);
    } else if fitting < |rules| {
      assert forall k :: 0 <= k < |rules| ==> !IsPreferred(p)(rules[k]);
      assert Decides(rules, p, fitting);
    } else {
      assert forall k :: 0 <= k < |rules| ==> !IsFitting(p)(rules[k]);
    }
  }

  /** A decision over rules as the manager keeps them: no rules allow everything, no fitting rule
      denies, and otherwise the deciding rule's action and id are the answer. */
  lemma {:induction false} DecisionExactly(rules: seq<HotRule>, p: Packet)
    requires AllReady(rules) && 0 <= p.dstPort < 65536
    ensures var d := Decide(rules, BuildIndex(rules), p);
      if rules == [] then d == Decision(true, "default-allow")
      else if forall i :: 0 <= i < |rules| ==> !Fits(rules[i].rule, p) then d == Decision(false, "default-deny")
      else exists i: nat :: i < |rules| && Decides(rules, p, i)
             && d == Decision(rules[i].rule.action == "allow", rules[i].rule.id)
  {
    if exists i: nat :: i < |rules| && Fits(rules[i].rule, p) {
      SomeDecides(rules, p);
      var i: nat :| i < |rules| && Decides(rules, p, i);
      DecidedBy(rules, p, i);
    } else {
      FoundRule(rules, p);
      assert forall k :: 0 <= k < |rules| ==> !IsFitting(p)(rules[k]) && !IsPreferred(p)(rules[k]);
    }
  }

  /** What a rule must be to be accepted, apart from its addresses: it has an account, allows or
      denies, and is for a known protocol. Each address is "any" or one the tenant may name. */
  lemma AcceptedExactly(rule: Rule, subnets: map<string, Subnet>)
    ensures ValidRule(rule, subnets) <==>
      && rule.accountID != "" && (rule.action == "allow" || rule.action == "deny")
      && (rule.protocol == "tcp" || rule.protocol == "udp" || rule.protocol == "icmp" || rule.protocol == "all"
          || rule.protocol == "any")
      && forall a :: a in rule.sourceIPs || a in rule.destIPs ==>
           a == "any" || (ParseIP(a).Some? && BelongsToTenant(ParseIP(a).value, rule.accountID, subnets))
  {
  }

  /** A rule that decides a tcp or udp packet lists its port or none. */
  lemma {:induction false} PortsAreTested(rules: seq<HotRule>, p: Packet)
    requires AllReady(rules) && 0 <= p.dstPort < 65536 && (p.protocol == "tcp" || p.protocol == "udp")
    ensures var d := DecidingRule(rules, BuildIndex(rules), p);
      d.Some? ==> d.value in rules && (d.value.rule.destPorts == [] || p.dstPort in d.value.rule.destPorts)
  {
    FoundRule(rules, p);
    var d := DecidingRule(rules, BuildIndex(rules), p);
    if d.Some? {
      assert Fits(d.value.rule, p);
    }
  }

  /** For every other protocol a rule alone in its list decides by protocol and addresses, whatever
      ports it lists. */
  lemma PortsAreIgnored(h: HotRule, p: Packet)
    requires Ready(h) && 0 <= p.dstPort < 65536 && p.protocol != "tcp" && p.protocol != "udp"
    ensures Decide([h], BuildIndex([h]), p) ==
      if (h.rule.protocol == "all" || h.rule.protocol == p.protocol)
        && AddressListed(h.rule.sourceIPs, p.srcIP) && AddressListed(h.rule.destIPs, p.dstIP)
      then Decision(h.rule.action == "allow", h.rule.id)
      else Decision(false, "default-deny")
  {
    DecisionExactly([h], p);
    assert Fits([h][0].rule, p) == Fits(h.rule, p);
  }
}
