/** The protocol/port index, the two-bucket lookup with its linear fallback, and
    what that lookup means in terms of the rule list alone (internal/acl/acl.go). */
module AclIndex {
  import opened Text
  import opened AclRules
  import opened AclSort

  datatype Decision = Decision(allowed: bool, ruleID: string)

  const DEFAULT_ALLOW := Decision(true, "default-allow")
  const DEFAULT_DENY := Decision(false, "default-deny")

  /** Port to rules; port 0 also holds the rules that name no port. */
  type PortIndex = map<int, seq<HotRule>>
  type Index = map<string, PortIndex>

  // ----- Building the index -----

  function PortBucket(ports: PortIndex, port: int): seq<HotRule> {
    if port in ports then ports[port] else []
  }

  function BucketAt(index: Index, protocol: string, port: int): seq<HotRule> {
    if protocol in index then PortBucket(index[protocol], port) else []
  }

  function AppendAt(m: PortIndex, port: int, h: HotRule): PortIndex {
    m[port := PortBucket(m, port) + [h]]
  }

  function AppendPorts(m: PortIndex, ports: seq<int>, h: HotRule): PortIndex {
    if ports == [] then m
    else AppendAt(AppendPorts(m, ports[..|ports| - 1], h), ports[|ports| - 1], h)
  }

  function IndexRule(index: Index, protocol: string, h: HotRule): Index {
    var m := if protocol in index then index[protocol] else map[];
    index[protocol :=
      if UsesPorts(protocol) && h.rule.destPorts != [] then AppendPorts(m, h.rule.destPorts, h)
      else AppendAt(m, 0, h)]
  }

  function IndexUnderAll(index: Index, h: HotRule): Index {
    if h.rule.protocol == "all" then
      IndexRule(IndexRule(IndexRule(index, "tcp", h), "udp", h), "icmp", h)
    else
      IndexRule(index, h.rule.protocol, h)
  }

  function BuildIndex(rules: seq<HotRule>): Index {
    if rules == [] then map[]
    else IndexUnderAll(BuildIndex(rules[..|rules| - 1]), rules[|rules| - 1])
  }

  method AddToIndex(index: Index, protocol: string, h: HotRule) returns (r: Index)
    ensures r == IndexRule(index, protocol, h)
  {
    var m: PortIndex := if protocol in index then index[protocol] else map[];
    if UsesPorts(protocol) {
      if |h.rule.destPorts| == 0 {
        m := m[0 := PortBucket(m, 0) + [h]];
      } else {
        var ports := h.rule.destPorts;
        ghost var start := m;
        for i := 0 to |ports|
          invariant m == AppendPorts(start, ports[..i], h)
        {
          assert ports[..i + 1][..i] == ports[..i];
          m := m[ports[i] := PortBucket(m, ports[i]) + [h]];
        }
        assert ports[..|ports|] == ports;
      }
    } else {
      m := m[0 := PortBucket(m, 0) + [h]];
    }
    r := index[protocol := m];
  }

  method RebuildIndex(rules: seq<HotRule>) returns (index: Index)
    ensures index == BuildIndex(rules)
  {
    index := map[];
    for i := 0 to |rules|
      invariant index == BuildIndex(rules[..i])
    {
      assert rules[..i + 1][..i] == rules[..i];
      var h := rules[i];
      if h.rule.protocol == "all" {
        index := AddToIndex(index, "tcp", h);
        index := AddToIndex(index, "udp", h);
        index := AddToIndex(index, "icmp", h);
      } else {
        index := AddToIndex(index, h.rule.protocol, h);
      }
    }
    assert rules[..|rules|] == rules;
  }

  // ----- Deciding -----

  /** First position at or after `from` whose rule satisfies `P`. */
  function FirstPos(rules: seq<HotRule>, P: HotRule -> bool, from: nat): (i: nat)
    requires from <= |rules|
    ensures from <= i <= |rules|
    ensures i < |rules| ==> P(rules[i])
    ensures forall k :: from <= k < i ==> !P(rules[k])
    decreases |rules| - from
  {
    if from == |rules| || P(rules[from]) then from else FirstPos(rules, P, from + 1)
  }

  function FirstWhere(rules: seq<HotRule>, P: HotRule -> bool): (r: Option<HotRule>)
    ensures r.Some? ==> P(r.value) && r.value in rules
    ensures r.None? ==> forall i :: 0 <= i < |rules| ==> !P(rules[i])
  {
    var i := FirstPos(rules, P, 0);
    if i < |rules| then Some(rules[i]) else None
  }

  /** The slow-path test of one packet. */
  function Slow(p: Packet): HotRule -> bool {
    (h: HotRule) => RuleMatches(h.rule, p)
  }

  /** The hot-path test of one packet. */
  function Fast(p: Packet): HotRule -> bool
    requires IsPort(p.dstPort)
  {
    (h: HotRule) => RuleMatchesFast(h, ParseIP(p.srcIP), ParseIP(p.dstIP), p.dstPort)
  }

  function LinearScan(rules: seq<HotRule>, p: Packet): Option<HotRule> {
    FirstWhere(rules, Slow(p))
  }

  /** The bucket of the packet's port, then the bucket of port 0. */
  function IndexedLookup(index: Index, p: Packet): Option<HotRule>
    requires IsPort(p.dstPort)
  {
    match FirstWhere(BucketAt(index, p.protocol, p.dstPort), Fast(p))
    case Some(h) => Some(h)
    case None => FirstWhere(BucketAt(index, p.protocol, 0), Fast(p))
  }

  /** The rule that decides a packet, if any. */
  function DecidingRule(rules: seq<HotRule>, index: Index, p: Packet): Option<HotRule>
    requires IsPort(p.dstPort)
  {
    match IndexedLookup(index, p)
    case Some(h) => Some(h)
    case None => LinearScan(rules, p)
  }

  function Verdict(h: Option<HotRule>): Decision {
    match h
    case Some(h) => Decision(h.rule.action == "allow", h.rule.id)
    case None => DEFAULT_DENY
  }

  function Decide(rules: seq<HotRule>, index: Index, p: Packet): Decision
    requires IsPort(p.dstPort)
  {
    if rules == [] then DEFAULT_ALLOW else Verdict(DecidingRule(rules, index, p))
  }

  method ScanFast(bucket: seq<HotRule>, src: Option<IPv4>, dst: Option<IPv4>, p: Packet)
    returns (r: Option<HotRule>)
    requires IsPort(p.dstPort) && src == ParseIP(p.srcIP) && dst == ParseIP(p.dstIP)
    ensures r == FirstWhere(bucket, Fast(p))
  {
    for i := 0 to |bucket|
      invariant forall k :: 0 <= k < i ==> !Fast(p)(bucket[k])
    {
      if RuleMatchesFast(bucket[i], src, dst, p.dstPort) {
        return Some(bucket[i]);
      }
    }
    r := None;
  }

  method CheckAccessUncached(rules: seq<HotRule>, index: Index, p: Packet) returns (d: Decision)
    requires IsPort(p.dstPort)
    ensures d == Decide(rules, index, p)
  {
    if |rules| == 0 {
      return DEFAULT_ALLOW;
    }
    if p.protocol in index {
      var src, dst := ParseIP(p.srcIP), ParseIP(p.dstIP);
      var hit := ScanFast(PortBucket(index[p.protocol], p.dstPort), src, dst, p);
      if hit.Some? {
        return Verdict(hit);
      }
      hit := ScanFast(PortBucket(index[p.protocol], 0), src, dst, p);
      if hit.Some? {
        return Verdict(hit);
      }
    }
    for i := 0 to |rules|
      invariant forall k :: 0 <= k < i ==> !Slow(p)(rules[k])
    {
      if RuleMatches(rules[i].rule, p) {
        return Verdict(Some(rules[i]));
      }
    }
    d := DEFAULT_DENY;
  }

  // ----- What the index holds -----

  predicate IndexedUnder(rule: Rule, protocol: string) {
    if rule.protocol == "all" then protocol == "tcp" || protocol == "udp" || protocol == "icmp"
    else rule.protocol == protocol
  }

  /** Once per occurrence of the port in the list. */
  function Copies(h: HotRule, ports: seq<int>, port: int): seq<HotRule> {
    if ports == [] then []
    else Copies(h, ports[..|ports| - 1], port) + (if ports[|ports| - 1] == port then [h] else [])
  }

  /** What one rule contributes to one bucket. */
  function Slots(h: HotRule, protocol: string, port: int): seq<HotRule> {
    if !IndexedUnder(h.rule, protocol) then []
    else if UsesPorts(protocol) && h.rule.destPorts != [] then Copies(h, h.rule.destPorts, port)
    else if port == 0 then [h] else []
  }

  function Bucket(rules: seq<HotRule>, protocol: string, port: int): seq<HotRule> {
    if rules == [] then []
    else Bucket(rules[..|rules| - 1], protocol, port) + Slots(rules[|rules| - 1], protocol, port)
  }

  lemma {:induction false} AppendPortsBucket(m: PortIndex, ports: seq<int>, h: HotRule, port: int)
    ensures PortBucket(AppendPorts(m, ports, h), port) == PortBucket(m, port) + Copies(h, ports, port)
  {
    if ports == [] {
    } else {
      AppendPortsBucket(m, ports[..|ports| - 1], h, port);
    }
  }

  lemma IndexRuleBucket(index: Index, q: string, h: HotRule, protocol: string, port: int)
    requires IndexedUnder(h.rule, q)
    ensures BucketAt(IndexRule(index, q, h), protocol, port) ==
              BucketAt(index, protocol, port) + (if protocol == q then Slots(h, q, port) else [])
  {
    var m := if q in index then index[q] else map[];
    AppendPortsBucket(m, h.rule.destPorts, h, port);
  }

  lemma IndexUnderAllBucket(index: Index, h: HotRule, protocol: string, port: int)
    ensures BucketAt(IndexUnderAll(index, h), protocol, port) ==
              BucketAt(index, protocol, port) + Slots(h, protocol, port)
  {
    if h.rule.protocol == "all" {
      var tcp := IndexRule(index, "tcp", h);
      var udp := IndexRule(tcp, "udp", h);
      IndexRuleBucket(index, "tcp", h, protocol, port);
      IndexRuleBucket(tcp, "udp", h, protocol, port);
      IndexRuleBucket(udp, "icmp", h, protocol, port);
    } else {
      IndexRuleBucket(index, h.rule.protocol, h, protocol, port);
    }
  }

  /** Every bucket of a rebuilt index lists, in rule order, what each rule contributes. */
  lemma {:induction false} IndexHoldsBuckets(rules: seq<HotRule>, protocol: string, port: int)
    ensures BucketAt(BuildIndex(rules), protocol, port) == Bucket(rules, protocol, port)
  {
    if rules == [] {
    } else {
      var front := rules[..|rules| - 1];
      IndexHoldsBuckets(front, protocol, port);
      IndexUnderAllBucket(BuildIndex(front), rules[|rules| - 1], protocol, port);
    }
  }

  // ----- First matches -----

  lemma {:induction false} SameFirst(rules: seq<HotRule>, P: HotRule -> bool, Q: HotRule -> bool)
    requires forall i :: 0 <= i < |rules| ==> (P(rules[i]) <==> Q(rules[i]))
    ensures FirstPos(rules, P, 0) == FirstPos(rules, Q, 0)
    ensures FirstWhere(rules, P) == FirstWhere(rules, Q)
  {
    var i := FirstPos(rules, P, 0);
    FirstAt(rules, Q, i);
  }

  lemma {:induction false} FirstAt(rules: seq<HotRule>, P: HotRule -> bool, i: nat)
    requires i <= |rules| && (i < |rules| ==> P(rules[i]))
    requires forall k :: 0 <= k < i ==> !P(rules[k])
    ensures FirstPos(rules, P, 0) == i
  {
    var j := FirstPos(rules, P, 0);
  }

  lemma FirstOfConcat(a: seq<HotRule>, b: seq<HotRule>, P: HotRule -> bool)
    ensures FirstWhere(a + b, P) == if FirstWhere(a, P).Some? then FirstWhere(a, P) else FirstWhere(b, P)
  {
    var i, j := FirstPos(a, P, 0), FirstPos(b, P, 0);
    FirstAt(a + b, P, if i < |a| then i else |a| + j);
  }

  lemma {:induction false} CopiesAreTheRule(h: HotRule, ports: seq<int>, port: int)
    ensures Copies(h, ports, port) != [] <==> port in ports
    ensures forall i :: 0 <= i < |Copies(h, ports, port)| ==> Copies(h, ports, port)[i] == h
  {
    if ports == [] {
    } else {
      CopiesAreTheRule(h, ports[..|ports| - 1], port);
      assert ports == ports[..|ports| - 1] + [ports[|ports| - 1]];
    }
  }

  lemma SlotsAreTheRule(h: HotRule, protocol: string, port: int)
    ensures forall i :: 0 <= i < |Slots(h, protocol, port)| ==> Slots(h, protocol, port)[i] == h
    ensures Slots(h, protocol, port) != [] <==>
              IndexedUnder(h.rule, protocol) &&
              (if UsesPorts(protocol) && h.rule.destPorts != [] then port in h.rule.destPorts else port == 0)
  {
    CopiesAreTheRule(h, h.rule.destPorts, port);
  }

  /** Searching a bucket is searching the rule list for rules the bucket holds. */
  lemma {:induction false} BucketFirst(rules: seq<HotRule>, protocol: string, port: int,
                                       P: HotRule -> bool, Q: HotRule -> bool)
    requires forall i :: 0 <= i < |rules| ==>
      (Q(rules[i]) <==> Slots(rules[i], protocol, port) != [] && P(rules[i]))
    ensures FirstWhere(Bucket(rules, protocol, port), P) == FirstWhere(rules, Q)
  {
    if rules == [] {
    } else {
      var front, last := rules[..|rules| - 1], rules[|rules| - 1];
      var slots := Slots(last, protocol, port);
      BucketFirst(front, protocol, port, P, Q);
      SlotsAreTheRule(last, protocol, port);
      FirstOfConcat(Bucket(front, protocol, port), slots, P);
      FirstOfConcat(front, [last], Q);
      assert rules == front + [last];
      assert FirstWhere([last], Q) == if Q(last) then Some(last) else None;
      FirstOfSlots(slots, last, P);
    }
  }

  lemma FirstOfSlots(slots: seq<HotRule>, h: HotRule, P: HotRule -> bool)
    requires forall i :: 0 <= i < |slots| ==> slots[i] == h
    ensures FirstWhere(slots, P) == if slots != [] && P(h) then Some(h) else None
  {
    if slots != [] && P(h) {
      FirstAt(slots, P, 0);
    }
  }

  // ----- What a decision means -----

  /** Rules as the manager keeps them: optimised, with addresses that parse. */
  predicate Ready(h: HotRule) {
    h == Hot(h.rule) && AddressesParse(h.rule.sourceIPs) && AddressesParse(h.rule.destIPs)
  }

  predicate AllReady(rules: seq<HotRule>) {
    forall i :: 0 <= i < |rules| ==> Ready(rules[i])
  }

  /** The rule matches the packet and lists its port. */
  function NamesPort(p: Packet): HotRule -> bool {
    (h: HotRule) => RuleMatches(h.rule, p) && p.dstPort in h.rule.destPorts
  }

  /** The rule matches the packet and lists no port. */
  function AnyPort(p: Packet): HotRule -> bool {
    (h: HotRule) => RuleMatches(h.rule, p) && h.rule.destPorts == []
  }

  /** The rule a tcp or udp packet should meet: the first matching rule that names
      its port, else the first matching rule that names no port. */
  function ExpectedRule(rules: seq<HotRule>, p: Packet): Option<HotRule> {
    match FirstWhere(rules, NamesPort(p))
    case Some(h) => Some(h)
    case None => FirstWhere(rules, AnyPort(p))
  }

  lemma {:induction false} PortBucketMeaning(rules: seq<HotRule>, p: Packet)
    requires AllReady(rules) && UsesPorts(p.protocol) && IsPort(p.dstPort) && p.dstPort != 0
    ensures FirstWhere(BucketAt(BuildIndex(rules), p.protocol, p.dstPort), Fast(p)) ==
              FirstWhere(rules, NamesPort(p))
  {
    IndexHoldsBuckets(rules, p.protocol, p.dstPort);
    forall i | 0 <= i < |rules|
      ensures NamesPort(p)(rules[i]) <==>
                Slots(rules[i], p.protocol, p.dstPort) != [] && Fast(p)(rules[i])
    {
      SlotsAreTheRule(rules[i], p.protocol, p.dstPort);
      FastMatchMeaning(rules[i].rule, p);
    }
    BucketFirst(rules, p.protocol, p.dstPort, Fast(p), NamesPort(p));
  }

  lemma {:induction false} ZeroBucketMeaning(rules: seq<HotRule>, p: Packet, Q: HotRule -> bool)
    requires AllReady(rules) && IsPort(p.dstPort)
    requires forall i :: 0 <= i < |rules| ==>
      (Q(rules[i]) <==>
        IndexedUnder(rules[i].rule, p.protocol) &&
        IPMatches(p.srcIP, rules[i].rule.sourceIPs) && IPMatches(p.dstIP, rules[i].rule.destIPs) &&
        (rules[i].rule.destPorts == [] ||
          (p.dstPort in rules[i].rule.destPorts && (UsesPorts(p.protocol) ==> 0 in rules[i].rule.destPorts))))
    ensures FirstWhere(BucketAt(BuildIndex(rules), p.protocol, 0), Fast(p)) ==
              FirstWhere(rules, Q)
  {
    IndexHoldsBuckets(rules, p.protocol, 0);
    forall i | 0 <= i < |rules|
      ensures Q(rules[i]) <==> Slots(rules[i], p.protocol, 0) != [] && Fast(p)(rules[i])
    {
      SlotsAreTheRule(rules[i], p.protocol, 0);
      FastMatchMeaning(rules[i].rule, p);
    }
    BucketFirst(rules, p.protocol, 0, Fast(p), Q);
  }

  /** For tcp and udp on a real port, index and fallback together find exactly the
      expected rule; the fallback scan never contributes an answer. */
  lemma {:induction false} PortDecision(rules: seq<HotRule>, p: Packet)
    requires AllReady(rules) && UsesPorts(p.protocol) && IsPort(p.dstPort) && p.dstPort != 0
    ensures IndexedLookup(BuildIndex(rules), p) == ExpectedRule(rules, p)
    ensures DecidingRule(rules, BuildIndex(rules), p) == ExpectedRule(rules, p)
    ensures Decide(rules, BuildIndex(rules), p) ==
              if rules == [] then DEFAULT_ALLOW else Verdict(ExpectedRule(rules, p))
  {
    PortBucketMeaning(rules, p);
    if FirstWhere(rules, NamesPort(p)).None? {
      assert forall i :: 0 <= i < |rules| ==> !NamesPort(p)(rules[i]);
      ZeroBucketMeaning(rules, p, AnyPort(p));
    }
  }

  /** In a list in priority order the first match has the lowest priority number. */
  lemma FirstIsLowest(rules: seq<HotRule>, P: HotRule -> bool)
    requires Sorted(rules) && FirstWhere(rules, P).Some?
    ensures forall h :: h in rules && P(h) ==> FirstWhere(rules, P).value.rule.priority <= h.rule.priority
  {
    var first := FirstPos(rules, P, 0);
    forall h | h in rules && P(h) ensures rules[first].rule.priority <= h.rule.priority {
      var k :| 0 <= k < |rules| && rules[k] == h;
      assert first <= k;
    }
  }

  lemma {:induction false} ExpectedAgainstScan(rules: seq<HotRule>, p: Packet)
    requires UsesPorts(p.protocol)
    ensures ExpectedRule(rules, p) == LinearScan(rules, p) <==>
              !(FirstPos(rules, AnyPort(p), 0) < FirstPos(rules, NamesPort(p), 0) < |rules|)
  {
    var any, names := FirstPos(rules, AnyPort(p), 0), FirstPos(rules, NamesPort(p), 0);
    var first := if any < names then any else names;
    assert forall k :: 0 <= k < first ==> !AnyPort(p)(rules[k]) && !NamesPort(p)(rules[k]);
    FirstAt(rules, Slow(p), first);
    if any < names < |rules| {
      assert rules[any] != rules[names];
    }
  }

  /** The lookup returns the rule of the plain first-match scan if and only if no
      matching any-port rule precedes the first matching rule that names the port. */
  lemma {:induction false} PortAgreesWithScan(rules: seq<HotRule>, p: Packet)
    requires AllReady(rules) && UsesPorts(p.protocol) && IsPort(p.dstPort) && p.dstPort != 0
    ensures DecidingRule(rules, BuildIndex(rules), p) == LinearScan(rules, p) <==>
              !(FirstPos(rules, AnyPort(p), 0) < FirstPos(rules, NamesPort(p), 0) < |rules|)
  {
    PortDecision(rules, p);
    ExpectedAgainstScan(rules, p);
  }

  /** On port 0 the lookup is the plain scan. */
  lemma {:induction false} ZeroPortAgreesWithScan(rules: seq<HotRule>, p: Packet)
    requires AllReady(rules) && UsesPorts(p.protocol) && p.dstPort == 0
    ensures DecidingRule(rules, BuildIndex(rules), p) == LinearScan(rules, p)
  {
    ZeroBucketMeaning(rules, p, Slow(p));
  }

  /** The test that packets without ports undergo on the hot path. */
  function FastWithoutPorts(p: Packet): HotRule -> bool {
    (h: HotRule) => IndexedUnder(h.rule, p.protocol) && RuleMatches(h.rule, p) &&
                    (h.rule.destPorts == [] || p.dstPort in h.rule.destPorts)
  }

  /** Protocols other than tcp and udp: the hot-path test first, then the plain scan. */
  lemma {:induction false} OtherDecision(rules: seq<HotRule>, p: Packet)
    requires AllReady(rules) && !UsesPorts(p.protocol) && IsPort(p.dstPort)
    ensures DecidingRule(rules, BuildIndex(rules), p) ==
              if FirstWhere(rules, FastWithoutPorts(p)).Some? then FirstWhere(rules, FastWithoutPorts(p))
              else LinearScan(rules, p)
  {
    ZeroBucketMeaning(rules, p, FastWithoutPorts(p));
    IndexHoldsBuckets(rules, p.protocol, p.dstPort);
    if p.dstPort != 0 {
      NoPortBuckets(rules, p.protocol, p.dstPort);
    }
  }

  /** For those protocols the lookup is the plain scan if and only if no rule
      passes the hot-path test or the scan's own first match passes it. */
  lemma {:induction false} OtherAgreesWithScan(rules: seq<HotRule>, p: Packet)
    requires AllReady(rules) && !UsesPorts(p.protocol) && IsPort(p.dstPort)
    ensures DecidingRule(rules, BuildIndex(rules), p) == LinearScan(rules, p) <==>
              var hot := FirstPos(rules, FastWithoutPorts(p), 0);
              hot == |rules| || hot == FirstPos(rules, Slow(p), 0)
  {
    OtherDecision(rules, p);
    HotAgainstScan(rules, p);
  }

  lemma {:induction false} HotAgainstScan(rules: seq<HotRule>, p: Packet)
    ensures var hot, scan := FirstPos(rules, FastWithoutPorts(p), 0), FirstPos(rules, Slow(p), 0);
            scan <= hot && (scan < hot < |rules| ==> rules[scan] != rules[hot])
  {
    var hot, scan := FirstPos(rules, FastWithoutPorts(p), 0), FirstPos(rules, Slow(p), 0);
    if hot < |rules| {
      assert Slow(p)(rules[hot]);
    }
    if scan < hot < |rules| {
      assert !FastWithoutPorts(p)(rules[scan]);
    }
  }

  lemma {:induction false} NoPortBuckets(rules: seq<HotRule>, protocol: string, port: int)
    requires !UsesPorts(protocol) && port != 0
    ensures Bucket(rules, protocol, port) == []
  {
    if rules == [] {
    } else {
      NoPortBuckets(rules[..|rules| - 1], protocol, port);
    }
  }

  /** In particular always for icmp when no rule indexed under icmp lists ports ... */
  lemma {:induction false} IcmpAgreesWithScan(rules: seq<HotRule>, p: Packet)
    requires AllReady(rules) && p.protocol == "icmp" && IsPort(p.dstPort)
    requires forall i :: 0 <= i < |rules| && IndexedUnder(rules[i].rule, "icmp") ==> rules[i].rule.destPorts == []
    ensures DecidingRule(rules, BuildIndex(rules), p) == LinearScan(rules, p)
  {
    OtherDecision(rules, p);
    forall i | 0 <= i < |rules| ensures Slow(p)(rules[i]) <==> FastWithoutPorts(p)(rules[i]) {
      assert RuleMatches(rules[i].rule, p) ==> IndexedUnder(rules[i].rule, "icmp");
    }
    SameFirst(rules, Slow(p), FastWithoutPorts(p));
  }

  /** ... and for a protocol under which no rule is indexed. */
  lemma {:induction false} UnindexedAgreesWithScan(rules: seq<HotRule>, p: Packet)
    requires AllReady(rules) && !UsesPorts(p.protocol) && IsPort(p.dstPort)
    requires forall i :: 0 <= i < |rules| ==> !IndexedUnder(rules[i].rule, p.protocol)
    ensures DecidingRule(rules, BuildIndex(rules), p) == LinearScan(rules, p)
  {
    OtherDecision(rules, p);
  }

  /** Whenever a matching any-port rule stands before a matching rule that names the port, the
      scan finds the former and the lookup the latter. */
  lemma PortRuleOvertakes(any: HotRule, named: HotRule, p: Packet)
    requires Ready(any) && Ready(named) && UsesPorts(p.protocol) && IsPort(p.dstPort) && p.dstPort != 0
    requires AnyPort(p)(any) && NamesPort(p)(named)
    ensures LinearScan([any, named], p) == Some(any)
    ensures DecidingRule([any, named], BuildIndex([any, named]), p) == Some(named)
  {
    var rules := [any, named];
    PortDecision(rules, p);
    FirstAt(rules, Slow(p), 0);
    FirstAt(rules, NamesPort(p), 1);
  }

  /** Such rules exist: an any-port denial of higher priority loses to a rule for port 22. */
  lemma SshOvertakesDenial(p: Packet)
    requires p.protocol == "tcp" && p.dstPort == 22
    ensures var any := Hot(Rule("a", "t", "deny", "tcp", [], [], [], 1));
            var ssh := Hot(Rule("b", "t", "allow", "tcp", [], [], [22], 2));
            && LinearScan([any, ssh], p) == Some(any)
            && DecidingRule([any, ssh], BuildIndex([any, ssh]), p) == Some(ssh)
  {
    var any := Hot(Rule("a", "t", "deny", "tcp", [], [], [], 1));
    var ssh := Hot(Rule("b", "t", "allow", "tcp", [], [], [22], 2));
    PortRuleOvertakes(any, ssh, p);
  }

  /** A rule for protocol "any" decides no tcp, udp or icmp packet. */
  lemma {:induction false} AnyProtocolRuleIsInert(rules: seq<HotRule>, p: Packet)
    requires AllReady(rules) && p.protocol in {"tcp", "udp", "icmp"} && IsPort(p.dstPort)
    ensures var d := DecidingRule(rules, BuildIndex(rules), p);
            d.Some? ==> d.value in rules && RuleMatches(d.value.rule, p) && d.value.rule.protocol != "any"
  {
    if UsesPorts(p.protocol) {
      if p.dstPort != 0 { PortDecision(rules, p); } else { ZeroPortAgreesWithScan(rules, p); }
    } else {
      OtherDecision(rules, p);
    }
  }
}
