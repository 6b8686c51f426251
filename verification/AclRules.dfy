/** Access-control rules and the two ways a packet is matched against one: the
    text comparison of the slow path and the pre-parsed, bitmap-assisted
    comparison of the hot path (internal/acl/acl.go). */
module AclRules {
  import opened Text

  /** The part of `ACLRule` that decisions depend on. */
  datatype Rule = Rule(
    id: string,
    accountID: string,
    action: string,
    protocol: string,
    sourceIPs: seq<string>,
    destIPs: seq<string>,
    destPorts: seq<int>,
    priority: int)

  datatype Packet = Packet(protocol: string, srcIP: string, dstIP: string, dstPort: int)

  const PORT_COUNT := 65536
  const BITMAP_BYTES := 8192
  const BITMAP_THRESHOLD := 10

  predicate IsPort(p: int) {
    0 <= p < PORT_COUNT
  }

  predicate UsesPorts(protocol: string) {
    protocol == "tcp" || protocol == "udp"
  }

  // ----- Slow path -----

  function IPMatches(ip: string, ruleIPs: seq<string>): bool {
    ruleIPs == [] || "any" in ruleIPs || ip in ruleIPs
  }

  function RuleMatches(rule: Rule, p: Packet): bool {
    && (rule.protocol == "all" || rule.protocol == p.protocol)
    && IPMatches(p.srcIP, rule.sourceIPs)
    && IPMatches(p.dstIP, rule.destIPs)
    && (UsesPorts(p.protocol) && rule.destPorts != [] ==> p.dstPort in rule.destPorts)
  }

  // ----- Hot path -----

  /** One bit per port. */
  type PortBitmap = s: seq<bv8> | |s| == BITMAP_BYTES witness seq(BITMAP_BYTES, _ => 0)

  /** A rule together with what `optimizeRule` derives from it. */
  datatype HotRule = HotRule(
    rule: Rule,
    srcParsed: seq<IPv4>,
    dstParsed: seq<IPv4>,
    bitmap: Option<PortBitmap>,
    hasAnySource: bool,
    hasAnyDest: bool)

  /** The addresses of a list that parse, in order. */
  function ParsedIPs(ips: seq<string>): seq<IPv4> {
    if ips == [] then []
    else
      var front, last := ParsedIPs(ips[..|ips| - 1]), ips[|ips| - 1];
      if last == "any" then front
      else match ParseIP(last) case Some(ip) => front + [ip] case None => front
  }

  function Mask(bit: nat): bv8
    requires bit < 8
  {
    (1 as bv8) << bit
  }

  predicate BitSet(bitmap: PortBitmap, port: int)
    requires IsPort(port)
  {
    bitmap[port / 8] & Mask(port % 8) != 0
  }

  function SetBit(bitmap: PortBitmap, port: int): PortBitmap {
    if IsPort(port) then bitmap[port / 8 := bitmap[port / 8] | Mask(port % 8)] else bitmap
  }

  /** The bitmap after setting each listed port in turn. */
  function Bitmap(ports: seq<int>): PortBitmap {
    if ports == [] then seq(BITMAP_BYTES, _ => 0 as bv8)
    else SetBit(Bitmap(ports[..|ports| - 1]), ports[|ports| - 1])
  }

  /** What `optimizeRule` computes. */
  function Hot(rule: Rule): HotRule {
    HotRule(rule, ParsedIPs(rule.sourceIPs), ParsedIPs(rule.destIPs),
            if |rule.destPorts| >= BITMAP_THRESHOLD then Some(Bitmap(rule.destPorts)) else None,
            "any" in rule.sourceIPs, "any" in rule.destIPs)
  }

  function AddressMatches(any: bool, parsed: seq<IPv4>, ip: Option<IPv4>): bool {
    any || parsed == [] || (ip.Some? && ip.value in parsed)
  }

  function PortMatches(h: HotRule, port: int): bool
    requires IsPort(port)
  {
    h.rule.destPorts == [] ||
    (if h.bitmap.Some? then BitSet(h.bitmap.value, port) else port in h.rule.destPorts)
  }

  function RuleMatchesFast(h: HotRule, src: Option<IPv4>, dst: Option<IPv4>, port: int): bool
    requires IsPort(port)
  {
    && AddressMatches(h.hasAnySource, h.srcParsed, src)
    && AddressMatches(h.hasAnyDest, h.dstParsed, dst)
    && PortMatches(h, port)
  }

  // ----- The loops of the source -----

  method ParseIPs(ips: seq<string>) returns (parsed: seq<IPv4>, hasAny: bool)
    ensures parsed == ParsedIPs(ips)
    ensures hasAny == ("any" in ips)
  {
    parsed, hasAny := [], false;
    for i := 0 to |ips|
      invariant parsed == ParsedIPs(ips[..i])
      invariant hasAny == ("any" in ips[..i])
    {
      assert ips[..i + 1][..i] == ips[..i];
      assert ips[..i + 1] == ips[..i] + [ips[i]];
      if ips[i] == "any" {
        hasAny := true;
      } else {
        var ip := ParseIP(ips[i]);
        if ip.Some? {
          parsed := parsed + [ip.value];
        }
      }
    }
    assert ips[..|ips|] == ips;
  }

  method BuildBitmap(ports: seq<int>) returns (bitmap: array<bv8>)
    ensures fresh(bitmap) && bitmap.Length == 8192 && bitmap[..] == Bitmap(ports)
  {
    bitmap := new bv8[BITMAP_BYTES](_ => 0);
    assert bitmap[..] == Bitmap(ports[..0]);
    for i := 0 to |ports|
      invariant bitmap[..] == Bitmap(ports[..i])
    {
      assert ports[..i + 1][..i] == ports[..i];
      var port := ports[i];
      if 0 <= port < PORT_COUNT {
        bitmap[port / 8] := bitmap[port / 8] | Mask(port % 8);
      }
    }
    assert ports[..|ports|] == ports;
  }

  method OptimizeRule(rule: Rule) returns (h: HotRule)
    ensures h == Hot(rule) && (h.bitmap.Some? <==> |rule.destPorts| >= 10)
  {
    var src, anySrc := ParseIPs(rule.sourceIPs);
    var dst, anyDst := ParseIPs(rule.destIPs);
    var bitmap := None;
    if |rule.destPorts| >= BITMAP_THRESHOLD {
      var bits := BuildBitmap(rule.destPorts);
      bitmap := Some(bits[..]);
    }
    h := HotRule(rule, src, dst, bitmap, anySrc, anyDst);
  }

  // ----- What optimising preserves -----

  lemma MaskBits(x: bv8, i: nat, j: nat)
    requires i < 8 && j < 8
    ensures (x | Mask(i)) & Mask(j) != 0 <==> i == j || x & Mask(j) != 0
  {
    assert Mask(0) == 1 && Mask(1) == 2 && Mask(2) == 4 && Mask(3) == 8;
    assert Mask(4) == 16 && Mask(5) == 32 && Mask(6) == 64 && Mask(7) == 128;
    assert i == 0 || i == 1 || i == 2 || i == 3 || i == 4 || i == 5 || i == 6 || i == 7;
    assert j == 0 || j == 1 || j == 2 || j == 3 || j == 4 || j == 5 || j == 6 || j == 7;
  }

  /** A bit is set exactly for the listed ports, whatever else is listed. */
  lemma {:induction false} BitmapBits(ports: seq<int>, port: int)
    requires IsPort(port)
    ensures BitSet(Bitmap(ports), port) <==> port in ports
  {
    if ports == [] {
      assert Bitmap(ports)[port / 8] == 0;
    } else {
      var front, last := ports[..|ports| - 1], ports[|ports| - 1];
      assert ports == front + [last];
      BitmapBits(front, port);
      if IsPort(last) {
        MaskBits(Bitmap(front)[last / 8], last % 8, port % 8);
      }
    }
  }

  /** Every listed address is "any" or parses, as `validateRule` demands. */
  predicate AddressesParse(ips: seq<string>) {
    forall i :: 0 <= i < |ips| ==> ips[i] == "any" || ParseIP(ips[i]).Some?
  }

  lemma {:induction false} ParsedMembership(ips: seq<string>, s: string)
    requires AddressesParse(ips)
    ensures "any" !in ips && ips != [] ==> ParsedIPs(ips) != []
    ensures s != "any" ==> (s in ips <==> ParseIP(s).Some? && ParseIP(s).value in ParsedIPs(ips))
  {
    if ips == [] {
    } else {
      var front, last := ips[..|ips| - 1], ips[|ips| - 1];
      assert ips == front + [last];
      ParsedMembership(front, s);
      if last != "any" && ParseIP(s) == ParseIP(last) {
        ParseIPInjective(s, last);
      }
    }
  }

  lemma {:induction false} AddressesAgree(ips: seq<string>, s: string)
    requires AddressesParse(ips)
    ensures AddressMatches("any" in ips, ParsedIPs(ips), ParseIP(s)) == IPMatches(s, ips)
  {
    ParsedMembership(ips, s);
    AnyIsNoAddress();
  }

  /** The hot path ignores the protocol and always tests listed ports; the slow
      path does the opposite for packets without ports. */
  lemma FastMatchMeaning(rule: Rule, p: Packet)
    requires AddressesParse(rule.sourceIPs) && AddressesParse(rule.destIPs)
    requires IsPort(p.dstPort)
    ensures RuleMatchesFast(Hot(rule), ParseIP(p.srcIP), ParseIP(p.dstIP), p.dstPort) <==>
              IPMatches(p.srcIP, rule.sourceIPs) && IPMatches(p.dstIP, rule.destIPs) &&
              (rule.destPorts == [] || p.dstPort in rule.destPorts)
  {
    AddressesAgree(rule.sourceIPs, p.srcIP);
    AddressesAgree(rule.destIPs, p.dstIP);
    BitmapBits(rule.destPorts, p.dstPort);
  }

  /** For a rule applicable to a tcp or udp packet the two paths agree, on
      either side of the bitmap threshold. */
  lemma FastEqualsSlow(rule: Rule, p: Packet)
    requires AddressesParse(rule.sourceIPs) && AddressesParse(rule.destIPs)
    requires UsesPorts(p.protocol) && IsPort(p.dstPort)
    requires rule.protocol == "all" || rule.protocol == p.protocol
    ensures RuleMatchesFast(Hot(rule), ParseIP(p.srcIP), ParseIP(p.dstIP), p.dstPort) == RuleMatches(rule, p)
  {
    FastMatchMeaning(rule, p);
  }

  // ----- Validation -----

  /** `n` without its last `k` bits. */
  function ShiftRight(n: nat, k: nat): nat {
    if k == 0 then n else ShiftRight(n / 2, k - 1)
  }

  /** A registered tenant network: a base address and a prefix length. */
  datatype Subnet = Subnet(base: nat, bits: nat)

  /** The address and the base agree on the bits of the prefix. */
  predicate SubnetContains(net: Subnet, ip: IPv4) {
    net.bits <= 32 && ShiftRight(Number(ip), 32 - net.bits) == ShiftRight(net.base, 32 - net.bits)
  }

  /** Before a tenant's subnet is registered only the overlay ranges are accepted. */
  predicate BelongsToTenant(ip: IPv4, accountID: string, subnets: map<string, Subnet>) {
    if accountID in subnets then SubnetContains(subnets[accountID], ip)
    else ip.a == 10 || ip.a == 100
  }

  predicate ValidAddresses(ips: seq<string>, accountID: string, subnets: map<string, Subnet>) {
    forall i :: 0 <= i < |ips| ==>
      ips[i] == "any" || (ParseIP(ips[i]).Some? && BelongsToTenant(ParseIP(ips[i]).value, accountID, subnets))
  }

  predicate ValidRule(rule: Rule, subnets: map<string, Subnet>) {
    && rule.accountID != ""
    && (rule.action == "allow" || rule.action == "deny")
    && rule.protocol in {"tcp", "udp", "icmp", "all", "any"}
    && ValidAddresses(rule.sourceIPs, rule.accountID, subnets)
    && ValidAddresses(rule.destIPs, rule.accountID, subnets)
  }
}
