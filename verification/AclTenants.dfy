/** Which addresses the rules of a tenant may name (`validateRule` and
    `validateIPBelongsToTenant` in internal/acl/acl.go), and so which tenants are kept apart. */
module AclTenants {
  import opened Text
  import opened AclRules

  const ADDRESSES := 0x1_0000_0000

  /** The rule names the address, as source or destination. */
  predicate Lists(rule: Rule, ip: string) {
    (ip in rule.sourceIPs || ip in rule.destIPs) && ip != "any"
  }

  lemma {:induction false} ShiftTwice(n: nat, j: nat, k: nat)
    ensures ShiftRight(ShiftRight(n, j), k) == ShiftRight(n, j + k)
    decreases j
  {
    if j == 0 {
    } else {
      ShiftTwice(n / 2, j - 1, k);
    }
  }

  /** Networks that share an address are nested: the shorter prefix contains the other's base. */
  lemma SharedMeansNested(wide: Subnet, narrow: Subnet, ip: IPv4)
    requires narrow.base < ADDRESSES
    ensures wide.bits <= narrow.bits && SubnetContains(wide, ip) && SubnetContains(narrow, ip) ==>
      SubnetContains(wide, FromNumber(narrow.base))
  {
    if wide.bits <= narrow.bits <= 32 {
      ShiftTwice(Number(ip), 32 - narrow.bits, narrow.bits - wide.bits);
      ShiftTwice(narrow.base, 32 - narrow.bits, narrow.bits - wide.bits);
    }
  }

  /** Neither network contains the base of the other. */
  predicate Apart(x: Subnet, y: Subnet)
    requires x.base < ADDRESSES && y.base < ADDRESSES
  {
    !SubnetContains(x, FromNumber(y.base)) && !SubnetContains(y, FromNumber(x.base))
  }

  /** Two networks have no address in common if and only if they lie apart. */
  lemma ApartMeansDisjoint(x: Subnet, y: Subnet)
    requires x.bits <= 32 && y.bits <= 32 && x.base < ADDRESSES && y.base < ADDRESSES
    ensures Apart(x, y) <==> forall ip: IPv4 :: !(SubnetContains(x, ip) && SubnetContains(y, ip))
  {
    if Apart(x, y) {
      forall ip: IPv4
        ensures !(SubnetContains(x, ip) && SubnetContains(y, ip))
      {
        SharedMeansNested(x, y, ip);
        SharedMeansNested(y, x, ip);
      }
    } else {
      OwnBase(x);
      OwnBase(y);
    }
  }

  lemma OwnBase(net: Subnet)
    requires net.bits <= 32 && net.base < ADDRESSES
    ensures SubnetContains(net, FromNumber(net.base))
  {
  }

  // ----- What a tenant's rules may name -----

  predicate NetOk(net: Subnet) {
    net.bits <= 32 && net.base < ADDRESSES
  }

  /** The networks whose addresses any unregistered account may name: first octet 10 or 100. */
  const TEN := Subnet(10 * 0x100_0000, 8)
  const HUNDRED := Subnet(100 * 0x100_0000, 8)

  lemma {:induction false} ShiftByFour(n: nat)
    ensures ShiftRight(n, 4) == n / 16
  {
    assert ShiftRight(n, 4) == ShiftRight(n / 2, 3);
    assert ShiftRight(n / 2, 3) == ShiftRight(n / 2 / 2, 2);
    assert ShiftRight(n / 2 / 2, 2) == ShiftRight(n / 2 / 2 / 2, 1);
    assert ShiftRight(n / 2 / 2 / 2, 1) == ShiftRight(n / 2 / 2 / 2 / 2, 0);
  }

  lemma {:induction false} ShiftByEight(n: nat)
    ensures ShiftRight(n, 8) == n / 256
  {
    ShiftByFour(n);
    ShiftByFour(n / 16);
    ShiftTwice(n, 4, 4);
  }

  lemma FirstOctet(ip: IPv4)
    ensures ShiftRight(Number(ip), 24) == ip.a as int
  {
    var n := Number(ip);
    ShiftByEight(n);
    ShiftByEight(n / 256);
    ShiftByEight(n / 256 / 256);
    ShiftTwice(n, 8, 8);
    ShiftTwice(n, 16, 8);
  }

  lemma OctetOfBase(a: Octet)
    ensures ShiftRight(a as int * 0x100_0000, 24) == a as int
  {
    FirstOctet(IPv4(a, 0, 0, 0));
  }

  lemma OverlayNetworks(ip: IPv4)
    ensures SubnetContains(TEN, ip) <==> ip.a == 10
    ensures SubnetContains(HUNDRED, ip) <==> ip.a == 100
  {
    FirstOctet(ip);
    OctetOfBase(10);
    OctetOfBase(100);
  }

  /** A rule accepted for `a` can name the address. */
  ghost predicate CanName(a: string, subnets: map<string, Subnet>, ip: IPv4) {
    exists rule: Rule :: ValidRule(rule, subnets) && rule.accountID == a && Lists(rule, Dotted(ip))
  }

  function RuleNaming(a: string, ip: IPv4): Rule {
    Rule("r", a, "allow", "all", [Dotted(ip)], [], [], 1)
  }

  /** Exactly the addresses of its own network if it is registered, of the overlay if not. */
  lemma CanNameExactly(a: string, subnets: map<string, Subnet>, ip: IPv4)
    ensures CanName(a, subnets, ip) <==> a != "" && BelongsToTenant(ip, a, subnets)
  {
    DottedReadsBack(ip);
    AnyIsNoAddress();
    if a != "" && BelongsToTenant(ip, a, subnets) {
      assert ValidRule(RuleNaming(a, ip), subnets) && Lists(RuleNaming(a, ip), Dotted(ip));
    }
  }

  /** No rule accepted for `a` names an address of `b`. */
  ghost predicate Isolated(a: string, b: string, subnets: map<string, Subnet>)
    requires b in subnets
  {
    forall ip: IPv4 :: CanName(a, subnets, ip) ==> !SubnetContains(subnets[b], ip)
  }

  /** That holds if and only if `a` is registered and the two networks lie apart, or `a` is not
      registered and the network of `b` lies apart from both overlay networks. */
  lemma TenantIsolation(a: string, b: string, subnets: map<string, Subnet>)
    requires a != "" && b in subnets && NetOk(subnets[b]) && (a in subnets ==> NetOk(subnets[a]))
    ensures Isolated(a, b, subnets) <==>
      if a in subnets then Apart(subnets[a], subnets[b])
      else Apart(TEN, subnets[b]) && Apart(HUNDRED, subnets[b])
  {
    forall ip: IPv4
      ensures CanName(a, subnets, ip) <==>
        if a in subnets then SubnetContains(subnets[a], ip) else SubnetContains(TEN, ip) || SubnetContains(HUNDRED, ip)
    {
      CanNameExactly(a, subnets, ip);
      OverlayNetworks(ip);
    }
    if a in subnets {
      ApartMeansDisjoint(subnets[a], subnets[b]);
    } else {
      ApartMeansDisjoint(TEN, subnets[b]);
      ApartMeansDisjoint(HUNDRED, subnets[b]);
    }
  }

  /** So an account without a registered network is accepted with rules for the addresses of
      a registered one, such as 10.1.0.0/16. */
  lemma UnregisteredIsNotIsolated(a: string, b: string, ip: IPv4)
    requires a != "" && a != b && ip.a == 10
    ensures var subnets := map[b := Subnet(Number(ip), 16)];
      ValidRule(RuleNaming(a, ip), subnets) && SubnetContains(subnets[b], ip) && !Isolated(a, b, subnets)
  {
    var subnets := map[b := Subnet(Number(ip), 16)];
    DottedReadsBack(ip);
    assert Lists(RuleNaming(a, ip), Dotted(ip)) by { AnyIsNoAddress(); }
    CanNameExactly(a, subnets, ip);
  }
}
