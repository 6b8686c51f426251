/** Which addresses a peer of an account may use (`ValidatePeerIP` in
    internal/account/manager.go), however they are spelled. */
module PeerAddresses {
  import opened Text
  import opened Spellings
  import opened IpamRecords
  import opened Accounts

  datatype Verdict = NoNetworks | NotAnAddress | Outside | ServerAddress | NetworkAddress | BroadcastAddress | Accepted

  function TrimHostMask(s: string): string {
    if |s| >= 3 && s[|s| - 3..] == "/32" then s[..|s| - 3] else s
  }

  predicate Contains(network: nat, n: nat) {
    network <= n < network + BLOCK
  }

  /** What an address of the account's networks is good for. Its place in its block decides,
      except that the server's address is known by its plain text only. */
  function Judge(networks: seq<nat>, n: nat, plain: bool): Verdict {
    if n - n % BLOCK !in networks then Outside
    else if n % BLOCK == 0 then NetworkAddress
    else if n % BLOCK == 1 && plain then ServerAddress
    else if n % BLOCK == BLOCK - 1 then BroadcastAddress
    else Accepted
  }

  function PeerVerdict(read: Reader, networks: seq<nat>, ipAddress: string): Verdict {
    var text := TrimHostMask(ipAddress);
    if networks == [] then NoNetworks else
      match read(text)
      case NotAddress => NotAnAddress
      case V6(_) => Outside
      case V4(ip) => Judge(networks, Number(ip), text == Dotted(ip))
  }

  lemma ContainsExactly(network: nat, n: nat)
    requires Aligned(network)
    ensures Contains(network, n) <==> network == n - n % BLOCK
  {
  }

  /** The text of an address is read as that address only. */
  lemma TextOf(read: Reader, text: string, m: nat)
    requires Reads(read) && read(text).V4? && m < ADDRESSES
    ensures AddressText(m) == text <==> m == Number(read(text).ip) && text == Dotted(read(text).ip)
  {
    var ip := read(text).ip;
    assert AddressText(m) == text ==> read(text) == V4(FromNumber(m));
    if m == Number(ip) {
      NumberInjective(FromNumber(m), ip);
    }
  }

  /** The address is the server's in one of the networks. */
  ghost predicate IsGateway(networks: seq<nat>, n: nat) {
    n % BLOCK == 1 && n - n % BLOCK in networks
  }

  /** `n` is the second address of block `b`. */
  ghost predicate Second(b: nat, n: nat) {
    n == b + 1
  }

  lemma SecondOfBlock(b: nat, n: nat)
    requires Aligned(b)
    ensures Second(b, n) <==> n % BLOCK == 1 && n - n % BLOCK == b
  {
  }

  /** The text is the plain one of the second address of the block, for a text read as `ip`. */
  ghost predicate SpellsServer(b: nat, ip: IPv4, text: string) {
    Second(b, Number(ip)) && text == Dotted(ip)
  }

  /** The text of a server IP is this one exactly when it plainly spells the second address of
      its block. */
  lemma ServerText(read: Reader, a: Account, i: nat, text: string)
    requires Reads(read) && read(text).V4?
    requires AllAre27(a.networks) && Gateways(a.networks, a.serverIPs) && i < |a.networks|
    ensures AddressText(a.serverIPs[i]) == text <==> SpellsServer(a.networks[i], read(text).ip, text)
  {
    assert Aligned(a.networks[i]);
    OneServerText(read, a.networks[i], a.serverIPs[i], text);
  }

  lemma OneServerText(read: Reader, b: nat, server: nat, text: string)
    requires Reads(read) && read(text).V4? && server < ADDRESSES && server == b + 1
    ensures AddressText(server) == text <==> SpellsServer(b, read(text).ip, text)
  {
    TextOf(read, text, server);
  }

  lemma ServersAreSecond(networks: seq<nat>, ip: IPv4, text: string)
    requires AllAre27(networks)
    ensures (exists i :: 0 <= i < |networks| && SpellsServer(networks[i], ip, text)) <==>
      text == Dotted(ip) && IsGateway(networks, Number(ip))
  {
    var n := Number(ip);
    forall i | 0 <= i < |networks|
      ensures Second(networks[i], n) <==> n % BLOCK == 1 && n - n % BLOCK == networks[i]
    {
      assert Aligned(networks[i]);
      SecondOfBlock(networks[i], n);
    }
  }

  lemma AcceptedSpellings(read: Reader, networks: seq<nat>, ipAddress: string)
    ensures PeerVerdict(read, networks, ipAddress) == Accepted <==>
      exists n: nat :: n < ADDRESSES && read(TrimHostMask(ipAddress)) == V4(FromNumber(n))
        && Judge(networks, n, TrimHostMask(ipAddress) == AddressText(n)) == Accepted
  {
    var text := TrimHostMask(ipAddress);
    if read(text).V4? {
      var n := Number(read(text).ip);
      NumberInjective(FromNumber(n), read(text).ip);
    }
  }

  /** `ValidatePeerIP` once the account is read. A server's address is refused if and only if it is
      written plainly, with or without /32; in any other spelling a peer may have it. A text is
      accepted if and only if it is read as an address a peer may have under that spelling. */
  method ValidatePeerIP(read: Reader, a: Account, ipAddress: string) returns (r: Verdict)
    requires Reads(read) && AllAre27(a.networks) && Gateways(a.networks, a.serverIPs)
    ensures r == PeerVerdict(read, a.networks, ipAddress)
    ensures var text := TrimHostMask(ipAddress);
      read(text).V4? && IsGateway(a.networks, Number(read(text).ip)) ==>
        r == if text == Dotted(read(text).ip) then ServerAddress else Accepted
    ensures var text := TrimHostMask(ipAddress);
      r == Accepted <==>
        exists n: nat :: n < ADDRESSES && read(text) == V4(FromNumber(n))
          && Judge(a.networks, n, text == AddressText(n)) == Accepted
  {
    AcceptedSpellings(read, a.networks, ipAddress);
    if |a.networks| == 0 {
      return NoNetworks;
    }
    var text := TrimHostMask(ipAddress);
    var parsed := read(text);
    if parsed.NotAddress? {
      return NotAnAddress;
    }
    if parsed.V6? {
      return Outside;
    }
    var n := Number(parsed.ip);
    var m := FindNetwork(a.networks, n);
    if m == |a.networks| {
      return Outside;
    }
    var server := IsServer(read, a, text);
    if server {
      return ServerAddress;
    }
    if n == a.networks[m] {
      return NetworkAddress;
    }
    if n == a.networks[m] + (BLOCK - 1) {
      return BroadcastAddress;
    }
    assert a.networks[m] == n - n % BLOCK;
    return Accepted;
  }

  method FindNetwork(networks: seq<nat>, n: nat) returns (m: nat)
    requires AllAre27(networks)
    ensures m <= |networks|
    ensures m < |networks| ==> networks[m] == n - n % BLOCK
    ensures m == |networks| <==> n - n % BLOCK !in networks
  {
    m := 0;
    while m < |networks| && !Contains(networks[m], n)
      invariant 0 <= m <= |networks|
      invariant forall k :: 0 <= k < m ==> networks[k] != n - n % BLOCK
    {
      ContainsExactly(networks[m], n);
      m := m + 1;
    }
    if m < |networks| {
      ContainsExactly(networks[m], n);
    }
  }

  method IsServer(read: Reader, a: Account, text: string) returns (r: bool)
    requires Reads(read) && read(text).V4?
    requires AllAre27(a.networks) && Gateways(a.networks, a.serverIPs)
    ensures r <==> text == Dotted(read(text).ip) && IsGateway(a.networks, Number(read(text).ip))
  {
    ghost var ip := read(text).ip;
    ServersAreSecond(a.networks, ip, text);
    var i := 0;
    while i < |a.serverIPs| && AddressText(a.serverIPs[i]) != text
      invariant 0 <= i <= |a.serverIPs|
      invariant forall k :: 0 <= k < i ==> !SpellsServer(a.networks[k], ip, text)
    {
      ServerText(read, a, i, text);
      i := i + 1;
    }
    if i < |a.serverIPs| {
      ServerText(read, a, i, text);
    }
    return i < |a.serverIPs|;
  }

  // ---- Spellings ----

  /** In particular the mapped spelling of every server's address is accepted. */
  lemma MappedGatewayAccepted(read: Reader, networks: seq<nat>, ip: IPv4)
    requires Reads(read) && IsGateway(networks, Number(ip))
    ensures PeerVerdict(read, networks, Dotted(ip)) == ServerAddress
    ensures PeerVerdict(read, networks, Mapped(ip)) == Accepted
  {
    DottedChars(ip);
    NoMask(Dotted(ip));
    NoMask(Mapped(ip));
    assert Mapped(ip)[0] == ':' && Dotted(ip) != Mapped(ip);
    assert |Mapped(ip)| == |Dotted(ip)| + 7;
  }

  /** The plain and the mapped text of an address do not end in a mask. */
  lemma NoMask(s: string)
    requires |s| < 3 || s[|s| - 3] != '/'
    ensures TrimHostMask(s) == s && TrimHostMask(s + "/32") == s
  {
    assert |s| >= 3 ==> s[|s| - 3..][0] == s[|s| - 3];
    assert (s + "/32")[|s|..] == "/32" && (s + "/32")[..|s|] == s;
  }

  // ---- How many addresses are accepted ----

  /** The addresses accepted when written plainly, or otherwise. */
  ghost function AcceptedAddresses(networks: seq<nat>, plain: bool): set<nat> {
    set n: nat | n < ADDRESSES && Judge(networks, n, plain) == Accepted
  }

  /** Exactly these are accepted under some plain, and under some spelling at all. */
  lemma AcceptedSomehow(read: Reader, networks: seq<nat>, n: nat)
    requires Reads(read) && networks != [] && n < ADDRESSES
    ensures n in AcceptedAddresses(networks, true) <==> PeerVerdict(read, networks, AddressText(n)) == Accepted
    ensures n in AcceptedAddresses(networks, false) <==>
      exists s :: read(TrimHostMask(s)) == V4(FromNumber(n)) && PeerVerdict(read, networks, s) == Accepted
  {
    var ip := FromNumber(n);
    DottedChars(ip);
    NoMask(Dotted(ip));
    NoMask(Mapped(ip));
    assert Mapped(ip)[0] == ':' && Dotted(ip) != Mapped(ip);
    assert read(TrimHostMask(Mapped(ip))) == V4(ip);
    assert PeerVerdict(read, networks, Mapped(ip)) == Judge(networks, n, false);
  }

  ghost predicate From(low: nat, n: nat) {
    low <= n
  }

  ghost function Span(low: nat, count: nat): set<nat> {
    set n: nat | n < low + count && From(low, n)
  }

  lemma {:induction false} SpanSize(low: nat, count: nat)
    ensures |Span(low, count)| == count
  {
    if count == 0 {
      assert Span(low, count) == {};
    } else {
      SpanSize(low, count - 1);
      assert Span(low, count) == Span(low, count - 1) + {low + count - 1};
    }
  }

  /** The first usable place in a block. */
  function FirstPlace(plain: bool): nat {
    if plain then 2 else 1
  }

  /** How many addresses of a block are accepted. */
  function PerBlock(plain: bool): nat {
    if plain then USABLE else USABLE + 1
  }

  lemma InSpan(b: nat, n: nat, plain: bool)
    requires Aligned(b)
    ensures b + FirstPlace(plain) <= n < b + FirstPlace(plain) + PerBlock(plain) <==>
      n - n % BLOCK == b && FirstPlace(plain) <= n % BLOCK < BLOCK - 1
  {
  }

  lemma OneBlock(b: nat, plain: bool)
    requires Aligned(b)
    ensures AcceptedAddresses([b], plain) == Span(b + FirstPlace(plain), PerBlock(plain))
  {
    forall n: nat | n < ADDRESSES
      ensures Judge([b], n, plain) == Accepted <==> n in Span(b + FirstPlace(plain), PerBlock(plain))
    {
      InSpan(b, n, plain);
    }
  }

  lemma OneMore(networks: seq<nat>, b: nat, plain: bool)
    requires Aligned(b) && b !in networks
    ensures |AcceptedAddresses(networks + [b], plain)| == |AcceptedAddresses(networks, plain)| + PerBlock(plain)
  {
    var some, one := AcceptedAddresses(networks, plain), AcceptedAddresses([b], plain);
    forall n: nat | n < ADDRESSES
      ensures n in AcceptedAddresses(networks + [b], plain) <==> n in some || n in one
      ensures !(n in some && n in one)
    {
    }
    assert AcceptedAddresses(networks + [b], plain) == some + one;
    assert some !! one;
    OneBlock(b, plain);
    SpanSize(b + FirstPlace(plain), PerBlock(plain));
  }

  /** For each block an account accepts exactly 29 addresses written plainly, and 30 over all
      spellings. */
  lemma {:induction false} AcceptedCount(networks: seq<nat>, plain: bool)
    requires NoDup(networks) && AllAre27(networks)
    ensures |AcceptedAddresses(networks, plain)| == PerBlock(plain) * |networks|
  {
    if networks == [] {
      assert AcceptedAddresses(networks, plain) == {};
    } else {
      var front, b := networks[..|networks| - 1], networks[|networks| - 1];
      assert networks == front + [b];
      NoDupFront(networks);
      AcceptedCount(front, plain);
      OneMore(front, b, plain);
    }
  }

  /** In every state of the account manager that holds of every stored account, and no address
      is accepted, in any spelling, for two accounts. */
  lemma EveryStoredAccount(blocks: Blocks, tenants: Tenants, store: map<string, Account>, x: string)
    requires Records(blocks, tenants, "", []) && Accounted(store, tenants) && x in store
    ensures |AcceptedAddresses(store[x].networks, true)| == 29 * store[x].blockCount
    ensures |AcceptedAddresses(store[x].networks, false)| == 30 * store[x].blockCount
    ensures forall y :: y in store && y != x ==>
      AcceptedAddresses(store[x].networks, false) !! AcceptedAddresses(store[y].networks, false)
  {
    AcceptedCount(store[x].networks, true);
    AcceptedCount(store[x].networks, false);
    forall y | y in store && y != x
      ensures AcceptedAddresses(store[x].networks, false) !! AcceptedAddresses(store[y].networks, false)
    {
      forall n | n in AcceptedAddresses(store[x].networks, false)
        ensures n !in AcceptedAddresses(store[y].networks, false)
      {
        StoredBlocksDisjoint(blocks, map[], tenants, store, x, y, n - n % BLOCK);
      }
    }
  }
}
