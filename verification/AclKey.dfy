/** The text key under which a decision is cached (internal/cache/integration.go). */
module AclKey {
  import opened Text
  import opened AclRules

  function Key(accountID: string, p: Packet): string {
    "acl:" + accountID + ":" + p.protocol + ":" + p.srcIP + ":" + p.dstIP + ":" + DecimalInt(p.dstPort)
  }

  lemma KeyNotEmpty(accountID: string, p: Packet)
    ensures Key(accountID, p) != ""
  {
  }

  predicate ColonFree(s: string) {
    forall i :: 0 <= i < |s| ==> s[i] != ':'
  }

  /** Packets whose text fields contain no separator, such as dotted-quad ones. */
  predicate Plain(p: Packet) {
    ColonFree(p.protocol) && ColonFree(p.srcIP) && ColonFree(p.dstIP)
  }

  /** A colon-free last field can be told apart from what precedes it. */
  lemma LastField(x: string, y: string, x': string, y': string)
    requires x + ":" + y == x' + ":" + y'
    requires ColonFree(y) && ColonFree(y')
    ensures x == x' && y == y'
  {
    var s, t := x + ":" + y, x' + ":" + y';
    assert s[|x|] == ':' && t[|x'|] == ':';
    assert forall i :: |x| < i < |s| ==> s[i] == y[i - |x| - 1];
    assert forall i :: |x'| < i < |t| ==> t[i] == y'[i - |x'| - 1];
    assert |x| == |x'|;
    assert x == s[..|x|] && x' == t[..|x|];
    assert y == s[|x| + 1..] && y' == t[|x| + 1..];
  }

  /** Whatever the account identifiers contain, two plain packets share a key only if
      account and packet are the same. */
  lemma KeyInjective(a: string, p: Packet, b: string, q: Packet)
    requires Plain(p) && Plain(q) && Key(a, p) == Key(b, q)
    ensures a == b && p == q
  {
    LastField("acl:" + a + ":" + p.protocol + ":" + p.srcIP + ":" + p.dstIP, DecimalInt(p.dstPort),
              "acl:" + b + ":" + q.protocol + ":" + q.srcIP + ":" + q.dstIP, DecimalInt(q.dstPort));
    DecimalIntInjective(p.dstPort, q.dstPort);
    LastField("acl:" + a + ":" + p.protocol + ":" + p.srcIP, p.dstIP, "acl:" + b + ":" + q.protocol + ":" + q.srcIP, q.dstIP);
    LastField("acl:" + a + ":" + p.protocol, p.srcIP, "acl:" + b + ":" + q.protocol, q.srcIP);
    LastField("acl:" + a, p.protocol, "acl:" + b, q.protocol);
    assert a == ("acl:" + a)[4..] && b == ("acl:" + b)[4..];
  }

  // ----- Keys of arbitrary queries -----

  function Colons(s: string): nat {
    if s == "" then 0 else Colons(s[..|s| - 1]) + (if s[|s| - 1] == ':' then 1 else 0)
  }

  lemma {:induction false} ColonsOfConcat(s: string, t: string)
    ensures Colons(s + t) == Colons(s) + Colons(t)
  {
    if t == "" {
      assert s + t == s;
    } else {
      ColonsOfConcat(s, t[..|t| - 1]);
      assert (s + t)[..|s + t| - 1] == s + t[..|t| - 1];
    }
  }

  lemma {:induction false} NoColons(s: string)
    ensures Colons(s) == 0 <==> ColonFree(s)
  {
    if s == "" {
    } else {
      NoColons(s[..|s| - 1]);
      assert s == s[..|s| - 1] + [s[|s| - 1]];
    }
  }

  /** One more field. */
  lemma {:induction false} ColonsOfField(s: string, field: string)
    ensures Colons(s + ":" + field) == Colons(s) + 1 + Colons(field)
  {
    ColonsOfConcat(s, ":");
    ColonsOfConcat(s + ":", field);
    assert ":"[..0] == "";
    assert Colons(":") == 1;
  }

  lemma {:induction false} ColonsOfKey(a: string, p: Packet)
    ensures Colons(Key(a, p)) == 5 + Colons(a) + Colons(p.protocol) + Colons(p.srcIP) + Colons(p.dstIP)
  {
    var x := "acl:" + a;
    NoColons("acl");
    ColonsOfField("acl", "");
    assert "acl" + ":" + "" == "acl:";
    assert Colons("") == 0;
    ColonsOfConcat("acl:", a);
    ColonsOfField(x, p.protocol);
    ColonsOfField(x + ":" + p.protocol, p.srcIP);
    ColonsOfField(x + ":" + p.protocol + ":" + p.srcIP, p.dstIP);
    ColonsOfField(x + ":" + p.protocol + ":" + p.srcIP + ":" + p.dstIP, DecimalInt(p.dstPort));
    NoColons(DecimalInt(p.dstPort));
  }

  /** Nothing in the query looks like a separator, as for an account identifier the portal draws
      and a dotted-quad packet. */
  predicate Unambiguous(a: string, p: Packet) {
    ColonFree(a) && Plain(p)
  }

  /** Such a query shares its key with no other, whatever the other contains. */
  lemma KeyUnambiguous(a: string, p: Packet, b: string, q: Packet)
    requires Unambiguous(a, p) && Key(a, p) == Key(b, q)
    ensures a == b && p == q
  {
    ColonsOfKey(a, p);
    ColonsOfKey(b, q);
    NoColons(a);
    NoColons(p.protocol);
    NoColons(p.srcIP);
    NoColons(p.dstIP);
    NoColons(q.protocol);
    NoColons(q.srcIP);
    NoColons(q.dstIP);
    KeyInjective(a, p, b, q);
  }

  /** With separators inside the fields two different queries can share a key. */
  lemma KeyCollision(a: string, src: string, dst: string, port: int)
    ensures Key(a, Packet("tcp:udp", src, dst, port)) == Key(a + ":tcp", Packet("udp", src, dst, port))
  {
    assert "tcp:udp" == "tcp" + ":" + "udp";
    assert "acl:" + a + ":" + "tcp:udp" == "acl:" + (a + ":tcp") + ":" + "udp";
  }

  /** The queries can be packets between IPv6 addresses of one account. */
  lemma AddressCollision(a: string, port: int)
    ensures Key(a, Packet("tcp", "::1:2", "3::", port)) == Key(a, Packet("tcp", "::1", "2:3::", port))
  {
    var x := "acl:" + a + ":" + "tcp" + ":";
    assert x + "::1:2" + ":" + "3::" == x + "::1" + ":" + "2:3::";
  }
}
