/** Rules whose addresses are not all written as plain dotted quads (internal/acl/acl.go). A rule
    keeps the addresses as written and as read; one path compares texts, the other what they are
    read as. */
module AclSpellings {
  import opened Text
  import opened Spellings
  import opened AclRules

  /** What `optimizeRule` keeps of a list: the addresses of either version. */
  function ReadIPs(read: Reader, ips: seq<string>): seq<Address> {
    if ips == [] then []
    else
      var front, last := ReadIPs(read, ips[..|ips| - 1]), ips[|ips| - 1];
      if last != "any" && read(last) != NotAddress then front + [read(last)] else front
  }

  /** The hot path's test of a packet's address. */
  predicate MatchesRead(read: Reader, ips: seq<string>, s: string) {
    "any" in ips || ReadIPs(read, ips) == [] || (read(s) != NotAddress && read(s) in ReadIPs(read, ips))
  }

  lemma {:induction false} ReadMembers(read: Reader, ips: seq<string>, a: Address)
    ensures a in ReadIPs(read, ips) <==>
      a != NotAddress && exists i :: 0 <= i < |ips| && ips[i] != "any" && read(ips[i]) == a
  {
    if ips == [] {
    } else {
      var front, last := ips[..|ips| - 1], ips[|ips| - 1];
      assert ips == front + [last];
      ReadMembers(read, front, a);
      if i :| 0 <= i < |ips| && ips[i] != "any" && read(ips[i]) == a {
        assert i < |front| ==> front[i] == ips[i];
      }
      if i :| 0 <= i < |front| && front[i] != "any" && read(front[i]) == a {
        assert ips[i] == front[i];
      }
    }
  }

  /** Every entry that is not "any" is read as an address. */
  predicate AllRead(read: Reader, ips: seq<string>) {
    forall i :: 0 <= i < |ips| ==> ips[i] == "any" || read(ips[i]) != NotAddress
  }

  /** Every text that is read as a listed address is listed itself. */
  ghost predicate AllSpelled(read: Reader, ips: seq<string>) {
    forall s :: read(s) in ReadIPs(read, ips) ==> s in ips
  }

  /** A text longer than every text of the list. */
  function Longer(ips: seq<string>): (s: string)
    ensures forall i :: 0 <= i < |ips| ==> |ips[i]| < |s|
  {
    if ips == [] then "x"
    else
      var front, last := Longer(ips[..|ips| - 1]), ips[|ips| - 1];
      if |last| < |front| then front else last + "x"
  }

  /** For every reader, comparing texts and comparing what is read agree on all packets, however
      their addresses are spelled, if and only if the list is empty, says "any", or consists of
      addresses and lists each in every spelling. */
  lemma TextsAgreeExactly(read: Reader, ips: seq<string>)
    ensures (forall s :: MatchesRead(read, ips, s) == IPMatches(s, ips)) <==>
      ips == [] || "any" in ips || (AllRead(read, ips) && AllSpelled(read, ips))
  {
    if ips != [] && "any" !in ips {
      forall s | s in ips && read(s) != NotAddress
        ensures read(s) in ReadIPs(read, ips)
      {
        ReadMembers(read, ips, read(s));
      }
      ReadMembers(read, ips, NotAddress);
      if AllRead(read, ips) && AllSpelled(read, ips) {
        assert read(ips[0]) in ReadIPs(read, ips);
      } else {
        Disagree(read, ips);
      }
    }
  }

  lemma Disagree(read: Reader, ips: seq<string>)
    requires ips != [] && "any" !in ips && !(AllRead(read, ips) && AllSpelled(read, ips))
    ensures exists s :: MatchesRead(read, ips, s) != IPMatches(s, ips)
  {
    var bad: string;
    ReadMembers(read, ips, NotAddress);
    if ReadIPs(read, ips) == [] {
      bad := Longer(ips);
    } else if !AllRead(read, ips) {
      var i :| 0 <= i < |ips| && read(ips[i]) == NotAddress;
      bad := ips[i];
    } else {
      bad :| read(bad) in ReadIPs(read, ips) && bad !in ips;
    }
    assert MatchesRead(read, ips, bad) != IPMatches(bad, ips);
  }

  // ----- Packets with plain texts -----

  /** Some entry is read, and the plain text of every IPv4 address that is read is listed as well. */
  ghost predicate PlainlyListed(read: Reader, ips: seq<string>) {
    && ReadIPs(read, ips) != []
    && forall ip: IPv4 :: V4(ip) in ReadIPs(read, ips) ==> Dotted(ip) in ips
  }

  lemma DottedIsNotAny(ip: IPv4)
    ensures Dotted(ip) != "any"
  {
    DottedReadsBack(ip);
    AnyIsNoAddress();
  }

  /** Comparing texts and comparing what is read agree on every packet with plain IPv4 texts if and
      only if the list is empty, says "any", or names some address and lists the plain text of
      every IPv4 address it names. */
  lemma PathsAgreeExactly(read: Reader, ips: seq<string>)
    requires Reads(read)
    ensures (forall ip: IPv4 :: MatchesRead(read, ips, Dotted(ip)) == IPMatches(Dotted(ip), ips)) <==>
      ips == [] || "any" in ips || PlainlyListed(read, ips)
  {
    forall ip: IPv4
      ensures Dotted(ip) in ips ==> V4(ip) in ReadIPs(read, ips)
    {
      ReadMembers(read, ips, V4(ip));
      DottedIsNotAny(ip);
    }
    if ips != [] && "any" !in ips && !PlainlyListed(read, ips) {
      var bad: IPv4;
      if ReadIPs(read, ips) == [] {
        bad := IPv4(0, 0, 0, 0);
      } else {
        bad :| V4(bad) in ReadIPs(read, ips) && Dotted(bad) !in ips;
      }
      assert MatchesRead(read, ips, Dotted(bad)) != IPMatches(Dotted(bad), ips);
    }
  }

  /** For instance a list of one mapped address: what is read matches the address written plainly,
      the text does not. */
  lemma OtherSpelling(read: Reader, ip: IPv4)
    requires Reads(read)
    ensures MatchesRead(read, [Mapped(ip)], Dotted(ip)) && !IPMatches(Dotted(ip), [Mapped(ip)])
  {
    MappedIsNotDotted(ip, ip);
    assert Mapped(ip)[0] == ':' && [Mapped(ip)][0] == Mapped(ip);
    ReadMembers(read, [Mapped(ip)], V4(ip));
  }

  /** A list of other IPv6 addresses only: no plain packet matches on either path. */
  lemma OnlyV6(read: Reader, ips: seq<string>, ip: IPv4)
    requires Reads(read) && ips != [] && forall i :: 0 <= i < |ips| ==> ips[i] != "any" && read(ips[i]).V6?
    ensures !MatchesRead(read, ips, Dotted(ip)) && !IPMatches(Dotted(ip), ips)
  {
    ReadMembers(read, ips, V4(ip));
    ReadMembers(read, ips, read(ips[0]));
  }
}
