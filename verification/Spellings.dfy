/** How addresses are written and read. */
module Spellings {
  import opened Text

  /** How a text is read: not as an address, as an IPv4 address, also in its IPv6-mapped form,
      or as some other IPv6 address, given by its number. */
  datatype Address = NotAddress | V4(ip: IPv4) | V6(number: nat)

  /** The reader of addresses, `net.ParseIP`. */
  type Reader = string -> Address

  /** What is needed of it: it reads dotted quads, and the mapped form of section 2.5.5.2 of RFC
      4291. It may read further spellings. */
  ghost predicate Reads(read: Reader) {
    (forall ip: IPv4 :: read(Dotted(ip)) == V4(ip)) && (forall ip: IPv4 :: read(Mapped(ip)) == V4(ip))
  }

  function Mapped(ip: IPv4): string {
    "::ffff:" + Dotted(ip)
  }

  /** The reader that knows these two spellings and no other. */
  function ReadV4(s: string): Address {
    var text := if |s| >= 7 && s[..7] == "::ffff:" then s[7..] else s;
    match ParseIP(text)
    case Some(ip) => V4(ip)
    case None => NotAddress
  }

  lemma ReadV4Reads()
    ensures Reads(ReadV4)
  {
    forall ip: IPv4
      ensures ReadV4(Dotted(ip)) == V4(ip) && ReadV4(Mapped(ip)) == V4(ip)
    {
      DottedReadsBack(ip);
      DottedChars(ip);
      assert Mapped(ip)[..7] == "::ffff:" && Mapped(ip)[7..] == Dotted(ip);
      assert |Dotted(ip)| >= 7 ==> Dotted(ip)[..7][0] != ':';
    }
  }

  lemma DottedChars(ip: IPv4)
    ensures forall i :: 0 <= i < |Dotted(ip)| ==> IsDigit(Dotted(ip)[i]) || Dotted(ip)[i] == '.'
  {
    FieldChars([ip.a, ip.b, ip.c, ip.d]);
  }

  lemma {:induction false} FieldChars(fields: seq<Octet>)
    ensures forall i :: 0 <= i < |JoinFields(fields)| ==> IsDigit(JoinFields(fields)[i]) || JoinFields(fields)[i] == '.'
  {
    if |fields| > 1 {
      FieldChars(fields[1..]);
    }
  }

  lemma MappedIsNotDotted(ip: IPv4, other: IPv4)
    ensures Mapped(ip) != Dotted(other)
  {
    DottedChars(other);
    assert Mapped(ip)[0] == ':';
  }
}
