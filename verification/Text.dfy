/** Decimal numerals and dotted-quad IPv4 addresses.

    The ACL engine compares addresses once as text and once parsed, and the
    decision cache builds its keys from text, so both need to know that reading
    and writing are inverse to each other. Only dotted quads are modelled; IPv6
    notation does not parse here. */
module Text {

  datatype Option<+T> = None | Some(value: T)

  predicate IsDigit(c: char) {
    '0' <= c <= '9'
  }

  function Digit(n: nat): (c: char)
    requires n < 10
    ensures IsDigit(c) && c as int - '0' as int == n
  {
    ('0' as int + n) as char
  }

  predicate AllDigits(s: string) {
    forall i :: 0 <= i < |s| ==> IsDigit(s[i])
  }

  /** The numeral `%d` writes for a non-negative integer. */
  function Decimal(n: nat): (s: string)
    ensures |s| > 0 && AllDigits(s)
  {
    if n < 10 then [Digit(n)] else Decimal(n / 10) + [Digit(n % 10)]
  }

  /** The numeral `%d` writes for an integer. */
  function DecimalInt(n: int): (s: string)
    ensures |s| > 0
    ensures forall i :: 0 <= i < |s| ==> IsDigit(s[i]) || s[i] == '-'
  {
    if n < 0 then "-" + Decimal(-n) else Decimal(n)
  }

  /** The number a string of digits denotes. */
  function Value(s: string): nat
    requires AllDigits(s)
  {
    if |s| == 0 then 0
    else Value(s[..|s| - 1]) * 10 + (s[|s| - 1] as int - '0' as int)
  }

  /** A numeral without superfluous leading zeros. */
  predicate Canonical(s: string) {
    AllDigits(s) && |s| > 0 && (s[0] == '0' ==> |s| == 1)
  }

  lemma {:induction false} DecimalReadsBack(n: nat)
    ensures Value(Decimal(n)) == n
    ensures Canonical(Decimal(n))
    ensures n > 0 ==> Decimal(n)[0] != '0'
  {
    if n >= 10 {
      DecimalReadsBack(n / 10);
      var s := Decimal(n);
      assert s[..|s| - 1] == Decimal(n / 10);
    } else {
      assert Decimal(n)[..0] == "";
    }
  }

  lemma {:induction false} CanonicalPositive(s: string)
    requires Canonical(s) && s[0] != '0'
    ensures Value(s) > 0
  {
    if |s| == 1 {
      assert s[..0] == "";
    } else {
      CanonicalPositive(s[..|s| - 1]);
    }
  }

  lemma {:induction false} CanonicalIsDecimal(s: string)
    requires Canonical(s)
    ensures Decimal(Value(s)) == s
  {
    var front, last := s[..|s| - 1], s[|s| - 1];
    assert s == front + [last];
    if |s| > 1 {
      CanonicalIsDecimal(front);
      CanonicalPositive(front);
      var v := Value(front);
      assert Value(s) == v * 10 + (last as int - '0' as int);
      assert Value(s) / 10 == v && Value(s) % 10 == last as int - '0' as int;
    }
  }

  lemma {:induction false} DecimalIntInjective(m: int, n: int)
    requires DecimalInt(m) == DecimalInt(n)
    ensures m == n
  {
    DecimalReadsBack(if m < 0 then -m else m);
    DecimalReadsBack(if n < 0 then -n else n);
    if m < 0 {
      assert DecimalInt(m)[1..] == Decimal(-m);
      assert DecimalInt(m)[0] == '-';
    }
    if n < 0 {
      assert DecimalInt(n)[1..] == Decimal(-n);
      assert DecimalInt(n)[0] == '-';
    }
  }

  /** Position of the first `c` at or after `from`, or the length of `s`. */
  function IndexOf(s: string, c: char, from: nat): (i: nat)
    requires from <= |s|
    ensures from <= i <= |s|
    ensures forall k :: from <= k < i ==> s[k] != c
    ensures i < |s| ==> s[i] == c
    decreases |s| - from
  {
    if from == |s| || s[from] == c then from else IndexOf(s, c, from + 1)
  }

  type Octet = n: nat | n < 256

  /** The fields of a dotted text, separated by full stops. */
  function JoinFields(fields: seq<Octet>): string {
    if |fields| == 0 then ""
    else if |fields| == 1 then Decimal(fields[0])
    else Decimal(fields[0]) + ("." + JoinFields(fields[1..]))
  }

  function ParseOctet(s: string): Option<Octet> {
    if Canonical(s) && |s| <= 3 && Value(s) < 256 then Some(Value(s)) else None
  }

  function ParseFields(s: string, n: nat): (r: Option<seq<Octet>>)
    requires n > 0
    ensures r.Some? ==> |r.value| == n
  {
    if n == 1 then
      match ParseOctet(s) case Some(o) => Some([o]) case None => None
    else
      var i := IndexOf(s, '.', 0);
      if i == |s| then None else
      match (ParseOctet(s[..i]), ParseFields(s[i + 1..], n - 1))
      case (Some(o), Some(os)) => Some([o] + os)
      case _ => None
  }

  lemma {:induction false} OctetText(n: Octet)
    ensures ParseOctet(Decimal(n)) == Some(n)
  {
    DecimalReadsBack(n);
    if n >= 100 {
      assert |Decimal(n / 10 / 10)| == 1;
      assert |Decimal(n / 10)| == 2;
    }
    assert |Decimal(n)| <= 3;
  }

  /** The first full stop after a numeral is the one that ends it. */
  lemma SplitsAfterNumeral(first: string, rest: string)
    requires AllDigits(first)
    ensures var s := first + ("." + rest);
            IndexOf(s, '.', 0) == |first| && s[..|first|] == first && s[|first| + 1..] == rest
  {
    var s := first + ("." + rest);
    assert s[|first|] == '.';
    assert forall k :: 0 <= k < |first| ==> s[k] == first[k];
  }

  /** Parsing one field and then the rest. */
  lemma {:induction false} ParseCons(o: Octet, os: seq<Octet>, rest: string)
    requires |os| > 0 && ParseFields(rest, |os|) == Some(os)
    ensures ParseFields(Decimal(o) + ("." + rest), |os| + 1) == Some([o] + os)
  {
    OctetText(o);
    SplitsAfterNumeral(Decimal(o), rest);
  }

  lemma {:induction false} FieldsReadBack(fields: seq<Octet>)
    requires |fields| > 0
    ensures ParseFields(JoinFields(fields), |fields|) == Some(fields)
  {
    if |fields| > 1 {
      FieldsReadBack(fields[1..]);
      ParseCons(fields[0], fields[1..], JoinFields(fields[1..]));
      assert fields == [fields[0]] + fields[1..];
    } else {
      OctetText(fields[0]);
      assert fields == [fields[0]];
    }
  }

  lemma {:induction false} JoinCons(o: Octet, os: seq<Octet>)
    requires |os| > 0
    ensures JoinFields([o] + os) == Decimal(o) + ("." + JoinFields(os))
  {
    var fields := [o] + os;
    assert fields[0] == o && fields[1..] == os;
  }

  lemma SplitAt(s: string, i: nat)
    requires i < |s| && s[i] == '.'
    ensures s == s[..i] + ("." + s[i + 1..])
  {
  }

  lemma {:induction false} ParsedFieldsJoin(s: string, n: nat)
    requires n > 0 && ParseFields(s, n).Some?
    ensures s == JoinFields(ParseFields(s, n).value)
  {
    if n == 1 {
      CanonicalIsDecimal(s);
    } else {
      var i := IndexOf(s, '.', 0);
      CanonicalIsDecimal(s[..i]);
      ParsedFieldsJoin(s[i + 1..], n - 1);
      JoinCons(ParseOctet(s[..i]).value, ParseFields(s[i + 1..], n - 1).value);
      SplitAt(s, i);
    }
  }

  datatype IPv4 = IPv4(a: Octet, b: Octet, c: Octet, d: Octet)

  function Dotted(ip: IPv4): string {
    JoinFields([ip.a, ip.b, ip.c, ip.d])
  }

  /** Model of `net.ParseIP` on dotted quads. */
  function ParseIP(s: string): Option<IPv4> {
    match ParseFields(s, 4)
    case Some(f) => Some(IPv4(f[0], f[1], f[2], f[3]))
    case None => None
  }

  /** Writing an address and reading it back is the identity. */
  lemma DottedReadsBack(ip: IPv4)
    ensures ParseIP(Dotted(ip)) == Some(ip)
  {
    FieldsReadBack([ip.a, ip.b, ip.c, ip.d]);
  }

  /** A text that parses is the canonical text of the address it denotes. */
  lemma ParsedIsDotted(s: string)
    requires ParseIP(s).Some?
    ensures s == Dotted(ParseIP(s).value)
  {
    ParsedFieldsJoin(s, 4);
    var f := ParseFields(s, 4).value;
    assert f == [f[0], f[1], f[2], f[3]];
  }

  /** Hence two texts that denote the same address are the same text. */
  lemma ParseIPInjective(s: string, t: string)
    requires ParseIP(s).Some? && ParseIP(s) == ParseIP(t)
    ensures s == t
  {
    ParsedIsDotted(s);
    ParsedIsDotted(t);
  }

  lemma AnyIsNoAddress()
    ensures ParseIP("any") == None
  {
    assert IndexOf("any", '.', 0) == 3;
  }

  /** The 32-bit number of an address. */
  function Number(ip: IPv4): (n: nat)
    ensures n < 0x1_0000_0000
  {
    ((ip.a * 256 + ip.b) * 256 + ip.c) * 256 + ip.d
  }

  function FromNumber(n: nat): (ip: IPv4)
    requires n < 0x1_0000_0000
    ensures Number(ip) == n
  {
    var abc := n / 256;
    var ab := abc / 256;
    assert n == abc * 256 + n % 256 && abc == ab * 256 + abc % 256 && ab == ab / 256 * 256 + ab % 256;
    IPv4(ab / 256, ab % 256, abc % 256, n % 256)
  }

  lemma NumberInjective(x: IPv4, y: IPv4)
    requires Number(x) == Number(y)
    ensures x == y
  {
    var abc, abc' := (x.a * 256 + x.b) * 256 + x.c, (y.a * 256 + y.b) * 256 + y.c;
    assert abc == abc' && x.d == y.d;
    var ab, ab' := x.a * 256 + x.b, y.a * 256 + y.b;
    assert ab == ab' && x.c == y.c;
  }
}
