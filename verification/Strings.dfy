/** Letter case and white space, for ASCII text. */
module Strings {
  predicate IsSpace(c: char) {
    c == ' ' || c == '\t' || c == '\n' || c == '\r' || c as int == 11 || c as int == 12
  }

  function TrimLeft(s: string): (r: string)
    ensures |r| <= |s|
    ensures r != "" ==> !IsSpace(r[0])
  {
    if s != "" && IsSpace(s[0]) then TrimLeft(s[1..]) else s
  }

  function TrimRight(s: string): (r: string)
    ensures |r| <= |s| && r == s[..|r|]
    ensures r != "" ==> !IsSpace(r[|r| - 1])
  {
    if s != "" && IsSpace(s[|s| - 1]) then TrimRight(s[..|s| - 1]) else s
  }

  /** `strings.TrimSpace`. */
  function TrimSpace(s: string): (r: string)
    ensures |r| <= |s|
    ensures r != "" ==> !IsSpace(r[0]) && !IsSpace(r[|r| - 1])
  {
    TrimRight(TrimLeft(s))
  }

  /** Tab, line feed, vertical tab, form feed, carriage return and space. */
  predicate Blank(s: string) {
    forall i :: 0 <= i < |s| ==> 9 <= s[i] as int <= 13 || s[i] == ' '
  }

  lemma BlankChar(c: char)
    ensures Blank([c]) <==> IsSpace(c)
  {
    assert [c][0] == c;
  }

  lemma {:induction false} LeftBlank(s: string) returns (i: nat)
    ensures i <= |s| && TrimLeft(s) == s[i..] && Blank(s[..i])
  {
    if s != "" && IsSpace(s[0]) {
      var k := LeftBlank(s[1..]);
      i := k + 1;
      assert s[..i] == [s[0]] + s[1..][..k];
    } else {
      i := 0;
    }
  }

  lemma {:induction false} RightBlank(s: string)
    ensures Blank(s[|TrimRight(s)|..])
  {
    if s != "" && IsSpace(s[|s| - 1]) {
      var n := |s| - 1;
      RightBlank(s[..n]);
      assert s[|TrimRight(s)|..] == s[..n][|TrimRight(s)|..] + [s[n]];
    }
  }

  /** What is trimmed off is white space at both ends, and all of it. */
  lemma TrimmedOff(s: string) returns (i: nat, j: nat)
    ensures i <= j <= |s| && TrimSpace(s) == s[i..j] && Blank(s[..i]) && Blank(s[j..])
    ensures i < j ==> !Blank([s[i]]) && !Blank([s[j - 1]])
  {
    i := LeftBlank(s);
    var left := TrimLeft(s);
    RightBlank(left);
    j := i + |TrimSpace(s)|;
    assert s[j..] == left[|TrimSpace(s)|..];
    assert TrimSpace(s) == s[i..j];
    if i < j {
      BlankChar(s[i]);
      BlankChar(s[j - 1]);
    }
  }

  function LowerChar(c: char): (r: char)
    ensures if 'A' <= c <= 'Z' then 'a' <= r <= 'z' && r as int - 'a' as int == c as int - 'A' as int else r == c
  {
    if 'A' <= c <= 'Z' then (c as int + 32) as char else c
  }

  /** `strings.ToLower`. */
  function ToLower(s: string): (r: string)
    ensures |r| == |s|
  {
    seq(|s|, i requires 0 <= i < |s| => LowerChar(s[i]))
  }
}
