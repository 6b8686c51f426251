/** The in-place exchange sort that keeps an account's rules in priority order
    (internal/acl/acl.go, `sortRules`). */
module AclSort {
  import opened AclRules

  /** One comparison of the inner loop. */
  function Exchange(s: seq<HotRule>, i: nat, j: nat): (r: seq<HotRule>)
    requires i < j < |s|
    ensures |r| == |s|
  {
    if s[j].rule.priority < s[i].rule.priority then s[i := s[j]][j := s[i]] else s
  }

  /** What one run of the inner loop does from position `j` on. */
  function InnerPass(s: seq<HotRule>, i: nat, j: nat): (r: seq<HotRule>)
    requires i < j <= |s|
    ensures |r| == |s|
    decreases |s| - j
  {
    if j == |s| then s else InnerPass(Exchange(s, i, j), i, j + 1)
  }

  /** What the outer loop does from position `i` on. */
  function OuterPass(s: seq<HotRule>, i: nat): (r: seq<HotRule>)
    requires i <= |s|
    ensures |r| == |s|
    decreases |s| - i
  {
    if i == |s| then s else OuterPass(InnerPass(s, i, i + 1), i + 1)
  }

  function ExchangeSort(s: seq<HotRule>): seq<HotRule> {
    OuterPass(s, 0)
  }

  method SortRules(rules: array<HotRule>)
    modifies rules
    ensures rules[..] == ExchangeSort(old(rules[..]))
  {
    var i := 0;
    while i < rules.Length
      invariant 0 <= i <= rules.Length
      invariant OuterPass(rules[..], i) == ExchangeSort(old(rules[..]))
    {
      BringLeast(rules, i);
      i := i + 1;
    }
  }

  /** The inner loop. */
  method BringLeast(rules: array<HotRule>, i: nat)
    requires i < rules.Length
    modifies rules
    ensures rules[..] == InnerPass(old(rules[..]), i, i + 1)
  {
    var j := i + 1;
    while j < rules.Length
      invariant i < j <= rules.Length
      invariant InnerPass(rules[..], i, j) == InnerPass(old(rules[..]), i, i + 1)
    {
      ghost var s := rules[..];
      if rules[j].rule.priority < rules[i].rule.priority {
        rules[i], rules[j] := rules[j], rules[i];
        assert rules[..] == s[i := s[j]][j := s[i]];
      }
      j := j + 1;
    }
  }

  predicate Sorted(s: seq<HotRule>) {
    forall i, j :: 0 <= i < j < |s| ==> s[i].rule.priority <= s[j].rule.priority
  }

  /** Positions before `i` hold their final rule: nothing after them is smaller. */
  predicate Settled(s: seq<HotRule>, i: nat) {
    forall x, y :: 0 <= x < i && x < y < |s| ==> s[x].rule.priority <= s[y].rule.priority
  }

  /** Position `i` holds a rule no larger than those between it and `j`. */
  predicate Least(s: seq<HotRule>, i: nat, j: nat) {
    i < j <= |s| && forall y :: i < y < j ==> s[i].rule.priority <= s[y].rule.priority
  }

  lemma ExchangeKeeps(s: seq<HotRule>, i: nat, j: nat)
    requires j < |s| && Settled(s, i) && Least(s, i, j)
    ensures var t := Exchange(s, i, j);
            Settled(t, i) && Least(t, i, j + 1)
  {
    var t := Exchange(s, i, j);
    assert forall x :: 0 <= x < i ==> t[x] == s[x];
    assert forall y :: i < y < j ==> t[y] == s[y];
  }

  lemma PassEndsSettled(s: seq<HotRule>, i: nat)
    requires Settled(s, i) && Least(s, i, |s|)
    ensures Settled(s, i + 1)
  {
  }

  /** The inner loop after one comparison. */
  lemma InnerStep(s: seq<HotRule>, i: nat, j: nat) returns (e: seq<HotRule>)
    requires i < j < |s|
    ensures |e| == |s| && multiset(e) == multiset(s) && InnerPass(s, i, j) == InnerPass(e, i, j + 1)
  {
    e := Exchange(s, i, j);
  }

  lemma {:induction false} InnerPassPermutes(s: seq<HotRule>, i: nat, j: nat, r: seq<HotRule>)
    requires i < j <= |s| && r == InnerPass(s, i, j)
    ensures multiset(r) == multiset(s)
    decreases |s| - j
  {
    if j == |s| {
    } else {
      var e := InnerStep(s, i, j);
      InnerPassPermutes(e, i, j + 1, r);
    }
  }

  lemma {:induction false} InnerPassSettles(s: seq<HotRule>, i: nat, j: nat, r: seq<HotRule>)
    requires Settled(s, i) && Least(s, i, j) && r == InnerPass(s, i, j)
    ensures Settled(r, i + 1)
    decreases |s| - j
  {
    if j == |s| {
      PassEndsSettled(s, i);
    } else {
      ExchangeKeeps(s, i, j);
      InnerPassSettles(Exchange(s, i, j), i, j + 1, r);
    }
  }

  lemma {:induction false} OuterPassPermutes(s: seq<HotRule>, i: nat)
    requires i <= |s|
    ensures multiset(OuterPass(s, i)) == multiset(s)
    decreases |s| - i
  {
    if i == |s| {
    } else {
      InnerPassPermutes(s, i, i + 1, InnerPass(s, i, i + 1));
      OuterPassPermutes(InnerPass(s, i, i + 1), i + 1);
    }
  }

  lemma {:induction false} OuterPassSorts(s: seq<HotRule>, i: nat, r: seq<HotRule>)
    requires i <= |s| && Settled(s, i) && r == OuterPass(s, i)
    ensures Settled(r, |r|)
    decreases |s| - i
  {
    if i == |s| {
    } else {
      var t := InnerPass(s, i, i + 1);
      InnerPassSettles(s, i, i + 1, t);
      OuterPassSorts(t, i + 1, r);
    }
  }

  /** The result is in priority order and holds exactly the given rules. */
  lemma ExchangeSortSorts(s: seq<HotRule>)
    ensures Sorted(ExchangeSort(s))
    ensures multiset(ExchangeSort(s)) == multiset(s)
    ensures forall h :: h in ExchangeSort(s) <==> h in s
  {
    OuterPassPermutes(s, 0);
    OuterPassSorts(s, 0, ExchangeSort(s));
    forall h ensures h in ExchangeSort(s) <==> h in s {
      assert h in multiset(s) <==> h in s;
      assert h in multiset(ExchangeSort(s)) <==> h in ExchangeSort(s);
    }
  }

  predicate DistinctPriorities(s: seq<HotRule>) {
    forall i, j :: 0 <= i < j < |s| ==> s[i].rule.priority != s[j].rule.priority
  }

  lemma MinimumIsHead(s: seq<HotRule>, h: HotRule)
    requires Sorted(s) && h in multiset(s)
    ensures s != [] && s[0].rule.priority <= h.rule.priority
  {
    var i :| 0 <= i < |s| && s[i] == h;
  }

  lemma SamePriority(s: seq<HotRule>, g: HotRule, h: HotRule)
    requires DistinctPriorities(s) && g in multiset(s) && h in multiset(s)
    requires g.rule.priority == h.rule.priority
    ensures g == h
  {
    var i :| 0 <= i < |s| && s[i] == g;
    var j :| 0 <= j < |s| && s[j] == h;
  }

  lemma TailMultiset(s: seq<HotRule>)
    requires s != []
    ensures multiset(s[1..]) == multiset(s) - multiset{s[0]}
  {
    assert s == [s[0]] + s[1..];
  }

  lemma SortedHead(s: seq<HotRule>, t: seq<HotRule>)
    requires Sorted(s) && Sorted(t) && multiset(s) == multiset(t)
    requires DistinctPriorities(s) && s != [] && t != []
    ensures s[0] == t[0] && multiset(s[1..]) == multiset(t[1..])
  {
    assert s[0] in multiset(s) && t[0] in multiset(t);
    MinimumIsHead(s, t[0]);
    MinimumIsHead(t, s[0]);
    SamePriority(s, s[0], t[0]);
    TailMultiset(s);
    TailMultiset(t);
  }

  /** With pairwise distinct priorities there is only one sorted order. */
  lemma {:induction false} SortedUnique(s: seq<HotRule>, t: seq<HotRule>)
    requires Sorted(s) && Sorted(t) && multiset(s) == multiset(t)
    requires DistinctPriorities(s)
    ensures s == t
  {
    assert |multiset(s)| == |s| && |multiset(t)| == |t|;
    if s != [] {
      SortedHead(s, t);
      SortedUnique(s[1..], t[1..]);
      assert s == [s[0]] + s[1..] && t == [t[0]] + t[1..];
    }
  }

  lemma DistinctPermutation(s: seq<HotRule>, t: seq<HotRule>)
    requires DistinctPriorities(s) && multiset(s) == multiset(t)
    ensures DistinctPriorities(t)
  {
    assert |multiset(s)| == |s| && |multiset(t)| == |t|;
    forall i, j | 0 <= i < j < |t| ensures t[i].rule.priority != t[j].rule.priority {
      assert t[i] in multiset(t) && t[j] in multiset(t);
      assert t[i] in s && t[j] in s;
      var x :| 0 <= x < |s| && s[x] == t[i];
      var y :| 0 <= y < |s| && s[y] == t[j];
      OneEach(s, x);
      TwiceCounts(t, i, j);
    }
  }

  lemma TwiceCounts(t: seq<HotRule>, i: nat, j: nat)
    requires i < j < |t|
    ensures t[i] == t[j] ==> multiset(t)[t[i]] >= 2
  {
    assert t == t[..i] + [t[i]] + t[i + 1..j] + [t[j]] + t[j + 1..];
  }

  lemma OneEach(s: seq<HotRule>, x: nat)
    requires DistinctPriorities(s) && x < |s|
    ensures multiset(s)[s[x]] == 1
  {
    assert s == s[..x] + [s[x]] + s[x + 1..];
    assert s[x] !in s[..x] && s[x] !in s[x + 1..];
    assert s[x] !in multiset(s[..x]) && s[x] !in multiset(s[x + 1..]);
  }
}
