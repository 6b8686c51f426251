/** How adding and removing rules changes an account's list, and what that means for
    decisions over whole sequences of changes (internal/acl/acl.go). */
module AclRuleList {
  import opened Text
  import opened AclRules
  import opened AclSort
  import opened AclIndex

  function HasID(id: string): HotRule -> bool {
    (h: HotRule) => h.rule.id == id
  }

  function Added(list: seq<HotRule>, h: HotRule): seq<HotRule> {
    ExchangeSort(list + [h])
  }

  /** Without the first rule that carries the identifier. */
  function Removed(list: seq<HotRule>, id: string): seq<HotRule> {
    var i := FirstPos(list, HasID(id), 0);
    if i == |list| then list else list[..i] + list[i + 1..]
  }

  datatype Change = Add(h: HotRule) | Remove(id: string)

  function Apply(list: seq<HotRule>, c: Change): seq<HotRule> {
    match c
    case Add(h) => Added(list, h)
    case Remove(id) => Removed(list, id)
  }

  function Run(list: seq<HotRule>, changes: seq<Change>): seq<HotRule> {
    if changes == [] then list
    else Apply(Run(list, changes[..|changes| - 1]), changes[|changes| - 1])
  }

  /** What the manager keeps true of every list, whatever rows it reads. */
  predicate Tidy(list: seq<HotRule>) {
    (forall i :: 0 <= i < |list| ==> list[i] == Hot(list[i].rule)) && Sorted(list)
  }

  /** ... and of lists whose rules were all validated. */
  predicate Kept(list: seq<HotRule>) {
    AllReady(list) && Sorted(list)
  }

  lemma SortKeeps(list: seq<HotRule>)
    requires forall i :: 0 <= i < |list| ==> list[i] == Hot(list[i].rule)
    ensures Tidy(ExchangeSort(list))
    ensures AllReady(list) ==> AllReady(ExchangeSort(list))
  {
    ExchangeSortSorts(list);
    assert forall i :: 0 <= i < |ExchangeSort(list)| ==> ExchangeSort(list)[i] in list;
  }

  lemma AddedKept(list: seq<HotRule>, h: HotRule)
    requires Tidy(list) && h == Hot(h.rule)
    ensures Tidy(Added(list, h))
    ensures AllReady(list) && Ready(h) ==> AllReady(Added(list, h))
    ensures multiset(Added(list, h)) == multiset(list) + multiset{h}
  {
    SortKeeps(list + [h]);
    ExchangeSortSorts(list + [h]);
  }

  lemma RemovedKept(list: seq<HotRule>, id: string)
    requires Tidy(list)
    ensures Tidy(Removed(list, id))
    ensures AllReady(list) ==> AllReady(Removed(list, id))
  {
    var i := FirstPos(list, HasID(id), 0);
    if i < |list| {
      CutKept(list, i, list[..i] + list[i + 1..]);
    }
  }

  lemma CutKept(list: seq<HotRule>, i: nat, r: seq<HotRule>)
    requires Tidy(list) && i < |list| && r == list[..i] + list[i + 1..]
    ensures Tidy(r)
    ensures AllReady(list) ==> AllReady(r)
  {
    forall k | 0 <= k < |r| ensures r[k] == list[if k < i then k else k + 1] {
    }
    forall j, k | 0 <= j < k < |r| ensures r[j].rule.priority <= r[k].rule.priority {
      assert r[j] == list[if j < i then j else j + 1] && r[k] == list[if k < i then k else k + 1];
    }
  }

  lemma {:induction false} RunKept(list: seq<HotRule>, changes: seq<Change>)
    requires Kept(list)
    requires forall i :: 0 <= i < |changes| && changes[i].Add? ==> Ready(changes[i].h)
    ensures Kept(Run(list, changes))
  {
    if changes == [] {
    } else {
      var front := changes[..|changes| - 1];
      RunKept(list, front);
      match changes[|changes| - 1]
      case Add(h) => AddedKept(Run(list, front), h);
      case Remove(id) => RemovedKept(Run(list, front), id);
    }
  }

  /** `h` matches the packet by `P` and no matching rule has a lower priority number. */
  predicate LowestMatch(list: seq<HotRule>, P: HotRule -> bool, h: HotRule) {
    h in list && P(h) && forall g :: g in list && P(g) ==> h.rule.priority <= g.rule.priority
  }

  /** After any sequence of additions and removals, a tcp or udp packet on a real port is
      decided by a matching rule of lowest priority number that names the port; failing
      that by a matching any-port rule of lowest priority number; failing that it is
      denied, unless there are no rules at all. */
  lemma {:induction false} DecisionAfterChanges(changes: seq<Change>, p: Packet)
    requires forall i :: 0 <= i < |changes| && changes[i].Add? ==> Ready(changes[i].h)
    requires UsesPorts(p.protocol) && IsPort(p.dstPort) && p.dstPort != 0
    ensures var list := Run([], changes);
            var d := Decide(list, BuildIndex(list), p);
            if list == [] then d == DEFAULT_ALLOW
            else if exists h :: h in list && NamesPort(p)(h) then
              exists h :: LowestMatch(list, NamesPort(p), h) && d == Verdict(Some(h))
            else if exists h :: h in list && AnyPort(p)(h) then
              exists h :: LowestMatch(list, AnyPort(p), h) && d == Verdict(Some(h))
            else d == DEFAULT_DENY
  {
    RunKept([], changes);
    var list := Run([], changes);
    PortDecision(list, p);
    var named, any := FirstWhere(list, NamesPort(p)), FirstWhere(list, AnyPort(p));
    if named.Some? {
      FirstIsLowest(list, NamesPort(p));
      assert LowestMatch(list, NamesPort(p), named.value);
    } else if any.Some? {
      FirstIsLowest(list, AnyPort(p));
      assert LowestMatch(list, AnyPort(p), any.value);
    }
  }

  // ----- Order of additions -----

  /** The changes that add the rules one after another. */
  function Additions(rules: seq<HotRule>): (r: seq<Change>)
    ensures |r| == |rules|
    ensures forall i :: 0 <= i < |rules| ==> r[i] == Add(rules[i])
  {
    seq(|rules|, i requires 0 <= i < |rules| => Add(rules[i]))
  }

  lemma {:induction false} AdditionsSort(rules: seq<HotRule>)
    ensures multiset(Run([], Additions(rules))) == multiset(rules)
    ensures Sorted(Run([], Additions(rules)))
  {
    if rules == [] {
    } else {
      var front, last := rules[..|rules| - 1], rules[|rules| - 1];
      assert Additions(rules)[..|rules| - 1] == Additions(front);
      AdditionsSort(front);
      ExchangeSortSorts(Run([], Additions(front)) + [last]);
      assert rules == front + [last];
    }
  }

  /** With pairwise distinct priorities the order of additions changes neither the list
      nor, therefore, any decision or reported rule. */
  lemma OrderOfAdditions(rules: seq<HotRule>, other: seq<HotRule>)
    requires DistinctPriorities(rules) && multiset(rules) == multiset(other)
    ensures Run([], Additions(rules)) == Run([], Additions(other))
  {
    AdditionsSort(rules);
    AdditionsSort(other);
    DistinctPermutation(rules, Run([], Additions(rules)));
    SortedUnique(Run([], Additions(rules)), Run([], Additions(other)));
  }

  lemma RemovedMultiset(list: seq<HotRule>, h: HotRule)
    requires h in list && forall g :: g in list && g.rule.id == h.rule.id ==> g == h
    ensures multiset(Removed(list, h.rule.id)) == multiset(list) - multiset{h}
  {
    var k :| 0 <= k < |list| && list[k] == h;
    var i := FirstPos(list, HasID(h.rule.id), 0);
    assert HasID(h.rule.id)(list[k]);
    assert list[i] == h;
    assert list == list[..i] + [h] + list[i + 1..];
  }

  lemma AddedOnce(list: seq<HotRule>, h: HotRule)
    requires Kept(list) && Ready(h)
    requires forall g :: g in list ==> g.rule.id != h.rule.id
    ensures Kept(Removed(Added(list, h), h.rule.id))
    ensures multiset(Removed(Added(list, h), h.rule.id)) == multiset(list)
  {
    AddedKept(list, h);
    ExchangeSortSorts(list + [h]);
    var added := Added(list, h);
    forall g | g in added && g.rule.id == h.rule.id ensures g == h {
      assert g in list + [h];
    }
    assert h in list + [h];
    RemovedMultiset(added, h);
    RemovedKept(added, h.rule.id);
  }

  /** Removing a rule that was just added restores the list and with it every decision,
      when priorities are distinct and the identifier is new. */
  lemma RemoveUndoesAdd(list: seq<HotRule>, h: HotRule)
    requires Kept(list) && Ready(h) && DistinctPriorities(list)
    requires forall g :: g in list ==> g.rule.id != h.rule.id
    ensures Removed(Added(list, h), h.rule.id) == list
  {
    AddedOnce(list, h);
    SortedUnique(list, Removed(Added(list, h), h.rule.id));
  }

  // ----- What the index leaves open -----

  lemma SubsetHasNoMatch(list: seq<HotRule>, rest: seq<HotRule>, p: Packet)
    requires forall h :: h in rest ==> h in list
    requires forall i :: 0 <= i < |list| ==> !Slow(p)(list[i])
    ensures LinearScan(rest, p) == None
  {
    forall i | 0 <= i < |rest| ensures !Slow(p)(rest[i]) {
      assert rest[i] in list;
    }
  }

  /** What the index does not decide for tcp or udp, no rule matches. */
  lemma {:induction false} IndexMissesNothing(list: seq<HotRule>, p: Packet)
    requires AllReady(list) && UsesPorts(p.protocol) && IsPort(p.dstPort)
    requires IndexedLookup(BuildIndex(list), p) == None
    ensures forall i :: 0 <= i < |list| ==> !Slow(p)(list[i])
  {
    if p.dstPort != 0 {
      PortDecision(list, p);
      forall i | 0 <= i < |list| ensures !Slow(p)(list[i]) {
        assert !NamesPort(p)(list[i]) && !AnyPort(p)(list[i]);
      }
    } else {
      ZeroBucketMeaning(list, p, Slow(p));
    }
  }
}
