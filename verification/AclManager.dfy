/** The ACL manager: rule lists, index and decision cache kept together
    (internal/acl/acl.go). Sequential semantics; the interleaved one is AclInterleaving. */
module AclManager {
  import opened Text
  import opened Durations
  import opened AclRules
  import opened AclSort
  import opened AclIndex
  import opened AclRuleList
  import opened AclRefusal
  import opened AclLedger
  import opened AclKey
  import opened CacheShard
  import opened Cache

  /** The size `calculateSize` gives a decision held by reference. */
  const DECISION_SIZE := 256

  function HotAll(rules: seq<Rule>): (r: seq<HotRule>)
    ensures |r| == |rules|
    ensures forall i :: 0 <= i < |rules| ==> r[i] == Hot(rules[i])
  {
    seq(|rules|, i requires 0 <= i < |rules| => Hot(rules[i]))
  }

  function GeneratedID(accountID: string, count: nat): (id: string)
    ensures "acl-" <= id
  {
    "acl-" + (if |accountID| > 8 then accountID[..8] else accountID) + "-" + Decimal(count)
  }

  /** Identifiers generated for one account differ exactly if the lists were of different length. */
  lemma GeneratedApart(accountID: string, m: nat, n: nat)
    ensures GeneratedID(accountID, m) == GeneratedID(accountID, n) <==> m == n
  {
    var start := "acl-" + (if |accountID| > 8 then accountID[..8] else accountID) + "-";
    if GeneratedID(accountID, m) == GeneratedID(accountID, n) {
      assert GeneratedID(accountID, m)[|start|..] == Decimal(m) && GeneratedID(accountID, n)[|start|..] == Decimal(n);
      DecimalReadsBack(m);
      DecimalReadsBack(n);
    }
  }

  /** While every identifier in the list was generated for a shorter one, as it is if no rule was
      removed, the next one is new. */
  lemma GeneratedIsNew(list: seq<HotRule>, rule: Rule)
    requires rule.id == "" && rule.accountID != ""
    requires forall i :: 0 <= i < |list| ==> exists k: nat :: k < |list| && list[i].rule.id == GeneratedID(rule.accountID, k)
    ensures !Present(list, Named(rule, |list|).id)
  {
    if Present(list, Named(rule, |list|).id) {
      var i :| 0 <= i < |list| && list[i].rule.id == Named(rule, |list|).id;
      var k: nat :| k < |list| && list[i].rule.id == GeneratedID(rule.accountID, k);
      GeneratedApart(rule.accountID, k, |list|);
    }
  }

  function Unnamed(accountID: string, priority: int): Rule {
    Rule("", accountID, "allow", "tcp", [], [], [], priority)
  }

  lemma AddedBehind(list: seq<HotRule>, h: HotRule)
    requires |list| <= 1 && forall i :: 0 <= i < |list| ==> list[i].rule.priority < h.rule.priority
    ensures Added(list, h) == list + [h]
  {
    var all := list + [h];
    ExchangeSortSorts(all);
    SortedUnique(all, Added(list, h));
  }

  /** Otherwise it need not be: of three rules without identifiers, the first removed before the
      third is added, the last two share one. */
  lemma GeneratedTwice(a: string)
    ensures var first := Added([], Hot(Named(Unnamed(a, 1), 0)));
      var second := Added(first, Hot(Named(Unnamed(a, 2), 1)));
      var third := Removed(second, GeneratedID(a, 0));
      var list := Added(third, Hot(Named(Unnamed(a, 3), |third|)));
      |list| == 2 && list[0].rule.id == list[1].rule.id && list[0] != list[1]
  {
    ThirdBehind(Hot(Named(Unnamed(a, 1), 0)), Hot(Named(Unnamed(a, 2), 1)), Hot(Named(Unnamed(a, 3), 1)));
  }

  /** Three rules in the order of their priorities, the first removed before the third is added. */
  lemma ThirdBehind(x: HotRule, y: HotRule, z: HotRule)
    requires x.rule.priority < y.rule.priority < z.rule.priority
    ensures Added([], x) == [x] && Added([x], y) == [x, y] && Removed([x, y], x.rule.id) == [y] && Added([y], z) == [y, z]
  {
    AddedSecond(x, y);
    AddedSecond(y, z);
    RemovedFirst(x, y);
    AddedBehind([], x);
    assert [] + [x] == [x];
  }

  lemma AddedSecond(x: HotRule, y: HotRule)
    requires x.rule.priority < y.rule.priority
    ensures Added([x], y) == [x, y]
  {
    AddedBehind([x], y);
    assert [x] + [y] == [x, y];
  }

  lemma RemovedFirst(x: HotRule, y: HotRule)
    ensures Removed([x, y], x.rule.id) == [y]
  {
    FirstAt([x, y], HasID(x.rule.id), 0);
  }

  method SortList(list: seq<HotRule>) returns (sorted: seq<HotRule>)
    ensures sorted == ExchangeSort(list)
  {
    var rules := new HotRule[|list|](i requires 0 <= i < |list| => list[i]);
    assert rules[..] == list;
    SortRules(rules);
    sorted := rules[..];
  }

  /** What `loadAccountRulesLocked` makes of the rows it reads. */
  method PrepareSaved(saved: seq<Rule>) returns (list: seq<HotRule>)
    ensures list == ExchangeSort(HotAll(saved)) && Tidy(list)
  {
    list := SortList(HotAll(saved));
    SortKeeps(HotAll(saved));
  }

  predicate Present(list: seq<HotRule>, id: string) {
    exists h :: h in list && h.rule.id == id
  }

  /** The lists an account has had once a delete was refused. */
  function AfterRefusal(past: seq<seq<HotRule>>, list: seq<HotRule>, id: string): seq<seq<HotRule>> {
    if Present(list, id) then past + [Removed(list, id)] else past
  }

  lemma Refused(past: seq<seq<HotRule>>, list: seq<HotRule>, id: string, rest: seq<HotRule>)
    requires rest == Removed(list, id)
    ensures AfterRefusal(past, list, id) == if Present(list, id) then past + [rest] else past
  {
  }

  /** The search and cut of `RemoveRule`. */
  method CutRule(list: seq<HotRule>, id: string) returns (found: bool, rest: seq<HotRule>)
    ensures found <==> Present(list, id)
    ensures rest == Removed(list, id) && (!found ==> rest == list)
  {
    var i := 0;
    while i < |list| && list[i].rule.id != id
      invariant 0 <= i <= |list|
      invariant forall k :: 0 <= k < i ==> !HasID(id)(list[k])
    {
      i := i + 1;
    }
    FirstAt(list, HasID(id), i);
    PresentAt(list, id, i);
    if i == |list| {
      return false, list;
    }
    return true, list[..i] + list[i + 1..];
  }

  lemma {:induction false} PresentAt(list: seq<HotRule>, id: string, i: nat)
    requires i == FirstPos(list, HasID(id), 0)
    ensures Present(list, id) <==> i < |list|
  {
    assert forall k :: 0 <= k < |list| ==> (HasID(id)(list[k]) <==> list[k].rule.id == id);
  }

  /** The rule with an identifier generated when the caller gave none. */
  function Named(rule: Rule, count: nat): (r: Rule)
    ensures r.accountID == rule.accountID && r.action == rule.action && r.protocol == rule.protocol
    ensures r.sourceIPs == rule.sourceIPs && r.destIPs == rule.destIPs && r.destPorts == rule.destPorts
    ensures r.priority == rule.priority && r.id != "" && (rule.id != "" ==> r.id == rule.id)
  {
    if rule.id == "" then rule.(id := GeneratedID(rule.accountID, count)) else rule
  }

  class Manager {
    var rules: map<string, seq<HotRule>>
    var index: map<string, Index>
    var loaded: set<string>
    var subnets: map<string, Subnet>
    const hasRepo: bool
    const cache: Cache<Decision>
    /** Per account, the lists it has had since its index was built; more than one after the
        repository refused a delete. */
    ghost var past: map<string, seq<seq<HotRule>>>

    function RulesOf(a: string): seq<HotRule>
      reads this
    {
      if a in rules then rules[a] else []
    }

    function IndexOf(a: string): Index
      reads this
    {
      IndexIn(index, a)
    }

    function DecideNow(a: string, p: Packet): Decision
      requires IsPort(p.dstPort)
      reads this
    {
      Decide(RulesOf(a), IndexOf(a), p)
    }

    ghost function PastOf(a: string): seq<seq<HotRule>>
      reads this
    {
      PastIn(past, a)
    }

    /** No delete was refused since the account's index was built. */
    ghost predicate Settled(a: string)
      reads this
    {
      PastOf(a) == [RulesOf(a)]
    }

    /** Lists are optimised and in order; an index is that of the list before the deletes refused
        since it was built. */
    ghost predicate ListsValid()
      reads this
    {
      MapsOk(rules, index, past)
    }

    ghost function Books(): Ledger
      reads this
    {
      Ledger(past, index, loaded, hasRepo)
    }

    /** Every cached decision is right by the ledger. */
    ghost predicate AllRight(l: Ledger)
      requires cache.Valid()
      reads cache, cache.Repr
    {
      forall k :: cache.Peek(k).Some? ==> Right(l, k, cache.Peek(k).value.value)
    }

    ghost predicate Valid()
      reads this, cache, cache.Repr
    {
      cache.Valid() && this !in cache.Repr && ListsValid() && AllRight(Books())
    }

    constructor (hasRepo: bool, hash: string -> nat, limits: Limits)
      ensures Valid() && fresh(cache.Repr)
      ensures this.hasRepo == hasRepo && rules == map[] && loaded == {} && past == map[]
    {
      this.hasRepo := hasRepo;
      rules, index, loaded, subnets, past := map[], map[], {}, map[], map[];
      cache := new Cache<Decision>(32, hash, limits);
    }

    /** Whether `ensureRulesLoaded` replaces the account's list. */
    predicate Loads(a: string, fetched: Option<seq<Rule>>)
      reads this
    {
      hasRepo && a !in loaded && fetched.Some?
    }

    /** The list an account has once `ensureRulesLoaded` has run. */
    function ListAfterLoad(a: string, fetched: Option<seq<Rule>>): seq<HotRule>
      reads this
    {
      if Loads(a, fetched) then ExchangeSort(HotAll(fetched.value)) else RulesOf(a)
    }

    /** ... and the lists since its index was built. */
    ghost function PastAfterLoad(a: string, fetched: Option<seq<Rule>>): seq<seq<HotRule>>
      reads this
    {
      if Loads(a, fetched) then [ExchangeSort(HotAll(fetched.value))] else PastOf(a)
    }

    /** What the manager holds for an account. */
    ghost function Held(a: string): (seq<HotRule>, Index, seq<seq<HotRule>>)
      reads this
    {
      (RulesOf(a), IndexOf(a), PastOf(a))
    }

    lemma HeldOk(a: string)
      requires ListsValid()
      ensures PastOk(PastOf(a), RulesOf(a), IndexOf(a))
    {
      if a in rules {
        assert Fits()(rules[a], index[a], past[a]);
      } else {
        NewPast([]);
      }
    }

    /** Stores an account's list and rebuilds its index from it. */
    method StoreAndIndex(a: string, list: seq<HotRule>)
      requires ListsValid() && Tidy(list)
      modifies this`rules, this`index, this`past
      ensures ListsValid() && RulesOf(a) == list && Settled(a)
      ensures Books() == Entered(old(Books()), a, [list], BuildIndex(list))
      ensures forall b :: b != a ==> Held(b) == old(Held(b))
    {
      var rebuilt := RebuildIndex(list);
      NewPast(list);
      MapsUpdated(rules, index, past, a, list, rebuilt, [list]);
      Assign(a, list, rebuilt, [list]);
    }

    /** The entries of one account are replaced, which leaves every cached decision right. */
    method Install(a: string, list: seq<HotRule>, built: Index, ghost lists: seq<seq<HotRule>>)
      requires cache.Valid() && this !in cache.Repr
      requires MapsOk(rules[a := list], index[a := built], past[a := lists])
      requires AllRight(Entered(Books(), a, lists, built))
      modifies this`rules, this`index, this`past
      ensures Valid() && Held(a) == (list, built, lists)
      ensures forall b :: b != a ==> Held(b) == old(Held(b))
    {
      Assign(a, list, built, lists);
    }

    /** The entries of one account are replaced. */
    method Assign(a: string, list: seq<HotRule>, built: Index, ghost lists: seq<seq<HotRule>>)
      modifies this`rules, this`index, this`past
      ensures rules == old(rules)[a := list]
      ensures index == old(index)[a := built] && past == old(past)[a := lists]
      ensures Books() == Entered(old(Books()), a, lists, built)
      ensures Held(a) == (list, built, lists)
      ensures forall b :: b != a ==> Held(b) == old(Held(b))
    {
      rules, index, past := rules[a := list], index[a := built], past[a := lists];
    }

    /** `ensureRulesLoaded`: a failed fetch still marks the account as loaded. */
    method EnsureLoaded(a: string, fetched: Option<seq<Rule>>)
      requires Valid()
      modifies this`rules, this`index, this`past, this`loaded
      ensures Valid() && (hasRepo ==> a in loaded)
      ensures RulesOf(a) == old(ListAfterLoad(a, fetched)) && PastOf(a) == old(PastAfterLoad(a, fetched))
      ensures forall b :: b != a ==> Held(b) == old(Held(b))
    {
      if hasRepo && a !in loaded {
        if fetched.Some? {
          LoadList(a, fetched.value);
        }
        MarkLoaded(a);
      }
    }

    /** No decision can have been cached for an account that was never loaded. */
    method LoadList(a: string, saved: seq<Rule>)
      requires Valid() && hasRepo && a !in loaded
      modifies this`rules, this`index, this`past
      ensures Valid() && RulesOf(a) == ExchangeSort(HotAll(saved)) && Settled(a)
      ensures forall b :: b != a ==> Held(b) == old(Held(b))
    {
      var sorted := PrepareSaved(saved);
      var built := RebuildIndex(sorted);
      NewPast(sorted);
      MapsUpdated(rules, index, past, a, sorted, built, [sorted]);
      LoadKeepsRight(Books(), a, sorted, built);
      Install(a, sorted, built, [sorted]);
    }

    method MarkLoaded(a: string)
      requires Valid()
      modifies this`loaded
      ensures Valid() && loaded == old(loaded) + {a}
    {
      MarkFollows(Books(), a);
      KeepRight(Books(), Books().(loaded := loaded + {a}), a);
      loaded := loaded + {a};
    }

    /** After `invalidateACLCache` nothing cached can disagree with anything. */
    method InvalidateCache()
      requires cache.Valid() && this !in cache.Repr && ListsValid()
      modifies cache.Repr
      ensures Valid() && forall k :: cache.Peek(k) == None
    {
      cache.Clear();
    }

    /** Stores an account's list, rebuilds its index and clears the cache. */
    method StoreAndInvalidate(a: string, list: seq<HotRule>)
      requires Valid() && Tidy(list)
      modifies this`rules, this`index, this`past, cache.Repr
      ensures Valid() && RulesOf(a) == list && Settled(a)
      ensures forall b :: b != a ==> Held(b) == old(Held(b))
      ensures forall k :: cache.Peek(k) == None
    {
      StoreAndIndex(a, list);
      InvalidateCache();
    }

    /** `AddRule`. */
    method AddRule(rule: Rule, fetched: Option<seq<Rule>>, saveOk: bool) returns (ok: bool)
      requires Valid()
      modifies this`rules, this`index, this`past, this`loaded, cache.Repr
      ensures Valid()
      ensures ok <==> ValidRule(rule, subnets) && (hasRepo ==> saveOk)
      ensures forall b :: b != rule.accountID ==> Held(b) == old(Held(b))
      ensures !ValidRule(rule, subnets) ==> Held(rule.accountID) == old(Held(rule.accountID)) && loaded == old(loaded)
      ensures !ok && ValidRule(rule, subnets) ==>
        RulesOf(rule.accountID) == old(ListAfterLoad(rule.accountID, fetched))
      ensures ok ==>
        var list := old(ListAfterLoad(rule.accountID, fetched));
        var named := Named(rule, |list|);
        && RulesOf(rule.accountID) == Added(list, Hot(named)) && Settled(rule.accountID)
        && named == rule.(id := named.id) && (rule.id != "" ==> named == rule)
      ensures ok ==> forall k :: cache.Peek(k) == None
    {
      ok := ValidRule(rule, subnets);
      if ok {
        EnsureLoaded(rule.accountID, fetched);
        ok := AddLoaded(rule, saveOk);
      }
    }

    /** The part of `AddRule` done under the write lock. */
    method AddLoaded(rule: Rule, saveOk: bool) returns (ok: bool)
      requires Valid()
      modifies this`rules, this`index, this`past, cache.Repr
      ensures Valid() && ok == (hasRepo ==> saveOk)
      ensures forall b :: b != rule.accountID ==> Held(b) == old(Held(b))
      ensures !ok ==> Held(rule.accountID) == old(Held(rule.accountID))
      ensures ok ==>
        var list := old(RulesOf(rule.accountID));
        RulesOf(rule.accountID) == Added(list, Hot(Named(rule, |list|))) && Settled(rule.accountID)
      ensures ok ==> forall k :: cache.Peek(k) == None
    {
      var a := rule.accountID;
      var list := if a in rules then rules[a] else [];
      if hasRepo && !saveOk {
        return false;
      }
      var h := OptimizeRule(Named(rule, |list|));
      var sorted := SortList(list + [h]);
      HeldOk(a);
      AddedKept(list, h);
      StoreAndInvalidate(a, sorted);
      return true;
    }

    /** `RemoveRule`. When the repository refuses the delete the list has changed, the index
        and the cached decisions have not. */
    method RemoveRule(a: string, id: string, fetched: Option<seq<Rule>>, deleteOk: bool) returns (ok: bool)
      requires Valid()
      modifies this`rules, this`index, this`past, this`loaded, cache.Repr
      ensures Valid()
      ensures ok <==> Present(old(ListAfterLoad(a, fetched)), id) && (hasRepo ==> deleteOk)
      ensures RulesOf(a) == Removed(old(ListAfterLoad(a, fetched)), id)
      ensures forall b :: b != a ==> Held(b) == old(Held(b))
      ensures ok ==> Settled(a) && forall k :: cache.Peek(k) == None
      ensures !ok ==> forall k :: cache.Peek(k) == old(cache.Peek(k))
      ensures !ok ==> PastOf(a) == AfterRefusal(old(PastAfterLoad(a, fetched)), old(ListAfterLoad(a, fetched)), id)
    {
      EnsureLoaded(a, fetched);
      ok := RemoveLoaded(a, id, deleteOk);
    }

    /** The part of `RemoveRule` done under the write lock. */
    method RemoveLoaded(a: string, id: string, deleteOk: bool) returns (ok: bool)
      requires Valid()
      modifies this`rules, this`index, this`past, cache.Repr
      ensures Valid()
      ensures ok <==> Present(old(RulesOf(a)), id) && (hasRepo ==> deleteOk)
      ensures RulesOf(a) == Removed(old(RulesOf(a)), id)
      ensures forall b :: b != a ==> Held(b) == old(Held(b))
      ensures ok ==> Settled(a) && forall k :: cache.Peek(k) == None
      ensures !ok ==> forall k :: cache.Peek(k) == old(cache.Peek(k))
      ensures !ok ==> PastOf(a) == AfterRefusal(old(PastOf(a)), old(RulesOf(a)), id)
    {
      ghost var list := RulesOf(a);
      var found, rest := CutRule(if a in rules then rules[a] else [], id);
      Refused(PastOf(a), list, id, rest);
      if !found {
        return false;
      }
      MapsThinned(rules, index, past, a, id);
      ok := Withdraw(a, rest, deleteOk);
    }

    /** Stores the shortened list; index and cache follow only if the repository agrees. */
    method Withdraw(a: string, rest: seq<HotRule>, deleteOk: bool) returns (ok: bool)
      requires Valid() && a in past && a in index && Tidy(rest) && MapsOk(rules[a := rest], index[a := index[a]], past[a := past[a] + [rest]])
      modifies this`rules, this`index, this`past, cache.Repr
      ensures Valid() && ok == (hasRepo ==> deleteOk) && RulesOf(a) == rest
      ensures forall b :: b != a ==> Held(b) == old(Held(b))
      ensures ok ==> Settled(a) && forall k :: cache.Peek(k) == None
      ensures !ok ==> PastOf(a) == old(PastOf(a)) + [rest] && forall k :: cache.Peek(k) == old(cache.Peek(k))
    {
      ok := !hasRepo || deleteOk;
      if ok {
        StoreAndInvalidate(a, rest);
      } else {
        LeaveStale(a, rest);
      }
    }

    /** The state in which a refused delete leaves the manager: only the list has changed. */
    method LeaveStale(a: string, rest: seq<HotRule>)
      requires Valid() && a in past && a in index && MapsOk(rules[a := rest], index[a := index[a]], past[a := past[a] + [rest]])
      modifies this`rules, this`index, this`past
      ensures Valid() && RulesOf(a) == rest && PastOf(a) == old(PastOf(a)) + [rest]
      ensures forall b :: b != a ==> Held(b) == old(Held(b))
    {
      ThinKeepsRight(Books(), a, rest);
      Install(a, rest, index[a], past[a] + [rest]);
    }

    /** What was right before stays right after a change that follows. */
    lemma KeepRight(l: Ledger, l': Ledger, a: string)
      requires cache.Valid() && AllRight(l) && Follows(l, l', a)
      ensures AllRight(l')
    {
      forall k | cache.Peek(k).Some?
        ensures Right(l', k, cache.Peek(k).value.value)
      {
        FollowingIsRight(l, l', a, k, cache.Peek(k).value.value);
      }
    }

    lemma ThinKeepsRight(l: Ledger, a: string, rest: seq<HotRule>)
      requires cache.Valid() && AllRight(l) && a in l.past && a in l.index
      ensures AllRight(Entered(l, a, l.past[a] + [rest], l.index[a]))
    {
      ThinFollows(l, a, rest);
      KeepRight(l, Entered(l, a, l.past[a] + [rest], l.index[a]), a);
    }

    lemma LoadKeepsRight(l: Ledger, a: string, list: seq<HotRule>, built: Index)
      requires cache.Valid() && AllRight(l) && l.hasRepo && a !in l.loaded
      ensures AllRight(Entered(l, a, [list], built))
    {
      LoadFollows(l, a, [list], built);
      KeepRight(l, Entered(l, a, [list], built), a);
    }

    /** `CheckAccess`: whatever was evicted, expired or cleaned up before. An answer the cache
        gives is the decision, for some query with the same key, over a list its account has had
        since its index was built; any other answer is the current decision. An unambiguous query
        is the only one with its key, whatever else was asked, and so is answered by the current
        decision if no delete was refused since its index was built. */
    method CheckAccess(a: string, p: Packet, now: int, fetched: Option<seq<Rule>>) returns (d: Decision)
      requires Valid() && IsPort(p.dstPort)
      modifies this`rules, this`index, this`past, this`loaded, cache.Repr
      ensures Valid() && fresh(cache.Repr - old(cache.Repr))
      ensures RulesOf(a) == old(RulesOf(a)) || RulesOf(a) == old(ListAfterLoad(a, fetched))
      ensures forall b :: b != a ==> Held(b) == old(Held(b))
      ensures Right(Books(), Key(a, p), d)
      ensures Unambiguous(a, p) ==> Answers(PastOf(a), IndexOf(a), p, d)
      ensures Unambiguous(a, p) && Settled(a) ==> d == DecideNow(a, p)
      ensures if old(cache.Serves(Key(a, p), now)) then d == old(cache.Peek(Key(a, p))).value.value
        else d == DecideNow(a, p)
      ensures cache.Peek(Key(a, p)).Some? && cache.Peek(Key(a, p)).value.value == d
    {
      var hit := Consult(a, p, now);
      if hit.Some? {
        return hit.value;
      }
      EnsureLoaded(a, fetched);
      d := Evaluate(a, p, now);
    }

    /** The rest of `CheckAccess` on a miss, once the rules are loaded. */
    method Evaluate(a: string, p: Packet, now: int) returns (d: Decision)
      requires Valid() && IsPort(p.dstPort) && (hasRepo ==> a in loaded)
      modifies cache.Repr
      ensures Valid() && fresh(cache.Repr - old(cache.Repr))
      ensures d == DecideNow(a, p) && Answers(PastOf(a), IndexOf(a), p, d) && Right(Books(), Key(a, p), d)
      ensures cache.Peek(Key(a, p)).Some? && cache.Peek(Key(a, p)).value.value == d
    {
      d := CheckAccessUncached(RulesOf(a), IndexOf(a), p);
      HeldOk(a);
      AnswersNow(PastOf(a), RulesOf(a), IndexOf(a), p);
      FairIsRight(Books(), a, p, d);
      Remember(a, p, d, now);
    }

    /** The cache lookup of `CheckAccess`. */
    method Consult(a: string, p: Packet, now: int) returns (hit: Option<Decision>)
      requires Valid() && IsPort(p.dstPort)
      modifies cache.Repr
      ensures Valid() && cache.Repr == old(cache.Repr)
      ensures hit.Some? <==> old(cache.Serves(Key(a, p), now))
      ensures hit.Some? ==> Right(Books(), Key(a, p), hit.value)
      ensures hit.Some? && Unambiguous(a, p) ==> Answering(PastOf(a), IndexOf(a))(p, hit.value)
      ensures hit.Some? ==> hit.value == old(cache.Peek(Key(a, p))).value.value
      ensures hit.Some? ==> cache.Peek(Key(a, p)) == old(cache.Peek(Key(a, p)))
    {
      ghost var cached := cache.Peek(Key(a, p));
      hit := cache.Get(Key(a, p), now);
      if hit.Some? && Unambiguous(a, p) {
        RightIsFair(Books(), a, p, cached.value.value);
      }
    }

    /** The cache update of `CheckAccess`. */
    method Remember(a: string, p: Packet, d: Decision, now: int)
      requires Valid() && Right(Books(), Key(a, p), d)
      modifies cache.Repr
      ensures Valid() && fresh(cache.Repr - old(cache.Repr))
      ensures cache.Peek(Key(a, p)) == Some(Item(d, DECISION_SIZE, Some(now + DECISION_TTL)))
    {
      KeyNotEmpty(a, p);
      StoreRight(Key(a, p), d, now, Books());
    }

    method StoreRight(key: string, d: Decision, now: int, ghost l: Ledger)
      requires cache.Valid() && this !in cache.Repr && AllRight(l) && Right(l, key, d) && key != ""
      modifies cache.Repr
      ensures cache.Valid() && this !in cache.Repr && AllRight(l) && fresh(cache.Repr - old(cache.Repr))
      ensures cache.Peek(key) == Some(Item(d, DECISION_SIZE, Some(now + DECISION_TTL)))
    {
      ghost var gone := cache.SetWithTTL(key, d, DECISION_SIZE, DECISION_TTL, now);
      forall k | cache.Peek(k).Some?
        ensures Right(l, k, cache.Peek(k).value.value)
      {
        assert k != key ==> cache.Peek(k) == old(cache.Peek(k));
      }
    }

    /** Background maintenance only ever loses cached decisions, and all that have expired. */
    method Maintain(now: int, bytesToFree: int)
      requires Valid()
      modifies cache.Repr
      ensures Valid() && cache.Repr == old(cache.Repr)
      ensures forall k :: cache.Peek(k) == None || cache.Peek(k) == old(cache.Peek(k))
      ensures !cache.closed ==> forall k :: cache.Peek(k).Some? ==> !ItemExpired(cache.Peek(k).value, now)
    {
      cache.Maintain(now, bytesToFree);
    }

    /** `RegisterTenantSubnet` and its undoing; rules already accepted stay. */
    method SetSubnet(a: string, subnet: Option<Subnet>)
      requires Valid()
      modifies this`subnets
      ensures Valid()
      ensures subnets == if subnet.Some? then old(subnets)[a := subnet.value] else old(subnets) - {a}
    {
      subnets := if subnet.Some? then subnets[a := subnet.value] else subnets - {a};
    }
  }
}
