/** What the ACL manager holds for all accounts, and which cached decisions are right by it. */
module AclLedger {
  import opened AclRules
  import opened AclIndex
  import opened AclRuleList
  import opened AclRefusal
  import opened AclKey

  type Lists = map<string, seq<HotRule>>
  type Indexes = map<string, Index>
  type Pasts = map<string, seq<seq<HotRule>>>

  // ----- The tables -----

  /** Three tables over the same accounts, whose entries fit together. */
  ghost predicate Each<A, B, C>(x: map<string, A>, y: map<string, B>, z: map<string, C>, fits: (A, B, C) -> bool) {
    x.Keys == y.Keys == z.Keys && forall k :: k in x ==> fits(x[k], y[k], z[k])
  }

  lemma EachUpdated<A, B, C>(x: map<string, A>, y: map<string, B>, z: map<string, C>, fits: (A, B, C) -> bool,
                             k: string, a: A, b: B, c: C)
    requires Each(x, y, z, fits) && fits(a, b, c)
    ensures Each(x[k := a], y[k := b], z[k := c], fits)
  {
  }

  /** As `PastOk`. */
  ghost function Fits(): (seq<HotRule>, Index, seq<seq<HotRule>>) -> bool {
    (list: seq<HotRule>, index: Index, past: seq<seq<HotRule>>) => PastOk(past, list, index)
  }

  ghost predicate MapsOk(rules: Lists, index: Indexes, past: Pasts) {
    Each(rules, index, past, Fits())
  }

  lemma MapsUpdated(rules: Lists, index: Indexes, past: Pasts, a: string,
                    list: seq<HotRule>, built: Index, lists: seq<seq<HotRule>>)
    requires MapsOk(rules, index, past) && PastOk(lists, list, built)
    ensures MapsOk(rules[a := list], index[a := built], past[a := lists])
  {
    EachUpdated(rules, index, past, Fits(), a, list, built, lists);
  }

  /** A refused delete in the tables. */
  lemma MapsThinned(rules: Lists, index: Indexes, past: Pasts, a: string, id: string)
    requires MapsOk(rules, index, past) && a in rules
    ensures a in past && a in index && Tidy(Removed(rules[a], id))
    ensures MapsOk(rules[a := Removed(rules[a], id)], index[a := index[a]], past[a := past[a] + [Removed(rules[a], id)]])
  {
    var rest := Removed(rules[a], id);
    assert Fits()(rules[a], index[a], past[a]);
    MorePast(past[a], rules[a], index[a], id);
    MapsUpdated(rules, index, past, a, rest, index[a], past[a] + [rest]);
  }

  function PastIn(past: Pasts, a: string): seq<seq<HotRule>> {
    if a in past then past[a] else [[]]
  }

  function IndexIn(index: Indexes, a: string): Index {
    if a in index then index[a] else map[]
  }

  // ----- Right decisions -----

  /** What decides whether a cached decision is right. */
  datatype Ledger = Ledger(past: Pasts, index: Indexes, loaded: set<string>, hasRepo: bool)

  ghost predicate Concerns(k: string, a: string, p: Packet) {
    IsPort(p.dstPort) && Key(a, p) == k
  }

  ghost predicate Fair(l: Ledger, a: string, p: Packet, d: Decision) {
    (l.hasRepo ==> a in l.loaded) && Answering(PastIn(l.past, a), IndexIn(l.index, a))(p, d)
  }

  /** The decision is right for a query with this key. */
  ghost predicate Right(l: Ledger, k: string, d: Decision) {
    exists a, p :: Concerns(k, a, p) && Fair(l, a, p, d)
  }

  lemma FairIsRight(l: Ledger, a: string, p: Packet, d: Decision)
    requires Fair(l, a, p, d)
    ensures Right(l, Key(a, p), d)
  {
    assert Concerns(Key(a, p), a, p);
  }

  /** An unambiguous query is the only one with its key. */
  lemma RightIsFair(l: Ledger, a: string, p: Packet, d: Decision)
    requires Unambiguous(a, p) && Right(l, Key(a, p), d)
    ensures Fair(l, a, p, d)
  {
    var b, q :| Concerns(Key(a, p), b, q) && Fair(l, b, q, d);
    KeyUnambiguous(a, p, b, q);
  }

  /** `l'` differs from `l` at `a` only, and accepts there what `l` did. */
  ghost predicate Follows(l: Ledger, l': Ledger, a: string) {
    && l.hasRepo == l'.hasRepo && l.loaded <= l'.loaded
    && (forall b :: b != a ==> PastIn(l'.past, b) == PastIn(l.past, b) && IndexIn(l'.index, b) == IndexIn(l.index, b))
    && (forall p, d :: Fair(l, a, p, d) ==> Fair(l', a, p, d))
  }

  lemma FollowingIsRight(l: Ledger, l': Ledger, a: string, k: string, d: Decision)
    requires Follows(l, l', a) && Right(l, k, d)
    ensures Right(l', k, d)
  {
    var b, p :| Concerns(k, b, p) && Fair(l, b, p, d);
    assert Fair(l', b, p, d);
  }

  /** The ledger with new lists and a new index for one account. */
  function Entered(l: Ledger, a: string, lists: seq<seq<HotRule>>, built: Index): Ledger {
    l.(past := l.past[a := lists], index := l.index[a := built])
  }

  /** Nothing was right for an account that is not loaded, so its list may be replaced. */
  lemma LoadFollows(l: Ledger, a: string, lists: seq<seq<HotRule>>, built: Index)
    requires l.hasRepo && a !in l.loaded
    ensures Follows(l, Entered(l, a, lists, built), a)
  {
  }

  lemma MarkFollows(l: Ledger, a: string)
    ensures Follows(l, l.(loaded := l.loaded + {a}), a)
  {
  }

  lemma ThinFollows(l: Ledger, a: string, rest: seq<HotRule>)
    requires a in l.past && a in l.index
    ensures Follows(l, Entered(l, a, l.past[a] + [rest], l.index[a]), a)
  {
    var l' := Entered(l, a, l.past[a] + [rest], l.index[a]);
    forall p, d | Fair(l, a, p, d)
      ensures Fair(l', a, p, d)
    {
      AnswersStay(l.past[a], rest, IndexIn(l.index, a), p, d);
    }
  }
}
