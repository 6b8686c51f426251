/** One shard of the cache: a map of live entries threaded on a doubly linked list
    with a running size counter (internal/cache/cache.go, internal/cache/algorithms.go).

    The list is modelled as the source maintains it: removing the entry at the head
    clears the head, so live entries drop off the list, exactly when `Shard.Unlink` says.
    What every operation does keep is stated by `Shard.Linked`. */
module CacheShard {
  import opened Text

  class Entry<V> {
    const key: string
    const size: nat
    /** No time means the entry never expires. */
    const expiresAt: Option<int>
    const value: V
    var next: Entry?<V>
    var prev: Entry?<V>
    /** Insertion order. */
    ghost const stamp: nat

    constructor (key: string, value: V, size: nat, expiresAt: Option<int>, ghost stamp: nat)
      ensures this.key == key && this.size == size && this.expiresAt == expiresAt && this.stamp == stamp
      ensures this.value == value && next == null && prev == null
    {
      this.key, this.size, this.expiresAt, this.stamp := key, size, expiresAt, stamp;
      this.value, next, prev := value, null, null;
    }

    predicate Expired(now: int) {
      expiresAt.Some? && now > expiresAt.value
    }
  }

  /** What a reader can find under a key. */
  datatype Item<V> = Item(value: V, size: nat, expiresAt: Option<int>)

  function ItemOf<V>(e: Entry<V>): Item<V> {
    Item(e.value, e.size, e.expiresAt)
  }

  predicate ItemExpired<V>(item: Item<V>, now: int) {
    item.expiresAt.Some? && now > item.expiresAt.value
  }

  /** One shard's share of the configured limits; a limit of zero is no limit. */
  datatype Limits = Limits(bySize: bool, maxSize: nat, byCount: bool, maxEntries: nat)

  ghost function TotalSize<V(!new)>(live: set<Entry<V>>): nat {
    if live == {} then 0
    else
      var e :| e in live;
      e.size + TotalSize(live - {e})
  }

  lemma {:induction false} TotalSizeWithout<V(!new)>(live: set<Entry<V>>, e: Entry<V>)
    requires e in live
    ensures TotalSize(live) == e.size + TotalSize(live - {e})
    decreases |live|
  {
    var c :| c in live && TotalSize(live) == c.size + TotalSize(live - {c});
    if c != e {
      TotalSizeWithout(live - {c}, e);
      TotalSizeWithout(live - {e}, c);
      assert live - {c} - {e} == live - {e} - {c};
    }
  }

  lemma {:induction false} TotalSizeWith<V(!new)>(live: set<Entry<V>>, e: Entry<V>)
    requires e !in live
    ensures TotalSize(live + {e}) == TotalSize(live) + e.size
  {
    TotalSizeWithout(live + {e}, e);
    assert live + {e} - {e} == live;
  }

  // ---- Which entries a walk along `next` meets ----

  type Nexts<!V> = map<Entry<V>, Entry?<V>>

  ghost function Walk<V(!new)>(next: Nexts<V>, start: Entry?<V>): set<Entry<V>>
    decreases |next|
  {
    if start == null || start !in next then {} else {start} + Walk(next - {start}, next[start])
  }

  /** The link of an entry joins it symmetrically to a live, older one. */
  ghost predicate LinkOk<V(!new)>(next: Nexts<V>, prev: Nexts<V>, x: Entry<V>)
    requires x in next && x in prev
  {
    && (next[x] != null ==> next[x] in prev && prev[next[x]] == x && next[x].stamp < x.stamp)
    && (prev[x] != null ==> prev[x] in next && next[prev[x]] == x)
  }

  /** The entries whose links are out of order. */
  ghost function Broken<V(!new)>(next: Nexts<V>, prev: Nexts<V>): set<Entry<V>> {
    set x | x in next && (x !in prev || !LinkOk(next, prev, x))
  }

  lemma NoneBroken<V(!new)>(next: Nexts<V>, prev: Nexts<V>)
    requires Broken(next, prev) == {}
    ensures forall x :: x in next ==> x in prev && LinkOk(next, prev, x)
  {
    forall x | x in next
      ensures x in prev && LinkOk(next, prev, x)
    {
      assert x !in Broken(next, prev);
    }
  }

  lemma SkippingKeeps<V(!new)>(next: Nexts<V>, prev: Nexts<V>, e: Entry<V>)
    requires Broken(next, prev) == {} && next.Keys == prev.Keys && e in next
    ensures Broken(Skipping(next, e), Skipping(prev, e)) == {}
  {
    NoneBroken(next, prev);
    var next', prev' := Skipping(next, e), Skipping(prev, e);
    forall x | x in next'
      ensures LinkOk(next', prev', x)
    {
      assert LinkOk(next, prev, x) && LinkOk(next, prev, e);
    }
  }

  /** Only its neighbours point to an entry. */
  lemma Neighbours<V(!new)>(next: Nexts<V>, prev: Nexts<V>, e: Entry<V>)
    requires Broken(next, prev) == {} && next.Keys == prev.Keys && e in next
    ensures forall x :: x in next ==> (next[x] == e <==> prev[e] == x) && (prev[x] == e <==> next[e] == x)
    ensures next[e] != e && prev[e] != e
    ensures (next[e] != null ==> next[e] in next) && (prev[e] != null ==> prev[e] in next)
  {
    NoneBroken(next, prev);
  }

  /** The backward links once `e` is put in front of `head`. */
  ghost function Fronted<V(!new)>(prev: Nexts<V>, head: Entry?<V>, e: Entry<V>): Nexts<V> {
    map x | x in prev.Keys + {e} :: if x == e then null else if x == head then e else prev[x]
  }

  lemma FrontingKeeps<V(!new)>(next: Nexts<V>, prev: Nexts<V>, head: Entry?<V>, e: Entry<V>)
    requires Broken(next, prev) == {} && next.Keys == prev.Keys && e !in next
    requires head != null ==> head in prev && prev[head] == null && head.stamp < e.stamp
    ensures Broken(next[e := head], Fronted(prev, head, e)) == {}
  {
    NoneBroken(next, prev);
    var next', prev' := next[e := head], Fronted(prev, head, e);
    forall x | x in next'
      ensures LinkOk(next', prev', x)
    {
      assert x != e ==> LinkOk(next, prev, x);
    }
  }

  /** Each link leads to an older entry. */
  ghost predicate Aging<V(!new)>(next: Nexts<V>) {
    forall x :: x in next && next[x] != null ==> next[x].stamp < x.stamp
  }

  ghost predicate Older<V(!new)>(start: Entry?<V>, e: Entry<V>) {
    start == null || start.stamp < e.stamp
  }

  /** The links once `e` is taken out. */
  ghost function Skipping<V(!new)>(next: Nexts<V>, e: Entry<V>): Nexts<V>
    requires e in next
  {
    map x | x in next && x != e :: if next[x] == e then next[e] else next[x]
  }

  /** A walk among older entries does not notice what happens to a newer one. */
  lemma {:induction false} WalkBelow<V(!new)>(next: Nexts<V>, other: Nexts<V>, e: Entry<V>, start: Entry?<V>)
    requires Aging(next) && Older(start, e)
    requires forall x :: x in next && x.stamp < e.stamp ==> x in other && other[x] == next[x]
    requires forall x :: x in other && x.stamp < e.stamp ==> x in next
    ensures Walk(other, start) == Walk(next, start)
    decreases |next|
  {
    if start == null || start !in next {
    } else {
      WalkBelow(next - {start}, other - {start}, e, next[start]);
    }
  }

  /** A walk that does not start at `e` meets the same entries without it. */
  lemma {:induction false} WalkSkips<V(!new)>(next: Nexts<V>, e: Entry<V>, start: Entry?<V>)
    requires Aging(next) && e in next && start != e
    ensures Walk(Skipping(next, e), start) == Walk(next, start) - {e}
    decreases |next|
  {
    if start == null || start !in next {
    } else {
      var rest := next - {start};
      assert Skipping(next, e) - {start} == Skipping(rest, e);
      if next[start] == e {
        WalkPast(rest, e);
      } else {
        WalkSkips(rest, e, next[start]);
      }
    }
  }

  /** After `e` itself the walk meets what it meets without it. */
  lemma {:induction false} WalkPast<V(!new)>(next: Nexts<V>, e: Entry<V>)
    requires Aging(next) && e in next
    ensures Walk(Skipping(next, e), next[e]) == Walk(next, e) - {e}
  {
    var rest := next - {e};
    WalkBelow(rest, Skipping(next, e), e, next[e]);
    WalkInside(rest, next[e]);
  }

  lemma {:induction false} WalkInside<V(!new)>(next: Nexts<V>, start: Entry?<V>)
    ensures Walk(next, start) <= next.Keys
    decreases |next|
  {
    if start == null || start !in next {
    } else {
      WalkInside(next - {start}, next[start]);
    }
  }

  /** What a walk meets after its start, something leads to. */
  lemma {:induction false} WalkLeads<V(!new)>(next: Nexts<V>, start: Entry?<V>, e: Entry<V>) returns (x: Entry<V>)
    requires e in Walk(next, start) && e != start
    ensures x in next && next[x] == e
    decreases |next|
  {
    if next[start] == e {
      x := start;
    } else {
      x := WalkLeads(next - {start}, next[start], e);
    }
  }

  /** Taking out any entry but the first leaves the others on the walk; taking out the first
      ends it. */
  lemma WalkWithout<V(!new)>(next: Nexts<V>, prev: Nexts<V>, head: Entry?<V>, e: Entry<V>)
    requires Broken(next, prev) == {} && next.Keys == prev.Keys && e in next
    requires head != null ==> head in prev && prev[head] == null
    ensures var head' := if prev[e] != null then head else null;
      Walk(next, head) == next.Keys ==>
        (Walk(Skipping(next, e), head') == next.Keys - {e} <==> e != head || next.Keys == {e})
  {
    NoneBroken(next, prev);
    if Walk(next, head) == next.Keys && e != head {
      var x := WalkLeads(next, head, e);
      assert prev[e] == x;
      WalkSkips(next, e, head);
    }
  }

  lemma WalkWith<V(!new)>(next: Nexts<V>, head: Entry?<V>, e: Entry<V>)
    requires e !in next
    ensures Walk(next, head) == next.Keys ==> Walk(next[e := head], e) == next.Keys + {e}
  {
    assert next[e := head] - {e} == next;
  }

  /** The entries whose key is not gone. */
  ghost function Without<V(!new)>(live: set<Entry<V>>, gone: set<string>): set<Entry<V>> {
    set e | e in live && e.key !in gone
  }

  lemma GoneTwice<V(!new)>(live: set<Entry<V>>, m: map<string, Entry<V>>, first: set<string>, second: set<string>)
    ensures Without(Without(live, first), second) == Without(live, first + second)
    ensures m - first - second == m - (first + second)
  {
  }

  ghost function KeyOf<V>(e: Entry?<V>): Option<string> {
    if e == null then None else Some(e.key)
  }

  ghost function KeySet(key: Option<string>): set<string> {
    if key.Some? then {key.value} else {}
  }

  /** The keys to evict: over a limit that of the last entry, and over the size limit that of the
      entry before it too, if even so there are too many entries. */
  ghost function VictimKeys(overSize: bool, overCount: bool, tooMany: bool, last: Option<string>, before: Option<string>): set<string> {
    if !overSize && !overCount then {}
    else if overSize && tooMany && last.Some? then KeySet(last) + KeySet(before)
    else KeySet(last)
  }

  lemma OneFewer<V(!new)>(m: map<string, Entry<V>>, last: Option<string>, gone: set<string>)
    requires gone == {} || (gone == KeySet(last) && forall k :: k in gone ==> k in m)
    ensures |m - gone| == |m| - |gone|
  {
    assert m.Keys == (m - gone).Keys + gone;
    assert |m| == |m.Keys| && |m - gone| == |(m - gone).Keys|;
  }

  lemma TwoEvictions(limits: Limits, overSize: bool, count: nat, last: Option<string>, before: Option<string>,
                     first: set<string>, second: set<string>)
    requires first == if overSize then KeySet(last) else {}
    requires var over := limits.byCount && count - |first| >= limits.maxEntries;
      second == if over then KeySet(if overSize then before else last) else {}
    requires last.None? ==> before.None?
    ensures first + second ==
      VictimKeys(overSize, limits.byCount && count >= limits.maxEntries, limits.byCount && count > limits.maxEntries, last, before)
    ensures |first + second| <= 2
  {
  }

  ghost predicate KeyedByName<V(!new)>(m: map<string, Entry<V>>) {
    forall k :: k in m ==> m[k].key == k
  }

  /** Apart from one key, nothing in the new map is new. */
  ghost predicate StoredOver<V(!new)>(before: map<string, Entry<V>>, after: map<string, Entry<V>>, key: string) {
    key in after && forall k :: k in after && k != key ==> k in before && after[k] == before[k]
  }

  lemma StoredValues<V(!new)>(m: map<string, Entry<V>>, gone: set<string>, e: Entry<V>)
    requires KeyedByName(m)
    ensures var stored := (m - gone)[e.key := e];
            && KeyedByName(stored) && stored.Values == Without(Without(m.Values, {e.key}), gone) + {e}
            && stored.Keys == m.Keys - gone + {e.key}
            && StoredOver(m, stored, e.key)
  {
    var stored := (m - gone)[e.key := e];
    forall x | x in Without(Without(m.Values, {e.key}), gone) + {e} ensures x in stored.Values {
      assert x == e || (x.key in stored && stored[x.key] == x);
      assert x.key in stored && stored[x.key] == x;
    }
  }

  lemma ValuesWithout<V(!new)>(m: map<string, Entry<V>>, e: Entry<V>)
    requires KeyedByName(m) && e in m.Values
    ensures KeyedByName(m - {e.key}) && (m - {e.key}).Values == m.Values - {e}
  {
    forall x | x in m.Values - {e} ensures x in (m - {e.key}).Values {
      assert x.key in m - {e.key} && (m - {e.key})[x.key] == x;
    }
  }

  class Shard<V(!new)> {
    var entries: map<string, Entry<V>>
    var head: Entry?<V>
    var tail: Entry?<V>
    var currentSize: int
    ghost var nextStamp: nat
    /** The objects the shard may change. */
    ghost var Repr: set<object>

    ghost predicate NextLink(live: set<Entry<V>>, e: Entry<V>)
      reads live, e
    {
      e.next != null ==> e.next in live && e.next.prev == e && e.next.stamp < e.stamp
    }

    ghost predicate PrevLink(live: set<Entry<V>>, e: Entry<V>)
      reads live, e
    {
      e.prev != null ==> e.prev in live && e.prev.next == e
    }

    /** Links are symmetric, join live entries only, and lead to older ones. */
    ghost predicate Links(live: set<Entry<V>>)
      reads live
    {
      forall e :: e in live ==> NextLink(live, e) && PrevLink(live, e)
    }

    ghost function NextsOf(live: set<Entry<V>>): Nexts<V>
      reads live
    {
      map e | e in live :: e.next
    }

    ghost function PrevsOf(live: set<Entry<V>>): Nexts<V>
      reads live
    {
      map e | e in live :: e.prev
    }

    lemma LinksAsMaps(live: set<Entry<V>>)
      ensures Links(live) <==> Broken(NextsOf(live), PrevsOf(live)) == {}
    {
      forall e | e in live
        ensures LinkOk(NextsOf(live), PrevsOf(live), e) <==> NextLink(live, e) && PrevLink(live, e)
      {
      }
      if Broken(NextsOf(live), PrevsOf(live)) == {} {
        NoneBroken(NextsOf(live), PrevsOf(live));
      }
    }

    /** A walk from the head meets every live entry. */
    ghost predicate OnList(live: set<Entry<V>>)
      reads this`head, live
    {
      Walk(NextsOf(live), head) == live
    }

    ghost predicate Ends(live: set<Entry<V>>)
      reads this`head, this`tail, live
    {
      && (head != null ==> head in live && head.prev == null)
      && (tail != null ==> tail in live && tail.next == null)
      && (tail == null ==> head == null)
    }

    /** What every operation keeps, relative to a set of live entries. */
    ghost predicate Linked(live: set<Entry<V>>)
      reads this`head, this`tail, this`nextStamp, this`currentSize, live
    {
      Links(live) && Ends(live) && Counted(live)
    }

    /** The counters: the next stamp is newer than all, and the size is that of the live entries. */
    ghost predicate Counted(live: set<Entry<V>>)
      reads this`nextStamp, this`currentSize
    {
      (forall e :: e in live ==> e.stamp < nextStamp) && currentSize == TotalSize(live)
    }

    ghost predicate Valid()
      reads this, Repr
      ensures Valid() ==> this in Repr
    {
      && this in Repr && entries.Values <= Repr
      && KeyedByName(entries)
      && Linked(entries.Values)
    }

    constructor ()
      ensures Valid() && Repr == {this} && entries == map[]
    {
      Repr := {this};
      entries, head, tail, currentSize, nextStamp := map[], null, null, 0, 0;
    }

    /** The relinking done by `remove`, including its treatment of the head: if all live entries
        were on the list, the others stay on it exactly if the head stays, or was alone. */
    method Unlink(e: Entry<V>, ghost live: set<Entry<V>>)
      requires Links(live) && Ends(live) && e in live
      modifies this`head, this`tail, live
      ensures Links(live - {e}) && Ends(live - {e})
      ensures old(OnList(live)) ==> (OnList(live - {e}) <==> e != old(head) || live == {e})
      ensures e.next == null && e.prev == null
      ensures tail == if old(e.next) == null then old(e.prev) else old(tail)
    {
      LinksAsMaps(live);
      ghost var next, prev, first := NextsOf(live), PrevsOf(live), head;
      Bypass(e, live);
      e.next, e.prev := null, null;
      assert NextsOf(live - {e}) == Skipping(next, e) && PrevsOf(live - {e}) == Skipping(prev, e);
      SkippingKeeps(next, prev, e);
      LinksAsMaps(live - {e});
      WalkWithout(next, prev, first, e);
    }

    /** The neighbours of `e` are joined. */
    method Bypass(e: Entry<V>, ghost live: set<Entry<V>>)
      requires Broken(NextsOf(live), PrevsOf(live)) == {} && Ends(live) && e in live
      modifies this`head, this`tail, live
      ensures NextsOf(live - {e}) == Skipping(old(NextsOf(live)), e)
      ensures PrevsOf(live - {e}) == Skipping(old(PrevsOf(live)), e)
      ensures Ends(live - {e})
      ensures head == if old(e.prev) != null then old(head) else null
      ensures tail == if old(e.next) == null then old(e.prev) else old(tail)
    {
      Neighbours(NextsOf(live), PrevsOf(live), e);
      if e.next != null {
        e.next.prev := e.prev;
      } else {
        tail := e.prev;
      }
      if e.prev != null {
        e.prev.next := e.next;
      } else {
        head := e.prev;
      }
    }

    /** `remove`. */
    method Remove(e: Entry<V>, ghost live: set<Entry<V>>)
      requires Linked(live) && e in live
      modifies this`head, this`tail, this`currentSize, live
      ensures Linked(live - {e})
      ensures currentSize == old(currentSize) - e.size
      ensures tail == if old(e.next) == null then old(e.prev) else old(tail)
    {
      Discharge(e, live);
      Unlink(e, live);
    }

    method Discharge(e: Entry<V>, ghost live: set<Entry<V>>)
      requires Counted(live) && e in live
      modifies this`currentSize
      ensures Counted(live - {e}) && currentSize == old(currentSize) - e.size
    {
      TotalSizeWithout(live, e);
      currentSize := currentSize - e.size;
    }

    /** `insertLRU`; the TinyLFU and ARC insertions thread the list the same way. */
    method InsertLRU(e: Entry<V>, ghost live: set<Entry<V>>)
      requires Links(live) && Ends(live) && e !in live
      requires forall x :: x in live ==> x.stamp < e.stamp
      modifies this`head, this`tail, e, live
      ensures Links(live + {e}) && Ends(live + {e}) && head == e
      ensures old(OnList(live)) ==> OnList(live + {e})
    {
      LinksAsMaps(live);
      ghost var next, prev, first := NextsOf(live), PrevsOf(live), head;
      PushFront(e, live);
      FrontingKeeps(next, prev, first, e);
      LinksAsMaps(live + {e});
      WalkWith(next, first, e);
    }

    method PushFront(e: Entry<V>, ghost live: set<Entry<V>>)
      requires Ends(live) && e !in live
      modifies this`head, this`tail, e, live
      ensures NextsOf(live + {e}) == old(NextsOf(live))[e := old(head)]
      ensures PrevsOf(live + {e}) == Fronted(old(PrevsOf(live)), old(head), e)
      ensures Ends(live + {e}) && head == e
    {
      e.next := head;
      e.prev := null;
      if head != null {
        head.prev := e;
      } else {
        tail := e;
      }
      head := e;
    }

    /** Live entries are found in the map under their own key. */
    ghost predicate Holds(live: set<Entry<V>>)
      reads this, live
    {
      Linked(live) && forall e :: e in live ==> e.key in entries && entries[e.key] == e
    }

    /** `evictOldest`, when a limit is exceeded. */
    method EvictOldestIf(over: bool, ghost live: set<Entry<V>>) returns (ghost gone: set<string>)
      requires Holds(live)
      modifies this`entries, this`head, this`tail, this`currentSize, live
      ensures gone == (if over then KeySet(old(LastKey())) else {}) && gone <= old(entries).Keys
      ensures LastKey() == if over then old(KeyBefore()) else old(LastKey())
      ensures Holds(Without(live, gone))
      ensures entries == old(entries) - gone
    {
      if !over || tail == null {
        assert Without(live, {}) == live;
        return {};
      }
      gone := {tail.key};
      OnlyVictim(live, tail);
      Evict(tail, live);
    }

    /** A live entry leaves the map and the list. */
    method Evict(e: Entry<V>, ghost live: set<Entry<V>>)
      requires Holds(live) && e in live
      modifies this`entries, this`head, this`tail, this`currentSize, live
      ensures Holds(live - {e})
      ensures entries == old(entries) - {e.key}
      ensures tail == if old(e.next) == null then old(e.prev) else old(tail)
    {
      entries := entries - {e.key};
      Remove(e, live);
    }

    lemma OnlyVictim(live: set<Entry<V>>, e: Entry<V>)
      requires Holds(live) && e in live
      ensures Without(live, {e.key}) == live - {e}
    {
    }

    predicate OverSize(limits: Limits)
      reads this
    {
      limits.bySize && currentSize > limits.maxSize
    }

    predicate OverCount(limits: Limits)
      reads this
    {
      limits.byCount && |entries| >= limits.maxEntries
    }

    /** The key of the entry at the tail, and of the one before it. */
    ghost function LastKey(): Option<string>
      reads this
    {
      KeyOf(tail)
    }

    ghost function KeyBefore(): Option<string>
      reads this, tail
    {
      if tail == null then None else KeyOf(tail.prev)
    }

    /** The keys that have to go. */
    ghost function Victims(limits: Limits): set<string>
      reads this, tail
    {
      VictimKeys(limits.bySize && currentSize > limits.maxSize, limits.byCount && |entries| >= limits.maxEntries,
                 limits.byCount && |entries| > limits.maxEntries, LastKey(), KeyBefore())
    }

    /** `evictIfNecessary`: at most one eviction for size and one for count. */
    method EvictIfNecessary(limits: Limits, ghost live: set<Entry<V>>) returns (ghost gone: set<string>)
      requires Holds(live)
      modifies this`entries, this`head, this`tail, this`currentSize, live
      ensures Holds(Without(live, gone))
      ensures entries == old(entries) - gone && |gone| <= 2
      ensures gone == old(Victims(limits)) && gone <= old(entries).Keys
    {
      ghost var first, second := EvictTwice(limits, live);
      gone := first + second;
      GoneTwice(live, old(entries), first, second);
      TwoEvictions(limits, old(OverSize(limits)), |old(entries)|, old(LastKey()), old(KeyBefore()), first, second);
    }

    method EvictTwice(limits: Limits, ghost live: set<Entry<V>>) returns (ghost first: set<string>, ghost second: set<string>)
      requires Holds(live)
      modifies this`entries, this`head, this`tail, this`currentSize, live
      ensures Holds(Without(Without(live, first), second)) && entries == old(entries) - first - second
      ensures first + second <= old(entries).Keys
      ensures first == if old(OverSize(limits)) then KeySet(old(LastKey())) else {}
      ensures second == if limits.byCount && |old(entries)| - |first| >= limits.maxEntries then
        KeySet(if old(OverSize(limits)) then old(KeyBefore()) else old(LastKey())) else {}
    {
      first := EvictOldestIf(OverSize(limits), live);
      OneFewer(old(entries), old(LastKey()), first);
      second := EvictOldestIf(OverCount(limits), Without(live, first));
    }

    /** Adds an unlinked entry to the size counter and the list. */
    method Link(e: Entry<V>, ghost live: set<Entry<V>>)
      requires Linked(live) && e !in live
      requires forall x :: x in live ==> x.stamp < e.stamp
      modifies this`head, this`tail, this`currentSize, this`nextStamp, e, live
      ensures Linked(live + {e})
    {
      Charge(e, live);
      InsertLRU(e, live);
    }

    method Charge(e: Entry<V>, ghost live: set<Entry<V>>)
      requires Counted(live) && e !in live
      modifies this`currentSize, this`nextStamp
      ensures Counted(live + {e})
    {
      TotalSizeWith(live, e);
      currentSize := currentSize + e.size;
      nextStamp := if e.stamp < nextStamp then nextStamp else e.stamp + 1;
    }

    /** Adds an unlinked entry to the map, the size counter and the list. */
    method Insert(e: Entry<V>, ghost live: set<Entry<V>>)
      requires Holds(live) && e !in live
      requires forall x :: x in live ==> x.stamp < e.stamp
      requires KeyedByName(entries[e.key := e]) && entries[e.key := e].Values == live + {e}
      requires this in Repr && live <= Repr
      modifies this, e, live
      ensures Valid() && entries == old(entries)[e.key := e] && Repr == old(Repr) + {e}
    {
      Repr := Repr + {e};
      entries := entries[e.key := e];
      Link(e, live);
    }

    /** Takes the current entry of a key, if any, off the list and the size counter. */
    method Displace(key: string)
      requires Valid()
      modifies this`head, this`tail, this`currentSize, entries.Values
      ensures Holds(Without(entries.Values, {key}))
      ensures key !in entries ==>
        currentSize == old(currentSize) && LastKey() == old(LastKey()) && KeyBefore() == old(KeyBefore())
    {
      ghost var rest := Without(entries.Values, {key});
      if key in entries {
        var existing := entries[key];
        assert rest == entries.Values - {existing};
        Remove(existing, entries.Values);
      } else {
        assert rest == entries.Values;
      }
    }

    /** What `SetWithTTL` does before it inserts. */
    method MakeRoom(key: string, limits: Limits) returns (ghost gone: set<string>)
      requires Valid()
      modifies this`entries, this`head, this`tail, this`currentSize, entries.Values
      ensures Holds(Without(Without(old(entries.Values), {key}), gone))
      ensures entries == old(entries) - gone && |gone| <= 2 && gone <= old(entries).Keys
      ensures key !in old(entries) ==> gone == old(Victims(limits))
    {
      Displace(key);
      gone := EvictIfNecessary(limits, Without(entries.Values, {key}));
    }

    /** The part of `SetWithTTL` done under the shard's lock. Storing may cost up to
        two other entries their place, and for a new key it is clear which. */
    method Set(key: string, value: V, size: nat, expiresAt: Option<int>, limits: Limits)
      returns (ghost gone: set<string>)
      requires Valid()
      modifies Repr
      ensures Valid() && fresh(Repr - old(Repr))
      ensures entries.Keys == old(entries).Keys - gone + {key} && |gone| <= 2 && gone <= old(entries).Keys
      ensures StoredOver(old(entries), entries, key) && ItemOf(entries[key]) == Item(value, size, expiresAt)
      ensures key !in old(entries) ==> gone == old(Victims(limits))
    {
      var e := new Entry(key, value, size, expiresAt, nextStamp);
      gone := Store(e, limits);
    }

    /** Makes room for a new entry and adds it. */
    method Store(e: Entry<V>, limits: Limits) returns (ghost gone: set<string>)
      requires Valid() && e !in Repr && e.stamp == nextStamp
      modifies Repr, e
      ensures Valid() && Repr == old(Repr) + {e}
      ensures entries.Keys == old(entries).Keys - gone + {e.key} && |gone| <= 2 && gone <= old(entries).Keys
      ensures StoredOver(old(entries), entries, e.key) && entries[e.key] == e
      ensures e.key !in old(entries) ==> gone == old(Victims(limits))
    {
      gone := MakeRoom(e.key, limits);
      Place(e, old(entries), gone);
    }

    /** Adds a new entry once there is room for it. */
    method Place(e: Entry<V>, ghost before: map<string, Entry<V>>, ghost gone: set<string>)
      requires KeyedByName(before) && entries == before - gone && e !in before.Values
      requires Holds(Without(Without(before.Values, {e.key}), gone))
      requires forall x :: x in before.Values ==> x.stamp < e.stamp
      requires this in Repr && before.Values <= Repr
      modifies this, e, Without(Without(before.Values, {e.key}), gone)
      ensures Valid() && Repr == old(Repr) + {e}
      ensures entries.Keys == before.Keys - gone + {e.key} && StoredOver(before, entries, e.key) && entries[e.key] == e
    {
      StoredValues(before, gone, e);
      Insert(e, Without(Without(before.Values, {e.key}), gone));
    }

    /** Drops one live entry from map and list. */
    method Drop(e: Entry<V>)
      requires Valid() && e in entries.Values
      modifies this`entries, this`head, this`tail, this`currentSize, entries.Values
      ensures Valid() && entries == old(entries) - {e.key}
      ensures currentSize == old(currentSize) - e.size
    {
      ValuesWithout(entries, e);
      ghost var live := entries.Values;
      entries := entries - {e.key};
      Remove(e, live);
    }

    /** `Get` on an open cache: an expired entry is removed and reported missing. */
    method Get(key: string, now: int) returns (found: Option<V>)
      requires Valid()
      modifies Repr
      ensures Valid() && Repr == old(Repr)
      ensures entries == if key in old(entries) && old(entries)[key].Expired(now) then old(entries) - {key} else old(entries)
      ensures found == if key in old(entries) && !old(entries)[key].Expired(now) then Some(old(entries)[key].value) else None
    {
      if key !in entries {
        return None;
      }
      var e := entries[key];
      if e.Expired(now) {
        ValuesWithout(entries, e);
        Drop(e);
        return None;
      }
      found := Some(e.value);
    }

    /** `Delete` on an open cache. */
    method Delete(key: string)
      requires Valid()
      modifies Repr
      ensures Valid() && Repr == old(Repr)
      ensures entries == old(entries) - {key}
    {
      if key in entries {
        ValuesWithout(entries, entries[key]);
        Drop(entries[key]);
      }
    }

    /** The shard's part of `Clear`. */
    method Clear()
      requires Valid()
      modifies Repr
      ensures Valid() && Repr == old(Repr) && entries == map[] && head == null && tail == null
      ensures forall e :: e in old(entries.Values) ==> e.next == null && e.prev == null
    {
      forall e | e in entries.Values {
        e.next := null;
      }
      forall e | e in entries.Values {
        e.prev := null;
      }
      entries := map[];
      currentSize := 0;
      head := null;
      tail := null;
    }

    /** The shard's part of `cleanup`: drops exactly the expired entries, visiting
        the keys in any order. */
    method Cleanup(now: int)
      requires Valid()
      modifies Repr
      ensures Valid() && Repr == old(Repr)
      ensures forall k :: k in entries <==> k in old(entries) && !old(entries)[k].Expired(now)
      ensures forall k :: k in entries ==> entries[k] == old(entries)[k]
    {
      var todo := entries.Keys;
      while todo != {}
        invariant Valid() && Repr == old(Repr) && todo <= entries.Keys
        invariant forall k :: k in entries <==> k in old(entries) && (k in todo || !old(entries)[k].Expired(now))
        invariant forall k :: k in entries ==> entries[k] == old(entries)[k]
        decreases |todo|
      {
        var key :| key in todo;
        todo := todo - {key};
        var e := entries[key];
        if e.Expired(now) {
          ValuesWithout(entries, e);
          Drop(e);
        }
      }
    }

    /** The shard's part of `evictUnderPressure`: every round drops one live entry, only while not
        enough is freed, and the bytes counted as freed are the bytes the shard shrank by. */
    method EvictWhile(bytesToFree: int, freedBefore: int) returns (freed: int, ghost last: Option<string>)
      requires Valid()
      modifies Repr
      ensures Valid() && Repr == old(Repr)
      ensures freed - freedBefore == old(currentSize) - currentSize
      ensures freed >= bytesToFree || tail == null
      ensures forall k :: k in entries ==> k in old(entries) && entries[k] == old(entries)[k]
      ensures last.None? ==> entries == old(entries) && freed == freedBefore
      ensures last.Some? ==>
        last.value in old(entries) && last.value !in entries && freed - old(entries)[last.value].size < bytesToFree
    {
      freed, last := freedBefore, None;
      while freed < bytesToFree && tail != null
        invariant Valid() && Repr == old(Repr)
        invariant freed - freedBefore == old(currentSize) - currentSize
        invariant forall k :: k in entries ==> k in old(entries) && entries[k] == old(entries)[k]
        invariant last.None? ==> entries == old(entries) && freed == freedBefore
        invariant last.Some? ==>
          last.value in old(entries) && last.value !in entries && freed - old(entries)[last.value].size < bytesToFree
        decreases |entries|
      {
        var victim := tail;
        freed := freed + victim.size;
        ValuesWithout(entries, victim);
        assert |entries - {victim.key}| < |entries|;
        Drop(victim);
        last := Some(victim.key);
      }
    }
  }

  /** Entries do drop off the list: of two, the older one is no longer met once the newer is
      removed, although it is live. */
  method OlderEntryDropsOff<V(!new)>(value: V) returns (shard: Shard<V>, older: Entry<V>)
    ensures fresh(shard) && fresh(older)
    ensures shard.Links({older}) && shard.Ends({older}) && !shard.OnList({older})
  {
    shard := new Shard<V>();
    older := new Entry<V>("a", value, 1, None, 0);
    var newer := new Entry<V>("b", value, 1, None, 1);
    assert shard.NextsOf({}) == map[];
    shard.InsertLRU(older, {});
    assert {} + {older} == {older};
    shard.InsertLRU(newer, {older});
    ghost var both := {older} + {newer};
    assert both - {newer} == {older};
    shard.Unlink(newer, both);
  }
}
