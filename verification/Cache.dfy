/** The sharded cache on top of its shards (internal/cache/cache.go). Lock
    acquisition is not modelled: every method is one critical section per shard. */
module Cache {
  import opened Text
  import opened CacheShard

  ghost function Sum(s: seq<int>): int {
    if s == [] then 0 else Sum(s[..|s| - 1]) + s[|s| - 1]
  }

  lemma {:induction false} SumUpdate(s: seq<int>, i: nat, v: int)
    requires i < |s|
    ensures Sum(s[i := v]) == Sum(s) - s[i] + v
  {
    var t := s[i := v];
    if i == |s| - 1 {
      assert t[..i] == s[..i];
    } else {
      assert t[..|s| - 1] == s[..|s| - 1][i := v];
      SumUpdate(s[..|s| - 1], i, v);
    }
  }

  class Cache<V(!new)> {
    const hash: string -> nat
    const limits: Limits
    const shards: seq<Shard<V>>
    var closed: bool
    ghost var Repr: set<object>

    function ShardOf(key: string): (i: nat)
      requires |shards| > 0
      ensures i < |shards|
    {
      hash(key) % |shards|
    }

    /** Shard `i` is valid and holds only keys that hash to it. */
    ghost predicate ShardValid(i: nat)
      requires i < |shards|
      reads shards[i], shards[i].Repr
    {
      shards[i].Valid() && forall k :: k in shards[i].entries ==> ShardOf(k) == i
    }

    ghost predicate Valid()
      reads this, Repr
      ensures Valid() ==> this in Repr && |shards| > 0
    {
      && this in Repr && |shards| > 0
      && (forall i :: 0 <= i < |shards| ==> shards[i] in Repr && shards[i].Repr <= Repr && this !in shards[i].Repr)
      && (forall i :: 0 <= i < |shards| ==> ShardValid(i))
      && (forall i, j :: 0 <= i < |shards| && 0 <= j < |shards| && i != j ==> shards[i].Repr !! shards[j].Repr)
    }

    /** What a reader can find under a key. */
    ghost function Peek(key: string): Option<Item<V>>
      requires Valid()
      reads this, Repr
    {
      var entries := shards[ShardOf(key)].entries;
      if key in entries then Some(ItemOf(entries[key])) else None
    }

    /** `NewCache`: a non-positive shard count means 16. */
    constructor (shardCount: int, hash: string -> nat, limits: Limits)
      ensures Valid() && fresh(Repr) && !closed
      ensures |shards| == if shardCount <= 0 then 16 else shardCount
      ensures forall k :: Peek(k) == None
    {
      var count := if shardCount <= 0 then 16 else shardCount;
      var made: seq<Shard<V>> := [];
      while |made| < count
        invariant |made| <= count
        invariant forall s :: s in made ==> fresh(s) && s.Repr == {s} && s.Valid() && s.entries == map[]
        invariant forall i, j :: 0 <= i < |made| && 0 <= j < |made| && i != j ==> made[i] != made[j]
      {
        var s := new Shard<V>();
        made := made + [s];
      }
      this.hash, this.limits, shards, closed := hash, limits, made, false;
      Repr := {this} + set s: Shard<V> | s in made :: s as object;
      new;
      forall i | 0 <= i < |shards| ensures shards[i] in made && this as object != shards[i] {
      }
    }

    /** `SetWithTTL`: a non-positive time to live means the entry never expires. The
        stored item is there afterwards; of the other keys at most two lose theirs, and if the key
        is new these are the victims its shard names. */
    method SetWithTTL(key: string, value: V, size: nat, ttl: int, now: int) returns (ghost gone: set<string>)
      requires Valid()
      modifies Repr
      ensures Valid() && fresh(Repr - old(Repr)) && closed == old(closed)
      ensures key != "" ==> Peek(key) == Some(Item(value, size, if ttl > 0 then Some(now + ttl) else None))
      ensures |gone| <= 2 && forall k :: k != key ==> Peek(k) == if k in gone then None else old(Peek(k))
      ensures key != "" && old(Peek(key)) == None ==> gone == old(shards[ShardOf(key)].Victims(limits))
      ensures key == "" ==> gone == {} && Peek(key) == old(Peek(key))
    {
      if key == "" {
        return {};
      }
      assert ShardValid(ShardOf(key));
      gone := StoreIn(ShardOf(key), key, value, size, if ttl > 0 then Some(now + ttl) else None);
    }

    /** The key holds the item, and of the others at most the two that are gone have gone. */
    ghost predicate Stored(before: map<string, Entry<V>>, after: map<string, Entry<V>>, key: string, item: Item<V>, gone: set<string>) {
      && after.Keys == before.Keys - gone + {key} && |gone| <= 2 && gone <= before.Keys
      && StoredOver(before, after, key) && ItemOf(after[key]) == item
    }

    /** The part of `SetWithTTL` done on the key's shard. */
    method StoreIn(i: nat, key: string, value: V, size: nat, expiresAt: Option<int>) returns (ghost gone: set<string>)
      requires Valid() && i == ShardOf(key)
      modifies Repr
      ensures Valid() && fresh(Repr - old(Repr)) && closed == old(closed)
      ensures forall j :: 0 <= j < |shards| && j != i ==> shards[j].entries == old(shards[j].entries)
      ensures Stored(old(shards[i].entries), shards[i].entries, key, Item(value, size, expiresAt), gone) == true
      ensures key !in old(shards[i].entries) ==> gone == old(shards[i].Victims(limits))
    {
      gone := SetShard(i, key, value, size, expiresAt);
      Repr := Repr + shards[i].Repr;
    }

    method SetShard(i: nat, key: string, value: V, size: nat, expiresAt: Option<int>) returns (ghost gone: set<string>)
      requires Valid() && i == ShardOf(key)
      modifies shards[i].Repr
      ensures ShardValid(i) && fresh(shards[i].Repr - old(shards[i].Repr))
      ensures forall j :: 0 <= j < |shards| && j != i ==>
        ShardValid(j) && shards[j].entries == old(shards[j].entries) && shards[j].Repr == old(shards[j].Repr)
      ensures Stored(old(shards[i].entries), shards[i].entries, key, Item(value, size, expiresAt), gone) == true
      ensures key !in old(shards[i].entries) ==> gone == old(shards[i].Victims(limits))
    {
      var shard := shards[i];
      assert ShardValid(i);
      gone := shard.Set(key, value, size, expiresAt, limits);
      forall j | 0 <= j < |shards| && j != i
        ensures ShardValid(j) && shards[j].entries == old(shards[j].entries) && shards[j].Repr == old(shards[j].Repr)
      {
        assert old(ShardValid(j)) && old(shards[j].Repr) !! old(shard.Repr);
      }
    }

    /** What is left of an item once its expiry is noticed. */
    ghost function Unexpired(item: Option<Item<V>>, now: int): Option<Item<V>> {
      if item.Some? && ItemExpired(item.value, now) then None else item
    }

    /** A lookup of the key now finds a value. */
    ghost predicate Serves(key: string, now: int)
      requires Valid()
      reads this, Repr
    {
      key != "" && !closed && Peek(key).Some? && !ItemExpired(Peek(key).value, now)
    }

    /** `Get`: a live entry is returned, an expired one is dropped and missed. */
    method Get(key: string, now: int) returns (found: Option<V>)
      requires Valid()
      modifies Repr
      ensures Valid() && Repr == old(Repr) && closed == old(closed)
      ensures found.Some? <==> old(Serves(key, now))
      ensures found.Some? ==> found.value == old(Peek(key)).value.value
      ensures forall k :: Peek(k) == if k == key && key != "" && !closed then Unexpired(old(Peek(k)), now) else old(Peek(k))
    {
      if key == "" || closed {
        return None;
      }
      var i := ShardOf(key);
      var shard := shards[i];
      assert ShardValid(i);
      found := shard.Get(key, now);
      assert ShardValid(i);
      forall j | 0 <= j < |shards| && j != i
        ensures ShardValid(j) == old(ShardValid(j)) && shards[j].entries == old(shards[j].entries)
        ensures shards[j].Repr == old(shards[j].Repr)
      {
      }
    }

    /** `Delete`. */
    method Delete(key: string)
      requires Valid()
      modifies Repr
      ensures Valid() && Repr == old(Repr) && closed == old(closed)
      ensures forall k :: Peek(k) == if k == key && key != "" && !closed then None else old(Peek(k))
    {
      if key == "" || closed {
        return;
      }
      var i := ShardOf(key);
      var shard := shards[i];
      assert ShardValid(i);
      shard.Delete(key);
      assert ShardValid(i);
      forall j | 0 <= j < |shards| && j != i
        ensures ShardValid(j) == old(ShardValid(j)) && shards[j].entries == old(shards[j].entries)
        ensures shards[j].Repr == old(shards[j].Repr)
      {
      }
    }

    /** `Clear`. */
    method Clear()
      requires Valid()
      modifies Repr
      ensures Valid() && Repr == old(Repr) && closed == old(closed)
      ensures forall k :: Peek(k) == None
    {
      for i := 0 to |shards|
        invariant Valid() && Repr == old(Repr) && closed == old(closed)
        invariant forall j :: 0 <= j < i ==> shards[j].entries == map[]
      {
        label Before:
        var shard := shards[i];
        assert ShardValid(i);
        shard.Clear();
        assert ShardValid(i);
        forall j | 0 <= j < |shards| && j != i
          ensures ShardValid(j) == old@Before(ShardValid(j)) && shards[j].entries == old@Before(shards[j].entries)
          ensures shards[j].Repr == old@Before(shards[j].Repr)
        {
        }
      }
    }

    /** One round of `cleanup`. */
    method CleanupShard(i: nat, now: int)
      requires Valid() && i < |shards|
      modifies Repr
      ensures Valid() && Repr == old(Repr) && closed == old(closed)
      ensures forall k :: Peek(k) == if ShardOf(k) == i then Unexpired(old(Peek(k)), now) else old(Peek(k))
    {
      var shard := shards[i];
      assert ShardValid(i);
      shard.Cleanup(now);
      assert ShardValid(i);
      forall j | 0 <= j < |shards| && j != i
        ensures ShardValid(j) == old(ShardValid(j)) && shards[j].entries == old(shards[j].entries)
        ensures shards[j].Repr == old(shards[j].Repr)
      {
      }
    }

    /** `cleanup`: on an open cache drops exactly the expired entries. */
    method Cleanup(now: int)
      requires Valid()
      modifies Repr
      ensures Valid() && Repr == old(Repr) && closed == old(closed)
      ensures forall k :: Peek(k) == if closed then old(Peek(k)) else Unexpired(old(Peek(k)), now)
    {
      if closed {
        return;
      }
      for i := 0 to |shards|
        invariant Valid() && Repr == old(Repr) && closed == old(closed)
        invariant forall k :: Peek(k) == if ShardOf(k) < i then Unexpired(old(Peek(k)), now) else old(Peek(k))
      {
        CleanupShard(i, now);
      }
    }

    /** The size counters of the shards. */
    ghost function Sizes(): seq<int>
      reads shards
    {
      seq(|shards|, i requires 0 <= i < |shards| reads shards => shards[i].currentSize)
    }

    /** The sizes of the live entries of each shard. */
    ghost function LiveSizes(): seq<int>
      reads shards
    {
      seq(|shards|, i requires 0 <= i < |shards| reads shards => TotalSize(shards[i].entries.Values))
    }

    /** `GetTotalSize`: the counters add up to the sizes of all live entries. */
    method GetTotalSize() returns (total: int)
      requires Valid()
      ensures total == Sum(Sizes()) == Sum(LiveSizes())
    {
      total := 0;
      for i := 0 to |shards|
        invariant total == Sum(Sizes()[..i])
      {
        assert Sizes()[..i + 1][..i] == Sizes()[..i];
        total := total + shards[i].currentSize;
      }
      assert Sizes()[..|shards|] == Sizes();
      forall i | 0 <= i < |shards|
        ensures Sizes()[i] == LiveSizes()[i]
      {
        assert ShardValid(i);
      }
      assert Sizes() == LiveSizes();
    }

    /** One round of `evictUnderPressure`. */
    method EvictFromShard(i: nat, bytesToFree: int, freedBefore: int) returns (freed: int, ghost last: Option<string>)
      requires Valid() && i < |shards|
      modifies Repr
      ensures Valid() && Repr == old(Repr) && closed == old(closed)
      ensures freed - freedBefore == old(Sum(Sizes())) - Sum(Sizes())
      ensures freed >= bytesToFree || shards[i].tail == null
      ensures forall j :: 0 <= j < |shards| && j != i ==> shards[j].tail == old(shards[j].tail)
      ensures forall k :: Peek(k) == old(Peek(k)) || Peek(k) == None
      ensures last.None? ==> freed == freedBefore && forall k :: Peek(k) == old(Peek(k))
      ensures last.Some? ==>
        && Peek(last.value) == None && old(Peek(last.value)).Some?
        && freed - old(Peek(last.value)).value.size < bytesToFree
    {
      var shard := shards[i];
      assert ShardValid(i);
      freed, last := shard.EvictWhile(bytesToFree, freedBefore);
      assert ShardValid(i);
      forall j | 0 <= j < |shards| && j != i
        ensures ShardValid(j) == old(ShardValid(j)) && shards[j].entries == old(shards[j].entries)
        ensures shards[j].currentSize == old(shards[j].currentSize) && shards[j].tail == old(shards[j].tail)
        ensures shards[j].Repr == old(shards[j].Repr)
      {
      }
      assert Sizes() == old(Sizes())[i := shard.currentSize];
      SumUpdate(old(Sizes()), i, shard.currentSize);
    }

    /** The two jobs in the background: nothing new appears, and nothing that has expired stays. */
    method Maintain(now: int, bytesToFree: int)
      requires Valid()
      modifies Repr
      ensures Valid() && Repr == old(Repr) && closed == old(closed)
      ensures forall k :: Peek(k) == old(Peek(k)) || Peek(k) == None
      ensures !closed ==> forall k :: Peek(k).Some? ==> !ItemExpired(Peek(k).value, now)
    {
      Cleanup(now);
      var freed, last := EvictUnderPressure(bytesToFree);
    }

    /** `evictUnderPressure`: it stops, the bytes it counts as freed are exactly the bytes
        the cache shrank by, and it frees enough or leaves no shard with a tail; and if it drops
        anything, then last an item without which it had not freed enough. */
    method EvictUnderPressure(bytesToFree: int) returns (freed: int, ghost last: Option<string>)
      requires Valid()
      modifies Repr
      ensures Valid() && Repr == old(Repr) && closed == old(closed)
      ensures freed == old(Sum(Sizes())) - Sum(Sizes())
      ensures freed >= bytesToFree || forall i :: 0 <= i < |shards| ==> shards[i].tail == null
      ensures forall k :: Peek(k) == old(Peek(k)) || Peek(k) == None
      ensures last.None? ==> freed == 0 && forall k :: Peek(k) == old(Peek(k))
      ensures last.Some? ==>
        && Peek(last.value) == None && old(Peek(last.value)).Some?
        && freed - old(Peek(last.value)).value.size < bytesToFree
    {
      freed, last := 0, None;
      var i := 0;
      while i < |shards| && freed < bytesToFree
        invariant 0 <= i <= |shards|
        invariant Valid() && Repr == old(Repr) && closed == old(closed)
        invariant freed == old(Sum(Sizes())) - Sum(Sizes())
        invariant freed >= bytesToFree || forall j :: 0 <= j < i ==> shards[j].tail == null
        invariant forall k :: Peek(k) == old(Peek(k)) || Peek(k) == None
        invariant last.None? ==> freed == 0 && forall k :: Peek(k) == old(Peek(k))
        invariant last.Some? ==>
          && Peek(last.value) == None && old(Peek(last.value)).Some?
          && freed - old(Peek(last.value)).value.size < bytesToFree
      {
        ghost var more;
        freed, more := EvictFromShard(i, bytesToFree, freed);
        last := if more.Some? then more else last;
        i := i + 1;
      }
    }
  }
}
