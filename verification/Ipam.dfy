/** The block allocator (internal/state/ipam.go): pools of /27 blocks, one stack of free blocks
    per pool, what each tenant holds and, if there is a database, its table of blocks. Without one,
    blocks are popped from the stacks. With one, a query picks them, from a single pool, and the
    stacks are only pushed to. Which queries the database answers is a parameter; whether it takes
    part in a release, block by block, is arbitrary. A query that fails changes nothing. */
module Ipam {
  import opened Text
  import opened IpamRecords
  import opened IpamStacks
  import opened IpamTurns
  import opened IpamDatabase

  class GlobalIpam {
    const pools: seq<Pool>
    /** Whether there is a database. */
    const persistent: bool
    var blocks: Blocks
    var freeBlocks: Queues
    var tenants: Tenants
    var allocatedBlocks: int
    /** The table in the database. */
    var rows: Blocks
    /** The blocks that were given out at some time. */
    ghost var given: set<nat>
    /** Whether the stacks held exactly the free blocks at the start. */
    ghost var tidy: bool
    /** By how much the counter exceeds the number of taken blocks. */
    ghost var surplus: int

    /** Counter, stacks and table agree with the records. */
    ghost predicate Agreeing()
      reads this
    {
      Agree(persistent, tidy, blocks, freeBlocks, given, rows, allocatedBlocks - surplus)
    }

    ghost predicate Valid()
      reads this
    {
      Records(blocks, tenants, "", []) && Agreeing()
    }

    /** The blocks `s` were free among `first` and are now in hand for `t`. */
    ghost predicate Holds(first: Blocks, t: string, s: seq<nat>)
      reads this
    {
      InHand(first, blocks, tenants, t, s) && Agreeing()
    }

    /** How many blocks can still be given out. */
    ghost function Room(): nat
      reads this
    {
      |Vacant(blocks)|
    }

    /** Pool `p` can serve the request alone: its query is answered and finds enough free rows. */
    ghost predicate Serves(p: nat, count: int, answers: set<nat>)
      reads this
    {
      p in freeBlocks && p in answers && count <= |FreeRows(rows, p)|
    }

    /** The request can be met: from all pools together, but with a database from one of them. */
    ghost predicate Grantable(count: int, answers: set<nat>)
      reads this
    {
      count <= 0 || if persistent then exists p :: Serves(p, count, answers) else count <= Room()
    }

    // ---- What holds of every allocator ----

    /** The stacks hold exactly the free blocks if and only if there is no database, or they did at
        the start and no block was given out since. */
    lemma StacksExactly()
      requires Valid()
      ensures Stacks(blocks, freeBlocks) <==> !persistent || (given == {} && tidy)
    {
      if persistent {
        DriftExactly(blocks, freeBlocks, given, tidy);
      }
    }

    /** `GetStatistics`: how many blocks are reported as allocated, and how many as free in each
        pool. The first is right if and only if none was counted twice; the second, for stacks that
        were in order at the start, if and only if there is no database or no block of the pool was
        given out since. */
    method FreeCounts() returns (taken: int, r: seq<nat>)
      requires Valid()
      ensures taken == |Taken(blocks)| <==> surplus == 0
      ensures |r| == |pools|
      ensures forall p :: 0 <= p < |pools| && p in freeBlocks ==>
        r[p] == |freeBlocks[p]| && (!persistent || tidy ==>
          (r[p] == |VacantIn(blocks, p)| <==> !persistent || Quiet(blocks, given, p)))
    {
      taken, r := allocatedBlocks, [];
      for p := 0 to |pools|
        invariant |r| == p
        invariant forall q :: 0 <= q < p && q in freeBlocks ==> r[q] == |freeBlocks[q]|
      {
        r := r + [if p in freeBlocks then |freeBlocks[p]| else 0];
      }
      forall p | 0 <= p < |pools| && p in freeBlocks && (!persistent || tidy)
        ensures |freeBlocks[p]| == |VacantIn(blocks, p)| <==> !persistent || Quiet(blocks, given, p)
      {
        if persistent {
          DriftCounts(blocks, freeBlocks, given, p);
        } else {
          StackCounts(blocks, freeBlocks, p);
        }
      }
    }

    // ---- The database ----

    /** `AllocateBlocks` of the repository: any free rows of the pool, all that were asked for or
        none. */
    method QueryBlocks(t: string, p: nat, count: nat, answered: bool) returns (r: Option<seq<nat>>)
      modifies this`rows
      ensures r.Some? <==> answered && count <= |FreeRows(old(rows), p)|
      ensures r.None? ==> rows == old(rows)
      ensures r.Some? ==>
        && |r.value| == count && NoDup(r.value)
        && (forall b :: b in r.value ==> b in FreeRows(old(rows), p))
        && rows == Marked(old(rows), r.value, t)
    {
      var left := FreeRows(rows, p);
      if !answered || |left| < count {
        return None;
      }
      var picked: seq<nat> := [];
      while |picked| < count
        invariant |picked| <= count && NoDup(picked)
        invariant left <= FreeRows(rows, p) && |left| + |picked| == |FreeRows(rows, p)|
        invariant forall b :: b in picked ==> b in FreeRows(rows, p) && b !in left
      {
        var b :| b in left;
        picked, left := picked + [b], left - {b};
      }
      rows := Marked(rows, picked, t);
      return Some(picked);
    }

    /** `ReleaseBlocks` of the repository, which may fail unnoticed. */
    method FreeRowsOf(t: string, released: bool)
      modifies this`rows
      ensures rows == if persistent && released then RowsFreed(old(rows), t) else old(rows)
    {
      if persistent && released {
        rows := RowsFreed(rows, t);
      }
    }

    // ---- Releasing ----

    /** `releaseBlock`; writing the row may fail unnoticed, `written` says whether it does. */
    method ReleaseBlock(b: nat, written: bool)
      modifies this`blocks, this`freeBlocks, this`allocatedBlocks, this`rows
      ensures b in old(blocks) && old(blocks)[b].poolIndex in old(freeBlocks) ==>
        var p := old(blocks)[b].poolIndex;
        && blocks == old(blocks)[b := Block27(p, "", false)]
        && freeBlocks == old(freeBlocks)[p := old(freeBlocks)[p] + [b]]
        && allocatedBlocks == old(allocatedBlocks) - 1
      ensures b !in old(blocks) ==> blocks == old(blocks)
      ensures !(b in old(blocks) && old(blocks)[b].poolIndex in old(freeBlocks)) ==>
        freeBlocks == old(freeBlocks) && allocatedBlocks == old(allocatedBlocks)
      ensures rows == if persistent && written && b in old(blocks) then
        old(rows)[b := Block27(old(blocks)[b].poolIndex, "", false)] else old(rows)
    {
      if b !in blocks {
        return;
      }
      var p := blocks[b].poolIndex;
      blocks := blocks[b := Block27(p, "", false)];
      if persistent && written {
        rows := rows[b := Block27(p, "", false)];
      }
      if p !in freeBlocks {
        return;
      }
      freeBlocks := freeBlocks[p := freeBlocks[p] + [b]];
      allocatedBlocks := allocatedBlocks - 1;
    }

    /** The loop that releases the blocks `bs` of `t`, with `done` of them behind it. */
    ghost predicate Releasing(bs: seq<nat>, done: nat, others: Tenants, t: string, first: Blocks, firstRows: Blocks)
      requires done <= |bs|
      reads this
    {
      && HalfReleased(blocks, others, t, bs, done, first)
      && allocatedBlocks - surplus == |Taken(blocks)| && Kept(persistent, tidy, blocks, freeBlocks, given, rows)
      && RowsReleased(persistent, blocks, rows, bs, done, t, firstRows)
    }

    /** The release loops of `allocateBlocks` and `ReleaseTenant`. */
    method ReleaseAll(bs: seq<nat>, writes: nat -> bool, ghost others: Tenants, ghost t: string)
      requires Records(blocks, others, t, bs) && allocatedBlocks - surplus == |Taken(blocks)|
      requires Kept(persistent, tidy, blocks, freeBlocks, given, rows)
      requires persistent ==> BackedBut(blocks, rows, bs) && RowsOf(rows, bs, t)
      modifies this`blocks, this`freeBlocks, this`allocatedBlocks, this`rows
      ensures Records(blocks, others, "", []) && Agreeing()
      ensures blocks == Freed(old(blocks), bs)
      ensures Releases(old(rows), rows, t) && (!persistent ==> rows == old(rows))
      ensures persistent ==> Written(rows, bs, |bs|, writes) == true
    {
      MarkedNone(blocks, t);
      assert bs[0..] == bs && bs[..0] == [];
      for i := 0 to |bs|
        invariant Releasing(bs, i, others, t, old(blocks), old(rows))
        invariant persistent ==> Written(rows, bs, i, writes) == true
      {
        ReleaseOne(bs, i, writes, others, t, old(blocks), old(rows));
      }
      assert bs[..|bs|] == bs && bs[|bs|..] == [];
      NothingInHand(blocks, others, t, "");
    }

    /** One turn of the release loop. */
    method ReleaseOne(bs: seq<nat>, i: nat, writes: nat -> bool, ghost others: Tenants, ghost t: string,
                      ghost first: Blocks, ghost firstRows: Blocks)
      requires i < |bs| && Releasing(bs, i, others, t, first, firstRows)
      modifies this`blocks, this`freeBlocks, this`allocatedBlocks, this`rows
      ensures Releasing(bs, i + 1, others, t, first, firstRows)
      ensures persistent && Written(old(rows), bs, i, writes) ==> Written(rows, bs, i + 1, writes) == true
    {
      HalfReleasedNext(blocks, others, t, bs, i, first);
      ReleaseBlock(bs[i], writes(bs[i]));
      KeptPush(persistent, tidy, old(blocks), old(freeBlocks), given, old(rows), bs[i], rows);
      RowsReleasedNext(persistent, old(blocks), old(rows), rows, bs, i, t, firstRows);
    }

    // ---- Allocating ----

    /** `popFreeBlock`, which is refused with a database. */
    method PopFreeBlock(p: nat) returns (r: Option<nat>)
      modifies this`freeBlocks
      ensures r.None? <==> persistent || p !in old(freeBlocks) || old(freeBlocks)[p] == []
      ensures r.None? ==> freeBlocks == old(freeBlocks)
      ensures r.Some? ==>
        var q := old(freeBlocks)[p];
        r.value == q[|q| - 1] && freeBlocks == old(freeBlocks)[p := q[..|q| - 1]]
    {
      if persistent || p !in freeBlocks || |freeBlocks[p]| == 0 {
        return None;
      }
      var q := freeBlocks[p];
      freeBlocks := freeBlocks[p := q[..|q| - 1]];
      return Some(q[|q| - 1]);
    }

    /** The pools in the order in which they are tried, which is arbitrary. */
    method PoolIndices() returns (r: seq<nat>)
      ensures forall p :: p in r <==> p in freeBlocks
      ensures NoDup(r) && |r| == |freeBlocks|
    {
      r := [];
      var left := freeBlocks.Keys;
      while left != {}
        invariant left <= freeBlocks.Keys && NoDup(r) && |r| + |left| == |freeBlocks.Keys|
        invariant forall p :: p in r <==> p in freeBlocks && p !in left
        decreases left
      {
        var p :| p in left;
        r := r + [p];
        left := left - {p};
      }
    }

    /** Marks a block for `t`, if it is known. */
    method Mark(b: nat, t: string, networks: seq<nat>) returns (r: seq<nat>)
      modifies this`blocks, this`allocatedBlocks, this`given
      ensures b !in old(blocks) ==>
        r == networks && blocks == old(blocks) && allocatedBlocks == old(allocatedBlocks) && given == old(given)
      ensures b in old(blocks) ==>
        && r == networks + [b]
        && blocks == old(blocks)[b := Block27(old(blocks)[b].poolIndex, t, true)]
        && allocatedBlocks == old(allocatedBlocks) + 1 && given == old(given) + {b}
    {
      r := networks;
      if b in blocks {
        blocks := blocks[b := Block27(blocks[b].poolIndex, t, true)];
        r := networks + [b];
        allocatedBlocks := allocatedBlocks + 1;
        given := given + {b};
      }
    }

    /** Without a database: one attempt at a pool, with what is in hand. */
    method TakeMore(p: nat, t: string, networks: seq<nat>, ghost first: Blocks) returns (r: Option<seq<nat>>)
      requires Holds(first, t, networks) && !persistent
      modifies this`blocks, this`freeBlocks, this`allocatedBlocks, this`given
      ensures Holds(first, t, if r.Some? then r.value else networks)
      ensures r.None? ==> freeBlocks == old(freeBlocks) && (p in freeBlocks ==> freeBlocks[p] == [])
      ensures r.Some? ==>
        |r.value| == |networks| + 1 && p in freeBlocks && freeBlocks == old(freeBlocks)[p := freeBlocks[p]]
      ensures r.Some? ==>
        && r.value == networks + [r.value[|networks|]] && r.value[|networks|] in first
        && first[r.value[|networks|]].poolIndex == p && p in old(freeBlocks) && |freeBlocks[p]| == |old(freeBlocks)[p]| - 1
    {
      TakeNext(first, tidy, blocks, freeBlocks, given, rows, tenants, t, networks, p);
      r := TakeFrom(p, t, networks);
    }

    /** Pop a block and mark it. */
    method TakeFrom(p: nat, t: string, networks: seq<nat>) returns (r: Option<seq<nat>>)
      requires !persistent
      requires p in freeBlocks && freeBlocks[p] != [] ==> Free(blocks, freeBlocks[p][|freeBlocks[p]| - 1], p)
      modifies this`blocks, this`freeBlocks, this`allocatedBlocks, this`given
      ensures r.None? <==> p !in old(freeBlocks) || old(freeBlocks)[p] == []
      ensures r.None? ==> unchanged(this)
      ensures r.Some? ==>
        var q := old(freeBlocks)[p];
        var b := q[|q| - 1];
        && r.value == networks + [b] && allocatedBlocks == old(allocatedBlocks) + 1 && given == old(given) + {b}
        && blocks == old(blocks)[b := Block27(p, t, true)]
        && freeBlocks == old(freeBlocks)[p := q[..|q| - 1]]
    {
      var b := PopFreeBlock(p);
      if b.None? {
        return None;
      }
      var more := Mark(b.value, t, networks);
      r := Some(more);
    }

    /** With every pool exhausted, what is in hand goes back. */
    method RollBack(networks: seq<nat>, t: string, ghost first: Blocks)
      requires Holds(first, t, networks) && !persistent && Blank(first)
      requires forall p :: p in freeBlocks ==> freeBlocks[p] == []
      modifies this`blocks, this`freeBlocks, this`allocatedBlocks, this`rows
      ensures Valid() && blocks == first && |networks| == |Vacant(first)| && rows == old(rows)
    {
      ExhaustedMeansNoneVacant(blocks, freeBlocks);
      FreedMarked(first, networks, t);
      ReleaseAll(networks, _ => false, tenants, t);
    }

    /** The loop of `allocateBlocks` without a database: pools that are not among `left` are empty,
        and if all were rich enough at the start then each has given its share. */
    ghost predicate Turning(order: seq<nat>, stacks: Queues, count: int, left: seq<nat>, turn: nat, first: Blocks, networks: seq<nat>)
      reads this
    {
      && (forall p :: p in freeBlocks && p !in left ==> freeBlocks[p] == [])
      && (order != [] && Plenty(stacks, count) ==>
            left == order && turn == |networks| && Fair(order, stacks, freeBlocks, first, networks))
    }

    /** `allocateBlocks` without a database: blocks are popped from the pools in turn, in some order
        of the pools, as long as each of them can give its share. */
    method AllocatePopped(t: string, count: int) returns (r: Option<seq<nat>>, ghost order: seq<nat>)
      requires Valid() && !persistent
      modifies this`blocks, this`freeBlocks, this`allocatedBlocks, this`given, this`rows
      ensures r.Some? <==> count <= old(Room())
      ensures r.None? ==> blocks == old(blocks) && Valid()
      ensures r.Some? ==> |r.value| == AtLeast(count, 0) && Holds(old(blocks), t, r.value)
      ensures NoDup(order) && forall p :: p in order <==> p in old(freeBlocks)
      ensures r.Some? && order != [] && Plenty(old(freeBlocks), count) ==> InTurn(order, old(blocks), r.value)
      ensures rows == old(rows)
    {
      var networks: seq<nat> := [];
      var poolIndices := PoolIndices();
      var poolIdx: nat := 0;
      order := poolIndices;
      InHandNone(blocks, tenants, t);
      while |networks| < count
        invariant Holds(old(blocks), t, networks) && rows == old(rows)
        invariant Turning(order, old(freeBlocks), count, poolIndices, poolIdx, old(blocks), networks) == true
        invariant |networks| <= AtLeast(count, 0)
        decreases |poolIndices| + count - |networks|
      {
        if |poolIndices| == 0 {
          RollBack(networks, t, old(blocks));
          return None, order;
        }
        networks, poolIndices, poolIdx :=
          TakeTurn(t, networks, poolIndices, poolIdx, order, old(freeBlocks), count, old(blocks));
      }
      return Some(networks), order;
    }

    /** One turn of that loop: the pool whose turn it is gives a block, or is dropped. */
    method TakeTurn(t: string, networks: seq<nat>, poolIndices: seq<nat>, poolIdx: nat,
                    ghost order: seq<nat>, ghost stacks: Queues, ghost count: int, ghost first: Blocks)
      returns (networks': seq<nat>, poolIndices': seq<nat>, poolIdx': nat)
      requires Holds(first, t, networks) && !persistent && |poolIndices| > 0 && |networks| < count
      requires NoDup(order) && |order| == |stacks|
      requires Turning(order, stacks, count, poolIndices, poolIdx, first, networks)
      modifies this`blocks, this`freeBlocks, this`allocatedBlocks, this`given
      ensures Holds(first, t, networks')
      ensures Turning(order, stacks, count, poolIndices', poolIdx', first, networks')
      ensures (|networks'| == |networks| + 1 && |poolIndices'| == |poolIndices|)
        || (networks' == networks && |poolIndices'| == |poolIndices| - 1)
    {
      var k := poolIdx % |poolIndices|;
      ghost var before := freeBlocks;
      ghost var plenty := order != [] && Plenty(stacks, count);
      if plenty {
        TurnHasBlock(order, stacks, freeBlocks, first, networks, count);
      }
      var more := TakeMore(poolIndices[k], t, networks, first);
      if more.None? {
        DropPool(freeBlocks, poolIndices, k);
        return networks, poolIndices[..k] + poolIndices[k + 1..], poolIdx;
      }
      if plenty {
        FairNext(order, stacks, before, freeBlocks, first, networks, more.value[|networks|]);
      }
      return more.value, poolIndices, poolIdx + 1;
    }

    /** Marks what a query picked. */
    method MarkAll(bs: seq<nat>, t: string) returns (networks: seq<nat>)
      requires forall b :: b in bs ==> b in blocks
      modifies this`blocks, this`allocatedBlocks, this`given
      ensures networks == bs && blocks == Marked(old(blocks), bs, t)
      ensures allocatedBlocks == old(allocatedBlocks) + |bs| && given == old(given) + Elements(bs)
    {
      networks := [];
      MarkedNone(blocks, t);
      for i := 0 to |bs|
        invariant networks == bs[..i] && blocks == Marked(old(blocks), bs[..i], t)
        invariant allocatedBlocks == old(allocatedBlocks) + i && given == old(given) + Elements(bs[..i])
      {
        assert bs[i] in bs && bs[..i + 1] == bs[..i] + [bs[i]];
        MarkedStep(old(blocks), bs[..i], t, bs[i]);
        networks := Mark(bs[i], t, networks);
      }
      assert bs[..|bs|] == bs;
    }

    /** One pool is asked for the whole request. */
    method AskPool(t: string, p: nat, count: nat, answered: bool) returns (r: Option<seq<nat>>)
      requires forall b :: b in rows ==> b in blocks
      modifies this`blocks, this`allocatedBlocks, this`given, this`rows
      ensures r.Some? <==> answered && count <= |FreeRows(old(rows), p)|
      ensures r.None? ==> unchanged(this)
      ensures r.Some? ==>
        && |r.value| == count && NoDup(r.value) && (forall b :: b in r.value ==> b in old(rows) && !old(rows)[b].taken)
        && rows == Marked(old(rows), r.value, t) && blocks == Marked(old(blocks), r.value, t)
        && allocatedBlocks == old(allocatedBlocks) + |r.value| && given == old(given) + Elements(r.value)
    {
      r := QueryBlocks(t, p, count, answered);
      if r.Some? {
        var networks := MarkAll(r.value, t);
        r := Some(networks);
      }
    }

    /** `allocateBlocks` with a database: the pools are asked one after another for the whole
        request. A query gives all or nothing, so there is never a part to be given back. */
    method AllocateStored(t: string, count: nat, answers: set<nat>) returns (r: Option<seq<nat>>)
      requires forall b :: b in rows ==> b in blocks
      modifies this`blocks, this`allocatedBlocks, this`given, this`rows
      ensures r.Some? <==> count == 0 || exists p :: old(Serves(p, count, answers))
      ensures r.None? ==> unchanged(this)
      ensures r.Some? ==>
        && |r.value| == count && NoDup(r.value) && (forall b :: b in r.value ==> b in old(rows) && !old(rows)[b].taken)
        && rows == Marked(old(rows), r.value, t) && blocks == Marked(old(blocks), r.value, t)
        && allocatedBlocks == old(allocatedBlocks) + |r.value| && given == old(given) + Elements(r.value)
    {
      var poolIndices := PoolIndices();
      if count == 0 {
        MarkedNone(blocks, t);
        MarkedNone(rows, t);
        return Some([]);
      }
      while |poolIndices| > 0
        invariant unchanged(this) && rows == old(rows) && freeBlocks == old(freeBlocks)
        invariant forall p :: p in poolIndices ==> p in freeBlocks
        invariant forall p :: old(Serves(p, count, answers)) ==> p in poolIndices
        decreases |poolIndices|
      {
        var pool := poolIndices[0];
        assert poolIndices == [pool] + poolIndices[1..];
        r := AskPool(t, pool, count, pool in answers);
        if r.Some? {
          assert old(Serves(pool, count, answers));
          return;
        }
        poolIndices := poolIndices[1..];
      }
      return None;
    }

    /** `allocateBlocks`. It succeeds exactly when the request can be met; when it fails every
        record is as before. */
    method AllocateBlocks(t: string, count: int, answers: set<nat>) returns (r: Option<seq<nat>>)
      requires Valid()
      modifies this`blocks, this`freeBlocks, this`allocatedBlocks, this`given, this`rows
      ensures r.Some? <==> old(Grantable(count, answers))
      ensures r.None? ==> blocks == old(blocks) && Valid() && rows == old(rows)
      ensures r.Some? ==> |r.value| == AtLeast(count, 0) && Holds(old(blocks), t, r.value)
      ensures Claims(old(rows), rows, t)
      ensures persistent ==> freeBlocks == old(freeBlocks) && (r.Some? ==> given == old(given) + Elements(r.value))
    {
      if persistent {
        r := AllocateStored(t, AtLeast(count, 0), answers);
        if r.Some? {
          QueryMarked(tidy, old(blocks), freeBlocks, old(given), old(rows), rows, tenants, t, r.value);
        }
      } else {
        ghost var order;
        r, order := AllocatePopped(t, count);
      }
    }

    /** `AllocateTenant`. */
    method AllocateTenant(t: string, blockCount: int, answers: set<nat>) returns (r: Option<Allocation>)
      requires Valid()
      modifies this
      ensures Valid()
      ensures r.Some? <==> t !in old(tenants) && old(Grantable(AtLeast(blockCount, 1), answers))
      ensures r.None? ==> blocks == old(blocks) && tenants == old(tenants) && rows == old(rows)
      ensures r.Some? ==>
        && tenants == old(tenants)[t := r.value]
        && |r.value.networks| == AtLeast(blockCount, 1) == old(Room()) - Room()
        && Vacated(old(blocks), r.value.networks) && blocks == Marked(old(blocks), r.value.networks, t)
      ensures Claims(old(rows), rows, t)
      ensures persistent ==> freeBlocks == old(freeBlocks) && (r.Some? ==> given == old(given) + Elements(r.value.networks))
    {
      if t in tenants {
        return None;
      }
      var newBlocks := AllocateBlocks(t, AtLeast(blockCount, 1), answers);
      if newBlocks.None? {
        return None;
      }
      var allocation := WriteRecord(t, newBlocks.value, old(blocks));
      return Some(allocation);
    }

    /** Adds the blocks in hand to the record of `t`, each with its gateway. */
    method WriteRecord(t: string, networks: seq<nat>, ghost first: Blocks) returns (a: Allocation)
      requires Holds(first, t, networks)
      modifies this`tenants
      ensures Valid() && tenants == old(tenants)[t := a]
      ensures a.networks == if t in old(tenants) then old(tenants)[t].networks + networks else networks
    {
      var had := if t in tenants then tenants[t] else Allocation([], []);
      a := Allocation(had.networks + networks, had.serverIPs + FirstUsable(networks));
      StoreKeeps(blocks, tenants, t, networks, a);
      tenants := tenants[t := a];
      assert [] + networks == networks;
    }

    /** `ExpandTenant`, which answers with everything the tenant then holds. */
    method ExpandTenant(t: string, additional: int, answers: set<nat>) returns (r: Option<Allocation>)
      requires Valid()
      modifies this
      ensures Valid()
      ensures r.Some? <==> t in old(tenants) && old(Grantable(additional, answers))
      ensures r.None? ==> blocks == old(blocks) && tenants == old(tenants) && rows == old(rows)
      ensures r.Some? ==>
        && tenants == old(tenants)[t := r.value]
        && Grown(old(tenants)[t].networks, r.value.networks, AtLeast(additional, 0))
        && Vacated(old(blocks), r.value.networks[|old(tenants)[t].networks|..])
        && Room() + |r.value.networks| == old(Room()) + |old(tenants)[t].networks|
      ensures Claims(old(rows), rows, t)
      ensures persistent ==> freeBlocks == old(freeBlocks)
    {
      if t !in tenants {
        return None;
      }
      var newBlocks := AllocateBlocks(t, additional, answers);
      if newBlocks.None? {
        return None;
      }
      var allocation := WriteRecord(t, newBlocks.value, old(blocks));
      assert allocation.networks[|old(tenants)[t].networks|..] == newBlocks.value;
      return Some(allocation);
    }

    /** `ReleaseTenant`. Whether or not the database takes part, all blocks of the tenant are free
        in memory afterwards, and no row of another tenant changes; its own rows are free if the
        database releases them, or writes them one by one. */
    method ReleaseTenant(t: string, released: bool, writes: nat -> bool) returns (ok: bool)
      requires Valid()
      modifies this
      ensures Valid()
      ensures ok <==> t in old(tenants)
      ensures tenants == old(tenants) - {t}
      ensures blocks == if ok then Freed(old(blocks), old(tenants)[t].networks) else old(blocks)
      ensures Releases(old(rows), rows, t) && given == old(given) && surplus == old(surplus)
      ensures ok && persistent ==>
        Written(rows, old(tenants)[t].networks, |old(tenants)[t].networks|, if released then Always() else writes) == true
    {
      if t !in tenants {
        return false;
      }
      FreeRowsOf(t, released);
      Dropped(persistent, tidy, blocks, freeBlocks, given, old(rows), rows, tenants, t);
      ghost var between := rows;
      ReleaseRecord(t, writes, old(rows));
      if persistent {
        AllWritten(old(rows), between, rows, t, old(tenants)[t].networks, released, writes);
      }
      return true;
    }

    /** Release what is in a tenant's record, and drop it. */
    method ReleaseRecord(t: string, writes: nat -> bool, ghost first: Blocks)
      requires t in tenants && Records(blocks, tenants - {t}, t, tenants[t].networks)
      requires allocatedBlocks - surplus == |Taken(blocks)|
      requires Kept(persistent, tidy, blocks, freeBlocks, given, rows) && Releases(first, rows, t)
      requires persistent ==> BackedBut(blocks, rows, tenants[t].networks) && RowsOf(rows, tenants[t].networks, t)
      modifies this`blocks, this`freeBlocks, this`allocatedBlocks, this`rows, this`tenants
      ensures Valid() && tenants == old(tenants) - {t} && Releases(first, rows, t)
      ensures blocks == Freed(old(blocks), old(tenants)[t].networks)
      ensures Releases(old(rows), rows, t) && (persistent ==> Written(rows, old(tenants)[t].networks, |old(tenants)[t].networks|, writes) == true)
    {
      ReleaseAll(tenants[t].networks, writes, tenants - {t}, t);
      ReleasesTwice(first, old(rows), rows, t);
      tenants := tenants - {t};
    }

    // ---- Starting ----

    /** `NewGlobalIPAM` once every pool is split: over the blocks in the table, if there is a
        database and it could be read, else over none. `writes` says which rows can be written. The
        table holds blocks of the pools, and its free rows name no tenant. */
    constructor (pools: seq<Pool>, persistent: bool, table: Blocks, read: bool, writes: nat -> bool)
      requires PoolsOk(pools) && InPools(pools, table) && Blank(table)
      ensures this.pools == pools && this.persistent == persistent && tenants == map[] && given == {} && surplus == 0
      ensures tidy <==> FreeApart(pools, StartOf(persistent, read, table))
      ensures IsSplit(StartOf(persistent, read, table), table, writes)
      ensures AllAligned(blocks) && Blank(blocks) && InPools(pools, blocks) && allocatedBlocks == |Taken(blocks)|
      ensures persistent || tidy ==> Kept(persistent, tidy, blocks, freeBlocks, given, rows)
      ensures Valid() <==> Taken(StartOf(persistent, read, table)) == {} && (persistent || PoolsDisjoint(pools))
    {
      this.pools, this.persistent := pools, persistent;
      var start := StartOf(persistent, read, table);
      blocks, freeBlocks, tenants, rows := start, map[], map[], if persistent then table else map[];
      given, surplus, tidy := {}, 0, FreeApart(pools, start);
      var count := CountTaken(start);
      allocatedBlocks := count;
      new;
      Prepare(start, table, writes);
    }

    /** Splits the pools, and says what that leaves. */
    method Prepare(start: Blocks, ghost table: Blocks, writes: nat -> bool)
      requires PoolsOk(pools) && InPools(pools, table) && Blank(table)
      requires blocks == start && freeBlocks == map[] && tenants == map[] && given == {} && surplus == 0
      requires allocatedBlocks == |Taken(start)| && tidy == FreeApart(pools, start)
      requires if persistent then rows == table && (start == table || start == map[]) else start == map[]
      modifies this`blocks, this`freeBlocks, this`rows
      ensures IsSplit(start, table, writes)
      ensures AllAligned(blocks) && Blank(blocks) && InPools(pools, blocks) && allocatedBlocks == |Taken(blocks)|
      ensures persistent || tidy ==> Kept(persistent, tidy, blocks, freeBlocks, given, rows)
      ensures Valid() <==> Taken(start) == {} && (persistent || PoolsDisjoint(pools))
    {
      SplitAll(start, table, writes);
      Started(persistent, pools, start, table, writes, blocks, freeBlocks, rows);
      StartedValid(persistent, tidy, pools, start, blocks, freeBlocks, rows, given, tenants, allocatedBlocks - surplus);
    }

    /** `RestoreAllocation`: the tenant gets back the blocks of its account, if all are known;
        otherwise those before the first that is not have been marked. The counter grows by every
        block, also by those that were taken already. */
    method RestoreAllocation(t: string, networks: seq<nat>) returns (ok: bool)
      requires allocatedBlocks - surplus == |Taken(blocks)| && given == {} && Kept(persistent, tidy, blocks, freeBlocks, given, rows)
      requires NoDup(networks)
      modifies this`blocks, this`freeBlocks, this`allocatedBlocks, this`tenants, this`surplus
      ensures allocatedBlocks - surplus == |Taken(blocks)| && Kept(persistent, tidy, blocks, freeBlocks, given, rows)
      ensures ok <==> forall b :: b in networks ==> b in old(blocks)
      ensures ok ==>
        && blocks == Marked(old(blocks), networks, t) && surplus == old(surplus) + |BusyOf(old(blocks), networks)|
        && tenants == old(tenants)[t := Allocation(networks, FirstUsable(networks))]
      ensures !ok ==> tenants == old(tenants) && exists k :: 0 <= k < |networks| && blocks == Marked(old(blocks), networks[..k], t)
    {
      var k := RestoreBlocks(t, networks);
      if k < |networks| {
        assert networks[k] in networks;
        return false;
      }
      assert networks[..|networks|] == networks;
      tenants := tenants[t := Allocation(networks, FirstUsable(networks))];
      return true;
    }

    /** The loop over the blocks, up to the first that is not known. */
    method RestoreBlocks(t: string, networks: seq<nat>) returns (k: nat)
      requires allocatedBlocks - surplus == |Taken(blocks)| && given == {} && Kept(persistent, tidy, blocks, freeBlocks, given, rows)
      requires NoDup(networks)
      modifies this`blocks, this`freeBlocks, this`allocatedBlocks, this`surplus
      ensures k <= |networks| && RestoredTo(old(blocks), networks[..k], t, old(surplus))
      ensures (forall b :: b in networks[..k] ==> b in old(blocks)) && (k < |networks| ==> networks[k] !in old(blocks))
    {
      k := 0;
      MarkedNone(blocks, t);
      assert BusyOf(blocks, networks[..0]) == {};
      while k < |networks| && networks[k] in blocks
        invariant k <= |networks| && RestoredTo(old(blocks), networks[..k], t, old(surplus))
        invariant forall b :: b in networks[..k] ==> b in old(blocks)
      {
        RestoreNext(old(blocks), networks, k, t);
        RestoreBlock(networks[k], t);
        k := k + 1;
      }
    }

    /** The blocks `s` are restored for `t`. */
    ghost predicate RestoredTo(first: Blocks, s: seq<nat>, t: string, was: int)
      reads this
    {
      && blocks == Marked(first, s, t) && surplus == was + |BusyOf(first, s)| && allocatedBlocks - surplus == |Taken(blocks)|
      && Kept(persistent, tidy, blocks, freeBlocks, given, rows)
    }

    /** One block is marked and taken off the stack of its pool. */
    method RestoreBlock(b: nat, t: string)
      requires allocatedBlocks - surplus == |Taken(blocks)| && given == {} && Kept(persistent, tidy, blocks, freeBlocks, given, rows)
      requires b in blocks
      modifies this`blocks, this`freeBlocks, this`allocatedBlocks, this`surplus
      ensures allocatedBlocks - surplus == |Taken(blocks)| && Kept(persistent, tidy, blocks, freeBlocks, given, rows)
      ensures blocks == old(blocks)[b := Block27(old(blocks)[b].poolIndex, t, true)]
      ensures surplus == old(surplus) + if old(blocks)[b].taken then 1 else 0
    {
      KeptTake(persistent, tidy, blocks, freeBlocks, rows, b, t);
      var p := blocks[b].poolIndex;
      surplus := surplus + if blocks[b].taken then 1 else 0;
      blocks := blocks[b := Block27(p, t, true)];
      if p in freeBlocks {
        var rest := Unlisted(freeBlocks[p], b);
        freeBlocks := freeBlocks[p := rest];
      }
      allocatedBlocks := allocatedBlocks + 1;
    }

    /** All pools are split over the records `start`. */
    ghost predicate IsSplit(start: Blocks, table: Blocks, writes: nat -> bool)
      reads this
    {
      && Shape(pools, |pools|, start, blocks) && SplitQueues(pools, |pools|, start, freeBlocks)
      && (persistent ==> Tabled(pools, start, table, writes, blocks, rows))
    }

    method SplitAll(start: Blocks, ghost table: Blocks, writes: nat -> bool)
      requires blocks == start && freeBlocks == map[]
      requires persistent ==> rows == table && (start == table || start == map[])
      modifies this`blocks, this`freeBlocks, this`rows
      ensures IsSplit(start, table, writes)
    {
      for p := 0 to |pools|
        invariant Shape(pools, p, start, blocks) && SplitQueues(pools, p, start, freeBlocks)
        invariant persistent ==> Tabled(pools, start, table, writes, blocks, rows)
      {
        Split(p, start, table, writes);
      }
    }

    /** `splitIntoBlocks27`. */
    method Split(p: nat, ghost start: Blocks, ghost table: Blocks, writes: nat -> bool)
      requires p < |pools|
      requires Shape(pools, p, start, blocks) && SplitQueues(pools, p, start, freeBlocks)
      requires persistent ==> Tabled(pools, start, table, writes, blocks, rows)
      modifies this`blocks, this`freeBlocks, this`rows
      ensures Shape(pools, p + 1, start, blocks) && SplitQueues(pools, p + 1, start, freeBlocks)
      ensures persistent ==> Tabled(pools, start, table, writes, blocks, rows)
    {
      ghost var first := blocks;
      SplitBlocks(p, start, table, writes);
      OverlaidAll(pools, p, start, first, blocks);
      ShapeBusy(pools, p, start, first);
      SameFreeBases(start, first, pools[p].base, pools[p].count);
    }

    /** The loop over the blocks of a pool. */
    method SplitBlocks(p: nat, ghost start: Blocks, ghost table: Blocks, writes: nat -> bool)
      requires p < |pools| && (persistent ==> Tabled(pools, start, table, writes, blocks, rows))
      modifies this`blocks, this`freeBlocks, this`rows
      ensures freeBlocks == old(freeBlocks)[p := FreeBases(old(blocks), pools[p].base, pools[p].count)]
      ensures Overlaid(old(blocks), blocks, pools[p].base, pools[p].count, p)
      ensures persistent ==> Tabled(pools, start, table, writes, blocks, rows)
    {
      freeBlocks := freeBlocks[p := []];
      var base, current := pools[p].base, pools[p].base;
      for i := 0 to pools[p].count
        invariant current == base + BLOCK * i
        invariant SplitTo(old(freeBlocks), p, FreeBases(old(blocks), base, i))
        invariant Overlaid(old(blocks), blocks, base, i, p)
        invariant persistent ==> Tabled(pools, start, table, writes, blocks, rows)
      {
        SplitNext(p, i, current, old(blocks), old(freeBlocks), start, table, writes);
        current := current + BLOCK;
      }
    }

    /** The stacks are `free` but for pool `p`. */
    ghost predicate SplitTo(free: Queues, p: nat, q: seq<nat>)
      reads this
    {
      freeBlocks == free[p := q]
    }

    /** One turn of the splitting loop. */
    method SplitNext(p: nat, i: nat, current: nat, ghost first: Blocks, ghost free: Queues, ghost start: Blocks,
                     ghost table: Blocks, writes: nat -> bool)
      requires p < |pools| && SplitTo(free, p, FreeBases(first, pools[p].base, i)) && i < pools[p].count
      requires current == pools[p].base + BLOCK * i && Overlaid(first, blocks, pools[p].base, i, p)
      requires persistent ==> Tabled(pools, start, table, writes, blocks, rows)
      modifies this`blocks, this`freeBlocks, this`rows
      ensures Overlaid(first, blocks, pools[p].base, i + 1, p)
      ensures SplitTo(free, p, FreeBases(first, pools[p].base, i + 1))
      ensures persistent ==> Tabled(pools, start, table, writes, blocks, rows)
    {
      OverlaidNext(first, blocks, pools[p].base, i, p, current);
      FreeBasesNext(first, pools[p].base, i, current);
      AmongAt(pools[p].base, pools[p].count, i, current);
      EnsureQueued(current, p, writes);
      if persistent {
        TabledNext(pools, start, table, writes, old(blocks), blocks, old(rows), rows, current, p);
      }
    }

    /** The body of the splitting loop: record the block for the pool, in the table too if it is
        new, and queue it if free. */
    method EnsureQueued(b: nat, p: nat, writes: nat -> bool)
      requires p in freeBlocks
      modifies this`blocks, this`freeBlocks, this`rows
      ensures blocks == old(blocks)[b := Rehomed(old(blocks), b, p)]
      ensures freeBlocks ==
        if blocks[b].taken then old(freeBlocks) else old(freeBlocks)[p := old(freeBlocks)[p] + [b]]
      ensures rows ==
        if persistent && b !in old(blocks) && writes(b) then old(rows)[b := Block27(p, "", false)] else old(rows)
    {
      if b in blocks {
        blocks := blocks[b := blocks[b].(poolIndex := p)];
      } else {
        blocks := blocks[b := Block27(p, "", false)];
        if persistent && writes(b) {
          rows := rows[b := Block27(p, "", false)];
        }
      }
      if !blocks[b].taken {
        freeBlocks := freeBlocks[p := freeBlocks[p] + [b]];
      }
    }
  }

  /** The counting loop of `NewGlobalIPAM`, over the rows in any order. */
  method CountTaken(table: Blocks) returns (n: nat)
    ensures n == |Taken(table)|
  {
    n := 0;
    var left := table.Keys;
    while left != {}
      invariant left <= table.Keys && n == |Taken(table) - left|
      decreases left
    {
      var b :| b in left;
      CountNext(table, left, b);
      if table[b].taken {
        n := n + 1;
      }
      left := left - {b};
    }
    assert Taken(table) - {} == Taken(table);
  }

  /** The rows of the first `n` blocks that could be written are free. */
  ghost predicate Written(rows: Blocks, bs: seq<nat>, n: nat, writes: nat -> bool)
    requires n <= |bs|
  {
    forall j :: 0 <= j < n && bs[j] in rows && writes(bs[j]) ==> !rows[bs[j]].taken
  }

  function Always(): nat -> bool {
    _ => true
  }

  lemma AllWritten(rows: Blocks, rows': Blocks, rows'': Blocks, t: string, bs: seq<nat>, released: bool, writes: nat -> bool)
    requires rows' == (if released then RowsFreed(rows, t) else rows) && Releases(rows', rows'', t)
    requires RowsOf(rows, bs, t) && Written(rows'', bs, |bs|, writes)
    ensures Written(rows'', bs, |bs|, if released then Always() else writes)
  {
    assert forall j :: 0 <= j < |bs| ==> bs[j] in bs;
  }

  /** The search and cut of `RestoreAllocation`. */
  method Unlisted(q: seq<nat>, b: nat) returns (r: seq<nat>)
    ensures r == Without(q, b)
  {
    var i := 0;
    while i < |q| && q[i] != b
      invariant 0 <= i <= |q| && b !in q[..i]
    {
      i := i + 1;
    }
    WithoutAt(q, b, i);
    return if i < |q| then q[..i] + q[i + 1..] else q;
  }

  lemma {:induction false} WithoutAt(q: seq<nat>, b: nat, i: nat)
    requires i <= |q| && b !in q[..i] && (i < |q| ==> q[i] == b)
    ensures Without(q, b) == if i < |q| then q[..i] + q[i + 1..] else q
  {
    if i < |q| {
      WithoutFound(q, q[..i], b, q[i + 1..]);
    } else {
      assert q[..i] == q;
      WithoutAbsent(q, b);
    }
  }

  lemma {:induction false} WithoutFound(q: seq<nat>, before: seq<nat>, b: nat, behind: seq<nat>)
    requires q == before + [b] + behind && b !in before
    ensures Without(q, b) == before + behind
  {
    if before == [] {
      assert q[1..] == behind;
    } else {
      WithoutFound(q[1..], before[1..], b, behind);
      assert before + behind == [q[0]] + (before[1..] + behind);
    }
  }

  lemma {:induction false} WithoutAbsent(q: seq<nat>, b: nat)
    requires b !in q
    ensures Without(q, b) == q
  {
    if q == [] {
    } else {
      WithoutAbsent(q[1..], b);
    }
  }

  /** The blocks of `s` that are taken. */
  ghost function BusyOf(blocks: Blocks, s: seq<nat>): set<nat> {
    set b | b in s && Busy(blocks, b)
  }

  lemma RestoreNext(first: Blocks, networks: seq<nat>, i: nat, t: string)
    requires i < |networks| && NoDup(networks) && networks[i] in first
    ensures networks[..i + 1] == networks[..i] + [networks[i]]
    ensures var m := Marked(first, networks[..i], t);
      && networks[i] in m && m[networks[i]].taken == first[networks[i]].taken
      && Marked(first, networks[..i + 1], t) == m[networks[i] := Block27(m[networks[i]].poolIndex, t, true)]
    ensures |BusyOf(first, networks[..i + 1])| == |BusyOf(first, networks[..i])| + if first[networks[i]].taken then 1 else 0
  {
    var b := networks[i];
    assert networks[..i + 1] == networks[..i] + [b];
    assert b !in networks[..i];
    MarkedStep(first, networks[..i], t, b);
    if first[b].taken {
      assert BusyOf(first, networks[..i + 1]) == BusyOf(first, networks[..i]) + {b};
    } else {
      assert BusyOf(first, networks[..i + 1]) == BusyOf(first, networks[..i]);
    }
  }

  /** A block is marked and taken off the stack of its pool, before any query. */
  lemma {:induction false} KeptTake(persistent: bool, tidy: bool, blocks: Blocks, free: Queues, rows: Blocks, b: nat, t: string)
    requires Kept(persistent, tidy, blocks, free, {}, rows) && b in blocks
    ensures var p := blocks[b].poolIndex;
      var blocks' := blocks[b := Block27(p, t, true)];
      && p in free && Kept(persistent, tidy, blocks', free[p := Without(free[p], b)], {}, rows)
      && |Taken(blocks')| == |Taken(blocks)| + if blocks[b].taken then 0 else 1
  {
    var blocks' := blocks[b := Block27(blocks[b].poolIndex, t, true)];
    if persistent {
      DriftTake(blocks, free, tidy, b, t);
    } else {
      TakeStacks(blocks, free, b, t);
    }
    if blocks[b].taken {
      assert Taken(blocks') == Taken(blocks);
    } else {
      assert Taken(blocks') == Taken(blocks) + {b};
    }
  }

  lemma CountNext(table: Blocks, left: set<nat>, b: nat)
    requires b in left && b in table
    ensures |Taken(table) - (left - {b})| == |Taken(table) - left| + if table[b].taken then 1 else 0
  {
    if table[b].taken {
      assert Taken(table) - (left - {b}) == (Taken(table) - left) + {b};
    } else {
      assert Taken(table) - (left - {b}) == Taken(table) - left;
    }
  }

  function AtLeast(n: int, least: nat): nat {
    if n < least then least else n
  }

  /** `after` is `before` followed by `n` more. */
  ghost predicate Grown(before: seq<nat>, after: seq<nat>, n: nat) {
    |after| == |before| + n && after[..|before|] == before
  }

  /** The row of `b` while the pools are split over the records `start`: written, if it can be, for
      a block that is new. */
  ghost predicate TabledAt(pools: seq<Pool>, start: Blocks, table: Blocks, writes: nat -> bool, blocks: Blocks, rows: Blocks, b: nat) {
    if b in blocks && b !in start && writes(b) then
      b in rows && rows[b].poolIndex < |pools| && InPool(pools[rows[b].poolIndex], b) && rows[b] == Block27(rows[b].poolIndex, "", false)
    else
      (b in rows <==> b in table) && (b in rows ==> rows[b] == table[b])
  }

  ghost predicate Tabled(pools: seq<Pool>, start: Blocks, table: Blocks, writes: nat -> bool, blocks: Blocks, rows: Blocks) {
    start.Keys <= blocks.Keys && forall b: nat :: TabledAt(pools, start, table, writes, blocks, rows, b)
  }

  lemma TabledNext(pools: seq<Pool>, start: Blocks, table: Blocks, writes: nat -> bool, blocks: Blocks, blocks': Blocks,
                   rows: Blocks, rows': Blocks, b: nat, p: nat)
    requires Tabled(pools, start, table, writes, blocks, rows)
    requires blocks'.Keys == blocks.Keys + {b} && p < |pools| && InPool(pools[p], b)
    requires rows' == if b !in blocks && writes(b) then rows[b := Block27(p, "", false)] else rows
    ensures Tabled(pools, start, table, writes, blocks', rows')
  {
    forall c: nat
      ensures TabledAt(pools, start, table, writes, blocks', rows', c)
    {
      assert TabledAt(pools, start, table, writes, blocks, rows, c);
    }
  }

  /** The records the pools are split over. */
  function StartOf(persistent: bool, read: bool, table: Blocks): Blocks {
    if persistent && read then table else map[]
  }

  /** What the split pools leave. */
  lemma Started(persistent: bool, pools: seq<Pool>, start: Blocks, table: Blocks, writes: nat -> bool, blocks: Blocks,
                free: Queues, rows: Blocks)
    requires PoolsOk(pools) && InPools(pools, table) && Blank(table) && (start == table || start == map[])
    requires Shape(pools, |pools|, start, blocks) && SplitQueues(pools, |pools|, start, free)
    requires persistent ==> Tabled(pools, start, table, writes, blocks, rows)
    ensures AllAligned(blocks) && Blank(blocks) && InPools(pools, blocks) && Taken(blocks) == Taken(start)
    ensures persistent || FreeApart(pools, start) ==> Kept(persistent, FreeApart(pools, start), blocks, free, {}, rows)
    ensures Stacks(blocks, free) <==> FreeApart(pools, start)
  {
    SplitAligned(pools, start, blocks);
    SplitIsPartition(pools, start, blocks, free);
    SplitDrifts(pools, start, blocks, free);
    SameTaken(pools, start, blocks);
    if persistent {
      TabledKnown(pools, start, table, writes, blocks, rows);
    }
  }

  lemma SameTaken(pools: seq<Pool>, start: Blocks, blocks: Blocks)
    requires Shape(pools, |pools|, start, blocks)
    ensures Taken(blocks) == Taken(start)
  {
    ShapeBusy(pools, |pools|, start, blocks);
    assert forall b: nat :: b in Taken(blocks) <==> Busy(blocks, b);
    assert forall b: nat :: b in Taken(start) <==> Busy(start, b);
  }

  /** Without tenants the records are in order exactly if no block is taken. */
  lemma StartedValid(persistent: bool, tidy: bool, pools: seq<Pool>, start: Blocks, blocks: Blocks, free: Queues, rows: Blocks,
                     given: set<nat>, tenants: Tenants, count: int)
    requires AllAligned(blocks) && Blank(blocks) && Taken(blocks) == Taken(start) && tidy == FreeApart(pools, start)
    requires persistent || tidy ==> Kept(persistent, tidy, blocks, free, given, rows)
    requires Stacks(blocks, free) <==> FreeApart(pools, start)
    requires (!persistent ==> start == map[]) && given == {} && tenants == map[] && count == |Taken(blocks)|
    ensures Records(blocks, tenants, "", []) && Agree(persistent, tidy, blocks, free, given, rows, count) <==>
      Taken(start) == {} && (persistent || PoolsDisjoint(pools))
  {
    NothingBusy(pools);
    if Taken(start) == {} {
      assert forall b :: b in blocks && blocks[b].taken ==> b in Taken(blocks);
    } else {
      var b :| b in Taken(blocks);
      assert !Listed(tenants, blocks[b].tenantID, "", [], b);
    }
  }

  lemma TabledKnown(pools: seq<Pool>, start: Blocks, table: Blocks, writes: nat -> bool, blocks: Blocks, rows: Blocks)
    requires InPools(pools, table) && Blank(table)
    requires Shape(pools, |pools|, start, blocks) && Tabled(pools, start, table, writes, blocks, rows)
    ensures Known(blocks, rows)
  {
    forall b | b in rows
      ensures b in blocks && (!rows[b].taken ==> rows[b].tenantID == "")
    {
      assert TabledAt(pools, start, table, writes, blocks, rows, b);
      assert Shaped(pools, |pools|, start, blocks, b);
    }
  }

  lemma DropPool(free: Queues, indices: seq<nat>, k: nat)
    requires k < |indices|
    requires indices[k] in free ==> free[indices[k]] == []
    requires forall p :: p in free && p !in indices ==> free[p] == []
    ensures forall p :: p in free && p !in indices[..k] + indices[k + 1..] ==> free[p] == []
  {
    assert indices == indices[..k] + [indices[k]] + indices[k + 1..];
  }

  /** One turn of the allocation loop, at a pool that may be empty or unknown. */
  lemma TakeNext(first: Blocks, tidy: bool, blocks: Blocks, free: Queues, given: set<nat>, rows: Blocks,
                 tenants: Tenants, t: string, networks: seq<nat>, p: nat)
    requires InHand(first, blocks, tenants, t, networks) && Agree(false, tidy, blocks, free, given, rows, |Taken(blocks)|)
    ensures p in free && free[p] != [] ==>
      var b := free[p][|free[p]| - 1];
      var blocks' := blocks[b := Block27(p, t, true)];
      && Free(blocks, b, p)
      && InHand(first, blocks', tenants, t, networks + [b])
      && Agree(false, tidy, blocks', free[p := free[p][..|free[p]| - 1]], given + {b}, rows, |Taken(blocks)| + 1)
  {
    if p in free && free[p] != [] {
      PopKeeps(blocks, free, t, p);
      InHandMore(first, blocks, tenants, t, networks, free[p][|free[p]| - 1]);
    }
  }

  /** What a query picked is free in memory, and what memory holds is still in the table. */
  lemma Picked(blocks: Blocks, rows: Blocks, rows': Blocks, picked: seq<nat>, t: string)
    requires Backed(blocks, rows) && Known(blocks, rows)
    requires forall b :: b in picked ==> b in rows && !rows[b].taken
    requires rows' == Marked(rows, picked, t)
    ensures Backed(blocks, rows') && Known(blocks, rows') && Claims(rows, rows', t)
    ensures forall b :: b in picked ==> b in blocks && !blocks[b].taken && HeldBy(rows', b, t)
  {
    MarkedClaims(rows, picked, t);
    ClaimsKeepBacked(blocks, rows, rows', t);
    forall b | b in picked
      ensures b in blocks && !blocks[b].taken && HeldBy(rows', b, t)
    {
      HeldIsTaken(blocks, rows, b);
    }
  }

  /** What is kept of the stacks. */
  ghost predicate Kept(persistent: bool, tidy: bool, blocks: Blocks, free: Queues, given: set<nat>, rows: Blocks) {
    if persistent then Drifting(blocks, free, given, tidy) && Known(blocks, rows) else Stacks(blocks, free)
  }

  /** Counter, stacks and table agree with the records. */
  ghost predicate Agree(persistent: bool, tidy: bool, blocks: Blocks, free: Queues, given: set<nat>, rows: Blocks, count: int) {
    && count == |Taken(blocks)|
    && Kept(persistent, tidy, blocks, free, given, rows)
    && (persistent ==> Backed(blocks, rows))
  }

  /** A free block is marked whose row already is. */
  lemma AgreeMark(tidy: bool, blocks: Blocks, free: Queues, given: set<nat>, rows: Blocks, b: nat, t: string)
    requires Agree(true, tidy, blocks, free, given, rows, |Taken(blocks)|)
    requires b in blocks && !blocks[b].taken && HeldBy(rows, b, t)
    ensures Agree(true, tidy, blocks[b := Block27(blocks[b].poolIndex, t, true)], free, given + {b}, rows, |Taken(blocks)| + 1)
  {
    var blocks' := blocks[b := Block27(blocks[b].poolIndex, t, true)];
    DriftMark(blocks, free, given, tidy, b, t);
    assert Taken(blocks') == Taken(blocks) + {b};
    BackedMark(blocks, rows, b, t);
  }

  ghost function Elements(s: seq<nat>): set<nat> {
    set b | b in s
  }

  lemma MarkedStep(blocks: Blocks, s: seq<nat>, t: string, b: nat)
    requires b in blocks
    ensures Marked(blocks, s + [b], t) == Marked(blocks, s, t)[b := Block27(Marked(blocks, s, t)[b].poolIndex, t, true)]
    ensures Elements(s + [b]) == Elements(s) + {b}
  {
  }

  /** The blocks `s` are marked for `t` in `blocks`, were free among `first`, and all agrees. */
  ghost predicate MarkedTo(first: Blocks, blocks: Blocks, tidy: bool, free: Queues, given: set<nat>, rows: Blocks,
                           tenants: Tenants, t: string, s: seq<nat>) {
    && InHand(first, blocks, tenants, t, s)
    && Agree(true, tidy, blocks, free, given + Elements(s), rows, |Taken(first)| + |s|)
  }

  /** What a query picked is in hand once it is marked. */
  lemma QueryMarked(tidy: bool, blocks: Blocks, free: Queues, given: set<nat>, rows: Blocks, rows': Blocks,
                    tenants: Tenants, t: string, bs: seq<nat>)
    requires Records(blocks, tenants, "", []) && Agree(true, tidy, blocks, free, given, rows, |Taken(blocks)|) && NoDup(bs)
    requires (forall b :: b in bs ==> b in rows && !rows[b].taken) && rows' == Marked(rows, bs, t)
    ensures (forall b :: b in bs ==> b in blocks) && Claims(rows, rows', t)
    ensures MarkedTo(blocks, Marked(blocks, bs, t), tidy, free, given, rows', tenants, t, bs)
  {
    Picked(blocks, rows, rows', bs, t);
    MarkedInHand(tidy, blocks, free, given, rows', tenants, t, bs);
  }

  lemma {:induction false} MarkedInHand(tidy: bool, blocks: Blocks, free: Queues, given: set<nat>, rows: Blocks,
                                        tenants: Tenants, t: string, bs: seq<nat>)
    requires Records(blocks, tenants, "", []) && Agree(true, tidy, blocks, free, given, rows, |Taken(blocks)|) && NoDup(bs)
    requires forall b :: b in bs ==> b in blocks && !blocks[b].taken && HeldBy(rows, b, t)
    ensures MarkedTo(blocks, Marked(blocks, bs, t), tidy, free, given, rows, tenants, t, bs)
  {
    if bs == [] {
      NoneMarkedTo(tidy, blocks, free, given, rows, tenants, t);
    } else {
      var front, b := bs[..|bs| - 1], bs[|bs| - 1];
      NoDupFront(bs);
      assert bs == front + [b];
      MarkedInHand(tidy, blocks, free, given, rows, tenants, t, front);
      MarkedStep(blocks, front, t, b);
      MarkedMoreTo(blocks, Marked(blocks, front, t), Marked(blocks, bs, t), tidy, free, given, rows, tenants, t, front, b);
    }
  }

  lemma NoneMarkedTo(tidy: bool, blocks: Blocks, free: Queues, given: set<nat>, rows: Blocks, tenants: Tenants, t: string)
    requires Records(blocks, tenants, "", []) && Agree(true, tidy, blocks, free, given, rows, |Taken(blocks)|)
    ensures MarkedTo(blocks, Marked(blocks, [], t), tidy, free, given, rows, tenants, t, [])
  {
    InHandNone(blocks, tenants, t);
    MarkedNone(blocks, t);
    assert given + Elements([]) == given;
  }

  lemma MarkedMoreTo(first: Blocks, m: Blocks, m': Blocks, tidy: bool, free: Queues, given: set<nat>, rows: Blocks,
                     tenants: Tenants, t: string, s: seq<nat>, b: nat)
    requires MarkedTo(first, m, tidy, free, given, rows, tenants, t, s)
    requires b in m && !m[b].taken && HeldBy(rows, b, t) && m' == m[b := Block27(m[b].poolIndex, t, true)]
    ensures MarkedTo(first, m', tidy, free, given, rows, tenants, t, s + [b])
  {
    InHandMore(first, m, tenants, t, s, b);
    AgreeMark(tidy, m, free, given + Elements(s), rows, b, t);
    assert given + Elements(s) + {b} == given + Elements(s + [b]);
  }

  lemma BackedMark(blocks: Blocks, rows: Blocks, b: nat, t: string)
    requires Backed(blocks, rows) && HeldBy(rows, b, t) && b in blocks
    ensures Backed(blocks[b := Block27(blocks[b].poolIndex, t, true)], rows)
  {
  }

  /** A tenant's record is about to be released; its rows are freed or not. */
  lemma Dropped(persistent: bool, tidy: bool, blocks: Blocks, free: Queues, given: set<nat>, rows: Blocks,
                rows': Blocks, tenants: Tenants, t: string)
    requires Records(blocks, tenants, "", []) && t in tenants
    requires Agree(persistent, tidy, blocks, free, given, rows, |Taken(blocks)|)
    requires rows' == rows || (persistent && rows' == RowsFreed(rows, t))
    ensures Records(blocks, tenants - {t}, t, tenants[t].networks) && Kept(persistent, tidy, blocks, free, given, rows')
    ensures persistent ==> BackedBut(blocks, rows', tenants[t].networks) && RowsOf(rows', tenants[t].networks, t)
    ensures Releases(rows, rows', t)
  {
    DropKeeps(blocks, tenants, t);
    if persistent {
      BackedButOwn(blocks, tenants - {t}, rows, rows', t, tenants[t].networks);
    }
  }

  /** A block comes back; its row is written or not. */
  lemma KeptPush(persistent: bool, tidy: bool, blocks: Blocks, free: Queues, given: set<nat>, rows: Blocks, b: nat,
                 rows': Blocks)
    requires Kept(persistent, tidy, blocks, free, given, rows) && b in blocks && blocks[b].taken
    requires rows' == rows || (persistent && rows' == rows[b := Block27(blocks[b].poolIndex, "", false)])
    ensures var p := blocks[b].poolIndex;
      p in free && Kept(persistent, tidy, blocks[b := Block27(p, "", false)], free[p := free[p] + [b]], given, rows')
  {
    if persistent {
      DriftPush(blocks, free, given, tidy, b);
    } else {
      PushKeeps(blocks, free, b);
    }
  }

  /** The first `done` of the blocks `bs` in hand for `t` have been taken back. */
  ghost predicate HalfReleased(blocks: Blocks, others: Tenants, t: string, bs: seq<nat>, done: nat, first: Blocks)
    requires done <= |bs|
  {
    NoDup(bs) && Records(blocks, others, t, bs[done..]) && blocks == Freed(first, bs[..done])
  }

  lemma HalfReleasedNext(blocks: Blocks, others: Tenants, t: string, bs: seq<nat>, i: nat, first: Blocks)
    requires i < |bs| && HalfReleased(blocks, others, t, bs, i, first)
    ensures HeldBy(blocks, bs[i], t)
    ensures var blocks' := blocks[bs[i] := Block27(blocks[bs[i]].poolIndex, "", false)];
      HalfReleased(blocks', others, t, bs, i + 1, first) && |Taken(blocks')| + 1 == |Taken(blocks)|
  {
    ReleaseNext(blocks, others, t, first, bs, i);
  }

  /** The same for their rows. */
  ghost predicate RowsReleased(persistent: bool, blocks: Blocks, rows: Blocks, bs: seq<nat>, done: nat, t: string, first: Blocks)
    requires done <= |bs|
  {
    && (persistent ==> BackedBut(blocks, rows, bs[done..]) && RowsOf(rows, bs[done..], t))
    && Releases(first, rows, t) && (!persistent ==> rows == first)
  }

  lemma RowsReleasedNext(persistent: bool, blocks: Blocks, rows: Blocks, rows': Blocks, bs: seq<nat>, i: nat, t: string,
                         first: Blocks)
    requires i < |bs| && RowsReleased(persistent, blocks, rows, bs, i, t, first) && bs[i] in blocks
    requires rows' == rows || (persistent && rows' == rows[bs[i] := Block27(blocks[bs[i]].poolIndex, "", false)])
    ensures RowsReleased(persistent, blocks[bs[i] := Block27(blocks[bs[i]].poolIndex, "", false)], rows', bs, i + 1, t, first)
  {
    if persistent {
      ReleaseRow(blocks, rows, rows', bs, i, t, blocks[bs[i]].poolIndex);
      ReleasesTwice(first, rows, rows', t);
    }
  }
}
