/** The allocator's stacks of free blocks (internal/state/ipam.go), one for each pool. Without a
    database they hold exactly the free blocks. With one they only ever grow, and this module says
    exactly when they still hold the free blocks. */
module IpamStacks {
  import opened IpamRecords

  /** A pool as configured: `count` consecutive blocks from `base`. */
  datatype Pool = Pool(base: nat, count: nat)

  type Queues = map<nat, seq<nat>>

  // ---- Without a database ----

  ghost predicate Queue(blocks: Blocks, q: seq<nat>, p: nat) {
    NoDup(q) && forall b :: b in q ==> Free(blocks, b, p)
  }

  /** Stack `p` holds free blocks of pool `p`, none twice. */
  ghost predicate Queued(blocks: Blocks, free: Queues) {
    forall p :: p in free ==> Queue(blocks, free[p], p)
  }

  /** The block belongs to a pool with a stack and, if it is free, is on it. */
  ghost predicate OnShelf(blocks: Blocks, free: Queues, b: nat)
    requires b in blocks
  {
    blocks[b].poolIndex in free && (!blocks[b].taken ==> b in free[blocks[b].poolIndex])
  }

  ghost predicate Shelved(blocks: Blocks, free: Queues) {
    forall b :: b in blocks ==> OnShelf(blocks, free, b)
  }

  /** The stacks hold exactly the free blocks, each once and on the stack of its own pool. */
  ghost predicate Stacks(blocks: Blocks, free: Queues) {
    Queued(blocks, free) && Shelved(blocks, free)
  }

  /** A held block is on no stack. */
  lemma HeldIsNotFree(blocks: Blocks, free: Queues, t: string, p: nat, b: nat)
    requires Stacks(blocks, free) && p in free && HeldBy(blocks, b, t)
    ensures b !in free[p]
  {
    assert Queue(blocks, free[p], p);
    assert b in free[p] ==> Free(blocks, b, p);
  }

  /** With every stack empty, no block is free. */
  lemma ExhaustedMeansNoneVacant(blocks: Blocks, free: Queues)
    requires Stacks(blocks, free)
    requires forall p :: p in free ==> free[p] == []
    ensures Vacant(blocks) == {}
  {
    forall b | b in blocks
      ensures blocks[b].taken
    {
      assert OnShelf(blocks, free, b);
    }
  }

  /** The last block of stack `p` is popped and marked. */
  lemma PopKeeps(blocks: Blocks, free: Queues, t: string, p: nat)
    requires Stacks(blocks, free) && p in free && free[p] != []
    ensures var b := free[p][|free[p]| - 1];
      Free(blocks, b, p) && Stacks(blocks[b := Block27(p, t, true)], free[p := free[p][..|free[p]| - 1]])
  {
    var q := free[p];
    var b := q[|q| - 1];
    assert Queue(blocks, q, p);
    NoDupFront(q);
    assert Free(blocks, b, p);
    var blocks' := blocks[b := Block27(p, t, true)];
    var free' := free[p := q[..|q| - 1]];
    PopQueues(blocks, free, b, p, blocks', free');
    forall c | c in blocks'
      ensures OnShelf(blocks', free', c)
    {
      assert OnShelf(blocks, free, c);
    }
  }

  lemma PopQueues(blocks: Blocks, free: Queues, b: nat, p: nat, blocks': Blocks, free': Queues)
    requires Queued(blocks, free) && p in free && Free(blocks, b, p)
    requires free[p] != [] && free[p][|free[p]| - 1] == b
    requires b in blocks' && blocks' == blocks[b := blocks'[b]]
    requires free' == free[p := free[p][..|free[p]| - 1]]
    ensures Queued(blocks', free')
  {
    forall r | r in free'
      ensures Queue(blocks', free'[r], r)
    {
      assert Queue(blocks, free[r], r) && Queue(blocks, free[p], p);
      NoDupFront(free[p]);
      forall c | c in free'[r]
        ensures Free(blocks', c, r)
      {
        assert Free(blocks, c, r) && c != b;
      }
    }
  }

  /** A held block is taken back and pushed on the stack of its pool. */
  lemma PushKeeps(blocks: Blocks, free: Queues, b: nat)
    requires Stacks(blocks, free) && b in blocks && blocks[b].taken
    ensures var p := blocks[b].poolIndex;
      p in free && Stacks(blocks[b := Block27(p, "", false)], free[p := free[p] + [b]])
  {
    assert OnShelf(blocks, free, b);
    var p := blocks[b].poolIndex;
    var blocks' := blocks[b := Block27(p, "", false)];
    var free' := free[p := free[p] + [b]];
    PushQueues(blocks, free, b, p, blocks', free');
    forall c | c in blocks'
      ensures OnShelf(blocks', free', c)
    {
      assert OnShelf(blocks, free, c);
    }
  }

  lemma PushQueues(blocks: Blocks, free: Queues, b: nat, p: nat, blocks': Blocks, free': Queues)
    requires Queued(blocks, free) && p in free
    requires b in blocks && blocks[b].taken
    requires Free(blocks', b, p) && blocks' == blocks[b := blocks'[b]]
    requires free' == free[p := free[p] + [b]]
    ensures Queued(blocks', free')
  {
    forall r | r in free'
      ensures Queue(blocks', free'[r], r)
    {
      assert Queue(blocks, free[r], r);
      assert forall c :: c in free[r] ==> Free(blocks, c, r) && c != b;
      NoDupAppend(free[r], b);
    }
  }

  // ---- Pools ----

  ghost predicate Among(base: nat, n: nat, b: nat) {
    base <= b < base + BLOCK * n && (b - base) % BLOCK == 0
  }

  ghost predicate InPool(pool: Pool, b: nat) {
    Among(pool.base, pool.count, b)
  }

  ghost predicate PoolOk(pool: Pool) {
    pool.base % BLOCK == 0 && pool.base + BLOCK * pool.count <= ADDRESSES
  }

  ghost predicate PoolsOk(pools: seq<Pool>) {
    forall p :: 0 <= p < |pools| ==> PoolOk(pools[p])
  }

  /** No block belongs to two pools. */
  ghost predicate PoolsDisjoint(pools: seq<Pool>) {
    forall p, q, b: nat :: 0 <= p < q < |pools| && InPool(pools[p], b) ==> !InPool(pools[q], b)
  }

  /** Block `b` is in one of the first `n` pools. */
  ghost predicate InSome(pools: seq<Pool>, n: nat, b: nat)
    requires n <= |pools|
  {
    exists p :: 0 <= p < n && InPool(pools[p], b)
  }

  /** The block was taken in the records `start`. */
  predicate Busy(start: Blocks, b: nat) {
    b in start && start[b].taken
  }

  function TenantOf(start: Blocks, b: nat): string {
    if b in start then start[b].tenantID else ""
  }

  /** The record of `b` once the first `n` pools are split over the records `start`: a block of some
      of them belongs to the last, and keeps its tenant. */
  ghost predicate Shaped(pools: seq<Pool>, n: nat, start: Blocks, blocks: Blocks, b: nat)
    requires n <= |pools|
  {
    if InSome(pools, n, b) then
      && b in blocks && blocks[b].poolIndex < n && InPool(pools[blocks[b].poolIndex], b)
      && (forall p :: blocks[b].poolIndex < p < n ==> !InPool(pools[p], b))
      && blocks[b].taken == Busy(start, b) && blocks[b].tenantID == TenantOf(start, b)
    else if b in start then
      b in blocks && blocks[b] == start[b]
    else
      b !in blocks
  }

  ghost predicate Shape(pools: seq<Pool>, n: nat, start: Blocks, blocks: Blocks)
    requires n <= |pools|
  {
    forall b: nat :: Shaped(pools, n, start, blocks, b)
  }

  /** The first `n` blocks of a pool that are not taken. */
  function FreeBases(start: Blocks, base: nat, n: nat): seq<nat> {
    if n == 0 then []
    else
      var front, last := FreeBases(start, base, n - 1), base + BLOCK * (n - 1);
      if Busy(start, last) then front else front + [last]
  }

  ghost predicate SplitQueues(pools: seq<Pool>, n: nat, start: Blocks, free: Queues)
    requires n <= |pools|
  {
    && (forall p :: p in free <==> 0 <= p < n)
    && (forall p :: 0 <= p < n ==> free[p] == FreeBases(start, pools[p].base, pools[p].count))
  }

  lemma FreeBasesNext(start: Blocks, base: nat, n: nat, b: nat)
    requires b == base + BLOCK * n
    ensures FreeBases(start, base, n + 1) == if Busy(start, b) then FreeBases(start, base, n) else FreeBases(start, base, n) + [b]
  {
  }

  lemma {:induction false} FreeBasesMembers(start: Blocks, base: nat, n: nat)
    ensures NoDup(FreeBases(start, base, n))
    ensures forall b: nat :: b in FreeBases(start, base, n) <==> Among(base, n, b) && !Busy(start, b)
  {
    if n == 0 {
    } else {
      FreeBasesMembers(start, base, n - 1);
      var last := base + BLOCK * (n - 1);
      forall b: nat
        ensures Among(base, n, b) <==> Among(base, n - 1, b) || b == last
      {
        AmongMore(base, n, b);
      }
      NoDupAppend(FreeBases(start, base, n - 1), last);
    }
  }

  lemma AmongMore(base: nat, n: nat, b: nat)
    requires n > 0
    ensures Among(base, n, b) <==> Among(base, n - 1, b) || b == base + BLOCK * (n - 1)
  {
    if Among(base, n, b) && b >= base + BLOCK * (n - 1) {
      var d := b - base;
      assert d == BLOCK * (d / BLOCK);
      assert d / BLOCK == n - 1;
    }
  }

  lemma InPoolAligned(pool: Pool, b: nat)
    requires PoolOk(pool) && InPool(pool, b)
    ensures Aligned(b)
  {
    var d := (b - pool.base) / BLOCK;
    assert b == pool.base + BLOCK * d;
    assert d < pool.count;
    assert b + BLOCK <= pool.base + BLOCK * pool.count;
  }

  /** Every block of the records is in some pool. */
  ghost predicate InPools(pools: seq<Pool>, blocks: Blocks) {
    forall b :: b in blocks ==> InSome(pools, |pools|, b)
  }

  /** No block that was free is in two pools. */
  ghost predicate FreeApart(pools: seq<Pool>, start: Blocks) {
    forall p, q, b: nat :: 0 <= p < q < |pools| && InPool(pools[p], b) && !Busy(start, b) ==> !InPool(pools[q], b)
  }

  lemma NothingBusy(pools: seq<Pool>)
    ensures FreeApart(pools, map[]) <==> PoolsDisjoint(pools)
  {
    var start: Blocks := map[];
    if FreeApart(pools, start) {
      forall p, q, b: nat | 0 <= p < q < |pools| && InPool(pools[p], b)
        ensures !InPool(pools[q], b)
      {
        assert !Busy(start, b);
      }
    }
  }

  /** Whatever the pools, blocks are aligned and free ones name no tenant. */
  lemma SplitAligned(pools: seq<Pool>, start: Blocks, blocks: Blocks)
    requires PoolsOk(pools) && Shape(pools, |pools|, start, blocks) && InPools(pools, start) && Blank(start)
    ensures AllAligned(blocks) && Blank(blocks) && InPools(pools, blocks)
  {
    forall b | b in blocks
      ensures InSome(pools, |pools|, b) && Aligned(b) && (!blocks[b].taken ==> blocks[b].tenantID == "")
    {
      assert Shaped(pools, |pools|, start, blocks, b);
      InPoolAligned(pools[blocks[b].poolIndex], b);
    }
  }

  /** Splitting leaves every free block on exactly one stack exactly when none is in two pools. */
  lemma SplitIsPartition(pools: seq<Pool>, start: Blocks, blocks: Blocks, free: Queues)
    requires Shape(pools, |pools|, start, blocks) && SplitQueues(pools, |pools|, start, free)
    requires InPools(pools, start) && Blank(start)
    ensures Shelved(blocks, free)
    ensures Queued(blocks, free) <==> FreeApart(pools, start)
  {
    SplitShelved(pools, start, blocks, free);
    if FreeApart(pools, start) {
      SplitApart(pools, start, blocks, free);
    } else {
      var p, q, b: nat :| 0 <= p < q < |pools| && InPool(pools[p], b) && InPool(pools[q], b) && !Busy(start, b);
      SplitOverlapping(pools, start, blocks, free, p, q, b);
    }
  }

  lemma SplitShelved(pools: seq<Pool>, start: Blocks, blocks: Blocks, free: Queues)
    requires Shape(pools, |pools|, start, blocks) && SplitQueues(pools, |pools|, start, free) && InPools(pools, start)
    ensures Shelved(blocks, free)
  {
    forall b | b in blocks
      ensures OnShelf(blocks, free, b)
    {
      assert Shaped(pools, |pools|, start, blocks, b);
      FreeBasesMembers(start, pools[blocks[b].poolIndex].base, pools[blocks[b].poolIndex].count);
    }
  }

  /** A free block of two pools sits on the stack of a pool that is not its own. */
  lemma SplitOverlapping(pools: seq<Pool>, start: Blocks, blocks: Blocks, free: Queues, p: nat, q: nat, b: nat)
    requires Shape(pools, |pools|, start, blocks) && SplitQueues(pools, |pools|, start, free)
    requires p < q < |pools| && InPool(pools[p], b) && InPool(pools[q], b) && !Busy(start, b)
    ensures !Queued(blocks, free)
  {
    assert Shaped(pools, |pools|, start, blocks, b);
    assert b in free[p] by { FreeBasesMembers(start, pools[p].base, pools[p].count); }
    assert !Free(blocks, b, p);
    assert !Queue(blocks, free[p], p);
  }

  lemma SplitApart(pools: seq<Pool>, start: Blocks, blocks: Blocks, free: Queues)
    requires Shape(pools, |pools|, start, blocks) && SplitQueues(pools, |pools|, start, free)
    requires FreeApart(pools, start) && Blank(start)
    ensures Queued(blocks, free)
  {
    forall p | p in free
      ensures Queue(blocks, free[p], p)
    {
      FreeBasesMembers(start, pools[p].base, pools[p].count);
      forall b | b in free[p]
        ensures Free(blocks, b, p)
      {
        assert InPool(pools[p], b) && Shaped(pools, |pools|, start, blocks, b);
      }
    }
  }

  // ---- With a database ----

  ghost predicate Twice(q: seq<nat>, b: nat) {
    exists i, j :: 0 <= i < j < |q| && q[i] == b && q[j] == b
  }

  /** Block `b` is on the stack of its pool if it is free or was given out, and twice if it was
      given out and came back. */
  ghost predicate StockedAt(blocks: Blocks, free: Queues, given: set<nat>, b: nat)
    requires b in blocks
  {
    var p := blocks[b].poolIndex;
    && p in free
    && (b in given || !blocks[b].taken ==> b in free[p])
    && (b in given && !blocks[b].taken ==> Twice(free[p], b))
  }

  /** `given` are the blocks that were given out at some time. */
  ghost predicate Stocked(blocks: Blocks, free: Queues, given: set<nat>) {
    given <= blocks.Keys && forall b :: b in blocks ==> StockedAt(blocks, free, given, b)
  }

  /** No block of pool `p` was ever given out. */
  ghost predicate Quiet(blocks: Blocks, given: set<nat>, p: nat) {
    forall b :: b in given && b in blocks ==> blocks[b].poolIndex != p
  }

  /** The stack of a pool no block of which was given out is in order. */
  ghost predicate QuietQueued(blocks: Blocks, free: Queues, given: set<nat>) {
    forall p :: p in free && Quiet(blocks, given, p) ==> Queue(blocks, free[p], p)
  }

  /** Some block is on the stack of another pool. */
  ghost predicate Stray(blocks: Blocks, free: Queues) {
    exists p, b :: p in free && b in free[p] && b in blocks && blocks[b].poolIndex != p
  }

  /** What is kept of the stacks when a database picks the blocks, so that nothing is popped;
      `tidy` says whether they were in order at the start. */
  ghost predicate Drifting(blocks: Blocks, free: Queues, given: set<nat>, tidy: bool) {
    Stocked(blocks, free, given) && if tidy then QuietQueued(blocks, free, given) else Stray(blocks, free)
  }

  /** As they are after splitting. */
  lemma SplitDrifts(pools: seq<Pool>, start: Blocks, blocks: Blocks, free: Queues)
    requires Shape(pools, |pools|, start, blocks) && SplitQueues(pools, |pools|, start, free)
    requires InPools(pools, start) && Blank(start)
    ensures Drifting(blocks, free, {}, FreeApart(pools, start))
  {
    SplitIsPartition(pools, start, blocks, free);
    forall b | b in blocks
      ensures StockedAt(blocks, free, {}, b)
    {
      assert OnShelf(blocks, free, b);
    }
    if !FreeApart(pools, start) {
      var p, q, b: nat :| 0 <= p < q < |pools| && InPool(pools[p], b) && InPool(pools[q], b) && !Busy(start, b);
      assert Shaped(pools, |pools|, start, blocks, b);
      FreeBasesMembers(start, pools[p].base, pools[p].count);
      assert b in free[p] && blocks[b].poolIndex != p;
    }
  }

  lemma DriftMark(blocks: Blocks, free: Queues, given: set<nat>, tidy: bool, b: nat, t: string)
    requires Drifting(blocks, free, given, tidy) && b in blocks && !blocks[b].taken
    ensures Drifting(blocks[b := Block27(blocks[b].poolIndex, t, true)], free, given + {b}, tidy)
  {
    var blocks', given' := blocks[b := Block27(blocks[b].poolIndex, t, true)], given + {b};
    forall c | c in blocks'
      ensures StockedAt(blocks', free, given', c)
    {
      assert StockedAt(blocks, free, given, c);
    }
    if tidy {
      MarkQueued(blocks, free, given, b, blocks');
    } else {
      StillStray(blocks, free, blocks', free);
    }
  }

  lemma StillStray(blocks: Blocks, free: Queues, blocks': Blocks, free': Queues)
    requires Stray(blocks, free) && blocks'.Keys == blocks.Keys && free'.Keys == free.Keys
    requires forall c :: c in blocks ==> blocks'[c].poolIndex == blocks[c].poolIndex
    requires forall p, c :: p in free && c in free[p] && c in blocks && blocks[c].poolIndex != p ==> c in free'[p]
    ensures Stray(blocks', free')
  {
    var p, c :| p in free && c in free[p] && c in blocks && blocks[c].poolIndex != p;
    assert c in free'[p] && blocks'[c].poolIndex != p;
  }

  lemma MarkQueued(blocks: Blocks, free: Queues, given: set<nat>, b: nat, blocks': Blocks)
    requires QuietQueued(blocks, free, given) && b in blocks && b in blocks'
    requires blocks' == blocks[b := blocks'[b]] && blocks'[b].poolIndex == blocks[b].poolIndex
    ensures QuietQueued(blocks', free, given + {b})
  {
    forall p | p in free && Quiet(blocks', given + {b}, p)
      ensures Queue(blocks', free[p], p)
    {
      assert b in given + {b} && blocks[b].poolIndex != p;
      assert forall c :: c in given && c in blocks ==> c in given + {b} && blocks'[c].poolIndex == blocks[c].poolIndex;
      assert Queue(blocks, free[p], p);
      assert forall c :: c in free[p] ==> Free(blocks, c, p) && c != b;
    }
  }

  lemma DriftPush(blocks: Blocks, free: Queues, given: set<nat>, tidy: bool, b: nat)
    requires Drifting(blocks, free, given, tidy) && b in blocks && blocks[b].taken
    ensures var p := blocks[b].poolIndex;
      p in free && Drifting(blocks[b := Block27(p, "", false)], free[p := free[p] + [b]], given, tidy)
  {
    assert StockedAt(blocks, free, given, b);
    var p := blocks[b].poolIndex;
    var blocks', free' := blocks[b := Block27(p, "", false)], free[p := free[p] + [b]];
    PushStocked(blocks, free, given, b, blocks', free');
    if tidy {
      PushQueued(blocks, free, given, b, blocks', free');
    } else {
      StillStray(blocks, free, blocks', free');
    }
  }

  lemma PushStocked(blocks: Blocks, free: Queues, given: set<nat>, b: nat, blocks': Blocks, free': Queues)
    requires Stocked(blocks, free, given) && b in blocks && blocks[b].taken && blocks[b].poolIndex in free
    requires blocks' == blocks[b := Block27(blocks[b].poolIndex, "", false)]
    requires free' == free[blocks[b].poolIndex := free[blocks[b].poolIndex] + [b]]
    ensures Stocked(blocks', free', given)
  {
    forall c | c in blocks'
      ensures StockedAt(blocks', free', given, c)
    {
      assert StockedAt(blocks, free, given, c);
      StockPushed(free[blocks[b].poolIndex], b, c);
    }
  }

  lemma PushQueued(blocks: Blocks, free: Queues, given: set<nat>, b: nat, blocks': Blocks, free': Queues)
    requires QuietQueued(blocks, free, given) && b in blocks && blocks[b].taken && blocks[b].poolIndex in free
    requires blocks' == blocks[b := Block27(blocks[b].poolIndex, "", false)]
    requires free' == free[blocks[b].poolIndex := free[blocks[b].poolIndex] + [b]]
    ensures QuietQueued(blocks', free', given)
  {
    forall p | p in free' && Quiet(blocks', given, p)
      ensures Queue(blocks', free'[p], p)
    {
      assert forall c :: c in given && c in blocks ==> blocks'[c].poolIndex == blocks[c].poolIndex;
      assert Queue(blocks, free[p], p);
      assert forall c :: c in free[p] ==> Free(blocks, c, p) && c != b;
      NoDupAppend(free[p], b);
    }
  }

  lemma StockPushed(q: seq<nat>, b: nat, c: nat)
    ensures c in q ==> c in q + [b]
    ensures b in q + [b]
    ensures Twice(q, c) ==> Twice(q + [b], c)
    ensures b in q ==> Twice(q + [b], b)
  {
    var r := q + [b];
    if Twice(q, c) {
      var i, j :| 0 <= i < j < |q| && q[i] == c && q[j] == c;
      assert r[i] == c && r[j] == c;
    }
    if b in q {
      var i :| 0 <= i < |q| && q[i] == b;
      assert r[i] == b && r[|q|] == b;
    }
    assert r[|q|] == b;
  }

  /** With a database the stacks hold exactly the free blocks if and only if they did at the start
      and no block was given out since. */
  lemma DriftExactly(blocks: Blocks, free: Queues, given: set<nat>, tidy: bool)
    requires Drifting(blocks, free, given, tidy)
    ensures Stacks(blocks, free) <==> given == {} && tidy
  {
    forall b | b in blocks
      ensures StockedAt(blocks, free, given, b)
    {
    }
    if given != {} {
      var b :| b in given;
      StockedIsNotQueued(blocks, free, given, b);
    } else if tidy {
      assert forall p :: p in free ==> Quiet(blocks, given, p);
      forall b | b in blocks
        ensures OnShelf(blocks, free, b)
      {
        assert StockedAt(blocks, free, given, b);
      }
    } else {
      var p, b :| p in free && b in free[p] && b in blocks && blocks[b].poolIndex != p;
      assert !Free(blocks, b, p);
      assert !Queue(blocks, free[p], p);
    }
  }

  /** A block that was given out is on a stack while it is held, or twice afterwards. */
  lemma StockedIsNotQueued(blocks: Blocks, free: Queues, given: set<nat>, b: nat)
    requires b in given && b in blocks && StockedAt(blocks, free, given, b)
    ensures !Queue(blocks, free[blocks[b].poolIndex], blocks[b].poolIndex)
  {
    var p := blocks[b].poolIndex;
    if blocks[b].taken {
      assert b in free[p] && !Free(blocks, b, p);
    } else {
      var i, j :| 0 <= i < j < |free[p]| && free[p][i] == b && free[p][j] == b;
      assert !NoDup(free[p]);
    }
  }

  // ---- Taking a block by name ----

  /** The list without the first occurrence of `b`. */
  function Without(q: seq<nat>, b: nat): seq<nat> {
    if q == [] then [] else if q[0] == b then q[1..] else [q[0]] + Without(q[1..], b)
  }

  lemma {:induction false} WithoutMembers(q: seq<nat>, b: nat)
    ensures forall c :: c != b ==> (c in Without(q, b) <==> c in q)
    ensures NoDup(q) ==> NoDup(Without(q, b)) && b !in Without(q, b)
  {
    if q == [] {
    } else {
      assert q == [q[0]] + q[1..];
      WithoutMembers(q[1..], b);
      if q[0] != b && NoDup(q) {
        WithoutNoDup(q, b);
      }
    }
  }

  lemma {:induction false} WithoutNoDup(q: seq<nat>, b: nat)
    requires q != [] && q[0] != b && NoDup(q) && NoDup(Without(q[1..], b))
    requires forall c :: c != b ==> (c in Without(q[1..], b) <==> c in q[1..])
    ensures NoDup([q[0]] + Without(q[1..], b))
  {
    assert q[0] !in q[1..];
    assert q[0] !in Without(q[1..], b);
  }

  /** A block is marked for `t` and taken off the stack of its pool, before any query. */
  lemma {:induction false} DriftTake(blocks: Blocks, free: Queues, tidy: bool, b: nat, t: string)
    requires Drifting(blocks, free, {}, tidy) && b in blocks
    ensures var p := blocks[b].poolIndex;
      p in free && Drifting(blocks[b := Block27(p, t, true)], free[p := Without(free[p], b)], {}, tidy)
  {
    assert StockedAt(blocks, free, {}, b);
    var p := blocks[b].poolIndex;
    var blocks', free' := blocks[b := Block27(p, t, true)], free[p := Without(free[p], b)];
    WithoutMembers(free[p], b);
    forall c | c in blocks'
      ensures StockedAt(blocks', free', {}, c)
    {
      assert StockedAt(blocks, free, {}, c);
    }
    if tidy {
      forall r | r in free' && Quiet(blocks', {}, r)
        ensures Queue(blocks', free'[r], r)
      {
        assert Quiet(blocks, {}, r) && Queue(blocks, free[r], r);
        TakeQueue(blocks, free[r], r, b, t);
      }
    } else {
      StillStray(blocks, free, blocks', free');
    }
  }

  lemma {:induction false} TakeQueue(blocks: Blocks, q: seq<nat>, r: nat, b: nat, t: string)
    requires Queue(blocks, q, r) && b in blocks
    ensures Queue(blocks[b := Block27(blocks[b].poolIndex, t, true)], if r == blocks[b].poolIndex then Without(q, b) else q, r)
  {
    WithoutMembers(q, b);
    forall c | c in q && c != b
      ensures Free(blocks[b := Block27(blocks[b].poolIndex, t, true)], c, r)
    {
      assert Free(blocks, c, r);
    }
    if r != blocks[b].poolIndex {
      assert b in q ==> Free(blocks, b, r);
    } else {
      assert forall c :: c in Without(q, b) ==> c != b && c in q;
    }
  }

  /** The same without a database. */
  lemma {:induction false} TakeStacks(blocks: Blocks, free: Queues, b: nat, t: string)
    requires Stacks(blocks, free) && b in blocks
    ensures var p := blocks[b].poolIndex;
      p in free && Stacks(blocks[b := Block27(p, t, true)], free[p := Without(free[p], b)])
  {
    assert OnShelf(blocks, free, b);
    var p := blocks[b].poolIndex;
    var blocks', free' := blocks[b := Block27(p, t, true)], free[p := Without(free[p], b)];
    WithoutMembers(free[p], b);
    forall c | c in blocks'
      ensures OnShelf(blocks', free', c)
    {
      assert OnShelf(blocks, free, c);
    }
    forall r | r in free'
      ensures Queue(blocks', free'[r], r)
    {
      assert Queue(blocks, free[r], r);
      TakeQueue(blocks, free[r], r, b, t);
    }
  }

  // ---- What the statistics count ----

  /** The free blocks of pool `p`. */
  ghost function VacantIn(blocks: Blocks, p: nat): set<nat> {
    set b | b in blocks && !blocks[b].taken && blocks[b].poolIndex == p
  }

  lemma {:induction false} NoDupSize(q: seq<nat>, s: set<nat>)
    requires NoDup(q) && forall b :: b in q <==> b in s
    ensures |q| == |s|
  {
    if q == [] {
      assert s == {};
    } else {
      NoDupFront(q);
      NoDupSize(q[..|q| - 1], s - {q[|q| - 1]});
    }
  }

  lemma {:induction false} Covers(q: seq<nat>, s: set<nat>)
    requires forall b :: b in s ==> b in q
    ensures |s| <= |q|
  {
    if q == [] {
      assert s == {};
    } else {
      var front, last := q[..|q| - 1], q[|q| - 1];
      assert q == front + [last];
      Covers(front, s - {last});
      assert |s| <= |s - {last}| + 1;
    }
  }

  lemma CoversTwice(q: seq<nat>, s: set<nat>, b: nat)
    requires (forall c :: c in s ==> c in q) && Twice(q, b)
    ensures |s| < |q|
  {
    var i, j :| 0 <= i < j < |q| && q[i] == b && q[j] == b;
    var shorter := q[..j] + q[j + 1..];
    assert q == q[..j] + [b] + q[j + 1..];
    assert shorter[i] == b;
    Covers(shorter, s);
  }

  /** Without a database each stack is as long as its pool has free blocks. */
  lemma StackCounts(blocks: Blocks, free: Queues, p: nat)
    requires Stacks(blocks, free) && p in free
    ensures |free[p]| == |VacantIn(blocks, p)|
  {
    assert Queue(blocks, free[p], p);
    forall b | b in VacantIn(blocks, p)
      ensures b in free[p]
    {
      assert OnShelf(blocks, free, b);
    }
    NoDupSize(free[p], VacantIn(blocks, p));
  }

  /** With one, for stacks that were in order at the start, if and only if no block of the pool was
      given out since. */
  lemma DriftCounts(blocks: Blocks, free: Queues, given: set<nat>, p: nat)
    requires Drifting(blocks, free, given, true) && p in free
    ensures |free[p]| == |VacantIn(blocks, p)| <==> Quiet(blocks, given, p)
  {
    forall b | b in blocks
      ensures StockedAt(blocks, free, given, b)
    {
    }
    if Quiet(blocks, given, p) {
      assert Queue(blocks, free[p], p);
      forall b | b in VacantIn(blocks, p)
        ensures b in free[p]
      {
        assert StockedAt(blocks, free, given, b);
      }
      NoDupSize(free[p], VacantIn(blocks, p));
    } else {
      var b :| b in given && b in blocks && blocks[b].poolIndex == p;
      assert StockedAt(blocks, free, given, b);
      if blocks[b].taken {
        assert b !in VacantIn(blocks, p);
        Covers(free[p], VacantIn(blocks, p) + {b});
      } else {
        CoversTwice(free[p], VacantIn(blocks, p), b);
      }
    }
  }

  // ---- Splitting ----

  /** `blocks` is `first` with the first `n` blocks from `base` recorded for pool `p`. */
  ghost predicate Overlaid(first: Blocks, blocks: Blocks, base: nat, n: nat, p: nat) {
    && (forall b: nat :: Among(base, n, b) ==> b in blocks && blocks[b] == Block27(p, TenantOf(first, b), Busy(first, b)))
    && (forall b: nat :: !Among(base, n, b) ==> (b in blocks <==> b in first))
    && (forall b: nat :: !Among(base, n, b) && b in blocks ==> blocks[b] == first[b])
  }

  /** The record of `b` once it belongs to pool `p`. */
  function Rehomed(blocks: Blocks, b: nat, p: nat): Block27 {
    if b in blocks then blocks[b].(poolIndex := p) else Block27(p, "", false)
  }

  lemma AmongAt(base: nat, n: nat, i: nat, b: nat)
    requires i < n && b == base + BLOCK * i
    ensures Among(base, n, b)
  {
  }

  lemma OverlaidNext(first: Blocks, blocks: Blocks, base: nat, n: nat, p: nat, next: nat)
    requires Overlaid(first, blocks, base, n, p) && next == base + BLOCK * n
    ensures Overlaid(first, blocks[next := Rehomed(blocks, next, p)], base, n + 1, p)
    ensures Rehomed(blocks, next, p).taken == Busy(first, next)
  {
    var m := n + 1;
    forall b: nat
      ensures Among(base, m, b) <==> Among(base, n, b) || b == base + BLOCK * n
    {
      AmongMore(base, m, b);
    }
  }

  lemma OverlaidAll(pools: seq<Pool>, p: nat, start: Blocks, first: Blocks, blocks: Blocks)
    requires p < |pools| && Shape(pools, p, start, first)
    requires Overlaid(first, blocks, pools[p].base, pools[p].count, p)
    ensures Shape(pools, p + 1, start, blocks)
  {
    var n := p + 1;
    forall b: nat
      ensures Shaped(pools, n, start, blocks, b)
    {
      OverlaidOne(pools, p, start, first, blocks, b);
    }
  }

  lemma OverlaidOne(pools: seq<Pool>, p: nat, start: Blocks, first: Blocks, blocks: Blocks, b: nat)
    requires p < |pools| && Shaped(pools, p, start, first, b)
    requires Overlaid(first, blocks, pools[p].base, pools[p].count, p)
    ensures Shaped(pools, p + 1, start, blocks, b)
  {
    assert InPool(pools[p], b) <==> Among(pools[p].base, pools[p].count, b);
    assert InSome(pools, p + 1, b) <==> InSome(pools, p, b) || InPool(pools[p], b);
    assert TenantOf(first, b) == TenantOf(start, b) && Busy(first, b) == Busy(start, b);
  }

  /** What is queued depends on what was taken, which splitting does not change. */
  lemma {:induction false} SameFreeBases(start: Blocks, first: Blocks, base: nat, n: nat)
    requires forall b: nat :: Busy(first, b) == Busy(start, b)
    ensures FreeBases(first, base, n) == FreeBases(start, base, n)
  {
    if n == 0 {
    } else {
      SameFreeBases(start, first, base, n - 1);
    }
  }

  lemma ShapeBusy(pools: seq<Pool>, n: nat, start: Blocks, blocks: Blocks)
    requires n <= |pools| && Shape(pools, n, start, blocks)
    ensures forall b: nat :: Busy(blocks, b) == Busy(start, b)
  {
    forall b: nat
      ensures Busy(blocks, b) == Busy(start, b)
    {
      assert Shaped(pools, n, start, blocks, b);
    }
  }
}
