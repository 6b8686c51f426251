/** The pools take turns (internal/state/ipam.go): who gives which block while no pool runs out. */
module IpamTurns {
  import opened IpamRecords
  import opened IpamStacks

  /** How many of the first `n` turns fall to place `j` of `pools`. */
  function Share(n: nat, pools: nat, j: nat): nat
    requires pools > 0
  {
    n / pools + (if j < n % pools then 1 else 0)
  }

  lemma {:induction false} OneMoreTime(a: nat, b: nat, d: nat)
    requires a < b
    ensures a * d + d <= b * d
  {
    if a + 1 < b {
      OneMoreTime(a, b - 1, d);
    }
  }

  lemma Quotient(n: nat, pools: nat, q: nat, r: nat)
    requires pools > 0 && n == q * pools + r && r < pools
    ensures n / pools == q && n % pools == r
  {
    var x := n / pools;
    assert x * pools + n % pools == n;
    if x < q {
      OneMoreTime(x, q, pools);
    } else if q < x {
      OneMoreTime(q, x, pools);
    }
  }

  lemma ShareOf(n: nat, pools: nat, q: nat, r: nat, j: nat)
    requires pools > 0 && n == q * pools + r && r < pools
    ensures Share(n, pools, j) == q + if j < r then 1 else 0
  {
    Quotient(n, pools, q, r);
  }

  lemma ShareNext(n: nat, pools: nat, j: nat)
    requires pools > 0 && j < pools
    ensures Share(n + 1, pools, j) == Share(n, pools, j) + (if j == n % pools then 1 else 0)
  {
    var q, r := n / pools, n % pools;
    ShareSplit(n, pools, q, r, j);
  }

  lemma ShareSplit(n: nat, pools: nat, q: nat, r: nat, j: nat)
    requires pools > 0 && j < pools && n == q * pools + r && r < pools
    ensures Share(n + 1, pools, j) == Share(n, pools, j) + (if j == r then 1 else 0)
  {
    ShareOf(n, pools, q, r, j);
    if r + 1 == pools {
      ShareOf(n + 1, pools, q + 1, 0, j);
    } else {
      ShareOf(n + 1, pools, q, r + 1, j);
    }
  }

  /** Every pool can give its share of `count` blocks. */
  ghost predicate Plenty(free: Queues, count: int) {
    forall p :: p in free ==> |free[p]| * |free| >= count
  }

  /** Block `i` came from the pool whose turn it was, and each pool has given its share. */
  ghost predicate Fair(order: seq<nat>, before: Queues, free: Queues, first: Blocks, networks: seq<nat>)
    requires |order| > 0
  {
    && (forall i :: 0 <= i < |order| ==> Given(order, before, free, |networks|, i))
    && InTurn(order, first, networks)
  }

  ghost predicate InTurn(order: seq<nat>, first: Blocks, networks: seq<nat>)
    requires |order| > 0
  {
    forall i :: 0 <= i < |networks| ==> networks[i] in first && first[networks[i]].poolIndex == order[i % |order|]
  }

  ghost predicate Given(order: seq<nat>, before: Queues, free: Queues, n: nat, i: nat)
    requires i < |order|
  {
    order[i] in before && order[i] in free && |free[order[i]]| == |before[order[i]]| - Share(n, |order|, i)
  }

  lemma FairStart(order: seq<nat>, free: Queues, first: Blocks)
    requires |order| > 0 && forall p :: p in order ==> p in free
    ensures Fair(order, free, free, first, [])
  {
  }

  /** While the pools are rich enough, the one whose turn it is has a block. */
  lemma TurnHasBlock(order: seq<nat>, before: Queues, free: Queues, first: Blocks, networks: seq<nat>, count: int)
    requires |order| > 0 && |order| == |before| && Fair(order, before, free, first, networks)
    requires Plenty(before, count) && |networks| < count
    ensures var p := order[|networks| % |order|]; p in free && free[p] != []
  {
    var n, k := |networks|, |networks| % |order|;
    assert Given(order, before, free, n, k);
    var size := |before[order[k]]|;
    assert size * |order| >= count;
  }

  lemma FairNext(order: seq<nat>, before: Queues, free: Queues, free': Queues, first: Blocks, networks: seq<nat>, b: nat)
    requires |order| > 0 && NoDup(order) && Fair(order, before, free, first, networks)
    requires var p := order[|networks| % |order|];
      && p in free && free[p] != [] && b in first && first[b].poolIndex == p
      && p in free' && free' == free[p := free'[p]] && |free'[p]| == |free[p]| - 1
    ensures Fair(order, before, free', first, networks + [b])
  {
    var n, more := |networks|, networks + [b];
    forall i | 0 <= i < |order|
      ensures Given(order, before, free', |more|, i)
    {
      assert Given(order, before, free, n, i);
      ShareNext(n, |order|, i);
    }
  }
}
